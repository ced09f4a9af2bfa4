/** The string-to-byte dictionaries of control_node_serial/src/utils.c. */
module Dict {
  import opened Bytes

  datatype Option<+T> = None | Some(value: T)

  datatype Entry = Entry(str: string, val: byte)

  /** Keys and values of a dictionary must be unique (utils.h). */
  predicate Unique(d: seq<Entry>)
  {
    forall i, j :: 0 <= i < j < |d| ==> d[i].str != d[j].str && d[i].val != d[j].val
  }

  function ValOf(d: seq<Entry>, key: string): (r: Option<byte>)
    ensures r.Some? ==> Entry(key, r.value) in d
    ensures r.None? ==> forall e :: e in d ==> e.str != key
  {
    if d == [] then None
    else if d[0].str == key then Some(d[0].val)
    else ValOf(d[1..], key)
  }

  function KeyOf(d: seq<Entry>, val: byte): (r: Option<string>)
    ensures r.Some? ==> Entry(r.value, val) in d
    ensures r.None? ==> forall e :: e in d ==> e.val != val
  {
    if d == [] then None
    else if d[0].val == val then Some(d[0].str)
    else KeyOf(d[1..], val)
  }

  /** On a table with unique keys and values the two searches are inverse of each other. */
  lemma Inverse(d: seq<Entry>, key: string, val: byte)
    requires Unique(d)
    ensures ValOf(d, key) == Some(val) <==> Entry(key, val) in d
    ensures KeyOf(d, val) == Some(key) <==> Entry(key, val) in d
    ensures ValOf(d, key) == Some(val) <==> KeyOf(d, val) == Some(key)
  {
  }

  /** `get_val`: a missing key is an error; an unknown key is an error that also yields 0xFF. */
  method GetVal(key: Option<string>, d: seq<Entry>, before: byte) returns (ret: int, val: byte)
    ensures ret == 0 || ret == -1
    ensures key.None? ==> ret == -1 && val == before
    ensures key.Some? ==> (ret == 0 <==> ValOf(d, key.value).Some?)
    ensures key.Some? ==> val == (if ret == 0 then ValOf(d, key.value).value else 0xFF)
  {
    if key.None? {
      return -1, before;
    }
    var i := 0;
    while i < |d|
      invariant 0 <= i <= |d|
      invariant ValOf(d, key.value) == ValOf(d[i..], key.value)
    {
      if d[i].str == key.value {
        return 0, d[i].val;
      }
      assert d[i..][1..] == d[i + 1..];
      i := i + 1;
    }
    return -1, 0xFF;
  }

  method GetKey(val: byte, d: seq<Entry>) returns (ret: int, key: Option<string>)
    ensures ret == (if KeyOf(d, val).Some? then 0 else -1)
    ensures key == KeyOf(d, val)
  {
    var i := 0;
    while i < |d|
      invariant 0 <= i <= |d|
      invariant KeyOf(d, val) == KeyOf(d[i..], val)
    {
      if d[i].val == val {
        return 0, Some(d[i].str);
      }
      assert d[i..][1..] == d[i + 1..];
      i := i + 1;
    }
    return -1, None;
  }
}
