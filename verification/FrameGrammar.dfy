/** What a byte stream means, independently of any parser: a stream is a list of noise bytes and frames
    followed by an unfinished frame, in exactly one way; the parser delivers exactly those frames. */
module FrameGrammar {
  import opened Bytes
  import opened Framing

  datatype Item = Noise(b: byte) | Frame(payload: seq<byte>)

  predicate WellFormed(i: Item)
  {
    match i
    case Noise(b) => b != SYNC_BYTE
    case Frame(p) => |p| <= 255
  }

  predicate AllWellFormed(items: seq<Item>)
  {
    forall i :: 0 <= i < |items| ==> WellFormed(items[i])
  }

  /** The bytes of one frame: SYNC, length, payload; any byte value may occur inside the payload. */
  function FrameBytes(payload: seq<byte>): (r: seq<byte>)
    requires |payload| <= 255
  {
    [SYNC_BYTE, |payload|] + payload
  }

  function ItemBytes(i: Item): (r: seq<byte>)
    requires WellFormed(i)
    ensures |r| > 0
  {
    match i
    case Noise(b) => [b]
    case Frame(p) => FrameBytes(p)
  }

  function Wire(items: seq<Item>): (r: seq<byte>)
    requires AllWellFormed(items)
  {
    if items == [] then [] else ItemBytes(items[0]) + Wire(items[1..])
  }

  function Frames(items: seq<Item>): (r: seq<seq<byte>>)
  {
    if items == [] then []
    else (if items[0].Frame? then [items[0].payload] else []) + Frames(items[1..])
  }

  /** A proper prefix of a frame. */
  predicate Unfinished(tail: seq<byte>)
  {
    || tail == []
    || (tail[0] == SYNC_BYTE && (|tail| == 1 || |tail| - 2 < tail[1]))
  }

  // ----- The grammar is unambiguous and covers every stream -----------------------------------

  function Parse(s: seq<byte>): (r: (seq<Item>, seq<byte>))
    decreases |s|
  {
    if Unfinished(s) then ([], s)
    else
      var rest := Parse(s[FirstLength(s)..]);
      ([FirstItem(s)] + rest.0, rest.1)
  }

  function FirstLength(s: seq<byte>): (n: nat)
    requires !Unfinished(s)
    ensures 0 < n <= |s|
  {
    if s[0] != SYNC_BYTE then 1 else 2 + s[1] as int
  }

  function FirstItem(s: seq<byte>): (i: Item)
    requires !Unfinished(s)
    ensures WellFormed(i) && ItemBytes(i) == s[..FirstLength(s)]
  {
    if s[0] != SYNC_BYTE then Noise(s[0]) else Frame(s[2..FirstLength(s)])
  }

  /** Every stream is a list of items and an unfinished frame. */
  lemma {:induction false} ParseCovers(s: seq<byte>)
    ensures AllWellFormed(Parse(s).0)
    ensures Wire(Parse(s).0) + Parse(s).1 == s
    ensures Unfinished(Parse(s).1)
    decreases |s|
  {
    if !Unfinished(s) {
      var n := FirstLength(s);
      var rest := s[n..];
      ParseCovers(rest);
      CoverStep(s, Parse(rest).0, Parse(rest).1);
    }
  }

  lemma CoverStep(s: seq<byte>, items: seq<Item>, tail: seq<byte>)
    requires !Unfinished(s) && AllWellFormed(items) && Wire(items) + tail == s[FirstLength(s)..]
    ensures AllWellFormed([FirstItem(s)] + items) && Wire([FirstItem(s)] + items) + tail == s
  {
    WireCons(FirstItem(s), items, tail);
    assert s == s[..FirstLength(s)] + s[FirstLength(s)..];
  }

  lemma WireCons(i: Item, items: seq<Item>, tail: seq<byte>)
    requires WellFormed(i) && AllWellFormed(items)
    ensures AllWellFormed([i] + items)
    ensures Wire([i] + items) + tail == ItemBytes(i) + (Wire(items) + tail)
  {
    assert ([i] + items)[1..] == items;
  }

  /** No stream reads in two ways. */
  lemma {:induction false} ParseUnique(items: seq<Item>, tail: seq<byte>)
    requires AllWellFormed(items) && Unfinished(tail)
    ensures Parse(Wire(items) + tail) == (items, tail)
  {
    if items == [] {
      assert Wire(items) + tail == tail;
    } else {
      var rest := Wire(items[1..]) + tail;
      assert items == [items[0]] + items[1..];
      WireCons(items[0], items[1..], tail);
      ParseUnique(items[1..], tail);
      FirstIsUnique(items[0], rest);
    }
  }

  lemma FirstIsUnique(i: Item, rest: seq<byte>)
    requires WellFormed(i)
    ensures var s := ItemBytes(i) + rest;
            !Unfinished(s) && FirstItem(s) == i && s[FirstLength(s)..] == rest
  {
    var s := ItemBytes(i) + rest;
    if i.Frame? {
      assert s[1] == |i.payload|;
      assert s[2..2 + |i.payload|] == i.payload;
    }
  }

  // ----- The parser implements the grammar ----------------------------------------------------

  lemma RunFrame(s: Rx, payload: seq<byte>)
    requires s.Valid() && s.phase == Idle && |payload| <= 255
    ensures var t := Run(s, FrameBytes(payload));
            var u := Settle(t);
            && (payload != [] ==> t == u)
            && u.Valid() && u.phase == Idle
            && |u.out| == |s.out| + 1 && s.out <= u.out
            && u.out[|s.out|].len == |payload|
            && Payload(u.out[|s.out|]) == payload
  {
    var h := s.(phase := GetPayload, len := |payload|, idx := 0);
    var bytes := FrameBytes(payload);
    assert bytes[1..][1..] == payload;
    assert Run(s, bytes) == Run(h, payload) by {
      assert Step(s, bytes[0]) == s.(phase := WaitLen);
      assert Step(s.(phase := WaitLen), bytes[1..][0]) == h;
    }
    if payload != [] {
      RunPayload(h, payload);
    }
  }

  /** A pending empty packet does not change how the following bytes are read. */
  lemma RunSettled(s: Rx, bytes: seq<byte>)
    requires s.Valid() && bytes != []
    ensures Settle(s).Valid() && Run(s, bytes) == Run(Settle(s), bytes)
  {
  }

  /** Reading `bytes` from the idle phase delivers these frames and ends idle, up to the deferred delivery of
      an empty packet that ends the stream. */
  predicate Delivers(s: Rx, bytes: seq<byte>, frames: seq<seq<byte>>)
    requires s.Valid()
  {
    var u := Settle(Run(s, bytes));
    u.Valid() && u.phase == Idle && s.out <= u.out && Payloads(u.out[|s.out|..]) == frames
  }

  lemma DeliversNoise(s: Rx, b: byte, rest: seq<byte>, frames: seq<seq<byte>>)
    requires s.Valid() && s.phase == Idle && b != SYNC_BYTE && Delivers(s, rest, frames)
    ensures Delivers(s, [b] + rest, frames)
  {
    RunConcat(s, [b], rest);
    RunNoise(s, [b]);
  }

  lemma DeliversFrame(s: Rx, p: seq<byte>, v: Rx, rest: seq<byte>, frames: seq<seq<byte>>)
    requires s.Valid() && s.phase == Idle && |p| <= 255 && v == Settle(Run(s, FrameBytes(p)))
    requires v.Valid() && Delivers(v, rest, frames)
    ensures Delivers(s, FrameBytes(p) + rest, [p] + frames)
  {
    var t := Run(s, FrameBytes(p));
    RunFrame(s, p);
    RunConcat(s, FrameBytes(p), rest);
    if rest != [] {
      RunSettled(t, rest);
    }
    var u := Settle(Run(v, rest));
    assert u == Settle(Run(t, rest));
    assert u.out[|s.out|..] == [v.out[|s.out|]] + u.out[|v.out|..];
  }

  /** Reading any items from the idle phase delivers exactly their frames, in order. */
  lemma {:induction false} RunItems(s: Rx, items: seq<Item>)
    requires s.Valid() && s.phase == Idle && AllWellFormed(items)
    ensures Delivers(s, Wire(items), Frames(items))
    decreases |items|
  {
    if items == [] {
      assert s.out[|s.out|..] == [];
    } else {
      var rest := Wire(items[1..]);
      match items[0] {
        case Noise(b) =>
          RunItems(s, items[1..]);
          DeliversNoise(s, b, rest, Frames(items[1..]));
        case Frame(p) =>
          RunFrame(s, p);
          var v := Settle(Run(s, FrameBytes(p)));
          RunItems(v, items[1..]);
          DeliversFrame(s, p, v, rest, Frames(items[1..]));
      }
    }
  }

  /** A frame that has not ended delivers nothing more. */
  lemma RunUnfinished(s: Rx, tail: seq<byte>)
    requires s.Valid() && s.phase == Idle && Unfinished(tail)
    ensures Run(s, tail).out == s.out
    ensures Settle(Run(s, tail)) == Run(s, tail)
    ensures Run(s, tail).phase == Idle <==> tail == []
  {
    if |tail| >= 2 {
      var h := s.(phase := GetPayload, len := tail[1], idx := 0);
      assert tail[1..][1..] == tail[2..];
      assert Run(s, tail) == Run(h, tail[2..]);
      if |tail| > 2 {
        RunPayload(h, tail[2..]);
      }
    }
  }

  /** For every byte stream the parser delivers exactly the frames of the stream's only reading. */
  lemma DeliversExactlyTheFrames(s: Rx, stream: seq<byte>)
    requires s.Valid() && s.phase == Idle
    ensures var u := Settle(Run(s, stream));
            && s.out <= u.out
            && Payloads(u.out[|s.out|..]) == Frames(Parse(stream).0)
            && (u.phase == Idle <==> Parse(stream).1 == [])
  {
    ParseCovers(stream);
    var (items, tail) := Parse(stream);
    RunConcat(s, Wire(items), tail);
    RunItems(s, items);
    var t := Run(s, Wire(items));
    if tail != [] {
      RunSettled(t, tail);
      RunUnfinished(Settle(t), tail);
    }
  }

  /** Noise and non-empty frames, read from the idle phase in any chunks: exactly those payloads, in
      order, and the parser is idle again. */
  lemma FramingRoundTrip(s: Rx, items: seq<Item>, chunks: seq<seq<byte>>)
    requires s.Valid() && s.phase == Idle && AllWellFormed(items)
    requires forall i :: 0 <= i < |items| && items[i].Frame? ==> items[i].payload != []
    requires Flatten(chunks) == Wire(items)
    ensures var t := RunChunks(s, chunks);
            && t.phase == Idle && s.out <= t.out
            && Payloads(t.out[|s.out|..]) == Frames(items)
  {
    ChunkIndependence(s, chunks);
    RunItems(s, items);
    NothingDeferred(s, items);
  }

  lemma {:induction false} NothingDeferred(s: Rx, items: seq<Item>)
    requires s.Valid() && s.phase == Idle && AllWellFormed(items)
    requires forall i :: 0 <= i < |items| && items[i].Frame? ==> items[i].payload != []
    ensures Run(s, Wire(items)).phase == Idle
    decreases |items|
  {
    if items != [] {
      var first, rest := ItemBytes(items[0]), Wire(items[1..]);
      RunConcat(s, first, rest);
      if items[0].Frame? {
        RunFrame(s, items[0].payload);
      } else {
        assert SYNC_BYTE !in first;
        RunNoise(s, first);
      }
      NothingDeferred(Run(s, first), items[1..]);
    }
  }
}
