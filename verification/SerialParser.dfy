/** `parse_rx_data` itself: static variables, a receive buffer and a loop that moves as many bytes as it
    can at each turn. */
module SerialParser {
  import opened Bytes
  import opened Framing

  /** memchr over buf[lo..hi]: the first occurrence of `b`, or `hi`. */
  method Memchr(buf: array<byte>, lo: nat, hi: nat, b: byte) returns (i: nat)
    requires lo <= hi <= buf.Length
    ensures lo <= i <= hi
    ensures b !in buf[lo..i]
    ensures i < hi ==> buf[i] == b
  {
    i := lo;
    while i < hi && buf[i] != b
      invariant lo <= i <= hi
      invariant b !in buf[lo..i]
    {
      i := i + 1;
    }
  }

  method Memcpy(dst: array<byte>, at: nat, src: array<byte>, from: nat, k: nat)
    requires at + k <= dst.Length && from + k <= src.Length && src != dst
    modifies dst
    ensures dst[..] == old(dst[..])[..at] + src[from..from + k] + old(dst[..])[at + k..]
  {
    forall i | 0 <= i < k {
      dst[at + i] := src[from + i];
    }
  }

  class Parser {
    var phase: Phase
    var len: nat
    var idx: nat
    const data: array<byte>
    var out: seq<Packet>

    ghost function State(): (s: Rx)
      reads this, data
    {
      Rx(phase, len, idx, data[..], out)
    }

    ghost predicate Valid()
      reads this, data
    {
      data.Length == PKT_CAPACITY && State().Valid()
    }

    constructor ()
      ensures Valid() && fresh(data)
      ensures phase == Idle && out == []
    {
      phase, len, idx, out := Idle, 0, 0, [];
      data := new byte[PKT_CAPACITY](_ => 0);
    }

    /** The idle phase: skip to the byte after the next sync byte, or to the end. */
    method IdleTurn(rxBuff: array<byte>, cur: nat, n: nat, ghost rx: seq<byte>) returns (next: nat)
      requires Valid() && phase == Idle && cur < n <= rxBuff.Length && rx == rxBuff[..n]
      modifies this`phase
      ensures Valid() && cur < next <= n
      ensures Run(State(), rx[next..]) == Run(old(State()), rx[cur..])
    {
      var sync := Memchr(rxBuff, cur, n, SYNC_BYTE);
      assert rxBuff[cur..sync] == rx[cur..sync];
      SkipNoise(State(), rx, cur, sync);
      if sync == n {
        return n;
      }
      next := sync + 1;
      phase := WaitLen;
    }

    method LengthTurn(rxBuff: array<byte>, cur: nat, n: nat, ghost rx: seq<byte>) returns (next: nat)
      requires Valid() && phase == WaitLen && cur < n <= rxBuff.Length && rx == rxBuff[..n]
      modifies this`phase, this`len, this`idx
      ensures Valid() && next == cur + 1
      ensures Run(State(), rx[next..]) == Run(old(State()), rx[cur..])
    {
      assert rx[cur..][1..] == rx[cur + 1..];
      len := rxBuff[cur];
      idx := 0;
      phase := GetPayload;
      next := cur + 1;
    }

    method PayloadTurn(rxBuff: array<byte>, cur: nat, n: nat, ghost rx: seq<byte>) returns (next: nat)
      requires Valid() && phase == GetPayload && cur < n <= rxBuff.Length && rx == rxBuff[..n] && rxBuff != data
      modifies this, data
      ensures Valid() && cur <= next <= n && (next == cur ==> phase == Idle)
      ensures Run(State(), rx[next..]) == Run(old(State()), rx[cur..])
    {
      ghost var before := State();
      next := CopyPayload(rxBuff, cur, n);
      assert rxBuff[..n] == rx;
      SubSlice(rxBuff, n, cur, next);
      TakePayload(before, rx, cur, next);
    }

    /** The loop consumes nothing when it finds a packet of length zero, hence the second component of
        its measure. The invariant says that what remains to be read still leads to the right state. */
    method ParseRxData(rxBuff: array<byte>, n: nat)
      requires Valid() && n <= rxBuff.Length && rxBuff != data
      modifies this, data
      ensures Valid()
      ensures State() == Run(old(State()), rxBuff[..n])
    {
      ghost var start, rx := State(), rxBuff[..n];
      var cur := 0;
      while n > cur
        invariant 0 <= cur <= n && rxBuff[..n] == rx
        invariant Valid()
        invariant Run(State(), rx[cur..]) == Run(start, rx)
        decreases n - cur, if phase == GetPayload then 1 else 0
      {
        match phase
        case Idle => cur := IdleTurn(rxBuff, cur, n, rx);
        case WaitLen => cur := LengthTurn(rxBuff, cur, n, rx);
        case GetPayload => cur := PayloadTurn(rxBuff, cur, n, rx);
      }
    }

    /** The payload phase: copy the missing bytes, or as many as available, and deliver a full packet. */
    method CopyPayload(rxBuff: array<byte>, cur: nat, n: nat) returns (next: nat)
      requires Valid() && phase == GetPayload && cur < n <= rxBuff.Length && rxBuff != data
      modifies this, data
      ensures next == cur + if old(len - idx) < n - cur then old(len - idx) else n - cur
      ensures State() == Turn(old(State()), rxBuff[cur..next])
    {
      ghost var before := State();
      var nBytes := if len - idx < n - cur then len - idx else n - cur;
      next := cur + nBytes;
      Memcpy(data, idx, rxBuff, cur, nBytes);
      idx := idx + nBytes;
      assert data[..] == Copied(before, rxBuff[cur..next]).data;
      if len == idx {
        out := out + [Packet(len, data[..])];
        phase := Idle;
      }
    }

    /** The receive loop of the program: each read fills the buffer and is parsed at once. */
    method ReceiveAll(chunks: seq<seq<byte>>)
      requires Valid()
      modifies this, data
      ensures Valid()
      ensures State() == Run(old(State()), Flatten(chunks))
    {
      ghost var start := State();
      var i := 0;
      while i < |chunks|
        invariant 0 <= i <= |chunks|
        invariant Valid()
        invariant RunChunks(State(), chunks[i..]) == RunChunks(start, chunks)
      {
        var rxBuff := new byte[|chunks[i]|](k requires 0 <= k < |chunks[i]| => chunks[i][k]);
        assert rxBuff[..|chunks[i]|] == chunks[i];
        assert chunks[i..][0] == chunks[i] && chunks[i..][1..] == chunks[i + 1..];
        ParseRxData(rxBuff, |chunks[i]|);
        i := i + 1;
      }
      ChunkIndependence(start, chunks);
    }
  }

  lemma SubSlice(a: array<byte>, n: nat, i: nat, j: nat)
    requires i <= j <= n <= a.Length
    ensures a[..n][i..j] == a[i..j]
  {
  }

  /** One turn of the idle phase: noise, then at most one sync byte. */
  lemma SkipNoise(s: Rx, rx: seq<byte>, cur: nat, sync: nat)
    requires s.Valid() && s.phase == Idle && cur <= sync <= |rx| && SYNC_BYTE !in rx[cur..sync]
    requires sync < |rx| ==> rx[sync] == SYNC_BYTE
    ensures sync == |rx| ==> Run(s, rx[cur..]) == s
    ensures sync < |rx| ==> Run(s, rx[cur..]) == Run(s.(phase := WaitLen), rx[sync + 1..])
  {
    RunNoise(s, rx[cur..sync]);
    assert rx[cur..] == rx[cur..sync] + rx[sync..];
    RunConcat(s, rx[cur..sync], rx[sync..]);
  }

  /** One turn of the payload phase. */
  function Turn(s: Rx, bytes: seq<byte>): (r: Rx)
    requires s.Valid() && s.phase == GetPayload && |bytes| <= s.len - s.idx
    ensures bytes != [] || s.len == 0 ==> r.Valid()
    ensures s.len == 0 ==> r == Deliver(s)
  {
    var c := Copied(s, bytes);
    assert bytes == [] ==> c == s;
    if c.idx == c.len then Deliver(c) else c
  }

  /** A turn moves as many bytes as possible, possibly none. */
  lemma TakePayload(s: Rx, rx: seq<byte>, cur: nat, next: nat)
    requires s.Valid() && s.phase == GetPayload && cur < |rx|
    requires next == cur + if s.len - s.idx < |rx| - cur then s.len - s.idx else |rx| - cur
    ensures Run(s, rx[cur..]) == Run(Turn(s, rx[cur..next]), rx[next..])
  {
    if next > cur {
      assert rx[cur..] == rx[cur..next] + rx[next..];
      RunConcat(s, rx[cur..next], rx[next..]);
      RunPayload(s, rx[cur..next]);
    }
  }
}
