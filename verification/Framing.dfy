/** The receive side of the serial link: the resumable parser of control_node_serial/src/serial.c,
    proved against a decoder that consumes one byte at a time. */
module Framing {
  import opened Bytes

  datatype Phase = Idle | WaitLen | GetPayload

  /** The static state of the parser, and the packets passed to `handle_pkt` so far. */
  datatype Rx = Rx(phase: Phase, len: nat, idx: nat, data: seq<byte>, out: seq<Packet>) {
    predicate Valid() {
      && |data| == PKT_CAPACITY
      && idx <= len <= 255
      && (phase == GetPayload ==> idx < len || len == 0)
    }
  }

  // ----- Reference: one byte at a time --------------------------------------------------------

  function Deliver(s: Rx): (r: Rx)
  {
    s.(phase := Idle, out := s.out + [Packet(s.len, s.data)])
  }

  function IdleStep(s: Rx, b: byte): (r: Rx)
  {
    if b == SYNC_BYTE then s.(phase := WaitLen) else s
  }

  /** An announced length of zero is only noticed when the next byte arrives: the empty packet is
      delivered first and the byte is then treated as in the idle phase. */
  function Settle(s: Rx): (r: Rx)
  {
    if s.phase == GetPayload && s.idx == s.len then Deliver(s) else s
  }

  function Step(s: Rx, b: byte): (r: Rx)
    requires s.Valid()
    ensures r.Valid()
  {
    var u := Settle(s);
    match u.phase
    case Idle => IdleStep(u, b)
    case WaitLen => u.(phase := GetPayload, len := b, idx := 0)
    case GetPayload =>
      var t := u.(data := u.data[u.idx := b], idx := u.idx + 1);
      if t.idx == t.len then Deliver(t) else t
  }

  function Run(s: Rx, bytes: seq<byte>): (r: Rx)
    requires s.Valid()
    ensures r.Valid()
    decreases |bytes|
  {
    if bytes == [] then s else Run(Step(s, bytes[0]), bytes[1..])
  }

  lemma {:induction false} RunConcat(s: Rx, a: seq<byte>, b: seq<byte>)
    requires s.Valid()
    ensures Run(s, a + b) == Run(Run(s, a), b)
    decreases |a|
  {
    if a == [] {
      assert a + b == b;
    } else {
      assert (a + b)[1..] == a[1..] + b;
      RunConcat(Step(s, a[0]), a[1..], b);
    }
  }

  /** Noise before a sync byte is dropped. */
  lemma {:induction false} RunNoise(s: Rx, noise: seq<byte>)
    requires s.Valid() && s.phase == Idle && SYNC_BYTE !in noise
    ensures Run(s, noise) == s
  {
    if noise != [] {
      assert noise[0] in noise;
      RunNoise(s, noise[1..]);
    }
  }

  function Copied(s: Rx, bytes: seq<byte>): (r: Rx)
    requires s.Valid() && s.phase == GetPayload && |bytes| <= s.len - s.idx
    ensures |r.data| == PKT_CAPACITY
  {
    s.(data := s.data[..s.idx] + bytes + s.data[s.idx + |bytes|..], idx := s.idx + |bytes|)
  }

  lemma Splice(d: seq<byte>, i: nat, b: seq<byte>)
    requires b != [] && i + |b| <= |d|
    ensures var e := d[i := b[0]];
            e[..i + 1] + b[1..] + e[i + |b|..] == d[..i] + b + d[i + |b|..]
  {
    var e := d[i := b[0]];
    assert e[..i + 1] == d[..i] + [b[0]] && [b[0]] + b[1..] == b;
    assert e[i + |b|..] == d[i + |b|..];
  }

  /** A run inside a payload is one memcpy, followed by the delivery when the packet is full. */
  lemma {:induction false} RunPayload(s: Rx, bytes: seq<byte>)
    requires s.Valid() && s.phase == GetPayload && 0 < |bytes| <= s.len - s.idx
    ensures Run(s, bytes)
         == if s.idx + |bytes| == s.len then Deliver(Copied(s, bytes)) else Copied(s, bytes)
    decreases |bytes|
  {
    var t := Step(s, bytes[0]);
    if |bytes| == 1 {
      assert bytes[1..] == [];
      assert s.data[s.idx := bytes[0]] == s.data[..s.idx] + bytes + s.data[s.idx + 1..];
    } else {
      RunPayload(t, bytes[1..]);
      Splice(s.data, s.idx, bytes);
    }
  }

  // ----- Whole streams ------------------------------------------------------------------------

  function RunChunks(s: Rx, chunks: seq<seq<byte>>): (r: Rx)
    requires s.Valid()
    ensures r.Valid()
    decreases |chunks|
  {
    if chunks == [] then s else RunChunks(Run(s, chunks[0]), chunks[1..])
  }

  /** However the byte stream is cut into reads, the packets and the final state are the same. */
  lemma {:induction false} ChunkIndependence(s: Rx, chunks: seq<seq<byte>>)
    requires s.Valid()
    ensures RunChunks(s, chunks) == Run(s, Flatten(chunks))
    decreases |chunks|
  {
    if chunks != [] {
      RunConcat(s, chunks[0], Flatten(chunks[1..]));
      ChunkIndependence(Run(s, chunks[0]), chunks[1..]);
    }
  }

  /** Bytes of the stream already consumed for a frame that is not delivered yet. */
  function Pending(s: Rx): (r: nat)
  {
    match s.phase
    case Idle => 0
    case WaitLen => 1
    case GetPayload => 2 + s.idx
  }

  /** Bytes a run throws away while waiting for a sync byte. */
  function Dropped(s: Rx, bytes: seq<byte>): (r: nat)
    requires s.Valid()
    decreases |bytes|
  {
    if bytes == [] then 0
    else
      (if Settle(s).phase == Idle && bytes[0] != SYNC_BYTE then 1 else 0)
      + Dropped(Step(s, bytes[0]), bytes[1..])
  }

  /** Bytes on the wire of a sequence of packets: sync byte, length byte and payload. */
  function WireSize(ps: seq<Packet>): (r: nat)
  {
    if ps == [] then 0 else 2 + ps[0].len + WireSize(ps[1..])
  }

  lemma {:induction false} WireSizeConcat(a: seq<Packet>, b: seq<Packet>)
    ensures WireSize(a + b) == WireSize(a) + WireSize(b)
  {
    if a == [] {
      assert a + b == b;
    } else {
      assert (a + b)[1..] == a[1..] + b;
      WireSizeConcat(a[1..], b);
    }
  }

  /** Every consumed byte is accounted for exactly once: it is dropped, or it belongs to a frame
      delivered by this run, or to the frame still in progress. */
  lemma {:induction false} Conservation(s: Rx, bytes: seq<byte>)
    requires s.Valid()
    ensures var t := Run(s, bytes);
            && s.out <= t.out
            && Pending(s) + |bytes|
            == Dropped(s, bytes) + WireSize(t.out[|s.out|..]) + Pending(t)
    decreases |bytes|
  {
    var t := Run(s, bytes);
    if bytes == [] {
      assert t.out[|s.out|..] == [];
    } else {
      var u := Step(s, bytes[0]);
      Conservation(u, bytes[1..]);
      StepAccounts(s, bytes[0]);
      WireSizeConcat(u.out[|s.out|..], t.out[|u.out|..]);
      assert t.out[|s.out|..] == u.out[|s.out|..] + t.out[|u.out|..];
    }
  }

  lemma StepAccounts(s: Rx, b: byte)
    requires s.Valid()
    ensures var u := Step(s, b);
            && s.out <= u.out
            && Pending(s) + 1
            == (if Settle(s).phase == Idle && b != SYNC_BYTE then 1 else 0)
               + WireSize(u.out[|s.out|..]) + Pending(u)
  {
    var u := Step(s, b);
    if |u.out| > |s.out| {
      assert u.out[|s.out|..] == [u.out[|s.out|]];
      assert WireSize([u.out[|s.out|]]) == 2 + u.out[|s.out|].len;
    } else {
      assert u.out[|s.out|..] == [];
    }
  }
}
