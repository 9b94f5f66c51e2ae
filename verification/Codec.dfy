/**
 The serial frame codec: a four-byte header (two magic bytes and a big-endian
 payload length) around an opaque payload, decoded by a loop that resynchronises
 on the magic pair after any corruption.

 The protobuf payload parser is not part of this model: it is a parameter
 `parse`, any partial function from payload bytes to messages.
 */
module Codec {
  import opened Common

  const MAGIC0: byte := 0x94
  const MAGIC1: byte := 0xC3
  const MAX_PACKET_SIZE: nat := 512
  const HEADER_LEN: nat := 4

  // ---------------------------------------------------------------- decoding

  predicate MagicAt(s: seq<byte>, i: int) {
    0 <= i && i + 1 < |s| && s[i] == MAGIC0 && s[i + 1] == MAGIC1
  }

  ghost predicate NoMagic(s: seq<byte>) {
    forall i :: !MagicAt(s, i)
  }

  ghost predicate FirstMagic(s: seq<byte>, n: nat) {
    MagicAt(s, n) && forall i :: i < n ==> !MagicAt(s, i)
  }

  /** Position of the first magic pair. */
  function FindMagic(s: seq<byte>, from: nat := 0): (r: Option<nat>)
    requires forall i :: i < from ==> !MagicAt(s, i)
    ensures r.None? ==> NoMagic(s)
    ensures r.Some? ==> FirstMagic(s, r.value)
    decreases |s| - from
  {
    if from + 1 >= |s| then None
    else if MagicAt(s, from) then Some(from)
    else FindMagic(s, from + 1)
  }

  /** What one turn of the decode loop does with the buffer. */
  datatype Turn =
    | Wait(rest: seq<byte>)       // return "need more bytes", leaving `rest`
    | Skip(n: nat)                // discard `n` bytes and look again
    | Frame(payload: seq<byte>)   // a whole frame stands at the front

  function PayloadLength(s: seq<byte>): nat
    requires |s| >= HEADER_LEN
  {
    var high: nat, low: nat := s[2], s[3];
    high * 256 + low
  }

  function TurnOf(s: seq<byte>): (t: Turn)
    ensures t.Wait? ==> |t.rest| < HEADER_LEN + MAX_PACKET_SIZE
    ensures t.Skip? ==> 0 < t.n <= |s|
    ensures t.Frame? ==> 0 < |t.payload| <= MAX_PACKET_SIZE && HEADER_LEN + |t.payload| <= |s|
  {
    if |s| < 2 then Wait(s)
    else
      match FindMagic(s)
      case None => Wait(s[|s| - 1..])
      case Some(n) =>
        if n > 0 then Skip(n)
        else if |s| < HEADER_LEN then Wait(s)
        else
          var len := PayloadLength(s);
          if len > MAX_PACKET_SIZE then Skip(2)
          else if len == 0 then Skip(HEADER_LEN)
          else if |s| < HEADER_LEN + len then Wait(s)
          else Frame(s[HEADER_LEN..HEADER_LEN + len])
  }

  /** One call of the decoder: the message it returns, if any, and the buffer it leaves. */
  function Decoded<M>(parse: seq<byte> -> Option<M>, s: seq<byte>): (r: (Option<M>, seq<byte>))
    ensures r.0.Some? ==> |r.1| < |s|
    decreases |s|
  {
    match TurnOf(s)
    case Wait(rest) => (None, rest)
    case Skip(n) => Decoded(parse, s[n..])
    case Frame(payload) =>
      var rest := s[HEADER_LEN + |payload|..];
      match parse(payload)
      case Some(m) => (Some(m), rest)
      case None => Decoded(parse, rest)
  }

  /** Messages delivered, in order, and the buffer left behind. */
  datatype Yield<+M> = Yield(msgs: seq<M>, left: seq<byte>)

  function After<M>(ms: seq<M>, y: Yield<M>): Yield<M> {
    Yield(ms + y.msgs, y.left)
  }

  /** Calls of the decoder repeated until it asks for more bytes. */
  function Drained<M>(parse: seq<byte> -> Option<M>, s: seq<byte>): Yield<M>
    decreases |s|
  {
    var (r, rest) := Decoded(parse, s);
    match r
    case None => Yield([], rest)
    case Some(m) => After([m], Drained(parse, rest))
  }

  /** Bytes a turn removes from the front when it does not wait. */
  function Consumed(t: Turn): nat
    requires !t.Wait?
  {
    if t.Skip? then t.n else HEADER_LEN + |t.payload|
  }

  /** Messages a turn delivers: a parseable frame gives one, anything else none. */
  function Emitted<M>(parse: seq<byte> -> Option<M>, t: Turn): seq<M> {
    if t.Frame? && parse(t.payload).Some? then [parse(t.payload).value] else []
  }

  /** `Drained`, one loop turn at a time. */
  lemma {:induction false} DrainedByTurn<M>(parse: seq<byte> -> Option<M>, s: seq<byte>)
    ensures TurnOf(s).Wait? ==> Drained(parse, s) == Yield([], TurnOf(s).rest)
    ensures !TurnOf(s).Wait? ==>
              Drained(parse, s) == After(Emitted(parse, TurnOf(s)), Drained(parse, s[Consumed(TurnOf(s))..]))
  {
  }

  // ------------------------------------------------- independence of chunking

  /** More bytes behind a buffer do not change a turn that did not wait. */
  lemma TurnIgnoresSuffix(a: seq<byte>, b: seq<byte>)
    requires !TurnOf(a).Wait?
    ensures TurnOf(a + b) == TurnOf(a)
  {
    var s := a + b;
    var n := FindMagic(a).value;
    assert forall i :: i <= n ==> (MagicAt(s, i) <==> MagicAt(a, i));
    assert FindMagic(s) == Some(n);
    if TurnOf(a).Frame? {
      var len := PayloadLength(a);
      assert s[HEADER_LEN..HEADER_LEN + len] == a[HEADER_LEN..HEADER_LEN + len];
    }
  }

  lemma FindMagicAfter(s: seq<byte>, k: nat)
    requires k <= |s| && forall i :: i < k ==> !MagicAt(s, i)
    ensures FindMagic(s).None? ==> FindMagic(s[k..]).None?
    ensures FindMagic(s).Some? ==> k <= FindMagic(s).value && FindMagic(s[k..]) == Some(FindMagic(s).value - k)
  {
    var t := s[k..];
    assert forall i :: i >= 0 ==> MagicAt(t, i) == MagicAt(s, i + k);
    match FindMagic(s) {
      case None =>
      case Some(n) => assert FirstMagic(t, n - k);
    }
  }

  /** A buffer without a magic pair drains to its last byte. */
  lemma DrainedNoMagic<M>(parse: seq<byte> -> Option<M>, s: seq<byte>)
    requires |s| > 0 && FindMagic(s).None?
    ensures Drained(parse, s) == Yield([], s[|s| - 1..])
  {
    hide Drained, FindMagic;
    DrainedByTurn(parse, s);
  }

  /** Draining starts at the first magic pair. */
  lemma DrainedFromMagic<M>(parse: seq<byte> -> Option<M>, s: seq<byte>)
    requires FindMagic(s).Some?
    ensures Drained(parse, s) == Drained(parse, s[FindMagic(s).value..])
  {
    hide Drained, FindMagic;
    var n := FindMagic(s).value;
    if n > 0 {
      assert TurnOf(s) == Skip(n);
      DrainedByTurn(parse, s);
    } else {
      assert s[0..] == s;
    }
  }

  /** Bytes in front of which no magic pair starts may be dropped at any time. */
  lemma JunkIsSkipped<M>(parse: seq<byte> -> Option<M>, s: seq<byte>, k: nat)
    requires k < |s| && forall i :: i < k ==> !MagicAt(s, i)
    ensures Drained(parse, s) == Drained(parse, s[k..])
  {
    hide Drained, FindMagic;
    var t := s[k..];
    FindMagicAfter(s, k);
    if FindMagic(s).None? {
      DrainedNoMagic(parse, s);
      DrainedNoMagic(parse, t);
      assert s[|s| - 1..] == t[|t| - 1..];
    } else {
      DrainedFromMagic(parse, s);
      DrainedFromMagic(parse, t);
      assert s[FindMagic(s).value..] == t[FindMagic(t).value..];
    }
  }

  /** When a turn waits, what it threw away carries no information about later bytes. */
  lemma WaitLosesNothing<M>(parse: seq<byte> -> Option<M>, a: seq<byte>, b: seq<byte>)
    requires TurnOf(a).Wait?
    ensures Drained(parse, a + b) == Drained(parse, TurnOf(a).rest + b)
  {
    if |a| >= 2 && FindMagic(a).None? {
      var k := |a| - 1;
      forall i | i < k ensures !MagicAt(a + b, i) {
        assert MagicAt(a + b, i) == MagicAt(a, i);
      }
      JunkIsSkipped(parse, a + b, k);
      assert (a + b)[k..] == a[k..] + b;
    }
  }

  /** Draining early, then continuing with the leftover, is the same as draining late. */
  lemma {:induction false} DrainedSplit<M>(parse: seq<byte> -> Option<M>, a: seq<byte>, b: seq<byte>)
    ensures Drained(parse, a + b) == After(Drained(parse, a).msgs, Drained(parse, Drained(parse, a).left + b))
    decreases |a|
  {
    hide TurnOf, Drained, Decoded;
    var turn := TurnOf(a);
    DrainedByTurn(parse, a);
    if turn.Wait? {
      WaitLosesNothing(parse, a, b);
    } else {
      TurnIgnoresSuffix(a, b);
      DrainedByTurn(parse, a + b);
      assert (a + b)[Consumed(turn)..] == a[Consumed(turn)..] + b;
      DrainedSplit(parse, a[Consumed(turn)..], b);
    }
  }

  /** What can happen to a receive buffer: bytes arrive, or the decoder is called once. */
  datatype Event = Arrive(chunk: seq<byte>) | Poll

  /** Messages delivered by, and buffer left after, a schedule of arrivals and calls. */
  function Scheduled<M>(parse: seq<byte> -> Option<M>, events: seq<Event>): Yield<M> {
    if events == [] then Yield([], [])
    else
      var y := Scheduled(parse, events[..|events| - 1]);
      match events[|events| - 1]
      case Arrive(chunk) => Yield(y.msgs, y.left + chunk)
      case Poll =>
        var (r, rest) := Decoded(parse, y.left);
        Yield(if r.Some? then y.msgs + [r.value] else y.msgs, rest)
  }

  function Arrived(events: seq<Event>): seq<byte> {
    if events == [] then []
    else
      Arrived(events[..|events| - 1]) +
      (match events[|events| - 1] case Arrive(chunk) => chunk case Poll => [])
  }

  /** Invariant of a schedule, against every continuation `future` of the byte stream. */
  lemma {:induction false} ScheduleInvariant<M>(
    parse: seq<byte> -> Option<M>, events: seq<Event>, future: seq<byte>)
    ensures var y := Scheduled(parse, events);
            Drained(parse, Arrived(events) + future) == After(y.msgs, Drained(parse, y.left + future))
    decreases |events|
  {
    hide TurnOf, Drained, Decoded;
    if events == [] {
    } else {
      var before := events[..|events| - 1];
      var y := Scheduled(parse, before);
      match events[|events| - 1] {
        case Arrive(chunk) =>
          ScheduleInvariant(parse, before, chunk + future);
          assert Arrived(before) + (chunk + future) == Arrived(events) + future;
          assert y.left + (chunk + future) == (y.left + chunk) + future;
        case Poll =>
          ScheduleInvariant(parse, before, future);
          assert Arrived(events) == Arrived(before);
          PollThenDrain(parse, y.left, future);
      }
    }
  }

  /** A call that returned nothing may be repeated: it left a buffer on which the decoder waits. */
  lemma DrainedAfterCall<M>(parse: seq<byte> -> Option<M>, buf: seq<byte>)
    ensures var (r, rest) := Decoded(parse, buf);
            Drained(parse, buf) == After(if r.Some? then [r.value] else [], Drained(parse, rest))
  {
    hide Decoded;
    if Decoded(parse, buf).0.None? {
      NoneLeavesAWaitingBuffer(parse, buf);
    }
  }

  /** One call, then draining, is draining: no message is lost or repeated in between. */
  lemma PollThenDrain<M>(parse: seq<byte> -> Option<M>, buf: seq<byte>, future: seq<byte>)
    ensures var (r, rest) := Decoded(parse, buf);
            Drained(parse, buf + future)
            == After(if r.Some? then [r.value] else [], Drained(parse, rest + future))
  {
    hide Decoded, Drained;
    DrainedAfterCall(parse, buf);
    DrainedSplit(parse, buf, future);
    DrainedSplit(parse, Decoded(parse, buf).1, future);
  }

  /**
   Chunking and call timing are invisible: whatever the schedule of arrivals and
   calls, draining at the end gives the messages and the leftover that one
   decode of the whole byte stream gives.
   */
  lemma ChunkingIsInvisible<M>(parse: seq<byte> -> Option<M>, events: seq<Event>)
    ensures var y := Scheduled(parse, events);
            After(y.msgs, Drained(parse, y.left)) == Drained(parse, Arrived(events))
  {
    ScheduleInvariant(parse, events, []);
    assert Scheduled(parse, events).left + [] == Scheduled(parse, events).left;
    assert Arrived(events) + [] == Arrived(events);
  }

  // ------------------------------------------------ bound and idle leftovers

  /**
   A call that returns no message leaves at most 515 bytes, and a second call
   on that leftover changes nothing.
   */
  lemma {:induction false} NoneLeavesAWaitingBuffer<M>(parse: seq<byte> -> Option<M>, s: seq<byte>)
    requires Decoded(parse, s).0.None?
    ensures |Decoded(parse, s).1| <= 515
    ensures Decoded(parse, Decoded(parse, s).1) == Decoded(parse, s)
    decreases |s|
  {
    match TurnOf(s) {
      case Wait(rest) =>
        assert TurnOf(rest) == Wait(rest);
      case Skip(n) => NoneLeavesAWaitingBuffer(parse, s[n..]);
      case Frame(p) => NoneLeavesAWaitingBuffer(parse, s[HEADER_LEN + |p|..]);
    }
  }

  // ------------------------------------------------ framing and resynchronising

  /** A payload of at most `MAX_PACKET_SIZE` bytes behind its header. */
  function FrameBytes(payload: seq<byte>): seq<byte>
    requires |payload| <= MAX_PACKET_SIZE
  {
    [MAGIC0, MAGIC1, |payload| / 256, |payload| % 256] + payload
  }

  /**
   Bytes the decoder can skip in front of a frame: every magic pair in them
   claims an impossible length, reading the claim into the frame's own magic
   bytes where the garbage breaks off inside a header.
   */
  ghost predicate Garbage(g: seq<byte>) {
    forall i :: MagicAt(g, i) ==> PayloadLength((g + [MAGIC0, MAGIC1])[i..]) > MAX_PACKET_SIZE
  }

  datatype Segment = Segment(garbage: seq<byte>, payload: seq<byte>)

  ghost predicate ValidSegment(g: Segment) {
    Garbage(g.garbage) && |g.payload| <= MAX_PACKET_SIZE
  }

  ghost function Wire(segments: seq<Segment>): seq<byte>
    requires forall g :: g in segments ==> ValidSegment(g)
  {
    if segments == [] then []
    else
      assert ValidSegment(segments[0]);
      segments[0].garbage + FrameBytes(segments[0].payload) + Wire(segments[1..])
  }

  /** The non-empty payloads the parser accepts, in order. */
  function Messages<M>(parse: seq<byte> -> Option<M>, segments: seq<Segment>): seq<M> {
    if segments == [] then []
    else
      var p := segments[0].payload;
      (if p != [] && parse(p).Some? then [parse(p).value] else []) + Messages(parse, segments[1..])
  }

  /** A frame at the front is recognised exactly, whatever follows it. */
  lemma FrameTurn(p: seq<byte>, tail: seq<byte>)
    requires |p| <= MAX_PACKET_SIZE
    ensures FindMagic(FrameBytes(p) + tail) == Some(0)
    ensures TurnOf(FrameBytes(p) + tail) == if p == [] then Skip(HEADER_LEN) else Frame(p)
  {
    var s := FrameBytes(p) + tail;
    assert MagicAt(s, 0);
    assert PayloadLength(s) == |p|;
    assert s[HEADER_LEN..HEADER_LEN + |p|] == p;
  }

  lemma FrameIsDelivered<M>(parse: seq<byte> -> Option<M>, p: seq<byte>, tail: seq<byte>)
    requires |p| <= MAX_PACKET_SIZE
    ensures Drained(parse, FrameBytes(p) + tail)
            == After(if p != [] && parse(p).Some? then [parse(p).value] else [], Drained(parse, tail))
  {
    hide Drained, TurnOf;
    var s := FrameBytes(p) + tail;
    FrameTurn(p, tail);
    DrainedByTurn(parse, s);
    assert s[HEADER_LEN + |p|..] == tail;
  }

  /** A magic pair that claims an impossible length costs two bytes, no more. */
  lemma OversizeCostsTwoBytes<M>(parse: seq<byte> -> Option<M>, s: seq<byte>)
    requires MagicAt(s, 0) && |s| >= HEADER_LEN && PayloadLength(s) > MAX_PACKET_SIZE
    ensures Drained(parse, s) == Drained(parse, s[2..])
  {
    hide Drained;
    assert FindMagic(s) == Some(0);
    DrainedByTurn(parse, s);
  }

  lemma GarbageSuffix(g: seq<byte>, n: nat)
    requires Garbage(g) && n <= |g|
    ensures Garbage(g[n..])
  {
    forall i | MagicAt(g[n..], i)
      ensures PayloadLength((g[n..] + [MAGIC0, MAGIC1])[i..]) > MAX_PACKET_SIZE
    {
      assert MagicAt(g, i + n);
      assert (g[n..] + [MAGIC0, MAGIC1])[i..] == (g + [MAGIC0, MAGIC1])[i + n..];
    }
  }

  /** Garbage in front of a magic pair is skipped without touching what follows. */
  lemma {:induction false} GarbageIsSkipped<M>(parse: seq<byte> -> Option<M>, g: seq<byte>, t: seq<byte>)
    requires Garbage(g) && MagicAt(t, 0)
    ensures Drained(parse, g + t) == Drained(parse, t)
    decreases |g|
  {
    hide Drained, FindMagic, TurnOf;
    var s := g + t;
    assert s[|g|..] == t;
    assert MagicAt(s, |g|);
    if j :| 0 <= j < |g| && MagicAt(s, j) {
      var n := FindMagic(s).value;
      assert MagicAt(g, n);
      DrainedFromMagic(parse, s);
      var h := s[n..];
      assert (g + [MAGIC0, MAGIC1])[n..][..HEADER_LEN] == h[..HEADER_LEN];
      OversizeCostsTwoBytes(parse, h);
      GarbageSuffix(g, n + 2);
      assert h[2..] == g[n + 2..] + t;
      GarbageIsSkipped(parse, g[n + 2..], t);
    } else {
      JunkIsSkipped(parse, s, |g|);
    }
  }

  /**
   Round trip and resynchronisation: frames interleaved with garbage deliver
   exactly their non-empty parseable payloads, in order, and then decoding goes
   on with the bytes that follow as if they stood alone.
   */
  lemma {:induction false} WireRoundTrip<M>(parse: seq<byte> -> Option<M>, segments: seq<Segment>, tail: seq<byte>)
    requires forall g :: g in segments ==> ValidSegment(g)
    ensures Drained(parse, Wire(segments) + tail) == After(Messages(parse, segments), Drained(parse, tail))
    decreases |segments|
  {
    hide Drained, Garbage;
    if segments == [] {
      assert Wire(segments) + tail == tail;
    } else {
      var g, p, rest := segments[0].garbage, segments[0].payload, segments[1..];
      assert ValidSegment(segments[0]);
      var after := Wire(rest) + tail;
      var framed := FrameBytes(p) + after;
      assert Wire(segments) + tail == g + framed;
      GarbageIsSkipped(parse, g, framed);
      FrameIsDelivered(parse, p, after);
      WireRoundTrip(parse, rest, tail);
    }
  }

  // ------------------------------------------------------- the codec's own code

  /** A growable byte buffer, drained at the front and appended at the back. */
  class ByteBuffer {
    var bytes: seq<byte>

    constructor ()
      ensures bytes == []
    {
      bytes := [];
    }
  }

  /** The decoder: loops over recoverable corruption and never fails. */
  method Decode<M>(parse: seq<byte> -> Option<M>, src: ByteBuffer) returns (r: Option<M>)
    modifies src
    ensures (r, src.bytes) == Decoded(parse, old(src.bytes))
  {
    while true
      invariant Decoded(parse, src.bytes) == Decoded(parse, old(src.bytes))
      decreases |src.bytes|
    {
      if |src.bytes| < 2 {
        return None;
      }
      match FindMagic(src.bytes) {
        case None =>
          src.bytes := src.bytes[|src.bytes| - 1..];
          return None;
        case Some(n) =>
          if n > 0 {
            src.bytes := src.bytes[n..];
            continue;
          }
      }
      if |src.bytes| < HEADER_LEN {
        return None;
      }
      var len := PayloadLength(src.bytes);
      if len > MAX_PACKET_SIZE {
        src.bytes := src.bytes[2..];
        continue;
      }
      if len == 0 {
        src.bytes := src.bytes[HEADER_LEN..];
        continue;
      }
      if |src.bytes| < HEADER_LEN + len {
        return None;
      }
      var payload := src.bytes[HEADER_LEN..HEADER_LEN + len];
      src.bytes := src.bytes[HEADER_LEN + len..];
      var parsed := parse(payload);
      if parsed.Some? {
        return parsed;
      }
    }
  }

  /** The encoder: appends one frame, or refuses an oversized payload and appends nothing. */
  method Encode(payload: seq<byte>, dst: ByteBuffer) returns (ok: bool)
    modifies dst
    ensures ok <==> |payload| <= 512
    ensures dst.bytes == if ok then old(dst.bytes) + FrameBytes(payload) else old(dst.bytes)
    ensures ok ==> exists high: byte, low: byte ::
                     high * 256 + low == |payload| && dst.bytes == old(dst.bytes) + [0x94, 0xC3, high, low] + payload
  {
    if |payload| > MAX_PACKET_SIZE {
      return false;
    }
    dst.bytes := dst.bytes + [MAGIC0] + [MAGIC1];
    dst.bytes := dst.bytes + [|payload| / 256, |payload| % 256];
    dst.bytes := dst.bytes + payload;
    ok := true;
    ghost var high: byte, low: byte := |payload| / 256, |payload| % 256;
    assert high * 256 + low == |payload| && dst.bytes == old(dst.bytes) + [0x94, 0xC3, high, low] + payload;
  }
}
