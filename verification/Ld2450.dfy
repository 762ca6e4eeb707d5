// The LD2450 radar's frame scanner.
module Ld2450 {
  import opened ByteCodec

  const FRAME_LEN: nat := 30
  const MAX_TARGETS: nat := 3
  const TARGET_SIZE: nat := 8
  const QUEUE_SIZE: nat := 10

  // What the radar reports of one target, on the wire.
  datatype Reading = Reading(x: int16, y: int16, speed: int16)

  datatype Target = Target(x: int16, y: int16, speed: int16, valid: bool, distance: nat)

  type Frame = seq<Target>

  // ------------------------------------------------------------------- distance

  lemma SquareNat(p: int)
    ensures p * p >= 0
  {}

  function SquaredRange(x: int16, y: int16): nat {
    var p, q := x as int, y as int;
    SquareNat(p);
    SquareNat(q);
    p * p + q * q
  }

  // The integer part of a square root.
  function Root(n: nat): nat {
    if n == 0 then 0
    else if (Root(n - 1) + 1) * (Root(n - 1) + 1) <= n then Root(n - 1) + 1
    else Root(n - 1)
  }

  lemma {:induction false} RootIsRoot(n: nat)
    ensures Root(n) * Root(n) <= n < (Root(n) + 1) * (Root(n) + 1)
  {
    if n == 0 {
    } else {
      RootIsRoot(n - 1);
    }
  }

  lemma RootBound(n: nat, b: nat)
    requires n < b * b
    ensures Root(n) < b
  {}

  lemma SquareMonotone(p: nat, q: nat)
    requires p <= q
    ensures p * p <= q * q
  {}

  lemma SquareBound(p: int)
    requires -0x8000 <= p <= 0x8000
    ensures p * p <= 0x8000 * 0x8000
  {
    if p >= 0 {
      SquareMonotone(p, 0x8000);
    } else {
      SquareMonotone(-p, 0x8000);
      assert p * p == (-p) * (-p);
    }
  }

  // The distance in millimetres of any pair of 16-bit coordinates fits 16 bits.
  lemma DistanceFits(x: int16, y: int16)
    ensures Root(SquaredRange(x, y)) < 0x1_0000
  {
    SquareBound(x as int);
    SquareBound(y as int);
    assert SquaredRange(x, y) <= 2 * (0x8000 * 0x8000) < 0x1_0000 * 0x1_0000;
    RootBound(SquaredRange(x, y), 0x1_0000);
  }

  function MakeTarget(r: Reading): Target {
    var valid := r.x != 0 || r.y != 0;
    Target(r.x, r.y, r.speed, valid, if valid then Root(SquaredRange(r.x, r.y)) else 0)
  }

  // The little-endian two's complement number in two bytes.
  predicate Signed(v: int16, lo: byte, hi: byte) {
    var u := lo as int + 256 * hi as int;
    v as int == if u < 32768 then u else u - 65536
  }

  // The distance is the integer part of the hypotenuse, and 0 without data.
  predicate Ranged(t: Target) {
    var x, y, d := t.x as int, t.y as int, t.distance;
    if t.valid then 0 < d < 65536 && d * d <= x * x + y * y < (d + 1) * (d + 1) else d == 0
  }

  // What the eight bytes of a slot say about a target; all zeros mean that there is
  // none.
  predicate Describes(slot: seq<byte>, t: Target)
    requires |slot| == 8
  {
    && Signed(t.x, slot[0], slot[1]) && Signed(t.y, slot[2], slot[3]) && Signed(t.speed, slot[4], slot[5])
    && (t.valid <==> slot[0] != 0 || slot[1] != 0 || slot[2] != 0 || slot[3] != 0)
    && Ranged(t)
  }

  lemma ValidIsPositive(x: int16, y: int16)
    ensures x != 0 || y != 0 ==> SquaredRange(x, y) > 0
  {
    var p, q := x as int, y as int;
    SquareNat(p);
    SquareNat(q);
    assert p != 0 ==> p * p > 0;
    assert q != 0 ==> q * q > 0;
  }

  lemma MadeTargetRanged(r: Reading)
    ensures Ranged(MakeTarget(r)) && (MakeTarget(r).valid <==> r.x != 0 || r.y != 0)
  {
    RootIsRoot(SquaredRange(r.x, r.y));
    DistanceFits(r.x, r.y);
    ValidIsPositive(r.x, r.y);
  }

  // ------------------------------------------------------------------- scanning

  // A frame starts here: header, three targets, tail.
  predicate FrameAt(data: seq<byte>, i: nat) {
    && i + FRAME_LEN <= |data|
    && data[i] == 0xAA && data[i + 1] == 0xFF && data[i + 2] == 0x03 && data[i + 3] == 0x00
    && data[i + 28] == 0x55 && data[i + 29] == 0xCC
  }

  // Thirty bytes, of which the first four and the last two are fixed.
  lemma FrameBytes(data: seq<byte>, i: nat)
    ensures FrameAt(data, i)
       <==> i + 30 <= |data| && data[i..i + 4] == [0xAA, 0xFF, 0x03, 0x00] && data[i + 28..i + 30] == [0x55, 0xCC]
  {
    if i + 30 <= |data| {
      assert data[i..i + 4] == [data[i], data[i + 1], data[i + 2], data[i + 3]];
      assert data[i + 28..i + 30] == [data[i + 28], data[i + 29]];
    }
  }

  // The frames found from position i on, each starting at the first possible
  // place after the one before.
  ghost predicate Leftmost(data: seq<byte>, i: nat, starts: seq<nat>)
    decreases |starts|
  {
    if starts == [] then forall j :: j >= i ==> !FrameAt(data, j)
    else
      && starts[0] >= i && FrameAt(data, starts[0])
      && (forall j :: i <= j < starts[0] ==> !FrameAt(data, j))
      && Leftmost(data, starts[0] + FRAME_LEN, starts[1..])
  }

  // There is only one such list.
  lemma {:induction false} LeftmostUnique(data: seq<byte>, i: nat, a: seq<nat>, b: seq<nat>)
    requires Leftmost(data, i, a) && Leftmost(data, i, b)
    ensures a == b
    decreases |a|
  {
    if a == [] || b == [] {
    } else {
      LeftmostUnique(data, a[0] + FRAME_LEN, a[1..], b[1..]);
      assert a == [a[0]] + a[1..] && b == [b[0]] + b[1..];
    }
  }

  lemma LeftmostSkip(data: seq<byte>, i: nat, starts: seq<nat>)
    requires Leftmost(data, i + 1, starts) && !FrameAt(data, i)
    ensures Leftmost(data, i, starts)
  {}

  function Scan(data: seq<byte>, i: nat): (starts: seq<nat>)
    ensures Leftmost(data, i, starts)
    decreases |data| + 1 - i
  {
    if i + FRAME_LEN > |data| then []
    else if FrameAt(data, i) then [i] + Scan(data, i + FRAME_LEN)
    else
      LeftmostSkip(data, i, Scan(data, i + 1));
      Scan(data, i + 1)
  }

  function ReadingAt(data: seq<byte>, k: nat): Reading
    requires k + TARGET_SIZE <= |data|
  {
    Reading(Int16(data[k], data[k + 1]), Int16(data[k + 2], data[k + 3]), Int16(data[k + 4], data[k + 5]))
  }

  const PAYLOAD_LEN: nat := MAX_TARGETS * TARGET_SIZE

  // The targets in the payload of a frame.
  function FrameOf(payload: seq<byte>): Frame
    requires |payload| == PAYLOAD_LEN
  {
    seq(MAX_TARGETS, k requires 0 <= k < MAX_TARGETS => MakeTarget(ReadingAt(payload, k * TARGET_SIZE)))
  }

  lemma SlotDescribes(payload: seq<byte>, k: nat)
    requires |payload| == PAYLOAD_LEN && k < 3
    ensures |FrameOf(payload)| == 3 && Describes(payload[8 * k..8 * k + 8], FrameOf(payload)[k])
  {
    var slot, r := payload[8 * k..8 * k + 8], ReadingAt(payload, k * TARGET_SIZE);
    assert r == Reading(Int16(slot[0], slot[1]), Int16(slot[2], slot[3]), Int16(slot[4], slot[5]));
    MadeTargetRanged(r);
  }

  // The payload of the frame at position i.
  function Payload(data: seq<byte>, i: nat): seq<byte>
    requires i + FRAME_LEN <= |data|
  {
    data[i + 4..i + 28]
  }

  predicate Whole(ps: seq<seq<byte>>) {
    forall k :: 0 <= k < |ps| ==> |ps[k]| == PAYLOAD_LEN
  }

  // The payloads of all frames from position i on, in order.
  function Payloads(data: seq<byte>, i: nat): (r: seq<seq<byte>>)
    ensures Whole(r)
    decreases |data| + 1 - i
  {
    if i + FRAME_LEN > |data| then []
    else if FrameAt(data, i) then [Payload(data, i)] + Payloads(data, i + FRAME_LEN)
    else Payloads(data, i + 1)
  }

  // They belong to the frames at the leftmost non-overlapping positions.
  lemma {:induction false} PayloadsAreLeftmost(data: seq<byte>, i: nat, starts: seq<nat>)
    requires Leftmost(data, i, starts)
    ensures |Payloads(data, i)| == |starts|
    ensures forall k :: 0 <= k < |starts| ==>
              FrameAt(data, starts[k]) && Payloads(data, i)[k] == Payload(data, starts[k])
    decreases |starts|, |data| + 1 - i
  {
    if i + FRAME_LEN > |data| {
    } else if FrameAt(data, i) {
      assert starts[0] == i;
      PayloadsAreLeftmost(data, i + FRAME_LEN, starts[1..]);
      assert starts == [i] + starts[1..];
    } else {
      assert Leftmost(data, i + 1, starts);
      PayloadsAreLeftmost(data, i + 1, starts);
    }
  }

  function DecodeAll(ps: seq<seq<byte>>): seq<Frame>
    requires Whole(ps)
  {
    seq(|ps|, k requires 0 <= k < |ps| => FrameOf(ps[k]))
  }

  // ----------------------------------------------------------------- the device

  // A bounded queue after these frames were offered to it: it takes the first ones.
  function Offered(queue: seq<Frame>, fs: seq<Frame>): (r: seq<Frame>)
    requires |queue| <= QUEUE_SIZE
    ensures |r| <= QUEUE_SIZE && queue <= r <= queue + fs
    ensures |r| == |queue| + |fs| || |r| == QUEUE_SIZE
  {
    queue + fs[..if |fs| < QUEUE_SIZE - |queue| then |fs| else QUEUE_SIZE - |queue|]
  }

  function Latest(last: Frame, fs: seq<Frame>): Frame {
    if fs == [] then last else fs[|fs| - 1]
  }

  lemma OfferOneMore(queue: seq<Frame>, last: Frame, fs: seq<Frame>, f: Frame)
    requires |queue| <= QUEUE_SIZE
    ensures var r := Offered(queue, fs);
            Offered(queue, fs + [f]) == if |r| < QUEUE_SIZE then r + [f] else r
    ensures Latest(last, fs + [f]) == f
  {}

  // These are the payloads found before position i.
  ghost predicate FoundBefore(data: seq<byte>, i: nat, done: seq<seq<byte>>) {
    Whole(done) && Payloads(data, 0) == done + Payloads(data, i)
  }

  lemma FoundOneMore(data: seq<byte>, i: nat, done: seq<seq<byte>>)
    requires FoundBefore(data, i, done) && i + FRAME_LEN <= |data|
    ensures FrameAt(data, i) ==> FoundBefore(data, i + FRAME_LEN, done + [Payload(data, i)])
    ensures !FrameAt(data, i) ==> FoundBefore(data, i + 1, done)
  {}

  // The channel has room for ten frames, and takes what fits.
  lemma RoomForTen(queue: seq<Frame>, fs: seq<Frame>)
    requires |queue| <= 10
    ensures |Offered(queue, fs)| == (if |queue| + |fs| <= 10 then |queue| + |fs| else 10)
    ensures Offered(queue, fs) <= queue + fs
  {}

  class LD2450 {
    var lastFrame: Frame
    var frameCh: seq<Frame>

    ghost predicate Valid()
      reads this
    {
      |frameCh| <= QUEUE_SIZE
    }

    method ParseFrame(payload: seq<byte>) returns (frame: Frame)
      requires |payload| == PAYLOAD_LEN
      ensures frame == FrameOf(payload) && |frame| == 3
      ensures forall k :: 0 <= k < 3 ==> Describes(payload[8 * k..8 * k + 8], frame[k])
    {
      frame := [];
      for k := 0 to MAX_TARGETS
        invariant frame == FrameOf(payload)[..k]
      {
        var offset := k * TARGET_SIZE;
        frame := frame + [MakeTarget(ReadingAt(payload, offset))];
      }
      forall k | 0 <= k < 3 ensures Describes(payload[8 * k..8 * k + 8], frame[k]) {
        SlotDescribes(payload, k);
      }
    }

    method Deliver(payload: seq<byte>, ghost queue: seq<Frame>, ghost last: Frame, ghost done: seq<seq<byte>>)
      requires |payload| == PAYLOAD_LEN && |queue| <= QUEUE_SIZE
      requires Whole(done)
      requires frameCh == Offered(queue, DecodeAll(done))
      modifies this
      ensures frameCh == Offered(queue, DecodeAll(done + [payload]))
      ensures lastFrame == Latest(last, DecodeAll(done + [payload]))
    {
      var frame := ParseFrame(payload);
      lastFrame := frame;
      if |frameCh| < QUEUE_SIZE {
        frameCh := frameCh + [frame];
      }
      assert DecodeAll(done + [payload]) == DecodeAll(done) + [frame];
      OfferOneMore(queue, last, DecodeAll(done), frame);
    }

    // The channel takes frames while it has room; the last frame is remembered
    // whether or not it fitted.
    method ParseData(data: seq<byte>)
      requires Valid()
      modifies this
      ensures Valid()
      ensures frameCh == Offered(old(frameCh), DecodeAll(Payloads(data, 0)))
      ensures lastFrame == Latest(old(lastFrame), DecodeAll(Payloads(data, 0)))
    {
      ghost var done: seq<seq<byte>> := [];
      var i := 0;
      while i < |data| - 29
        invariant 0 <= i && FoundBefore(data, i, done)
        invariant frameCh == Offered(old(frameCh), DecodeAll(done))
        invariant lastFrame == Latest(old(lastFrame), DecodeAll(done))
        decreases |data| - i
      {
        FoundOneMore(data, i, done);
        if data[i] == 0xAA && data[i + 1] == 0xFF && data[i + 2] == 0x03 && data[i + 3] == 0x00 {
          if data[i + 28] == 0x55 && data[i + 29] == 0xCC {
            var payload := data[i + 4..i + 28];
            Deliver(payload, old(frameCh), old(lastFrame), done);
            done := done + [payload];
            i := i + 29;
          }
        }
        i := i + 1;
      }
    }
  }

  // -------------------------------------- a reader that takes frames in between

  // One frame offered to the channel, or one taken from it.
  datatype Move = Offer(frame: Frame) | Take

  datatype Channel = Channel(queue: seq<Frame>, taken: seq<Frame>)

  function Moved(c: Channel, m: Move): Channel {
    match m
    case Offer(f) => if |c.queue| < QUEUE_SIZE then c.(queue := c.queue + [f]) else c
    case Take => if c.queue == [] then c else Channel(c.queue[1..], c.taken + [c.queue[0]])
  }

  // The channel after these moves.
  function After(queue: seq<Frame>, ms: seq<Move>): Channel {
    if ms == [] then Channel(queue, []) else Moved(After(queue, ms[..|ms| - 1]), ms[|ms| - 1])
  }

  function Offers(ms: seq<Move>): seq<Frame> {
    if ms == [] then []
    else
      var offered := Offers(ms[..|ms| - 1]);
      match ms[|ms| - 1]
      case Offer(f) => offered + [f]
      case Take => offered
  }

  // Which of the offered frames found room.
  function Kept(queue: seq<Frame>, ms: seq<Move>): seq<nat> {
    if ms == [] then []
    else
      var before := ms[..|ms| - 1];
      if ms[|ms| - 1].Offer? && |After(queue, before).queue| < QUEUE_SIZE
      then Kept(queue, before) + [|Offers(before)|]
      else Kept(queue, before)
  }

  ghost predicate PlacesIn(at: seq<nat>, n: nat) {
    && (forall k :: 0 <= k < |at| ==> at[k] < n)
    && forall k, l :: 0 <= k < l < |at| ==> at[k] < at[l]
  }

  function FramesAt(fs: seq<Frame>, at: seq<nat>): seq<Frame>
    requires forall k :: 0 <= k < |at| ==> at[k] < |fs|
  {
    seq(|at|, k requires 0 <= k < |at| => fs[at[k]])
  }

  lemma FramesMore(fs: seq<Frame>, at: seq<nat>, f: Frame)
    requires PlacesIn(at, |fs|)
    ensures PlacesIn(at, |fs + [f]|) && FramesAt(fs + [f], at) == FramesAt(fs, at)
    ensures PlacesIn(at + [|fs|], |fs + [f]|) && FramesAt(fs + [f], at + [|fs|]) == FramesAt(fs, at) + [f]
  {}

  // What was there at first and what was taken or is queued, before and after.
  ghost predicate InOrder(queue: seq<Frame>, c: Channel, fs: seq<Frame>, at: seq<nat>) {
    PlacesIn(at, |fs|) && |c.queue| <= QUEUE_SIZE && c.taken + c.queue == queue + FramesAt(fs, at)
  }

  lemma TakeInOrder(queue: seq<Frame>, c: Channel, fs: seq<Frame>, at: seq<nat>)
    requires InOrder(queue, c, fs, at)
    ensures InOrder(queue, Moved(c, Take), fs, at)
  {
    if c.queue != [] { assert c.taken + [c.queue[0]] + c.queue[1..] == c.taken + c.queue; }
  }

  lemma OfferInOrder(queue: seq<Frame>, c: Channel, fs: seq<Frame>, at: seq<nat>, f: Frame)
    requires InOrder(queue, c, fs, at)
    ensures InOrder(queue, Moved(c, Offer(f)), fs + [f], if |c.queue| < QUEUE_SIZE then at + [|fs|] else at)
  {
    FramesMore(fs, at, f);
    if |c.queue| < QUEUE_SIZE {
      assert c.taken + (c.queue + [f]) == (c.taken + c.queue) + [f];
      assert queue + (FramesAt(fs, at) + [f]) == (queue + FramesAt(fs, at)) + [f];
    }
  }

  // However offers and takings are interleaved, the frames taken and those still
  // queued are what the queue held at first and then offered frames, in the order
  // in which they were offered.
  lemma {:induction false} TakenInOrder(queue: seq<Frame>, ms: seq<Move>)
    requires |queue| <= QUEUE_SIZE
    ensures InOrder(queue, After(queue, ms), Offers(ms), Kept(queue, ms))
  {
    if ms == [] {
    } else {
      var before, m := ms[..|ms| - 1], ms[|ms| - 1];
      TakenInOrder(queue, before);
      match m {
        case Take => TakeInOrder(queue, After(queue, before), Offers(before), Kept(queue, before));
        case Offer(f) => OfferInOrder(queue, After(queue, before), Offers(before), Kept(queue, before), f);
      }
    }
  }

  // The offer at k comes before all later ones.
  lemma {:induction false} OffersGrow(ms: seq<Move>, k: nat)
    requires k < |ms| - 1 && ms[k].Offer?
    ensures |Offers(ms[..k])| < |Offers(ms[..|ms| - 1])|
    decreases |ms|
  {
    var before := ms[..|ms| - 1];
    assert before[..k] == ms[..k];
    if k == |before| - 1 {
      assert before[..|before| - 1] == ms[..k];
    } else {
      OffersGrow(before, k);
    }
  }

  // An offered frame is dropped exactly when the queue is full at that moment.
  lemma {:induction false} DroppedExactly(queue: seq<Frame>, ms: seq<Move>, k: nat)
    requires |queue| <= QUEUE_SIZE && k < |ms| && ms[k].Offer?
    ensures |Offers(ms[..k])| !in Kept(queue, ms) <==> |After(queue, ms[..k]).queue| == QUEUE_SIZE
    decreases |ms|
  {
    var before := ms[..|ms| - 1];
    TakenInOrder(queue, before);
    if k == |ms| - 1 {
    } else {
      assert before[..k] == ms[..k];
      DroppedExactly(queue, before, k);
      OffersGrow(ms, k);
    }
  }

  function OffersOf(fs: seq<Frame>): seq<Move> {
    seq(|fs|, k requires 0 <= k < |fs| => Offer(fs[k]))
  }

  // Without takings this is what a call of ParseData does to the channel.
  lemma {:induction false} OffersOnly(queue: seq<Frame>, fs: seq<Frame>)
    requires |queue| <= QUEUE_SIZE
    ensures After(queue, OffersOf(fs)) == Channel(Offered(queue, fs), []) && Offers(OffersOf(fs)) == fs
  {
    if fs == [] {
    } else {
      var before, f := fs[..|fs| - 1], fs[|fs| - 1];
      OffersOnly(queue, before);
      assert OffersOf(fs)[..|fs| - 1] == OffersOf(before) && before + [f] == fs;
      OfferOneMore(queue, [], before, f);
    }
  }

  // ------------------------------------------------------------- valid targets

  // These are the targets at these places, all of them valid, in the order of the
  // frame.
  ghost predicate PickedAt(f: Frame, n: nat, targets: seq<Target>, at: seq<nat>)
    requires n <= |f|
  {
    && |targets| == |at|
    && (forall k :: 0 <= k < |at| ==> at[k] < n && f[at[k]] == targets[k] && targets[k].valid)
    && forall k, l :: 0 <= k < l < |at| ==> at[k] < at[l]
  }

  // The targets of a frame that carry data: at[k] is where the k-th of them stands
  // in the frame, and no valid target stands elsewhere.
  method ValidTargets(f: Frame) returns (targets: seq<Target>, ghost at: seq<nat>)
    ensures forall t :: t in targets <==> t in f && t.valid
    ensures PickedAt(f, |f|, targets, at) && forall i :: 0 <= i < |f| && f[i].valid ==> i in at
  {
    targets, at := [], [];
    for i := 0 to |f|
      invariant PickedAt(f, i, targets, at)
      invariant forall j :: 0 <= j < i && f[j].valid ==> j in at
    {
      if f[i].valid {
        targets, at := targets + [f[i]], at + [i];
      }
    }
    forall t ensures t in targets <==> t in f && t.valid {
      if t in f && t.valid {
        var i :| 0 <= i < |f| && f[i] == t;
        var k :| 0 <= k < |at| && at[k] == i;
      }
    }
  }

  // ----------------------------------------------------------------- round trip

  // A reading as the radar sends it; the two reserved bytes can be anything.
  function EncodeReading(r: Reading, reserved: (byte, byte)): seq<byte> {
    Encode16(r.x) + Encode16(r.y) + Encode16(r.speed) + [reserved.0, reserved.1]
  }

  datatype Sent = Sent(a: Reading, b: Reading, c: Reading, ra: (byte, byte), rb: (byte, byte), rc: (byte, byte))

  function EncodePayload(s: Sent): seq<byte> {
    EncodeReading(s.a, s.ra) + EncodeReading(s.b, s.rb) + EncodeReading(s.c, s.rc)
  }

  function EncodeFrame(s: Sent): seq<byte> {
    [0xAA, 0xFF, 0x03, 0x00] + EncodePayload(s) + [0x55, 0xCC]
  }

  lemma EncodedSizes(s: Sent)
    ensures |EncodePayload(s)| == PAYLOAD_LEN && |EncodeFrame(s)| == FRAME_LEN
  {}

  function EncodeAll(ss: seq<Sent>): seq<byte> {
    if ss == [] then [] else EncodeFrame(ss[0]) + EncodeAll(ss[1..])
  }

  lemma ReadingBack(data: seq<byte>, k: nat, r: Reading, reserved: (byte, byte))
    requires k + TARGET_SIZE <= |data| && data[k..k + TARGET_SIZE] == EncodeReading(r, reserved)
    ensures ReadingAt(data, k) == r
  {}

  function ExpectedFrame(s: Sent): Frame { [MakeTarget(s.a), MakeTarget(s.b), MakeTarget(s.c)] }

  lemma PayloadBack(s: Sent)
    ensures |EncodePayload(s)| == PAYLOAD_LEN && FrameOf(EncodePayload(s)) == ExpectedFrame(s)
  {
    var e := EncodePayload(s);
    assert e[0..8] == EncodeReading(s.a, s.ra) && e[8..16] == EncodeReading(s.b, s.rb);
    assert e[16..24] == EncodeReading(s.c, s.rc);
    ReadingBack(e, 0, s.a, s.ra);
    ReadingBack(e, 8, s.b, s.rb);
    ReadingBack(e, 16, s.c, s.rc);
    assert FrameOf(e)[0] == MakeTarget(s.a) && FrameOf(e)[1] == MakeTarget(s.b) && FrameOf(e)[2] == MakeTarget(s.c);
  }

  // An encoded frame is recognised wherever it stands.
  lemma FrameBack(data: seq<byte>, i: nat, s: Sent)
    requires i + FRAME_LEN <= |data| && data[i..i + FRAME_LEN] == EncodeFrame(s)
    ensures FrameAt(data, i) && Payload(data, i) == EncodePayload(s)
  {
    var e, p := EncodeFrame(s), EncodePayload(s);
    assert |p| == PAYLOAD_LEN && e[4..28] == p;
    assert forall j :: 0 <= j < FRAME_LEN ==> data[i + j] == e[j];
    assert Payload(data, i) == e[4..28];
  }

  function EncodedPayloads(ss: seq<Sent>): seq<seq<byte>> {
    seq(|ss|, k requires 0 <= k < |ss| => EncodePayload(ss[k]))
  }

  lemma SliceSplit(data: seq<byte>, i: nat, first: seq<byte>, rest: seq<byte>)
    requires i <= |data| && data[i..] == first + rest
    ensures i + |first| <= |data| && data[i..i + |first|] == first && data[i + |first|..] == rest
  {}

  lemma {:induction false} FramesInARow(data: seq<byte>, i: nat, ss: seq<Sent>, suffix: seq<byte>)
    requires i <= |data| && data[i..] == EncodeAll(ss) + suffix && |suffix| < FRAME_LEN
    ensures Payloads(data, i) == EncodedPayloads(ss)
    decreases |ss|
  {
    if ss == [] {
      assert EncodeAll(ss) + suffix == suffix;
    } else {
      var rest := EncodeAll(ss[1..]) + suffix;
      assert EncodeAll(ss) + suffix == EncodeFrame(ss[0]) + rest;
      EncodedSizes(ss[0]);
      SliceSplit(data, i, EncodeFrame(ss[0]), rest);
      FrameBack(data, i, ss[0]);
      FramesInARow(data, i + FRAME_LEN, ss[1..], suffix);
      assert EncodedPayloads(ss) == [EncodePayload(ss[0])] + EncodedPayloads(ss[1..]);
    }
  }

  lemma {:induction false} SkipPrefix(data: seq<byte>, i: nat, j: nat)
    requires i <= j <= |data| && forall k :: i <= k < j ==> data[k] != 0xAA
    ensures Payloads(data, i) == Payloads(data, j)
    decreases j - i
  {
    if i == j {
    } else {
      SkipPrefix(data, i + 1, j);
    }
  }

  lemma PayloadsAfterPrefix(data: seq<byte>, j: nat, ss: seq<Sent>, suffix: seq<byte>)
    requires j <= |data| && forall k :: 0 <= k < j ==> data[k] != 0xAA
    requires data[j..] == EncodeAll(ss) + suffix && |suffix| < FRAME_LEN
    ensures Payloads(data, 0) == EncodedPayloads(ss)
  {
    SkipPrefix(data, 0, j);
    FramesInARow(data, j, ss, suffix);
  }

  lemma PrefixSplit(prefix: seq<byte>, rest: seq<byte>)
    ensures (prefix + rest)[|prefix|..] == rest
    ensures forall k :: 0 <= k < |prefix| ==> (prefix + rest)[k] == prefix[k]
  {}

  // Any frames, after a prefix without the first header byte and before a rest
  // too short for a frame, come back exactly, whatever bytes they carry.
  lemma RoundTrip(prefix: seq<byte>, ss: seq<Sent>, suffix: seq<byte>)
    requires 0xAA !in prefix && |suffix| < FRAME_LEN
    ensures var found := DecodeAll(Payloads(prefix + EncodeAll(ss) + suffix, 0));
            |found| == |ss| && forall k :: 0 <= k < |ss| ==> found[k] == ExpectedFrame(ss[k])
  {
    var rest := EncodeAll(ss) + suffix;
    assert prefix + EncodeAll(ss) + suffix == prefix + rest;
    PrefixSplit(prefix, rest);
    PayloadsAfterPrefix(prefix + rest, |prefix|, ss, suffix);
    forall k | 0 <= k < |ss| ensures FrameOf(EncodedPayloads(ss)[k]) == ExpectedFrame(ss[k]) {
      PayloadBack(ss[k]);
    }
  }
}
