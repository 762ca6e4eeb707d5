// The length-prefixed video stream between the native process and its proxy.
module VideoStream {
  import opened ByteCodec

  type Frame = seq<byte>

  const MAX_FRAME_SIZE: nat := 1920 * 1080 / 2

  predicate SizeOk(n: nat) { 0 < n <= MAX_FRAME_SIZE }

  // The writer: each frame goes out behind its length, cut to 32 bits.
  function Encode(fs: seq<Frame>): seq<byte> {
    if fs == [] then [] else Encode32(|fs[0]|) + fs[0] + Encode(fs[1..])
  }

  // What a reader of this byte stream delivers before it gives up.
  function Decode(s: seq<byte>): seq<Frame>
    decreases |s|
  {
    if |s| < 4 then []
    else
      var size := Uint32(s[..4]);
      if !SizeOk(size) || |s| - 4 < size then []
      else [s[4..4 + size]] + Decode(s[4 + size..])
  }

  // The reader: one buffer is reused for every frame; frames collects what the
  // buffer held at each callback.
  method HandleVideoFrames(conn: seq<byte>) returns (frames: seq<Frame>)
    ensures frames == Decode(conn)
  {
    var inboundPacket := new byte[MAX_FRAME_SIZE];
    var rest := conn;
    frames := [];
    while true
      invariant Decode(conn) == frames + Decode(rest)
      decreases |rest|
    {
      ghost var s := rest;
      if |rest| < 4 { break; }
      var frameSize := Uint32(rest[..4]);
      rest := rest[4..];
      if frameSize == 0 || frameSize > MAX_FRAME_SIZE {
        return;
      }
      if |rest| < frameSize {
        return;
      }
      forall i | 0 <= i < frameSize {
        inboundPacket[i] := rest[i];
      }
      assert inboundPacket[..frameSize] == rest[..frameSize];
      rest := rest[frameSize..];
      assert rest == s[4 + frameSize..] && inboundPacket[..frameSize] == s[4..4 + frameSize];
      frames := frames + [inboundPacket[..frameSize]];
    }
  }

  // The frames before the first one whose size is refused.
  function Accepted(fs: seq<Frame>): (k: nat)
    ensures k <= |fs|
    ensures forall i :: 0 <= i < k ==> SizeOk(|fs[i]|)
    ensures k < |fs| ==> !SizeOk(|fs[k]|)
  {
    if fs == [] || !SizeOk(|fs[0]|) then 0
    else
      var k := Accepted(fs[1..]);
      assert forall i :: 0 < i <= k ==> fs[i] == fs[1..][i - 1];
      k + 1
  }

  lemma EncodeStep(fs: seq<Frame>)
    requires fs != []
    ensures var s := Encode(fs);
            && |s| >= 4 + |fs[0]| && Uint32(s[..4]) == |fs[0]| % TWO32
            && s[4..4 + |fs[0]|] == fs[0] && s[4 + |fs[0]|..] == Encode(fs[1..])
  {
    var s, h := Encode(fs), Encode32(|fs[0]|);
    Uint32RoundTrip(|fs[0]|);
    assert s[..4] == h;
  }

  lemma SmallModulo(n: nat)
    requires n < TWO32
    ensures n % TWO32 == n
  {}

  lemma DecodeAccepted(fs: seq<Frame>)
    requires fs != [] && SizeOk(|fs[0]|)
    ensures Decode(Encode(fs)) == [fs[0]] + Decode(Encode(fs[1..]))
  {
    EncodeStep(fs);
    SmallModulo(|fs[0]|);
  }

  lemma SmallerModulo(n: nat)
    ensures n % TWO32 <= n
  {
    assert n == TWO32 * (n / TWO32) + n % TWO32;
  }

  lemma DecodeRefused(fs: seq<Frame>)
    requires fs != [] && !SizeOk(|fs[0]|)
    ensures Decode(Encode(fs)) == [] <==> !SizeOk(|fs[0]| % TWO32)
  {
    EncodeStep(fs);
    if SizeOk(|fs[0]| % TWO32) {
      SmallerModulo(|fs[0]|);
      assert |Encode(fs)| - 4 >= |fs[0]| % TWO32;
    }
  }

  // Reading back what was written yields the frames up to the first refused
  // size, exactly when that size is still refused after it was cut to 32 bits.
  lemma {:induction false} RoundTrip(fs: seq<Frame>)
    ensures Decode(Encode(fs)) == fs[..Accepted(fs)]
       <==> (Accepted(fs) < |fs| ==> !SizeOk(|fs[Accepted(fs)]| % TWO32))
    decreases |fs|
  {
    if fs == [] {
      assert Encode(fs) == [];
    } else if SizeOk(|fs[0]|) {
      var rest, k := fs[1..], Accepted(fs[1..]);
      DecodeAccepted(fs);
      RoundTrip(rest);
      assert fs[..k + 1] == [fs[0]] + rest[..k];
      assert ([fs[0]] + Decode(Encode(rest)))[1..] == Decode(Encode(rest)) && ([fs[0]] + rest[..k])[1..] == rest[..k];
    } else {
      DecodeRefused(fs);
      assert fs[..0] == [];
    }
  }

  // In particular for all frames a 32-bit length can describe.
  lemma RoundTripShort(fs: seq<Frame>)
    requires forall i :: 0 <= i < |fs| ==> |fs[i]| < TWO32
    ensures Decode(Encode(fs)) == fs[..Accepted(fs)]
  {
    var k := Accepted(fs);
    assert k < |fs| ==> !SizeOk(|fs[k]| % TWO32) by {
      if k < |fs| { SmallModulo(|fs[k]|); }
    }
    RoundTrip(fs);
  }

  // A frame of 2^32 + 1 bytes is announced as one byte and torn apart.
  lemma OversizedFrameIsTorn(f: Frame)
    requires |f| == TWO32 + 1
    ensures Accepted([f]) == 0 && Decode(Encode([f])) != [] && Decode(Encode([f]))[0] == f[..1]
  {
    RoundTrip([f]);
    EncodeStep([f]);
    assert |f| % TWO32 == 1;
  }

  lemma CutSlices(s: seq<byte>, k: nat, size: nat)
    requires 4 + size <= k <= |s|
    ensures s[..k][..4] == s[..4] && s[..k][4..4 + size] == s[4..4 + size]
    ensures s[..k][4 + size..] == s[4 + size..][..k - 4 - size]
  {}

  lemma PrefixAfterFirst(f: Frame, short: seq<Frame>, long: seq<Frame>)
    requires short <= long
    ensures [f] + short <= [f] + long
  {
    forall i | 0 <= i < |[f] + short| ensures ([f] + short)[i] == ([f] + long)[i] {
      if i > 0 { assert short[i - 1] == long[i - 1]; }
    }
  }

  // A stream cut off anywhere delivers a prefix of what the whole one delivers.
  lemma {:induction false} CutStream(s: seq<byte>, k: nat)
    requires k <= |s|
    ensures Decode(s[..k]) <= Decode(s)
    decreases |s|
  {
    if k < 4 {
      assert Decode(s[..k]) == [];
    } else {
      CutSlices(s, k, 0);
      var size := Uint32(s[..4]);
      if !SizeOk(size) || k - 4 < size {
        assert Decode(s[..k]) == [];
      } else {
        var rest := s[4 + size..];
        CutSlices(s, k, size);
        CutStream(rest, k - 4 - size);
        PrefixAfterFirst(s[4..4 + size], Decode(rest[..k - 4 - size]), Decode(rest));
      }
    }
  }

  lemma Regroup(a: seq<byte>, b: seq<byte>, c: seq<byte>, d: seq<byte>)
    ensures a + b + (c + d) == a + b + c + d
  {}

  lemma {:induction false} EncodeOneMore(fs: seq<Frame>, f: Frame)
    ensures Encode(fs + [f]) == Encode(fs) + Encode([f])
  {
    if fs == [] {
      assert fs + [f] == [f];
    } else {
      EncodeOneMore(fs[1..], f);
      assert (fs + [f])[0] == fs[0] && (fs + [f])[1..] == fs[1..] + [f];
      Regroup(Encode32(|fs[0]|), fs[0], Encode(fs[1..]), Encode([f]));
    }
  }

  // A frame gets through exactly when it has 1 to 1036800 bytes, or so many modulo
  // 2^32.
  lemma GetsThroughExactly(f: Frame)
    ensures Decode(Encode([f])) != [] <==> 1 <= |f| % TWO32 <= 1036800
    ensures 1 <= |f| <= 1036800 ==> Decode(Encode([f])) == [f]
  {
    EncodeStep([f]);
    assert Encode([f][1..]) == [];
    if SizeOk(|f|) {
      SmallModulo(|f|);
      DecodeAccepted([f]);
    } else {
      DecodeRefused([f]);
    }
  }

  // The writing side: each frame is appended to the stream as it arrives.
  class Writer {
    var conn: seq<byte>
    ghost var written: seq<Frame>

    ghost predicate Valid()
      reads this
    {
      conn == Encode(written)
    }

    constructor ()
      ensures Valid() && written == []
    {
      conn, written := [], [];
    }

    method OnVideoFrameReceived(frame: Frame)
      requires Valid()
      modifies this
      ensures Valid() && written == old(written) + [frame]
    {
      EncodeOneMore(written, frame);
      assert Encode([frame]) == Encode32(|frame|) + frame + Encode([]);
      var frameSizeBuffer := Encode32(|frame|);
      conn := conn + frameSizeBuffer;
      conn := conn + frame;
      written := written + [frame];
    }
  }
}
