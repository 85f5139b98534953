/** The length field that splits an AVC444 bitmap stream (src/session/rdp_peer.c:912-931), against the
    layouts of sections 2.2.4.4.1 and 2.2.4.5 of MS-RDPEGFX. */
module Avc444Framing {
  import opened Options
  import opened Words

  type RectBytes = r: seq<Byte> | |r| == 8 witness [0, 0, 0, 0, 0, 0, 0, 0]
  type QuantBytes = q: seq<Byte> | |q| == 2 witness [0, 0]

  datatype Region = Region(rect: RectBytes, quant: QuantBytes)

  /** One AVC420 stream: its metablock and its H.264 data. */
  datatype Stream = Stream(regions: seq<Region>, data: seq<Byte>)

  type Sized = s: Stream | |s.regions| < 0x1_0000_0000 && |s.data| < 0x1_0000_0000 witness Stream([], [])

  /** `cbAvc420EncodedBitstream1` as the C code computes it, in 32-bit arithmetic. */
  function LengthField(rects: U32, mainLen: U32): (r: U32) {
    ToU32(ToU32(4 + ToU32(rects * 10)) + mainLen)
  }

  function Rects(regions: seq<Region>): (b: seq<Byte>)
    ensures |b| == 8 * |regions|
  {
    if regions == [] then [] else regions[0].rect + Rects(regions[1..])
  }

  function Quants(regions: seq<Region>): (b: seq<Byte>)
    ensures |b| == 2 * |regions|
  {
    if regions == [] then [] else regions[0].quant + Quants(regions[1..])
  }

  function Serialise420(s: Sized): (b: seq<Byte>) {
    Le32(|s.regions|) + Rects(s.regions) + Quants(s.regions) + s.data
  }

  /** The regions behind n rectangles and n quality pairs. */
  function ReadRegions(rects: seq<Byte>, quants: seq<Byte>, n: nat): (r: seq<Region>)
    requires |rects| == 8 * n && |quants| == 2 * n
    ensures |r| == n
  {
    if n == 0 then [] else [Region(rects[..8], quants[..2])] + ReadRegions(rects[8..], quants[2..], n - 1)
  }

  function Parse420(b: seq<Byte>): (r: Option<Stream>) {
    if |b| < 4 then None
    else
      var n := FromLe32(b[..4]);
      if |b| < 4 + 10 * n then None
      else Some(Stream(ReadRegions(b[4..4 + 8 * n], b[4 + 8 * n..4 + 10 * n], n), b[4 + 10 * n..]))
  }

  lemma {:induction false} ReadRegionsInverts(regions: seq<Region>)
    ensures ReadRegions(Rects(regions), Quants(regions), |regions|) == regions
  {
    if regions != [] {
      assert Rects(regions)[8..] == Rects(regions[1..]);
      assert Quants(regions)[2..] == Quants(regions[1..]);
      ReadRegionsInverts(regions[1..]);
    }
  }

  lemma Parse420Inverts(s: Sized)
    ensures Parse420(Serialise420(s)) == Some(s)
  {
    var n := |s.regions|;
    var b := Serialise420(s);
    assert b[..4] == Le32(n);
    Le32RoundTrip(n);
    assert b[4..4 + 8 * n] == Rects(s.regions);
    assert b[4 + 8 * n..4 + 10 * n] == Quants(s.regions);
    assert b[4 + 10 * n..] == s.data;
    ReadRegionsInverts(s.regions);
  }

  /** What the frame's header carries of the length field: the C code hands over all 32 bits, and the layout
      of section 2.2.4.5 of MS-RDPEGFX has room for 30. */
  function HeaderField(first: Sized): (r: nat) {
    LengthField(|first.regions|, |first.data|) % 0x4000_0000
  }

  /** The field as the C code computes it is the size of the first stream exactly when that is below 2^32. */
  lemma LengthFieldExactly(first: Sized)
    ensures LengthField(|first.regions|, |first.data|) == |Serialise420(first)|
            <==> |Serialise420(first)| < 0x1_0000_0000
  {
    var n, len := |first.regions|, |first.data|;
    ToU32Absorbs(10 * n, 4);
    ToU32Absorbs(4 + 10 * n, len);
    assert LengthField(n, len) == ToU32(4 + 10 * n + len);
  }

  /** A frame header with LC = 0, then both streams. */
  function Framed(cb: nat, first: seq<Byte>, second: seq<Byte>): (r: seq<Byte>)
    requires cb < 0x4000_0000
  {
    Le32(cb) + first + second
  }

  /** An AVC444 frame with both streams. */
  function Serialise444(first: Sized, second: Sized): (r: seq<Byte>) {
    Framed(HeaderField(first), Serialise420(first), Serialise420(second))
  }

  function Both(first: Option<Stream>, second: Option<Stream>): (r: Option<(Stream, Stream)>) {
    if first.Some? && second.Some? then Some((first.value, second.value)) else None
  }

  function Parse444(b: seq<Byte>): (r: Option<(Stream, Stream)>) {
    if |b| < 4 then None
    else
      var info := FromLe32(b[..4]);
      var cb := info % 0x4000_0000;
      if info / 0x4000_0000 != 0 || |b| < 4 + cb then None
      else
        Both(Parse420(b[4..4 + cb]), Parse420(b[4 + cb..]))
  }

  /** What a reader makes of a header announcing `cb` bytes, the bytes it covers, and the rest. */
  lemma ParseFramed(cb: nat, covered: seq<Byte>, rest: seq<Byte>)
    requires cb == |covered| < 0x4000_0000
    ensures Parse444(Framed(cb, covered, rest)) == Both(Parse420(covered), Parse420(rest))
  {
    var b := Framed(cb, covered, rest);
    assert b[..4] == Le32(cb);
    Le32RoundTrip(cb);
    assert b[4..4 + cb] == covered;
    assert b[4 + cb..] == rest;
  }

  lemma FittingFrameReturns(cb: nat, first: Sized, second: Sized)
    requires cb == |Serialise420(first)| < 0x4000_0000
    ensures Parse444(Framed(cb, Serialise420(first), Serialise420(second))) == Some((first, second))
  {
    ParseFramed(cb, Serialise420(first), Serialise420(second));
    Parse420Inverts(first);
    Parse420Inverts(second);
  }

  lemma Parse420Length(b: seq<Byte>, s: Stream)
    requires Parse420(b) == Some(s)
    ensures |b| == 4 + 10 * |s.regions| + |s.data|
  {
  }

  lemma FramedSplits(cb: nat, x: seq<Byte>, y: seq<Byte>)
    requires cb < |x| && cb < 0x4000_0000
    ensures Framed(cb, x, y) == Framed(cb, x[..cb], x[cb..] + y)
  {
    assert x == x[..cb] + x[cb..];
  }

  lemma ShortHeaderLosesFrame(cb: nat, x: seq<Byte>, y: seq<Byte>, first: Stream, second: Stream)
    requires cb < |x| == 4 + 10 * |first.regions| + |first.data| && cb < 0x4000_0000
    ensures Parse444(Framed(cb, x, y)) != Some((first, second))
  {
    FramedSplits(cb, x, y);
    ParseFramed(cb, x[..cb], x[cb..] + y);
    if Parse420(x[..cb]) == Some(first) {
      Parse420Length(x[..cb], first);
    }
  }

  /** The header equals the first stream's size when that fits, and is smaller otherwise. */
  lemma HeaderIsSize(first: Sized)
    ensures |Serialise420(first)| < 0x4000_0000 ==> HeaderField(first) == |Serialise420(first)|
    ensures |Serialise420(first)| >= 0x4000_0000 ==> HeaderField(first) < |Serialise420(first)|
  {
    var rects, len := |first.regions|, |first.data|;
    ToU32Absorbs(rects * 10, 4);
    ToU32Absorbs(4 + rects * 10, len);
    var size := 4 + rects * 10 + len;
    assert LengthField(rects, len) == ToU32(size);
    if size < 0x4000_0000 {
      assert ToU32(size) == size;
    }
  }

  /** Parsing undoes serialising exactly when the first stream fits the 30 bits that the layout gives its
      length; no wrap of the 32-bit arithmetic can make a longer stream come back. */
  lemma FramingRoundTrip(first: Sized, second: Sized)
    ensures Parse444(Serialise444(first, second)) == Some((first, second)) <==> |Serialise420(first)| < 0x4000_0000
  {
    var cb := HeaderField(first);
    HeaderIsSize(first);
    if cb == |Serialise420(first)| {
      FittingFrameReturns(cb, first, second);
    } else {
      ShortHeaderLosesFrame(cb, Serialise420(first), Serialise420(second), first, second);
    }
  }
}
