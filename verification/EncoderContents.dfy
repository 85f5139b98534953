/** What an encoding reports, in terms of the picture and of the codec's own answers: when it succeeds, how
    many bytes, and what a failure leaves (src/session/encoder.c:31-137, 184-322). */
module EncoderContents {
  import opened EncoderSpec
  import opened SessionTypes
  import opened Words

  lemma SmallStaysSame(n: int)
    requires 0 <= n < 0x1_0000_0000
    ensures ToU32(n) == n
  {
  }

  /** Whole rows of whole bytes: with eight times k bits a pixel, a row has width times k bytes. */
  lemma RowBytes(width: nat, k: nat, bits: nat)
    requires bits == 8 * k
    ensures (width * bits + 7) / 8 == width * k
  {
    assert width * bits == 8 * (width * k) by {
      assert width * (8 * k) == 8 * (width * k);
    }
  }

  /** The bytes of a raw picture are its rows, each rounded up to whole bytes, if 32 bits hold them. */
  lemma RawBytesAreRows(width: U32, height: U32, bpp: nat, row: nat)
    requires width * bpp + 7 < 0x1_0000_0000 && row == (width * bpp + 7) / 8 && row * height < 0x1_0000_0000
    ensures RawBytes(width, height, bpp) == row * height
  {
    SmallStaysSame(width * bpp);
    SmallStaysSame(width * bpp + 7);
    SmallStaysSame(row * height);
  }

  /** A row of so many bytes holds the row's pixels and is not a byte too long. */
  predicate IsRow(row: nat, width: nat, bpp: nat) {
    8 * row >= width * bpp && (row > 0 ==> 8 * (row - 1) < width * bpp)
  }

  lemma RowExactly(row: nat, width: nat, bpp: nat)
    requires IsRow(row, width, bpp)
    ensures row == (width * bpp + 7) / 8
  {
  }

  /** The conversion that precedes a raw or NSCodec frame: it succeeds exactly if the buffer is large enough
      or can be made so and the copy succeeds, and then the buffer holds the picture. */
  lemma ConversionExactly(e: EncoderState, o: EncodeOutcome, row: nat)
    requires e.mode == Raw || e.mode == Nsac
    requires var p := e.picture;
             IsRow(row, p.width, p.bpp) && p.width * p.bpp + 7 < 0x1_0000_0000 && row * p.height < 0x1_0000_0000
    ensures var (r, ok) := Encode(e, o); var size := row * e.picture.height;
            && (ok <==> (e.convSize >= size || o.allocOk) && o.copyOk && (e.mode == Nsac ==> o.codecOk))
            && r.convSize == (if e.convSize < size && o.allocOk then size else e.convSize)
            && (ok ==> r.convSize >= size)
  {
    RowExactly(row, e.picture.width, e.picture.bpp);
    RawBytesAreRows(e.picture.width, e.picture.height, e.picture.bpp, row);
  }

  /** A raw frame is its rows: height times the bytes of one row, rounded up to whole bytes. */
  lemma RawFrameIsRows(e: EncoderState, o: EncodeOutcome, row: nat)
    requires e.mode == Raw && Encode(e, o).1
    requires var p := e.picture;
             IsRow(row, p.width, p.bpp) && p.width * p.bpp + 7 < 0x1_0000_0000 && row * p.height < 0x1_0000_0000
    ensures var r := Encode(e, o).0;
            && r.output.outLen == row * e.picture.height && r.output.auxLen == 0
            && r.convSize >= r.output.outLen
  {
    ConversionExactly(e, o, row);
    RowExactly(row, e.picture.width, e.picture.bpp);
    RawBytesAreRows(e.picture.width, e.picture.height, e.picture.bpp, row);
  }

  /** With whole bytes to a pixel that is width times height times bytes. */
  lemma RawFrameBytes(e: EncoderState, o: EncodeOutcome, k: nat)
    requires e.mode == Raw && Encode(e, o).1 && e.picture.bpp == 8 * k
    requires var p := e.picture; p.width * (8 * k) + 7 < 0x1_0000_0000 && p.width * k * p.height < 0x1_0000_0000
    ensures var r := Encode(e, o).0;
            && r.output.outLen == e.picture.width * k * e.picture.height && r.output.auxLen == 0
            && r.convSize >= r.output.outLen
  {
    var row := e.picture.width * k;
    RowBytes(e.picture.width, k, e.picture.bpp);
    assert e.picture.width * e.picture.bpp == 8 * row;
    RawFrameIsRows(e, o, row);
  }

  /** The other codecs report their own lengths: both streams and the regions with AVC444, one stream and the
      regions with AVC420, one stream otherwise. */
  lemma CodecFrame(e: EncoderState, o: EncodeOutcome)
    requires e.mode != Raw && Encode(e, o).1
    ensures var out := Encode(e, o).0.output;
            && out.outLen == o.outLen
            && out.auxLen == (if e.mode == H264 && e.picture.version != 0 then o.auxLen else 0)
            && (e.mode == H264 ==> out.meta.rects == o.metaRects)
  {
  }

  /** When an encoding succeeds, apart from the conversion; and a failed H.264 encoding leaves no regions, a
      failed Progressive one no bytes. */
  lemma CodecAnswersExactly(e: EncoderState, o: EncodeOutcome)
    ensures e.mode == H264 || e.mode == ProgressiveRfx ==> (Encode(e, o).1 <==> o.codecOk)
    ensures e.mode == H264 && !o.codecOk ==> Encode(e, o).0.output.meta == NO_META
    ensures e.mode == ProgressiveRfx && !o.codecOk ==> Encode(e, o).0.output.outLen == 0
    ensures (e.mode == Raw || e.mode == Nsac) && !Encode(e, o).1 ==> Encode(e, o).0.output == e.output
  {
  }

  /** The mode that an initialisation ends in: the wanted one exactly if all that it needs came up, and raw
      otherwise; size, depth and version are as asked, and nothing is encoded yet. */
  lemma InitExactly(e: EncoderState, mode: EncoderMode, w: U32, h: U32, version: nat, bpp: nat, o: CodecInit)
    ensures var i := Init(e, mode, w, h, version, bpp, o);
            && (i.mode == mode <==> mode == Raw || (o.newOk && o.setupOk && (mode == Nsac ==> o.streamOk)))
            && (i.mode != mode ==> i.mode == Raw)
            && i.picture.width == w && i.picture.height == h && i.picture.bpp == bpp && i.picture.version == version
            && i.output.outLen == 0 && i.output.auxLen == 0 && i.convSize == 0
  {
  }
}
