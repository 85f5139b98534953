/** `struct wlrdp_encoder` and its functions (src/session/encoder.c), updating fields in place. */
module Encoders {
  import opened EncoderSpec
  import opened SessionTypes
  import opened Words

  class Encoder {
    var mode: EncoderMode
    var width: U32
    var height: U32
    var bpp: nat
    var version: nat
    var outLen: U32
    var auxLen: U32
    var meta: Meta
    var h264: bool
    var progressive: bool
    var nsc: bool
    var stream: bool
    var convSize: U32
    ghost var live: Heap

    ghost function State(): (r: EncoderState)
      reads this
    {
      EncoderState(mode, Picture(width, height, bpp, version), Output(outLen, auxLen, meta),
                   Handles(h264, progressive, nsc, stream), convSize, live)
    }

    constructor ()
      ensures State() == Zeroed(EMPTY_HEAP) && Blank(State())
    {
      mode, width, height, bpp, version := Raw, 0, 0, 0, 0;
      outLen, auxLen, meta := 0, 0, NO_META;
      h264, progressive, nsc, stream, convSize := false, false, false, false, 0;
      live := EMPTY_HEAP;
    }

    method ClearOutput()
      modifies this`outLen, this`auxLen, this`meta
      ensures Output(outLen, auxLen, meta) == NO_OUTPUT
    {
      outLen, auxLen, meta := 0, 0, NO_META;
    }

    method ClearHandles()
      modifies this`h264, this`progressive, this`nsc, this`stream, this`convSize
      ensures Handles(h264, progressive, nsc, stream) == HandlesOf(Raw) && convSize == 0
    {
      h264, progressive, nsc, stream, convSize := false, false, false, false, 0;
    }

    /** `memset(enc, 0, sizeof(*enc))`. */
    method Clear()
      modifies this`mode, this`width, this`height, this`bpp, this`version, this`outLen, this`auxLen, this`meta,
               this`h264, this`progressive, this`nsc, this`stream, this`convSize
      ensures State() == Zeroed(live)
    {
      mode, width, height, bpp, version := Raw, 0, 0, 0, 0;
      ClearOutput();
      ClearHandles();
    }

    method RawInit()
      modifies this`mode
      ensures mode == Raw
    {
      mode := Raw;
    }

    /** A codec that does not come up has freed what it took. */
    method NscInit(o: CodecInit) returns (ok: bool)
      modifies this`mode, this`nsc, this`stream, this`live
      ensures ok == CodecUp(Nsac, o)
      ensures ok ==> mode == Nsac && nsc && stream && live == With(old(live), Nsac)
      ensures !ok ==> unchanged(this)
    {
      if !o.newOk {
        return false;
      }
      live := live.(contexts := live.contexts.(nsc := live.contexts.nsc + 1));
      if !o.setupOk {
        live := live.(contexts := live.contexts.(nsc := live.contexts.nsc - 1));
        return false;
      }
      if !o.streamOk {
        live := live.(contexts := live.contexts.(nsc := live.contexts.nsc - 1));
        return false;
      }
      live := live.(stream := live.stream + 1);
      nsc := true;
      stream := true;
      mode := Nsac;
      return true;
    }

    method H264Init(o: CodecInit) returns (ok: bool)
      requires !h264
      modifies this`mode, this`h264, this`live
      ensures ok == CodecUp(H264, o)
      ensures ok ==> mode == H264 && h264 && live == With(old(live), H264)
      ensures !ok ==> unchanged(this)
    {
      h264 := o.newOk;
      if !h264 {
        return false;
      }
      live := live.(contexts := live.contexts.(h264 := live.contexts.h264 + 1));
      if !o.setupOk {
        live := live.(contexts := live.contexts.(h264 := live.contexts.h264 - 1));
        h264 := false;
        return false;
      }
      mode := H264;
      return true;
    }

    method ProgressiveInit(o: CodecInit) returns (ok: bool)
      requires !progressive
      modifies this`mode, this`progressive, this`live
      ensures ok == CodecUp(ProgressiveRfx, o)
      ensures ok ==> mode == ProgressiveRfx && progressive && live == With(old(live), ProgressiveRfx)
      ensures !ok ==> unchanged(this)
    {
      progressive := o.newOk;
      if !progressive {
        return false;
      }
      live := live.(contexts := live.contexts.(progressive := live.contexts.progressive + 1));
      if !o.setupOk {
        live := live.(contexts := live.contexts.(progressive := live.contexts.progressive - 1));
        progressive := false;
        return false;
      }
      mode := ProgressiveRfx;
      return true;
    }

    /** The wanted codec, or raw if it does not come up. */
    method BringUp(wanted: EncoderMode, o: CodecInit)
      requires mode == Raw && !h264 && !progressive && !nsc && !stream
      modifies this`mode, this`h264, this`progressive, this`nsc, this`stream, this`live
      ensures mode == Landing(wanted, o) && live == With(old(live), mode)
      ensures Handles(h264, progressive, nsc, stream) == HandlesOf(mode)
    {
      if wanted == H264 {
        var ok := H264Init(o);
        if ok {
          return;
        }
      }
      if wanted == ProgressiveRfx {
        var ok := ProgressiveInit(o);
        if ok {
          return;
        }
      }
      if wanted == Nsac {
        var ok := NscInit(o);
        if ok {
          return;
        }
      }
      RawInit();
    }

    /** `encoder_init`. */
    method Init(mode: EncoderMode, width: U32, height: U32, version: nat, bpp: nat, o: CodecInit) returns (ok: bool)
      modifies this
      ensures ok && State() == EncoderSpec.Init(old(State()), mode, width, height, version, bpp, o)
    {
      Clear();
      this.width := width;
      this.height := height;
      this.bpp := bpp;
      this.version := version;
      BringUp(mode, o);
      return true;
    }

    /** The conversion buffer grows when the picture needs more than it holds. */
    method Convert(o: EncodeOutcome) returns (ok: bool)
      modifies this`convSize, this`live
      ensures (State(), ok) == Converted(old(State()), o)
    {
      var dstStride := ToU32(ToU32(width * bpp) + 7) / 8;
      var needed := ToU32(dstStride * height);
      if convSize < needed {
        if !o.allocOk {
          return false;
        }
        if convSize == 0 {
          live := live.(conv := live.conv + 1);
        }
        convSize := needed;
      }
      return o.copyOk;
    }

    method RawEncode(o: EncodeOutcome) returns (ok: bool)
      requires mode == Raw
      modifies this
      ensures (State(), ok) == EncoderSpec.Encode(old(State()), o)
    {
      ok := Convert(o);
      if !ok {
        return;
      }
      outLen := ToU32(ToU32(ToU32(width * bpp) + 7) / 8 * height);
      auxLen := 0;
    }

    method NscEncode(o: EncodeOutcome) returns (ok: bool)
      requires mode == Nsac
      modifies this
      ensures (State(), ok) == EncoderSpec.Encode(old(State()), o)
    {
      ok := Convert(o);
      if !ok {
        return;
      }
      if !o.codecOk {
        return false;
      }
      outLen := o.outLen;
      auxLen := 0;
    }

    /** `encoder_clear_h264_metadata`. */
    method ClearH264Metadata()
      modifies this`meta, this`live
      ensures State() == RegionsCleared(old(State()))
    {
      if meta.main {
        live := live.(regions := live.regions - 1);
      }
      if meta.aux {
        live := live.(regions := live.regions - 1);
      }
      meta := NO_META;
    }

    /** `avc444_compress` or `avc420_compress`, by the AVC444 version. */
    method Compress(o: EncodeOutcome)
      requires meta == NO_META && auxLen == 0
      modifies this`outLen, this`auxLen, this`meta, this`live
      ensures State() == Compressed(old(State()), o)
    {
      outLen, meta := o.outLen, Meta(o.metaRects, o.mainRegions, false);
      if version != 0 {
        auxLen, meta := o.auxLen, meta.(aux := o.auxRegions);
      }
      live := live.(regions := live.regions + Arrays(meta));
    }

    method H264Encode(o: EncodeOutcome) returns (ok: bool)
      requires mode == H264
      modifies this
      ensures (State(), ok) == EncoderSpec.Encode(old(State()), o)
    {
      ClearH264Metadata();
      outLen := 0;
      auxLen := 0;
      Compress(o);
      if !o.codecOk {
        ClearH264Metadata();
        return false;
      }
      return true;
    }

    method ProgressiveEncode(o: EncodeOutcome) returns (ok: bool)
      requires mode == ProgressiveRfx
      modifies this
      ensures (State(), ok) == EncoderSpec.Encode(old(State()), o)
    {
      outLen := o.outLen;
      if !o.codecOk {
        outLen := 0;
        return false;
      }
      auxLen := 0;
      return true;
    }

    /** `encoder_encode`. */
    method Encode(o: EncodeOutcome) returns (ok: bool)
      modifies this
      ensures (State(), ok) == EncoderSpec.Encode(old(State()), o)
    {
      match mode
      case H264 => ok := H264Encode(o);
      case ProgressiveRfx => ok := ProgressiveEncode(o);
      case Nsac => ok := NscEncode(o);
      case Raw => ok := RawEncode(o);
    }

    /** `encoder_destroy`; every handle that is set must refer to a live object. */
    method Destroy()
      requires OwnsAll(State())
      modifies this
      ensures State() == EncoderSpec.Destroy(old(State())) && IsEmpty(live)
    {
      ClearH264Metadata();
      if h264 {
        live := live.(contexts := live.contexts.(h264 := live.contexts.h264 - 1));
        h264 := false;
      }
      if progressive {
        live := live.(contexts := live.contexts.(progressive := live.contexts.progressive - 1));
        progressive := false;
      }
      if stream {
        live := live.(stream := live.stream - 1);
        stream := false;
      }
      if nsc {
        live := live.(contexts := live.contexts.(nsc := live.contexts.nsc - 1));
        nsc := false;
      }
      if convSize > 0 {
        live := live.(conv := live.conv - 1);
      }
      convSize := 0;
      Clear();
    }
  }
}
