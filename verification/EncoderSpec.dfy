/** What each encoder operation does to the encoder's fields and to the codec resources it owns
    (src/session/encoder.c), as functions on snapshots. Class `Encoder` is proved against them. */
module EncoderSpec {
  import opened SessionTypes
  import opened Words

  /** Heap objects whose lifetime the encoder manages by hand: how many of each kind are allocated
      and not yet freed. A second free of the same object would make a count negative. */
  datatype Heap = Heap(contexts: Contexts, stream: int, conv: int, regions: int)

  datatype Contexts = Contexts(h264: int, progressive: int, nsc: int)

  const EMPTY_HEAP := Heap(Contexts(0, 0, 0), 0, 0, 0)

  predicate IsEmpty(h: Heap) {
    h.contexts.h264 == 0 && h.contexts.progressive == 0 && h.contexts.nsc == 0
    && h.stream == 0 && h.conv == 0 && h.regions == 0
  }

  function Count(held: bool): (r: nat) {
    if held then 1 else 0
  }

  datatype Picture = Picture(width: U32, height: U32, bpp: nat, version: nat)

  /** The region metablocks of the last frame's two streams: how many rectangles the first one names, and
      whether each holds arrays. */
  datatype Meta = Meta(rects: nat, main: bool, aux: bool)

  const NO_META := Meta(0, false, false)

  function Arrays(m: Meta): (r: nat) {
    (if m.main then 1 else 0) + if m.aux then 1 else 0
  }

  datatype Output = Output(outLen: U32, auxLen: U32, meta: Meta)

  const NO_OUTPUT := Output(0, 0, NO_META)

  datatype Handles = Handles(h264: bool, progressive: bool, nsc: bool, stream: bool)

  /** The encoder's fields, and every resource allocated for an encoder and not yet freed. */
  datatype EncoderState = EncoderState(
    mode: EncoderMode, picture: Picture, output: Output, handles: Handles, convSize: U32, live: Heap)

  /** `memset(enc, 0, sizeof(*enc))`: the fields are cleared, nothing is freed. */
  function Zeroed(live: Heap): (r: EncoderState) {
    EncoderState(Raw, Picture(0, 0, 0, 0), NO_OUTPUT, Handles(false, false, false, false), 0, live)
  }

  /** No encoder: the fields are clear and nothing is allocated. */
  predicate Blank(e: EncoderState) {
    e == Zeroed(e.live) && IsEmpty(e.live)
  }

  /** What is allocated is exactly what the fields point to. */
  ghost predicate OwnsAll(e: EncoderState) {
    && e.live.contexts.h264 == (if e.handles.h264 then 1 else 0)
    && e.live.contexts.progressive == (if e.handles.progressive then 1 else 0)
    && e.live.contexts.nsc == (if e.handles.nsc then 1 else 0)
    && e.live.stream == (if e.handles.stream then 1 else 0)
    && e.live.conv == (if e.convSize > 0 then 1 else 0)
    && e.live.regions == Arrays(e.output.meta)
  }

  /** The handles a codec sets once it is up. */
  function HandlesOf(mode: EncoderMode): (r: Handles) {
    match mode
    case Raw => Handles(false, false, false, false)
    case H264 => Handles(true, false, false, false)
    case ProgressiveRfx => Handles(false, true, false, false)
    case Nsac => Handles(false, false, true, true)
  }

  /** An encoder between two operations: it owns exactly what is live, only what its mode needs, and
      metadata of regions only in H.264 mode. */
  ghost predicate Sound(e: EncoderState) {
    && OwnsAll(e)
    && e.handles == HandlesOf(e.mode)
    && (e.convSize > 0 ==> e.mode == Raw || e.mode == Nsac)
    && (e.mode != H264 ==> e.output.meta == NO_META)
  }

  /** Whether the wanted codec came up; otherwise `encoder_init` falls back to raw. */
  predicate CodecUp(mode: EncoderMode, o: CodecInit) {
    match mode
    case Raw => true
    case H264 => o.newOk && o.setupOk
    case ProgressiveRfx => o.newOk && o.setupOk
    case Nsac => o.newOk && o.setupOk && o.streamOk
  }

  /** The resources after a codec has come up. */
  function With(live: Heap, mode: EncoderMode): (r: Heap) {
    match mode
    case Raw => live
    case H264 => live.(contexts := live.contexts.(h264 := live.contexts.h264 + 1))
    case ProgressiveRfx => live.(contexts := live.contexts.(progressive := live.contexts.progressive + 1))
    case Nsac => live.(contexts := live.contexts.(nsc := live.contexts.nsc + 1), stream := live.stream + 1)
  }

  /** The mode an initialisation ends in. */
  function Landing(mode: EncoderMode, o: CodecInit): (r: EncoderMode) {
    if CodecUp(mode, o) then mode else Raw
  }

  function Init(e: EncoderState, mode: EncoderMode, width: U32, height: U32,
                version: nat, bpp: nat, o: CodecInit): (r: EncoderState)
  {
    var m := Landing(mode, o);
    EncoderState(m, Picture(width, height, bpp, version), NO_OUTPUT, HandlesOf(m), 0, With(e.live, m))
  }

  function RawBytes(width: U32, height: U32, bpp: nat): (r: U32) {
    ToU32(ToU32(ToU32(width * bpp) + 7) / 8 * height)
  }

  /** Bytes of one uncompressed frame, in 32-bit arithmetic. */
  function RawSize(e: EncoderState): (r: U32) {
    RawBytes(e.picture.width, e.picture.height, e.picture.bpp)
  }

  function Converted(e: EncoderState, o: EncodeOutcome): (r: (EncoderState, bool)) {
    if e.convSize >= RawSize(e) then (e, o.copyOk)
    else if !o.allocOk then (e, false)
    else
      var live := if e.convSize == 0 then e.live.(conv := e.live.conv + 1) else e.live;
      (e.(convSize := RawSize(e), live := live), o.copyOk)
  }

  /** `encoder_clear_h264_metadata`. */
  function RegionsCleared(e: EncoderState): (r: EncoderState) {
    e.(output := e.output.(meta := NO_META), live := e.live.(regions := e.live.regions - Arrays(e.output.meta)))
  }

  /** What the H.264 codec leaves behind, before its answer is known; only AVC444 has a second stream. */
  function Compressed(e: EncoderState, o: EncodeOutcome): (r: EncoderState) {
    var meta := Meta(o.metaRects, o.mainRegions, e.picture.version != 0 && o.auxRegions);
    var auxLen := if e.picture.version != 0 then o.auxLen else 0;
    e.(output := Output(o.outLen, auxLen, meta), live := e.live.(regions := e.live.regions + Arrays(meta)))
  }

  /** The lengths a codec without a second stream reports. */
  function Reported(e: EncoderState, outLen: U32): (r: EncoderState) {
    e.(output := e.output.(outLen := outLen, auxLen := 0))
  }

  function Encode(e: EncoderState, o: EncodeOutcome): (r: (EncoderState, bool)) {
    match e.mode
    case Raw =>
      var (c, ok) := Converted(e, o);
      if ok then (Reported(c, RawSize(e)), true) else (c, false)
    case Nsac =>
      var (c, ok) := Converted(e, o);
      if ok && o.codecOk then (Reported(c, o.outLen), true) else (c, false)
    case H264 =>
      var r := Compressed(RegionsCleared(e), o);
      if o.codecOk then (r, true) else (RegionsCleared(r), false)
    case ProgressiveRfx =>
      if o.codecOk then (Reported(e, o.outLen), true) else (e.(output := e.output.(outLen := 0)), false)
  }

  /** `encoder_destroy`: what the fields point to is freed, then the fields are cleared. */
  function Destroy(e: EncoderState): (r: EncoderState) {
    var h := e.handles;
    var contexts := Contexts(e.live.contexts.h264 - if h.h264 then 1 else 0,
                             e.live.contexts.progressive - if h.progressive then 1 else 0,
                             e.live.contexts.nsc - if h.nsc then 1 else 0);
    Zeroed(Heap(contexts, e.live.stream - if h.stream then 1 else 0,
                e.live.conv - if e.convSize > 0 then 1 else 0, e.live.regions - Arrays(e.output.meta)))
  }

  function FrameOf(e: EncoderState): (r: Frame) {
    Frame(e.output.outLen, e.output.auxLen, e.output.meta.rects, Producer(e.mode, e.picture.version))
  }

  /** Initialising is sound exactly when no earlier encoder is still live: it clears the handles
      without freeing what they pointed to. */
  lemma InitSoundIffNothingLive(e: EncoderState, mode: EncoderMode, w: U32, h: U32,
                                version: nat, bpp: nat, o: CodecInit)
    ensures Sound(Init(e, mode, w, h, version, bpp, o)) <==> IsEmpty(e.live)
  {
  }

  lemma EncodeKeepsSound(e: EncoderState, o: EncodeOutcome)
    requires Sound(e)
    ensures var (r, ok) := Encode(e, o);
            Sound(r) && r.mode == e.mode && r.picture == e.picture
  {
    var (c, ok) := Converted(e, o);
    assert OwnsAll(c);
  }

  /** Destroying a sound encoder gives back every resource, once. */
  lemma DestroyFreesAll(e: EncoderState)
    requires Sound(e)
    ensures Blank(Destroy(e)) && Sound(Destroy(e))
  {
  }

  /** At most one codec context is ever live, and it is the one of the current mode. */
  lemma OneCodecContext(e: EncoderState)
    requires Sound(e)
    ensures e.live.contexts.h264 + e.live.contexts.progressive + e.live.contexts.nsc == (if e.mode == Raw then 0 else 1)
    ensures e.live.contexts.h264 == Count(e.mode == H264)
    ensures e.live.contexts.progressive == Count(e.mode == ProgressiveRfx)
    ensures e.live.contexts.nsc == e.live.stream == Count(e.mode == Nsac) && 0 <= e.live.conv <= 1
    ensures 0 <= e.live.regions <= 2 && (e.mode != H264 ==> e.live.regions == 0)
  {
  }
}
