/** Values shared by the peer, the encoder and the server: codecs, graphics PDUs and the outcomes
    that FreeRDP, the codecs and Wayland may return. */
module SessionTypes {
  import opened Words

  datatype SendMode = SurfaceBits | Avc420 | Avc444 | Avc444v2 | Progressive

  datatype EncoderMode = Raw | Nsac | H264 | ProgressiveRfx

  /** Who produced a frame's bytes: the encoder's mode and, for H.264, its AVC444 version. */
  datatype Producer = Producer(mode: EncoderMode, version: nat)

  datatype CodecId = IdAvc420 | IdAvc444 | IdAvc444v2 | IdCaProgressive | IdNsCodec | IdNone

  /** A codec tag tells the client the truth about the bytes that follow it. */
  predicate TagMatches(id: CodecId, producer: Producer) {
    match id
    case IdAvc420 => producer == Producer(H264, 0)
    case IdAvc444 => producer == Producer(H264, 1)
    case IdAvc444v2 => producer == Producer(H264, 2)
    case IdCaProgressive => producer.mode == ProgressiveRfx
    case IdNsCodec => producer.mode == Nsac
    case IdNone => producer.mode == Raw
  }

  /** What the server hands to FreeRDP, in order; `ok` is the status FreeRDP answered with. */
  datatype Pdu =
    | CapsConfirm(index: nat, ok: bool)
    | ResetGraphics(width: U32, height: U32, ok: bool)
    | CreateSurface(id: nat, width: U32, height: U32, ok: bool)
    | MapSurface(id: nat, ok: bool)
    | DeleteSurface(id: nat)
    | StartFrame(frameId: U32, ok: bool)
    | SurfaceCommand(surfaceId: nat, codec: CodecId, right: U32, bottom: U32, length: U32, producer: Producer, ok: bool)
    | EndFrame(frameId: U32, ok: bool)
    | SurfaceBitsCommand(codec: CodecId, right: U32, bottom: U32, length: U32, producer: Producer, ok: bool)

  /** What `encoder_encode` leaves in the encoder for `rdp_peer_send_frame`. */
  datatype Frame = Frame(outLen: U32, auxLen: U32, metaRects: nat, producer: Producer)

  /** Answers of the graphics channel while a surface is set up, and while a frame is sent. */
  datatype SurfaceOutcome = SurfaceOutcome(resetOk: bool, createOk: bool, mapOk: bool)

  datatype SendOutcome = SendOutcome(startOk: bool, commandOk: bool, endOk: bool)

  /** Answers of `WTSOpenServerA` and `WTSVirtualChannelManagerOpen`. */
  datatype VcmOutcome = VcmOutcome(serverOk: bool, managerOk: bool)

  datatype DrdynvcState = Handshaking | Ready | Failed

  /** Answers while a channel is opened: its context's constructor and its opening calls. */
  datatype Opening = Opening(newOk: bool, openOk: bool) {
    predicate Up() {
      newOk && openOk
    }
  }

  /** Answers for the display, clipboard and sound channels; there may be no clipboard to connect. */
  datatype SideOpening = SideOpening(disp: Opening, clipboard: bool, cliprdr: Opening, sound: Opening)

  /** Answers while the channel manager is polled: the poll itself, the handshake state, and the opening
      of the channels once that is ready. */
  datatype VcmPoll = VcmPoll(checkOk: bool, drdynvc: DrdynvcState, gfx: Opening, side: SideOpening)

  /** Answers of a codec's constructor, its set-up call and, for NSCodec, its stream. */
  datatype CodecInit = CodecInit(newOk: bool, setupOk: bool, streamOk: bool)

  /** Answers while one frame is encoded: the buffer, the image conversion, the codec and its outputs, and
      whether the codec allocated arrays for the region metablocks of its two streams. */
  datatype EncodeOutcome =
    EncodeOutcome(allocOk: bool, copyOk: bool, codecOk: bool, outLen: U32, auxLen: U32, metaRects: nat,
                  mainRegions: bool, auxRegions: bool)

  /** Answers while a new peer is set up. */
  datatype PeerSetup = PeerSetup(newOk: bool, contextOk: bool, initOk: bool, initializeOk: bool) {
    predicate AllOk() {
      newOk && contextOk && initOk && initializeOk
    }
  }
}
