/** The datagrams between daemon and session worker (src/common/ipc.c): eight header bytes, a payload of
    at most 256 bytes, and at most one attached descriptor. */
module IpcCodec {
  import opened Options
  import opened Words

  const HEADER: nat := 8
  const PAYLOAD_MAX: nat := 256
  type Payload = b: seq<Byte> | |b| <= PAYLOAD_MAX

  datatype Message = Message(msgType: U32, payload: Payload)

  /** One datagram of the socket pair; `fd` is the attached descriptor, or -1. */
  datatype Datagram = Datagram(bytes: seq<Byte>, fd: int)

  function Attached(fd: int): (r: int) {
    if fd >= 0 then fd else -1
  }

  function Encode(m: Message, fd: int): (r: Datagram) {
    Datagram(Le32(m.msgType) + Le32(|m.payload|) + m.payload, Attached(fd))
  }

  /** What a receiver makes of a datagram. A body of None means that the datagram was shorter than the
      length it declares: it is accepted, and the message keeps whatever payload it held. */
  datatype Received =
    | Rejected
    | Accepted(msgType: U32, payloadLen: U32, body: Option<seq<Byte>>, fd: int)

  /** `recvmsg` cuts a datagram to the size of the buffer. */
  function Cut(bytes: seq<Byte>): (r: seq<Byte>) {
    if |bytes| <= HEADER + PAYLOAD_MAX then bytes else bytes[..HEADER + PAYLOAD_MAX]
  }

  function Decode(d: Datagram): (r: Received)
    ensures r.Accepted? ==> r.payloadLen <= PAYLOAD_MAX && (r.body.Some? ==> |r.body.value| == r.payloadLen)
  {
    var b := Cut(d.bytes);
    if |b| < HEADER then Rejected
    else
      var len := FromLe32(b[4..8]);
      if len > PAYLOAD_MAX then Rejected
      else Accepted(FromLe32(b[..4]), len, if |b| >= HEADER + len then Some(b[8..8 + len]) else None, d.fd)
  }

  /** The layout of a datagram: type, length of the payload, payload. */
  lemma DatagramLayout(m: Message, fd: int)
    ensures var b := Encode(m, fd).bytes;
            && |b| == 8 + |m.payload| && b[8..] == m.payload
            && m.msgType == b[0] as int + 0x100 * b[1] as int + 0x1_0000 * b[2] as int + 0x100_0000 * b[3] as int
            && |m.payload| == b[4] as int + 0x100 * b[5] as int + 0x1_0000 * b[6] as int + 0x100_0000 * b[7] as int
            && Encode(m, fd).fd == (if fd >= 0 then fd else -1)
  {
    Le32Layout(m.msgType);
    Le32Layout(|m.payload|);
  }

  /** Receiving undoes sending: type, length, payload and descriptor. */
  lemma DecodeInvertsEncode(m: Message, fd: int)
    ensures Decode(Encode(m, fd)) == Accepted(m.msgType, |m.payload|, Some(m.payload), Attached(fd))
  {
    var b := Encode(m, fd).bytes;
    assert b[..4] == Le32(m.msgType) && b[4..8] == Le32(|m.payload|);
    Le32RoundTrip(m.msgType);
    Le32RoundTrip(|m.payload|);
    assert b[8..8 + |m.payload|] == m.payload;
  }

  /** Sending undoes receiving exactly for datagrams of the length they declare; shorter and longer ones
      are accepted but do not come back. */
  lemma EncodeInvertsDecodeExactly(d: Datagram)
    requires Decode(d).Accepted? && d.fd >= -1
    ensures var r := Decode(d);
            (r.body.Some? && Encode(Message(r.msgType, r.body.value), r.fd) == d)
            <==> |d.bytes| == HEADER + r.payloadLen
  {
    var r := Decode(d);
    var b := d.bytes;
    if |b| == HEADER + r.payloadLen {
      FromLe32RoundTrip(b[..4]);
      FromLe32RoundTrip(b[4..8]);
      assert b == b[..4] + b[4..8] + b[8..];
    }
  }

  /** What a receiver makes of every datagram, from its bytes: too short for a header or announcing too much,
      it is rejected; else type, length and descriptor are taken, and the payload if all of it is there. What
      follows the payload is lost. */
  lemma DecodesExactly(d: Datagram)
    ensures var b := d.bytes;
            if |b| < 8 || FromLe32(b[4..8]) > 256 then Decode(d) == Rejected
            else
              var len := FromLe32(b[4..8]);
              Decode(d) == Accepted(FromLe32(b[..4]), len, if |b| >= 8 + len then Some(b[8..8 + len]) else None, d.fd)
  {
    var b, c := d.bytes, Cut(d.bytes);
    if |b| >= 8 {
      assert c[4..8] == b[4..8] && c[..4] == b[..4];
      var len := FromLe32(b[4..8]);
      if len <= 256 && |b| >= 8 + len {
        assert c[8..8 + len] == b[8..8 + len];
      }
    }
  }

  /** A header alone that announces a payload is accepted, with no payload to go with it. */
  lemma ShortDatagramIsAccepted(msgType: U32, len: U32)
    requires 0 < len <= PAYLOAD_MAX
    ensures Decode(Datagram(Le32(msgType) + Le32(len), -1)) == Accepted(msgType, len, None, -1)
  {
    var b := Le32(msgType) + Le32(len);
    assert b[..4] == Le32(msgType) && b[4..8] == Le32(len);
    Le32RoundTrip(msgType);
    Le32RoundTrip(len);
  }

  // --- Traffic over the channel, received into one message again and again ---

  /** The contents of a `struct wlrdp_ipc_msg`: all of its payload array, of which `payloadLen` bytes count. */
  datatype Held = Held(msgType: U32, payloadLen: U32, payload: seq<Byte>)

  /** What `ipc_recv_msg` makes of a message that already held something. A datagram with a header but too
      long a payload is rejected after the header has been copied. */
  function Refill(h: Held, d: Datagram): (r: Held)
    requires |h.payload| == PAYLOAD_MAX
    ensures |r.payload| == PAYLOAD_MAX
  {
    match Decode(d)
    case Rejected =>
      var b := Cut(d.bytes);
      if |b| < HEADER then h else h.(msgType := FromLe32(b[..4]), payloadLen := FromLe32(b[4..8]))
    case Accepted(msgType, len, body, _) =>
      Held(msgType, len, if body.Some? then body.value + h.payload[len..] else h.payload)
  }

  /** One message with what is attached to it. */
  datatype Parcel = Parcel(message: Message, fd: int)

  /** The channel, the one message that everything is received into, and what was sent and received. */
  datatype Line = Line(queue: seq<Datagram>, held: Held, sent: seq<Parcel>, got: seq<Parcel>)

  datatype Op = Send(parcel: Parcel, ok: bool) | Receive

  function Transfer(l: Line, op: Op): (r: Line)
    requires |l.held.payload| == PAYLOAD_MAX
    ensures |r.held.payload| == PAYLOAD_MAX
  {
    match op
    case Send(p, ok) =>
      if !ok then l
      else l.(queue := l.queue + [Encode(p.message, p.fd)], sent := l.sent + [p.(fd := Attached(p.fd))])
    case Receive =>
      if l.queue == [] then l
      else
        var held := Refill(l.held, l.queue[0]);
        var got := if Decode(l.queue[0]).Rejected? then []
                   else [Parcel(Message(held.msgType, held.payload[..held.payloadLen]), l.queue[0].fd)];
        l.(queue := l.queue[1..], held := held, got := l.got + got)
  }

  /** What an array holds after the payloads have been copied to its front, one after the other. */
  function Overlaid(first: seq<Byte>, got: seq<Parcel>): (bytes: seq<Byte>)
    requires |first| == PAYLOAD_MAX
    ensures |bytes| == PAYLOAD_MAX
  {
    if got == [] then first
    else
      var last := got[|got| - 1].message.payload;
      last + Overlaid(first, got[..|got| - 1])[|last|..]
  }

  predicate Carries(d: Datagram, p: Parcel) {
    p.fd >= -1 && d == Encode(p.message, p.fd)
  }

  /** Everything sent has been received, in order and unchanged, or is still in the channel. */
  ghost predicate QueueInOrder(l: Line) {
    && |l.got| + |l.queue| == |l.sent|
    && l.got == l.sent[..|l.got|]
    && forall i :: 0 <= i < |l.queue| ==> Carries(l.queue[i], l.sent[|l.got| + i])
  }

  /** The message holds what was received last over the remains of what came before. */
  ghost predicate HeldInOrder(l: Line, first: seq<Byte>)
    requires |first| == PAYLOAD_MAX
  {
    && l.held.payload == Overlaid(first, l.got)
    && (l.got != [] ==>
          var last := l.got[|l.got| - 1].message; l.held.msgType == last.msgType && l.held.payloadLen == |last.payload|)
  }

  ghost predicate InOrder(l: Line, first: seq<Byte>)
    requires |first| == PAYLOAD_MAX
  {
    |l.held.payload| == PAYLOAD_MAX && QueueInOrder(l) && HeldInOrder(l, first)
  }

  lemma SendInOrder(l: Line, first: seq<Byte>, op: Op)
    requires |first| == PAYLOAD_MAX && InOrder(l, first) && op.Send?
    ensures InOrder(Transfer(l, op), first)
  {
    if op.ok {
      var r := Transfer(l, op);
      var p := op.parcel.(fd := Attached(op.parcel.fd));
      assert Encode(p.message, p.fd) == Encode(op.parcel.message, op.parcel.fd);
      assert r.sent[..|r.got|] == l.sent[..|l.got|];
      forall i | 0 <= i < |r.queue|
        ensures Carries(r.queue[i], r.sent[|r.got| + i])
      {
        if i < |l.queue| {
          assert r.queue[i] == l.queue[i] && r.sent[|r.got| + i] == l.sent[|l.got| + i];
        } else {
          assert r.queue[i] == Encode(op.parcel.message, op.parcel.fd) && r.sent[|r.got| + i] == p;
        }
      }
    }
  }

  /** Receiving a parcel that was sent. */
  lemma ReceiveParcel(l: Line, p: Parcel)
    requires |l.held.payload| == PAYLOAD_MAX && l.queue != [] && p.fd >= -1 && l.queue[0] == Encode(p.message, p.fd)
    ensures var r, n := Transfer(l, Receive), |p.message.payload|;
            && r.queue == l.queue[1..] && r.sent == l.sent && r.got == l.got + [p]
            && r.held == Held(p.message.msgType, n, p.message.payload + l.held.payload[n..])
  {
    DecodeInvertsEncode(p.message, p.fd);
    var r := Transfer(l, Receive);
    assert r.held.payload[..r.held.payloadLen] == p.message.payload;
  }

  lemma QueueShifts(l: Line, p: Parcel, r: Line)
    requires QueueInOrder(l) && l.queue != [] && p == l.sent[|l.got|]
    requires r.queue == l.queue[1..] && r.sent == l.sent && r.got == l.got + [p]
    ensures QueueInOrder(r)
  {
    assert l.sent[..|l.got| + 1] == l.sent[..|l.got|] + [p];
    assert |r.got| == |l.got| + 1 && r.got == r.sent[..|r.got|];
    forall i | 0 <= i < |r.queue|
      ensures Carries(r.queue[i], r.sent[|r.got| + i])
    {
      assert r.queue[i] == l.queue[i + 1] && r.sent[|r.got| + i] == l.sent[|l.got| + (i + 1)];
    }
  }

  lemma ParcelTaken(l: Line, first: seq<Byte>, p: Parcel, r: Line)
    requires |first| == PAYLOAD_MAX && |l.held.payload| == PAYLOAD_MAX && HeldInOrder(l, first) && r.got == l.got + [p]
    requires var n := |p.message.payload|; r.held == Held(p.message.msgType, n, p.message.payload + l.held.payload[n..])
    ensures HeldInOrder(r, first)
  {
    assert r.got[|r.got| - 1] == p && r.got[..|r.got| - 1] == l.got;
  }

  lemma ReceiveInOrder(l: Line, first: seq<Byte>)
    requires |first| == PAYLOAD_MAX && InOrder(l, first)
    ensures InOrder(Transfer(l, Receive), first)
  {
    if l.queue != [] {
      var p := l.sent[|l.got| + 0];
      assert l.queue[0] == Encode(p.message, p.fd);
      ReceiveParcel(l, p);
      QueueShifts(l, p, Transfer(l, Receive));
      ParcelTaken(l, first, p, Transfer(l, Receive));
    }
  }

  ghost function Traffic(l: Line, ops: seq<Op>): (r: Line)
    requires |l.held.payload| == PAYLOAD_MAX
    decreases |ops|
  {
    if ops == [] then l else Traffic(Transfer(l, ops[0]), ops[1..])
  }

  lemma {:induction false} TrafficInOrder(l: Line, first: seq<Byte>, ops: seq<Op>)
    requires |first| == PAYLOAD_MAX && InOrder(l, first)
    ensures InOrder(Traffic(l, ops), first)
    decreases |ops|
  {
    if ops != [] {
      if ops[0].Send? {
        SendInOrder(l, first, ops[0]);
      } else {
        ReceiveInOrder(l, first);
      }
      TrafficInOrder(Transfer(l, ops[0]), first, ops[1..]);
    }
  }

  /** However sends, failed sends and receives interleave: what was received is what was sent, up to what is
      still in the channel, and the one message holds the last parcel over the remains of the earlier ones. */
  lemma ChannelDeliversInOrder(first: Held, ops: seq<Op>)
    requires |first.payload| == PAYLOAD_MAX
    ensures var l := Traffic(Line([], first, [], []), ops);
            && l.got <= l.sent && |l.got| + |l.queue| == |l.sent|
            && l.held.payload == Overlaid(first.payload, l.got)
            && (l.queue == [] ==> l.got == l.sent)
  {
    TrafficInOrder(Line([], first, [], []), first.payload, ops);
  }

  /** Byte by byte: each place of the array holds the byte of the last parcel that reached it. */
  lemma {:induction false} LastToReach(first: seq<Byte>, got: seq<Parcel>, k: nat, j: nat)
    requires |first| == PAYLOAD_MAX && k < PAYLOAD_MAX && j <= |got|
    requires j > 0 ==> k < |got[j - 1].message.payload|
    requires forall i :: j <= i < |got| ==> |got[i].message.payload| <= k
    ensures Overlaid(first, got)[k] == if j == 0 then first[k] else got[j - 1].message.payload[k]
  {
    if j < |got| {
      LastToReach(first, got[..|got| - 1], k, j);
    }
  }

  // --- The C functions ---

  /** `struct wlrdp_ipc_msg`. */
  class IpcMsg {
    var msgType: U32
    var payloadLen: U32
    const payload: array<Byte>

    ghost predicate Valid() {
      payload.Length == PAYLOAD_MAX
    }

    ghost function State(): (r: Held)
      reads this, payload
    {
      Held(msgType, payloadLen, payload[..])
    }

    constructor (msgType: U32, payloadLen: U32)
      ensures Valid() && fresh(payload) && this.msgType == msgType && this.payloadLen == payloadLen
    {
      this.msgType := msgType;
      this.payloadLen := payloadLen;
      payload := new Byte[PAYLOAD_MAX];
    }
  }

  /** One direction of the socket pair. */
  class Channel {
    var queue: seq<Datagram>

    constructor ()
      ensures queue == []
    {
      queue := [];
    }
  }

  /** `ipc_send_msg`; `sendOk` is what `sendmsg` answers. */
  method SendMsg(channel: Channel, msg: IpcMsg, fd: int, sendOk: bool) returns (ok: bool)
    requires msg.Valid() && msg.payloadLen <= PAYLOAD_MAX
    modifies channel
    ensures ok == sendOk
    ensures channel.queue == old(channel.queue) +
              if sendOk then [Encode(Message(msg.msgType, msg.payload[..msg.payloadLen]), fd)] else []
  {
    var buf := new Byte[HEADER + PAYLOAD_MAX];
    var total := HEADER + msg.payloadLen;
    var word := Le32(msg.msgType);
    forall i | 0 <= i < 4 {
      buf[i] := word[i];
    }
    var len := Le32(msg.payloadLen);
    forall i | 0 <= i < 4 {
      buf[4 + i] := len[i];
    }
    if msg.payloadLen > 0 {
      forall i | 0 <= i < msg.payloadLen {
        buf[8 + i] := msg.payload[i];
      }
    }
    assert buf[..total] == Le32(msg.msgType) + Le32(msg.payloadLen) + msg.payload[..msg.payloadLen];
    if !sendOk {
      return false;
    }
    channel.queue := channel.queue + [Datagram(buf[..total], Attached(fd))];
    return true;
  }

  /** `ipc_recv_msg`; an empty queue stands for a closed peer. */
  method RecvMsg(channel: Channel, msg: IpcMsg) returns (ok: bool, outFd: int)
    requires msg.Valid()
    modifies channel, msg, msg.payload
    ensures old(channel.queue) == [] ==> !ok && outFd == -1 && channel.queue == [] && msg.State() == old(msg.State())
    ensures old(channel.queue) != [] ==>
              var r := Decode(old(channel.queue)[0]);
              && channel.queue == old(channel.queue)[1..]
              && ok == r.Accepted?
              && outFd == (if r.Accepted? then r.fd else -1)
              && msg.State() == Refill(old(msg.State()), old(channel.queue)[0])
  {
    outFd := -1;
    if channel.queue == [] {
      return false, outFd;
    }
    var d := channel.queue[0];
    channel.queue := channel.queue[1..];
    var buf := Cut(d.bytes);
    var n := |buf|;
    if n < HEADER {
      return false, outFd;
    }
    msg.msgType := FromLe32(buf[..4]);
    msg.payloadLen := FromLe32(buf[4..8]);
    if msg.payloadLen > PAYLOAD_MAX {
      return false, outFd;
    }
    if msg.payloadLen > 0 && n >= HEADER + msg.payloadLen {
      forall i | 0 <= i < msg.payloadLen {
        msg.payload[i] := buf[8 + i];
      }
    }
    outFd := d.fd;
    return true, outFd;
  }
}
