/** Peer sockets on their way from the daemon through the channel into the worker: none is lost and none
    is held twice (src/daemon/session_mgr.c:166-182, src/session/main.c:251-353). */
module Handover {
  import EncoderSpec
  import opened IpcCodec
  import opened Options
  import opened PeerInvariant
  import opened SessionInvariants
  import opened SessionSpec
  import opened SessionTheorems
  import opened SessionTypes
  import opened Words

  /** The channel towards the worker, the worker, and every socket that was put into the channel. */
  datatype World = World(queue: seq<Datagram>, worker: Session, sent: multiset<int>)

  datatype Move =
    | SendClient(fd: int, sendOk: bool)
    | SendShutdown(sendOk: bool)
    | WorkerReads(setup: PeerSetup)
    | WorkerSteps(event: Event)

  function NewClient(fd: int): (r: Datagram) {
    Encode(Message(MSG_NEW_CLIENT, []), fd)
  }

  function Shutdown(): (r: Datagram) {
    Encode(Message(MSG_SHUTDOWN, []), -1)
  }

  /** `accept_ipc_client` on the next datagram. */
  function Read(worker: Session, d: Datagram, o: PeerSetup): (r: Session) {
    match Decode(d)
    case Rejected => AcceptIpc(worker, false, 0, -1, o)
    case Accepted(msgType, _, _, fd) => AcceptIpc(worker, true, msgType, fd, o)
  }

  predicate Possible(w: World, m: Move) {
    match m
    case SendClient(fd, _) => fd >= 0
    case SendShutdown(_) => true
    case WorkerReads(_) => w.queue != []
    case WorkerSteps(e) => !e.IpcReadable? && Enabled(w.worker, e)
  }

  function Next(w: World, m: Move): (r: World)
    requires Possible(w, m)
  {
    match m
    case SendClient(fd, ok) => if ok then w.(queue := w.queue + [NewClient(fd)], sent := w.sent + multiset{fd}) else w
    case SendShutdown(ok) => if ok then w.(queue := w.queue + [Shutdown()]) else w
    case WorkerReads(o) => w.(queue := w.queue[1..], worker := Read(w.worker, w.queue[0], o))
    case WorkerSteps(e) => w.(worker := Step(w.worker, e))
  }

  ghost predicate Playable(w: World, moves: seq<Move>)
    decreases |moves|
  {
    moves != [] ==> Possible(w, moves[0]) && Playable(Next(w, moves[0]), moves[1..])
  }

  ghost function Play(w: World, moves: seq<Move>): (r: World)
    requires Playable(w, moves)
    decreases |moves|
  {
    if moves == [] then w else Play(Next(w, moves[0]), moves[1..])
  }

  /** The sockets attached to datagrams that the worker has not read. */
  function InFlight(queue: seq<Datagram>): (r: multiset<int>) {
    if queue == [] then multiset{}
    else (if queue[0].fd >= 0 then multiset{queue[0].fd} else multiset{}) + InFlight(queue[1..])
  }

  lemma {:induction false} InFlightSnoc(queue: seq<Datagram>, d: Datagram)
    ensures InFlight(queue + [d]) == InFlight(queue) + if d.fd >= 0 then multiset{d.fd} else multiset{}
  {
    if queue == [] {
      assert queue + [d] == [d];
      assert [d][1..] == [];
    } else {
      assert (queue + [d])[1..] == queue[1..] + [d];
      InFlightSnoc(queue[1..], d);
    }
  }

  /** Only the daemon writes into the channel, and it writes nothing else. */
  ghost predicate FromDaemon(d: Datagram) {
    d == Shutdown() || (d.fd >= 0 && d == NewClient(d.fd))
  }

  ghost predicate WorldInv(w: World) {
    && w.worker.ipcMode && SessionInv(w.worker)
    && (forall d :: d in w.queue ==> FromDaemon(d))
    && w.sent == InFlight(w.queue) + w.worker.sockets.received
  }

  lemma DaemonMessage(d: Datagram)
    requires FromDaemon(d)
    ensures Decode(d).Accepted? && Decode(d).fd == d.fd
    ensures Decode(d).msgType == if d.fd >= 0 then MSG_NEW_CLIENT else MSG_SHUTDOWN
  {
    DecodeInvertsEncode(Message(MSG_NEW_CLIENT, []), d.fd);
    DecodeInvertsEncode(Message(MSG_SHUTDOWN, []), -1);
  }

  /** The codec turns each of the daemon's datagrams into the event it stands for. */
  lemma ReadOfDaemon(worker: Session, d: Datagram, o: PeerSetup)
    requires FromDaemon(d)
    ensures d == Shutdown() ==> Read(worker, d, o) == AcceptIpc(worker, true, MSG_SHUTDOWN, -1, o)
    ensures d.fd >= 0 ==> Read(worker, d, o) == ReplaceClient(TakeSocket(worker, d.fd), d.fd, o)
  {
    DaemonMessage(d);
  }

  lemma ReplaceClientSockets(s: Session, fd: int, o: PeerSetup)
    ensures var r := ReplaceClient(TakeSocket(s, fd), fd, o);
            r.sockets.received == s.sockets.received + multiset{fd} && r.ipcMode == s.ipcMode
  {
  }

  lemma FrameKeepsReceived(s: Session, e: Event)
    requires e.CaptureReady? && Enabled(s, e)
    ensures Step(s, e).sockets == s.sockets && Step(s, e).ipcMode == s.ipcMode
  {
  }

  lemma SizeKeepsReceived(s: Session, e: Event)
    requires (e.Activated? || e.ResizeRequested?) && Enabled(s, e)
    ensures Step(s, e).sockets == s.sockets && Step(s, e).ipcMode == s.ipcMode
  {
  }

  lemma StepKeepsReceived(s: Session, e: Event)
    requires Enabled(s, e) && s.ipcMode && !e.IpcReadable?
    ensures Step(s, e).sockets.received == s.sockets.received && Step(s, e).ipcMode
  {
    if e.CaptureReady? {
      FrameKeepsReceived(s, e);
    } else if e.Activated? || e.ResizeRequested? {
      SizeKeepsReceived(s, e);
    }
  }

  lemma ReadKeepsWorker(worker: Session, d: Datagram, o: PeerSetup)
    requires SessionInv(worker) && worker.ipcMode && FromDaemon(d)
    ensures var r := Read(worker, d, o);
            && SessionInv(r) && r.ipcMode
            && r.sockets.received == worker.sockets.received + if d.fd >= 0 then multiset{d.fd} else multiset{}
  {
    ReadOfDaemon(worker, d, o);
    if d.fd >= 0 {
      ReplaceClientKeeps(worker, d.fd, o);
      ReplaceClientSockets(worker, d.fd, o);
    } else {
      AcceptIpcKeeps(worker, true, MSG_SHUTDOWN, -1, o);
    }
  }

  lemma ReadKeeps(w: World, o: PeerSetup)
    requires WorldInv(w) && w.queue != []
    ensures WorldInv(Next(w, WorkerReads(o)))
  {
    assert FromDaemon(w.queue[0]);
    assert forall x :: x in w.queue[1..] ==> x in w.queue;
    ReadKeepsWorker(w.worker, w.queue[0], o);
  }

  lemma SendKeeps(w: World, d: Datagram)
    requires WorldInv(w) && FromDaemon(d)
    ensures var more := if d.fd >= 0 then multiset{d.fd} else multiset{};
            WorldInv(w.(queue := w.queue + [d], sent := w.sent + more))
  {
    InFlightSnoc(w.queue, d);
  }

  lemma NextKeeps(w: World, m: Move)
    requires WorldInv(w) && Possible(w, m)
    ensures WorldInv(Next(w, m))
  {
    match m
    case SendClient(fd, _) => SendKeeps(w, NewClient(fd));
    case SendShutdown(_) => SendKeeps(w, Shutdown());
    case WorkerReads(o) => ReadKeeps(w, o);
    case WorkerSteps(e) =>
      StepKeepsInv(w.worker, e);
      StepKeepsReceived(w.worker, e);
  }

  lemma {:induction false} PlayKeeps(w: World, moves: seq<Move>)
    requires WorldInv(w) && Playable(w, moves)
    ensures WorldInv(Play(w, moves))
    decreases |moves|
  {
    if moves != [] {
      NextKeeps(w, moves[0]);
      PlayKeeps(Next(w, moves[0]), moves[1..]);
    }
  }

  /** At any time, however sends, reads and the worker's own steps interleave, the sockets ever sent are
      those in flight, those closed and the current client's, each as often as it was sent. */
  lemma SocketsConservedAcrossProcesses(width: I32, height: I32, moves: seq<Move>)
    requires var w := World([], Start(true, width, height), multiset{}); Playable(w, moves)
    ensures var w := Play(World([], Start(true, width, height), multiset{}), moves);
            w.sent == InFlight(w.queue) + w.worker.sockets.closed + ClientSocket(w.worker)
  {
    var w := World([], Start(true, width, height), multiset{});
    StartInv(true, width, height);
    PlayKeeps(w, moves);
  }

  // --- Draining the channel ---

  function Drain(worker: Session, queue: seq<Datagram>, setups: seq<PeerSetup>): (r: Session)
    requires |queue| == |setups|
    decreases |queue|
  {
    if queue == [] then worker else Drain(Read(worker, queue[0], setups[0]), queue[1..], setups[1..])
  }

  lemma ReadServes(worker: Session, fd: nat, o: PeerSetup)
    ensures var r := Read(worker, NewClient(fd), o);
            (r.client.Some? <==> o.AllOk()) && (r.client.Some? ==> r.client.value.fd == fd)
  {
    ReadOfDaemon(worker, NewClient(fd), o);
  }

  /** After draining, the worker serves the last socket it was sent if that one could be set up, and
      otherwise nobody: an earlier client is gone even when its successor fails. */
  lemma {:induction false} LastSocketWins(worker: Session, fds: seq<nat>, setups: seq<PeerSetup>)
    requires |fds| == |setups| > 0
    ensures var queue := seq(|fds|, i requires 0 <= i < |fds| => NewClient(fds[i]));
            var r := Drain(worker, queue, setups);
            && (r.client.Some? <==> setups[|setups| - 1].AllOk())
            && (r.client.Some? ==> r.client.value.fd == fds[|fds| - 1])
    decreases |fds|
  {
    var queue := seq(|fds|, i requires 0 <= i < |fds| => NewClient(fds[i]));
    var next := Read(worker, queue[0], setups[0]);
    ReadServes(worker, fds[0], setups[0]);
    if |fds| > 1 {
      assert queue[1..] == seq(|fds| - 1, i requires 0 <= i < |fds| - 1 => NewClient(fds[1..][i]));
      LastSocketWins(next, fds[1..], setups[1..]);
    } else {
      assert Drain(next, queue[1..], setups[1..]) == next;
    }
  }

  // --- The last socket, over every interleaving ---

  function LastAfter(m: Move, before: Option<int>): (r: Option<int>) {
    if m.SendClient? && m.sendOk then Some(m.fd) else before
  }

  /** The last socket that the daemon got into the channel; `before` is what it was earlier. */
  function LastSent(moves: seq<Move>, before: Option<int>): (r: Option<int>)
    decreases |moves|
  {
    if moves == [] then before
    else LastSent(moves[1..], LastAfter(moves[0], before))
  }

  /** The last socket that the worker has not read. */
  function LastQueued(queue: seq<Datagram>): (r: Option<int>) {
    if queue == [] then None
    else
      var d := queue[|queue| - 1];
      if d.fd >= 0 then Some(d.fd) else LastQueued(queue[..|queue| - 1])
  }

  lemma {:induction false} LastQueuedTail(queue: seq<Datagram>)
    requires queue != []
    ensures LastQueued(queue) ==
            if LastQueued(queue[1..]).Some? then LastQueued(queue[1..])
            else if queue[0].fd >= 0 then Some(queue[0].fd)
            else None
  {
    var n := |queue| - 1;
    if n > 0 {
      assert queue[1..][|queue[1..]| - 1] == queue[n] && queue[1..][..n - 1] == queue[..n][1..];
      if queue[n].fd < 0 {
        LastQueuedTail(queue[..n]);
      }
    } else {
      assert queue[1..] == [] && queue[..0] == [];
    }
  }

  /** The last socket sent is still in the channel, or it is the one that a client has. */
  ghost predicate LastInv(w: World, last: Option<int>) {
    if LastQueued(w.queue).Some? then last == LastQueued(w.queue)
    else w.worker.client.Some? ==> last == Some(w.worker.client.value.fd)
  }

  lemma FrameKeepsSocket(s: Session, e: Event)
    requires e.CaptureReady? && Enabled(s, e) && s.client.Some?
    ensures Step(s, e).client.Some? && Step(s, e).client.value.fd == s.client.value.fd
  {
    SendFrameFrame(s.client.value, EncoderSpec.FrameOf(EncoderSpec.Encode(s.enc, e.encode).0), e.w, e.h, e.send);
  }

  lemma ResizeToKeepsSocket(s: Session, w: U32, h: U32, o: CodecInit, surface: SurfaceOutcome)
    requires s.client.Some?
    ensures var r := ResizeTo(s, w, h, o, surface); r.client.Some? && r.client.value.fd == s.client.value.fd
  {
    UpdateSizeFrame(s.client.value, w, h, surface);
  }

  lemma SizeKeepsSocket(s: Session, e: Event)
    requires (e.Activated? || e.ResizeRequested?) && Enabled(s, e)
    ensures s.client.Some? && Step(s, e).client.Some? && Step(s, e).client.value.fd == s.client.value.fd
  {
    match e
    case ResizeRequested(w, h, o, surface) => ResizeToKeepsSocket(s, AlignUp16(w), AlignUp16(h), o, surface);
    case Activated(w, h, nscodec, o, surface) =>
      var r := s.(client := Some(s.client.value.(activated := true, nscodec := nscodec)));
      ResizeToKeepsSocket(r, AlignUp16(w), AlignUp16(h), o, surface);
  }

  lemma StepKeepsSocket(s: Session, e: Event)
    requires Enabled(s, e) && s.ipcMode && !e.IpcReadable? && Step(s, e).client.Some?
    ensures s.client.Some? && Step(s, e).client.value.fd == s.client.value.fd
  {
    if e.CaptureReady? && s.client.Some? {
      FrameKeepsSocket(s, e);
    } else if e.Activated? || e.ResizeRequested? {
      SizeKeepsSocket(s, e);
    }
  }

  lemma ReadKeepsLast(w: World, o: PeerSetup, last: Option<int>)
    requires WorldInv(w) && w.queue != [] && LastInv(w, last)
    ensures LastInv(Next(w, WorkerReads(o)), last)
  {
    var d := w.queue[0];
    assert FromDaemon(d);
    LastQueuedTail(w.queue);
    ReadOfDaemon(w.worker, d, o);
    if d.fd >= 0 {
      ReadServes(w.worker, d.fd, o);
    }
  }

  lemma NextKeepsLast(w: World, m: Move, last: Option<int>)
    requires WorldInv(w) && Possible(w, m) && LastInv(w, last)
    ensures LastInv(Next(w, m), LastAfter(m, last))
  {
    match m
    case SendClient(fd, ok) => assert ok ==> Next(w, m).queue[..|w.queue|] == w.queue;
    case SendShutdown(ok) => assert ok ==> Next(w, m).queue[..|w.queue|] == w.queue;
    case WorkerReads(o) => ReadKeepsLast(w, o, last);
    case WorkerSteps(e) =>
      if Step(w.worker, e).client.Some? {
        StepKeepsSocket(w.worker, e);
      }
  }

  lemma {:induction false} PlayKeepsLast(w: World, moves: seq<Move>, last: Option<int>)
    requires WorldInv(w) && Playable(w, moves) && LastInv(w, last)
    ensures LastInv(Play(w, moves), LastSent(moves, last))
    decreases |moves|
  {
    if moves != [] {
      NextKeeps(w, moves[0]);
      NextKeepsLast(w, moves[0], last);
      PlayKeepsLast(Next(w, moves[0]), moves[1..], LastAfter(moves[0], last));
    }
  }

  /** However sends, shutdowns, reads and the worker's own steps interleave: once no socket is left in the
      channel, a client that the worker has is the one whose socket was sent last. */
  lemma LastSocketServed(width: I32, height: I32, moves: seq<Move>)
    requires Playable(World([], Start(true, width, height), multiset{}), moves)
    ensures var w := Play(World([], Start(true, width, height), multiset{}), moves);
            LastQueued(w.queue).None? && w.worker.client.Some? ==>
              LastSent(moves, None) == Some(w.worker.client.value.fd)
  {
    StartInv(true, width, height);
    PlayKeepsLast(World([], Start(true, width, height), multiset{}), moves, None);
  }

  // --- What is in the channel ---

  /** The datagram that a move gets into the channel: of type 1 with the client's socket, or of type 5. */
  function WrittenBy(m: Move): (r: seq<Datagram>) {
    match m
    case SendClient(fd, ok) => if ok then [Encode(Message(1, []), fd)] else []
    case SendShutdown(ok) => if ok then [Encode(Message(5, []), -1)] else []
    case _ => []
  }

  function Written(moves: seq<Move>): (r: seq<Datagram>) {
    if moves == [] then [] else WrittenBy(moves[0]) + Written(moves[1..])
  }

  function ReadCount(moves: seq<Move>): (r: nat) {
    if moves == [] then 0 else ReadCount(moves[1..]) + if moves[0].WorkerReads? then 1 else 0
  }

  lemma NextWrites(w: World, m: Move)
    requires Possible(w, m)
    ensures m.WorkerReads? ==> w.queue != []
    ensures Next(w, m).queue == if m.WorkerReads? then w.queue[1..] else w.queue + WrittenBy(m)
  {
  }

  lemma DropsTogether(queue: seq<Datagram>, first: seq<Datagram>, rest: seq<Datagram>, next: seq<Datagram>,
                      n: nat, takes: bool)
    requires takes ==> queue != [] && first == []
    requires next == (if takes then queue[1..] else queue + first) && n <= |next| + |rest|
    ensures (next + rest)[n..] == (queue + (first + rest))[n + if takes then 1 else 0..]
  {
    assert next + rest == (queue + (first + rest))[if takes then 1 else 0..];
  }

  /** The channel holds what was written into it and not read yet, first in, first out. */
  lemma {:induction false} ChannelHoldsWritten(w: World, moves: seq<Move>)
    requires Playable(w, moves)
    ensures ReadCount(moves) <= |w.queue| + |Written(moves)|
    ensures Play(w, moves).queue == (w.queue + Written(moves))[ReadCount(moves)..]
    decreases |moves|
  {
    if moves != [] {
      var m, rest := moves[0], moves[1..];
      ChannelHoldsWritten(Next(w, m), rest);
      NextWrites(w, m);
      DropsTogether(w.queue, WrittenBy(m), Written(rest), Next(w, m).queue, ReadCount(rest), m.WorkerReads?);
    }
  }

  // --- When the worker stops ---

  /** The worker has read a shutdown datagram. */
  ghost predicate ReadShutdown(w: World, moves: seq<Move>)
    requires Playable(w, moves)
    decreases |moves|
  {
    moves != [] &&
      ((moves[0].WorkerReads? && w.queue[0] == Shutdown()) || ReadShutdown(Next(w, moves[0]), moves[1..]))
  }

  lemma ReadStopsExactly(worker: Session, d: Datagram, o: PeerSetup)
    requires FromDaemon(d)
    ensures Read(worker, d, o).running <==> worker.running && d != Shutdown()
  {
    DaemonMessage(d);
  }

  lemma NextStopsExactly(w: World, m: Move)
    requires WorldInv(w) && Possible(w, m)
    ensures Next(w, m).worker.running <==> w.worker.running && !(m.WorkerReads? && w.queue[0] == Shutdown())
  {
    match m
    case SendClient(_, _) =>
    case SendShutdown(_) =>
    case WorkerReads(o) => ReadStopsExactly(w.worker, w.queue[0], o);
    case WorkerSteps(e) => RunningStepExactly(w.worker, e);
  }

  lemma {:induction false} PlayStopsExactly(w: World, moves: seq<Move>)
    requires WorldInv(w) && Playable(w, moves)
    ensures Play(w, moves).worker.running <==> w.worker.running && !ReadShutdown(w, moves)
    decreases |moves|
  {
    if moves != [] {
      NextKeeps(w, moves[0]);
      NextStopsExactly(w, moves[0]);
      PlayStopsExactly(Next(w, moves[0]), moves[1..]);
    }
  }

  /** However everything interleaves, the worker has been told to end exactly when it has read a shutdown. */
  lemma ShutdownStopsExactly(width: I32, height: I32, moves: seq<Move>)
    requires Playable(World([], Start(true, width, height), multiset{}), moves)
    ensures var w := World([], Start(true, width, height), multiset{});
            !Play(w, moves).worker.running <==> ReadShutdown(w, moves)
  {
    StartInv(true, width, height);
    PlayStopsExactly(World([], Start(true, width, height), multiset{}), moves);
  }
}
