/** The daemon's table of session workers (src/daemon/session_mgr.c): fifty slots updated in place, and
    the functions on table snapshots that the methods are proved against. */
module SessionRegistry {
  import opened Options

  const MAX_SESSIONS: nat := 50

  /** The username field holds 64 bytes, the last of which ends the string. */
  const NAME_MAX: nat := 63
  const STATUS_READY := 0

  datatype Entry = Entry(active: bool, username: string, pid: int, ipcFd: int, status: nat)

  const EMPTY := Entry(false, "", 0, 0, 0)

  /** Answers of `socketpair` and `fork` in the parent: the daemon's end and the child. */
  datatype ForkOutcome = ForkOutcome(pairOk: bool, forkOk: bool, pid: int, fd: int)

  /** A snapshot: the slots, the counter, and the IPC descriptors that the daemon holds open. */
  datatype Table = Table(slots: seq<Entry>, count: int, open: set<int>)

  function Stored(name: string): (r: string) {
    if |name| <= NAME_MAX then name else name[..NAME_MAX]
  }

  /** What `snprintf` leaves in a field of 64 bytes: the longest prefix that fits it. */
  lemma StoredExactly(name: string)
    ensures Stored(name) <= name && |Stored(name)| == if |name| < 64 then |name| else 63
  {
  }

  function FirstIndex(slots: seq<Entry>, p: Entry -> bool): (i: nat)
    ensures i <= |slots|
    ensures i < |slots| ==> p(slots[i])
    ensures forall j :: 0 <= j < i ==> !p(slots[j])
  {
    if slots == [] || p(slots[0]) then 0 else 1 + FirstIndex(slots[1..], p)
  }

  function Named(name: string): (r: Entry -> bool) {
    (e: Entry) => e.active && e.username == name
  }

  function Free(): (r: Entry -> bool) {
    (e: Entry) => !e.active
  }

  function WithPid(pid: int): (r: Entry -> bool) {
    (e: Entry) => e.active && e.pid == pid
  }

  function Occupied(name: string, o: ForkOutcome): (r: Entry) {
    Entry(true, Stored(name), o.pid, o.fd, STATUS_READY)
  }

  /** `session_mgr_get_session`; a name of None stands for an unknown user id. */
  function Get(t: Table, name: Option<string>, o: ForkOutcome): (r: (Table, Option<nat>))
    ensures r.1.Some? ==> r.1.value < |r.0.slots| == |t.slots|
  {
    if name.None? then (t, None)
    else
      var i := FirstIndex(t.slots, Named(name.value));
      var j := FirstIndex(t.slots, Free());
      if i < |t.slots| then (t, Some(i))
      else if j == |t.slots| then (t, None)
      else if !o.pairOk || !o.forkOk then (t.(slots := t.slots[j := EMPTY]), None)
      else (Table(t.slots[j := Occupied(name.value, o)], t.count + 1, t.open + {o.fd}), Some(j))
  }

  function ReapOne(t: Table, pid: int): (r: Table) {
    var i := FirstIndex(t.slots, WithPid(pid));
    if i == |t.slots| then t
    else Table(t.slots[i := EMPTY], t.count - 1, t.open - {t.slots[i].ipcFd})
  }

  /** `session_mgr_reap` on the children that `waitpid` reports, in order. */
  function ReapAll(t: Table, pids: seq<int>): (r: Table) {
    if pids == [] then t else ReapOne(ReapAll(t, pids[..|pids| - 1]), pids[|pids| - 1])
  }

  /** What the daemon does to its workers when it goes: message, signal, closing, waiting. */
  datatype Action = TellToStop(fd: int) | Terminate(pid: int) | CloseEnd(fd: int) | AwaitExit(pid: int)

  /** Each active worker is told to stop, is signalled, and loses its channel, in slot order. */
  function Stops(slots: seq<Entry>): (r: seq<Action>) {
    if slots == [] then []
    else
      var e := slots[|slots| - 1];
      Stops(slots[..|slots| - 1]) + if e.active then [TellToStop(e.ipcFd), Terminate(e.pid), CloseEnd(e.ipcFd)] else []
  }

  function Awaits(slots: seq<Entry>): (r: seq<Action>) {
    if slots == [] then []
    else
      var e := slots[|slots| - 1];
      Awaits(slots[..|slots| - 1]) + if e.active then [AwaitExit(e.pid)] else []
  }

  function ActiveFds(slots: seq<Entry>): (r: set<int>) {
    if slots == [] then {}
    else
      var e := slots[|slots| - 1];
      ActiveFds(slots[..|slots| - 1]) + if e.active then {e.ipcFd} else {}
  }

  lemma {:induction false} ActiveFdListed(slots: seq<Entry>, i: nat)
    requires i < |slots| && slots[i].active
    ensures slots[i].ipcFd in ActiveFds(slots)
  {
    if i < |slots| - 1 {
      ActiveFdListed(slots[..|slots| - 1], i);
    }
  }

  function Cleared(): (slots: seq<Entry>)
    ensures |slots| == MAX_SESSIONS && forall i :: 0 <= i < |slots| ==> slots[i] == EMPTY
  {
    seq(MAX_SESSIONS, i => EMPTY)
  }

  /** `session_mgr_destroy`. */
  function TearDown(t: Table): (r: Table) {
    Table(Cleared(), 0, t.open - ActiveFds(t.slots))
  }

  lemma FirstIndexUnique(slots: seq<Entry>, p: Entry -> bool, i: nat)
    requires i <= |slots| && (i < |slots| ==> p(slots[i])) && forall j :: 0 <= j < i ==> !p(slots[j])
    ensures FirstIndex(slots, p) == i
  {
  }

  lemma ActiveSnoc(slots: seq<Entry>, e: Entry)
    ensures ActiveFds(slots + [e]) == ActiveFds(slots) + if e.active then {e.ipcFd} else {}
    ensures Stops(slots + [e]) ==
            Stops(slots) + if e.active then [TellToStop(e.ipcFd), Terminate(e.pid), CloseEnd(e.ipcFd)] else []
  {
    assert (slots + [e])[..|slots|] == slots;
  }

  lemma StopOne(open: set<int>, slots: seq<Entry>, e: Entry)
    ensures open - ActiveFds(slots + [e]) == open - ActiveFds(slots) - if e.active then {e.ipcFd} else {}
    ensures Stops(slots + [e]) ==
            Stops(slots) + if e.active then [TellToStop(e.ipcFd), Terminate(e.pid), CloseEnd(e.ipcFd)] else []
  {
    ActiveSnoc(slots, e);
  }

  class SessionManager {
    const sessions: array<Entry>
    var count: int
    ghost var open: set<int>

    ghost function State(): (r: Table)
      reads this, sessions
    {
      Table(sessions[..], count, open)
    }

    ghost predicate Valid() {
      sessions.Length == MAX_SESSIONS
    }

    constructor ()
      ensures Valid() && State() == Table(Cleared(), 0, {}) && fresh(sessions)
    {
      sessions := new Entry[MAX_SESSIONS](i => EMPTY);
      count, open := 0, {};
      new;
      assert sessions[..] == Cleared();
    }

    /** `find_session`: the slot index, or the number of slots if there is none. */
    method FindSession(name: string) returns (i: nat)
      ensures i == FirstIndex(sessions[..], Named(name))
    {
      i := 0;
      while i < sessions.Length
        invariant 0 <= i <= sessions.Length
        invariant forall j :: 0 <= j < i ==> !Named(name)(sessions[j])
      {
        if sessions[i].active && sessions[i].username == name {
          FirstIndexUnique(sessions[..], Named(name), i);
          return;
        }
        i := i + 1;
      }
      FirstIndexUnique(sessions[..], Named(name), i);
    }

    /** `alloc_slot`. */
    method AllocSlot() returns (i: nat)
      ensures i == FirstIndex(sessions[..], Free())
    {
      i := 0;
      while i < sessions.Length
        invariant 0 <= i <= sessions.Length
        invariant forall j :: 0 <= j < i ==> !Free()(sessions[j])
      {
        if !sessions[i].active {
          FirstIndexUnique(sessions[..], Free(), i);
          return;
        }
        i := i + 1;
      }
      FirstIndexUnique(sessions[..], Free(), i);
    }

    /** The parent's side of `fork_session`, on a slot that already holds the name. */
    method ForkSession(i: nat, o: ForkOutcome) returns (ok: bool)
      requires i < sessions.Length
      modifies this, sessions
      ensures ok == (o.pairOk && o.forkOk)
      ensures !ok ==> State() == old(State())
      ensures ok ==>
                var entry := Entry(true, old(sessions[i].username), o.pid, o.fd, STATUS_READY);
                State() == Table(old(sessions[..])[i := entry], old(count) + 1, old(open) + {o.fd})
    {
      if !o.pairOk {
        return false;
      }
      open := open + {o.fd};
      if !o.forkOk {
        open := if o.fd in old(open) then open else open - {o.fd};
        return false;
      }
      sessions[i] := sessions[i].(active := true, pid := o.pid, ipcFd := o.fd, status := STATUS_READY);
      count := count + 1;
      return true;
    }

    /** `session_mgr_get_session`. */
    method GetSession(name: Option<string>, o: ForkOutcome) returns (r: Option<nat>)
      requires Valid()
      modifies this, sessions
      ensures (State(), r) == Get(old(State()), name, o)
    {
      if name.None? {
        return None;
      }
      var i := FindSession(name.value);
      if i < sessions.Length {
        return Some(i);
      }
      i := AllocSlot();
      if i == sessions.Length {
        return None;
      }
      sessions[i] := sessions[i].(username := Stored(name.value));
      var ok := ForkSession(i, o);
      if !ok {
        sessions[i] := EMPTY;
        assert sessions[..] == old(sessions[..])[i := EMPTY];
        return None;
      }
      assert sessions[..] == old(sessions[..])[i := Occupied(name.value, o)];
      return Some(i);
    }

    /** The slot scan of `session_mgr_reap` for one exited child. */
    method Release(pid: int)
      modifies this, sessions
      ensures State() == ReapOne(old(State()), pid)
    {
      var i := 0;
      while i < sessions.Length
        invariant 0 <= i <= sessions.Length
        invariant State() == old(State())
        invariant forall j :: 0 <= j < i ==> !WithPid(pid)(sessions[j])
      {
        if sessions[i].active && sessions[i].pid == pid {
          FirstIndexUnique(sessions[..], WithPid(pid), i);
          open := open - {sessions[i].ipcFd};
          sessions[i] := EMPTY;
          count := count - 1;
          assert sessions[..] == old(sessions[..])[i := EMPTY];
          return;
        }
        i := i + 1;
      }
      FirstIndexUnique(sessions[..], WithPid(pid), i);
    }

    /** `session_mgr_reap`; `pids` are the answers of `waitpid` until it has no more. */
    method Reap(pids: seq<int>)
      modifies this, sessions
      ensures State() == ReapAll(old(State()), pids)
    {
      var k := 0;
      while k < |pids|
        invariant 0 <= k <= |pids|
        invariant State() == ReapAll(old(State()), pids[..k])
      {
        Release(pids[k]);
        assert pids[..k + 1][..k] == pids[..k];
        k := k + 1;
      }
      assert pids[..k] == pids;
    }

    /** The first loop of `session_mgr_destroy`. */
    method StopAll() returns (actions: seq<Action>)
      modifies this`open
      ensures open == old(open) - ActiveFds(sessions[..]) && actions == Stops(sessions[..])
    {
      actions := [];
      var i := 0;
      while i < sessions.Length
        invariant 0 <= i <= sessions.Length
        invariant open == old(open) - ActiveFds(sessions[..i])
        invariant actions == Stops(sessions[..i])
      {
        assert sessions[..i + 1] == sessions[..i] + [sessions[i]];
        StopOne(old(open), sessions[..i], sessions[i]);
        if sessions[i].active {
          actions := actions + [TellToStop(sessions[i].ipcFd), Terminate(sessions[i].pid), CloseEnd(sessions[i].ipcFd)];
          open := open - {sessions[i].ipcFd};
        }
        i := i + 1;
      }
      assert sessions[..i] == sessions[..];
    }

    /** The second loop of `session_mgr_destroy`. */
    method AwaitAll() returns (actions: seq<Action>)
      ensures actions == Awaits(sessions[..])
    {
      actions := [];
      var i := 0;
      while i < sessions.Length
        invariant 0 <= i <= sessions.Length
        invariant actions == Awaits(sessions[..i])
      {
        assert sessions[..i + 1][..i] == sessions[..i];
        if sessions[i].active {
          actions := actions + [AwaitExit(sessions[i].pid)];
        }
        i := i + 1;
      }
      assert sessions[..i] == sessions[..];
    }

    /** `session_mgr_destroy`; returns what was done to the workers. */
    method Destroy() returns (actions: seq<Action>)
      requires Valid()
      modifies this, sessions
      ensures State() == TearDown(old(State()))
      ensures actions == Stops(old(sessions[..])) + Awaits(old(sessions[..]))
    {
      var stops := StopAll();
      var awaits := AwaitAll();
      actions := stops + awaits;
      forall k | 0 <= k < sessions.Length {
        sessions[k] := EMPTY;
      }
      count := 0;
      assert sessions[..] == Cleared();
    }
  }

  lemma {:induction false} ThreePerWorker(slots: seq<Entry>)
    ensures |Stops(slots)| == 3 * |Awaits(slots)|
  {
    if slots != [] {
      ThreePerWorker(slots[..|slots| - 1]);
    }
  }

  /** Every active worker is told to stop, signalled and cut off, in this order and once, before any exit is
      awaited, and then its exit is awaited once: the k-th active slot holds the k-th place in both lists. */
  lemma {:induction false} WorkerStoppedAt(slots: seq<Entry>, i: nat)
    requires i < |slots| && slots[i].active
    ensures var k, e := |Awaits(slots[..i])|, slots[i];
            && k < |Awaits(slots)| && |Stops(slots)| == 3 * |Awaits(slots)|
            && Stops(slots)[3 * k..3 * k + 3] == [TellToStop(e.ipcFd), Terminate(e.pid), CloseEnd(e.ipcFd)]
            && Awaits(slots)[k] == AwaitExit(e.pid)
  {
    var n := |slots| - 1;
    ThreePerWorker(slots[..n]);
    ThreePerWorker(slots);
    if i < n {
      WorkerStoppedAt(slots[..n], i);
      assert slots[..n][..i] == slots[..i];
    }
  }
}
