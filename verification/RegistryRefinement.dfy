/** The slot table implements a map from users to workers, over every run of the daemon. */
module RegistryRefinement {
  import opened Options
  import opened SessionRegistry

  // --- The abstract registry: which worker serves which user ---

  datatype Worker = Worker(pid: int, fd: int)

  type Registry = map<string, Worker>

  function MapGet(m: Registry, name: Option<string>, o: ForkOutcome): (r: (Registry, Option<Worker>)) {
    if name.None? then (m, None)
    else if name.value in m then (m, Some(m[name.value]))
    else if |m| >= MAX_SESSIONS || !o.pairOk || !o.forkOk then (m, None)
    else (m[name.value := Worker(o.pid, o.fd)], Some(Worker(o.pid, o.fd)))
  }

  function MapReapOne(m: Registry, pid: int): (r: Registry) {
    map u | u in m && m[u].pid != pid :: m[u]
  }

  function MapReap(m: Registry, pids: seq<int>): (r: Registry) {
    if pids == [] then m else MapReapOne(MapReap(m, pids[..|pids| - 1]), pids[|pids| - 1])
  }

  // --- Runs ---

  datatype Event =
    | Login(name: Option<string>, o: ForkOutcome)
    | Exits(pids: seq<int>)
    | Teardown

  /** Names fit the field, and the kernel reuses neither the id of a worker that has not been reaped nor
      an open descriptor. */
  ghost predicate Allowed(t: Table, e: Event) {
    match e
    case Login(name, o) =>
      && (name.Some? ==> |name.value| <= NAME_MAX)
      && o.fd !in t.open
      && forall i :: 0 <= i < |t.slots| && t.slots[i].active ==> t.slots[i].pid != o.pid
    case _ => true
  }

  function Next(t: Table, e: Event): (r: Table) {
    match e
    case Login(name, o) => Get(t, name, o).0
    case Exits(pids) => ReapAll(t, pids)
    case Teardown => TearDown(t)
  }

  function MapNext(m: Registry, e: Event): (r: Registry) {
    match e
    case Login(name, o) => MapGet(m, name, o).0
    case Exits(pids) => MapReap(m, pids)
    case Teardown => map[]
  }

  ghost predicate AllowedRun(t: Table, events: seq<Event>)
    decreases |events|
  {
    events != [] ==> Allowed(t, events[0]) && AllowedRun(Next(t, events[0]), events[1..])
  }

  function Run(t: Table, events: seq<Event>): (r: Table)
    decreases |events|
  {
    if events == [] then t else Run(Next(t, events[0]), events[1..])
  }

  function MapRun(m: Registry, events: seq<Event>): (r: Registry)
    decreases |events|
  {
    if events == [] then m else MapRun(MapNext(m, events[0]), events[1..])
  }

  // --- Invariant and abstraction ---

  function ActiveCount(slots: seq<Entry>): (r: nat) {
    if slots == [] then 0 else ActiveCount(slots[1..]) + if slots[0].active then 1 else 0
  }

  ghost predicate Active(slots: seq<Entry>, i: int) {
    0 <= i < |slots| && slots[i].active
  }

  /** Free slots are blank, names fit, and no two active slots share user, process or descriptor. */
  ghost predicate Tidy(slots: seq<Entry>) {
    && |slots| == MAX_SESSIONS
    && (forall i :: 0 <= i < |slots| && !slots[i].active ==> slots[i] == EMPTY)
    && (forall i :: Active(slots, i) ==> |slots[i].username| <= NAME_MAX)
    && (forall i, j :: Active(slots, i) && Active(slots, j) && i != j ==>
          slots[i].username != slots[j].username && slots[i].pid != slots[j].pid && slots[i].ipcFd != slots[j].ipcFd)
  }

  ghost predicate FdHeld(slots: seq<Entry>, fd: int) {
    exists i :: Active(slots, i) && slots[i].ipcFd == fd
  }

  ghost predicate UserHasSlot(slots: seq<Entry>, user: string) {
    exists i :: Active(slots, i) && slots[i].username == user
  }

  ghost predicate Recorded(m: Registry, e: Entry) {
    e.username in m && m[e.username] == Worker(e.pid, e.ipcFd)
  }

  /** The counter counts the active slots, and the open descriptors are exactly theirs. */
  ghost predicate TableInv(t: Table) {
    && Tidy(t.slots)
    && t.count == ActiveCount(t.slots)
    && (forall i :: Active(t.slots, i) ==> t.slots[i].ipcFd in t.open)
    && (forall fd :: fd in t.open ==> FdHeld(t.slots, fd))
  }

  /** The active slots are the entries of the map, one for one. */
  ghost predicate Represents(t: Table, m: Registry) {
    && |m| == t.count
    && (forall i :: Active(t.slots, i) ==> Recorded(m, t.slots[i]))
    && (forall u :: u in m ==> UserHasSlot(t.slots, u))
  }

  lemma {:induction false} CountUpdate(slots: seq<Entry>, i: nat, e: Entry)
    requires i < |slots|
    ensures ActiveCount(slots[i := e]) ==
            ActiveCount(slots) - (if slots[i].active then 1 else 0) + (if e.active then 1 else 0)
  {
    if i == 0 {
      assert slots[0 := e][1..] == slots[1..];
    } else {
      assert slots[i := e][1..] == slots[1..][i - 1 := e];
      CountUpdate(slots[1..], i - 1, e);
    }
  }

  /** The table is full exactly when the counter says so. */
  lemma {:induction false} FullExactly(slots: seq<Entry>)
    ensures ActiveCount(slots) <= |slots|
    ensures ActiveCount(slots) == |slots| <==> forall i :: 0 <= i < |slots| ==> Active(slots, i)
  {
    if slots != [] {
      FullExactly(slots[1..]);
      assert forall i :: 0 <= i < |slots| - 1 ==> (Active(slots[1..], i) <==> Active(slots, i + 1));
      if forall i :: 0 <= i < |slots| - 1 ==> Active(slots[1..], i) {
        forall i | 0 <= i < |slots|
          ensures i > 0 ==> Active(slots, i)
        {
          assert i > 0 ==> Active(slots[1..], i - 1);
        }
        assert Active(slots, 0) <==> slots[0].active;
      } else {
        var i :| 0 <= i < |slots| - 1 && !Active(slots[1..], i);
        assert !Active(slots, i + 1);
      }
    }
  }

  lemma {:induction false} NoneActive(slots: seq<Entry>)
    requires forall i :: 0 <= i < |slots| ==> !Active(slots, i)
    ensures ActiveCount(slots) == 0
  {
    if slots != [] {
      assert forall i :: 0 <= i < |slots| - 1 ==> (Active(slots[1..], i) <==> Active(slots, i + 1));
      assert !Active(slots, 0);
      NoneActive(slots[1..]);
    }
  }

  // --- Each operation ---

  /** A user who has a slot gets it, and the map has the same worker for that user. */
  lemma LookupAgrees(t: Table, m: Registry, name: string)
    requires TableInv(t) && Represents(t, m)
    ensures var i := FirstIndex(t.slots, Named(name));
            (i < |t.slots| <==> name in m) &&
            (i < |t.slots| ==> m[name] == Worker(t.slots[i].pid, t.slots[i].ipcFd))
  {
    var i := FirstIndex(t.slots, Named(name));
    if i < |t.slots| {
      assert Active(t.slots, i);
    } else {
      forall k | Active(t.slots, k)
        ensures t.slots[k].username != name
      {
        assert !Named(name)(t.slots[k]);
      }
    }
  }

  lemma FreeSlotExactly(t: Table)
    requires TableInv(t)
    ensures FirstIndex(t.slots, Free()) == |t.slots| <==> t.count >= MAX_SESSIONS
  {
    var j := FirstIndex(t.slots, Free());
    FullExactly(t.slots);
    if j == |t.slots| {
      forall i | 0 <= i < |t.slots|
        ensures Active(t.slots, i)
      {
        assert !Free()(t.slots[i]);
      }
    } else {
      assert !Active(t.slots, j);
    }
  }

  /** The slots after one of them was overwritten, and which of them are active then. */
  lemma ActiveAfter(slots: seq<Entry>, i: nat, e: Entry)
    requires i < |slots|
    ensures forall k :: k != i ==> (Active(slots[i := e], k) <==> Active(slots, k))
    ensures forall k :: Active(slots, k) && k != i ==> slots[i := e][k] == slots[k]
    ensures Active(slots[i := e], i) <==> e.active
  {
  }

  lemma OccupyTidy(t: Table, j: nat, name: string, o: ForkOutcome)
    requires TableInv(t) && j < |t.slots| && !t.slots[j].active && |name| <= NAME_MAX
    requires Allowed(t, Login(Some(name), o)) && forall k :: Active(t.slots, k) ==> t.slots[k].username != name
    ensures Tidy(t.slots[j := Occupied(name, o)])
  {
    var slots := t.slots[j := Occupied(name, o)];
    ActiveAfter(t.slots, j, Occupied(name, o));
    forall k | Active(t.slots, k)
      ensures t.slots[k].pid != o.pid && t.slots[k].ipcFd != o.fd
    {
    }
  }

  /** Overwriting one slot takes away at most that slot's user and descriptor. */
  lemma HoldersAfter(slots: seq<Entry>, i: nat, e: Entry)
    requires i < |slots|
    ensures forall fd :: FdHeld(slots, fd) && !(slots[i].active && slots[i].ipcFd == fd) ==> FdHeld(slots[i := e], fd)
    ensures forall u :: UserHasSlot(slots, u) && !(slots[i].active && slots[i].username == u) ==>
              UserHasSlot(slots[i := e], u)
    ensures e.active ==> FdHeld(slots[i := e], e.ipcFd) && UserHasSlot(slots[i := e], e.username)
  {
    ActiveAfter(slots, i, e);
    var after := slots[i := e];
    assert after[i] == e;
    forall fd | FdHeld(slots, fd) && !(slots[i].active && slots[i].ipcFd == fd)
      ensures FdHeld(after, fd)
    {
      var k :| Active(slots, k) && slots[k].ipcFd == fd;
      assert Active(after, k) && after[k].ipcFd == fd;
    }
    forall u: string | UserHasSlot(slots, u) && !(slots[i].active && slots[i].username == u)
      ensures UserHasSlot(after, u)
    {
      var k :| Active(slots, k) && slots[k].username == u;
      assert Active(after, k) && after[k].username == u;
    }
  }

  lemma MapAfterOccupy(t: Table, m: Registry, j: nat, name: string, o: ForkOutcome)
    requires TableInv(t) && Represents(t, m) && j < |t.slots| && !t.slots[j].active && |name| <= NAME_MAX && name !in m
    ensures var r := Table(t.slots[j := Occupied(name, o)], t.count + 1, t.open + {o.fd});
            Represents(r, m[name := Worker(o.pid, o.fd)])
  {
    var e := Occupied(name, o);
    var m' := m[name := Worker(o.pid, o.fd)];
    ActiveAfter(t.slots, j, e);
    HoldersAfter(t.slots, j, e);
    var after := t.slots[j := e];
    forall k | Active(after, k)
      ensures Recorded(m', after[k])
    {
      assert k != j ==> Active(t.slots, k) && Recorded(m, t.slots[k]);
    }
  }

  lemma OccupyKeeps(t: Table, m: Registry, j: nat, name: string, o: ForkOutcome)
    requires TableInv(t) && Represents(t, m) && j < |t.slots| && !t.slots[j].active
    requires |name| <= NAME_MAX && name !in m && Allowed(t, Login(Some(name), o))
    ensures var r := Table(t.slots[j := Occupied(name, o)], t.count + 1, t.open + {o.fd});
            TableInv(r) && Represents(r, m[name := Worker(o.pid, o.fd)])
  {
    CountUpdate(t.slots, j, Occupied(name, o));
    OccupyTidy(t, j, name, o);
    ActiveAfter(t.slots, j, Occupied(name, o));
    HoldersAfter(t.slots, j, Occupied(name, o));
    MapAfterOccupy(t, m, j, name, o);
  }

  lemma GetRefines(t: Table, m: Registry, name: Option<string>, o: ForkOutcome)
    requires TableInv(t) && Represents(t, m) && Allowed(t, Login(name, o))
    ensures var (t', r) := Get(t, name, o); var (m', w) := MapGet(m, name, o);
            && TableInv(t') && Represents(t', m')
            && (r.Some? <==> w.Some?)
            && (r.Some? ==> Active(t'.slots, r.value)
                            && w.value == Worker(t'.slots[r.value].pid, t'.slots[r.value].ipcFd))
  {
    if name.Some? {
      var j := FirstIndex(t.slots, Free());
      LookupAgrees(t, m, name.value);
      FreeSlotExactly(t);
      if name.value !in m && j < |t.slots| {
        if o.pairOk && o.forkOk {
          OccupyKeeps(t, m, j, name.value, o);
        } else {
          assert t.slots[j := EMPTY] == t.slots;
        }
      }
    }
  }

  lemma WorkerOfPid(t: Table, m: Registry, i: nat)
    requires TableInv(t) && Represents(t, m) && Active(t.slots, i)
    ensures forall u :: u in m ==> (m[u].pid == t.slots[i].pid <==> u == t.slots[i].username)
  {
    forall u | u in m
      ensures m[u].pid == t.slots[i].pid <==> u == t.slots[i].username
    {
      var k :| Active(t.slots, k) && t.slots[k].username == u;
      assert k != i ==> t.slots[k].pid != t.slots[i].pid;
    }
  }

  lemma MapReapOneRemoves(t: Table, m: Registry, i: nat)
    requires TableInv(t) && Represents(t, m) && Active(t.slots, i)
    ensures MapReapOne(m, t.slots[i].pid) == m - {t.slots[i].username}
  {
    WorkerOfPid(t, m, i);
  }

  lemma NobodyHasPid(t: Table, m: Registry, pid: int)
    requires Represents(t, m) && FirstIndex(t.slots, WithPid(pid)) == |t.slots|
    ensures forall u :: u in m ==> m[u].pid != pid
  {
    forall u | u in m
      ensures m[u].pid != pid
    {
      var k :| Active(t.slots, k) && t.slots[k].username == u;
      assert !WithPid(pid)(t.slots[k]);
    }
  }

  lemma RemoveKey(m: Registry, user: string)
    requires user in m
    ensures |m - {user}| == |m| - 1
  {
    assert (m - {user}).Keys == m.Keys - {user};
  }

  lemma MapAfterVacate(t: Table, m: Registry, i: nat)
    requires TableInv(t) && Represents(t, m) && Active(t.slots, i)
    ensures var r := Table(t.slots[i := EMPTY], t.count - 1, t.open - {t.slots[i].ipcFd});
            Represents(r, m - {t.slots[i].username})
  {
    RemoveKey(m, t.slots[i].username);
    ActiveAfter(t.slots, i, EMPTY);
    HoldersAfter(t.slots, i, EMPTY);
    var after := t.slots[i := EMPTY];
    forall k | Active(after, k)
      ensures Recorded(m - {t.slots[i].username}, after[k])
    {
      assert Active(t.slots, k) && Recorded(m, t.slots[k]);
    }
  }

  lemma VacateTidy(slots: seq<Entry>, i: nat)
    requires Tidy(slots) && Active(slots, i)
    ensures Tidy(slots[i := EMPTY])
  {
    ActiveAfter(slots, i, EMPTY);
  }

  lemma VacateOpen(t: Table, i: nat)
    requires TableInv(t) && Active(t.slots, i)
    ensures var r := Table(t.slots[i := EMPTY], t.count - 1, t.open - {t.slots[i].ipcFd});
            && (forall k :: Active(r.slots, k) ==> r.slots[k].ipcFd in r.open)
            && (forall fd :: fd in r.open ==> FdHeld(r.slots, fd))
  {
    ActiveAfter(t.slots, i, EMPTY);
    HoldersAfter(t.slots, i, EMPTY);
  }

  lemma VacateKeeps(t: Table, m: Registry, i: nat)
    requires TableInv(t) && Represents(t, m) && Active(t.slots, i)
    ensures var r := Table(t.slots[i := EMPTY], t.count - 1, t.open - {t.slots[i].ipcFd});
            TableInv(r) && Represents(r, m - {t.slots[i].username})
  {
    CountUpdate(t.slots, i, EMPTY);
    VacateTidy(t.slots, i);
    VacateOpen(t, i);
    MapAfterVacate(t, m, i);
  }

  lemma ReapOneRefines(t: Table, m: Registry, pid: int)
    requires TableInv(t) && Represents(t, m)
    ensures TableInv(ReapOne(t, pid)) && Represents(ReapOne(t, pid), MapReapOne(m, pid))
  {
    var i := FirstIndex(t.slots, WithPid(pid));
    if i < |t.slots| {
      assert Active(t.slots, i);
      VacateKeeps(t, m, i);
      MapReapOneRemoves(t, m, i);
    } else {
      NobodyHasPid(t, m, pid);
      assert MapReapOne(m, pid) == m;
    }
  }

  lemma {:induction false} ReapRefines(t: Table, m: Registry, pids: seq<int>)
    requires TableInv(t) && Represents(t, m)
    ensures TableInv(ReapAll(t, pids)) && Represents(ReapAll(t, pids), MapReap(m, pids))
  {
    if pids != [] {
      ReapRefines(t, m, pids[..|pids| - 1]);
      ReapOneRefines(ReapAll(t, pids[..|pids| - 1]), MapReap(m, pids[..|pids| - 1]), pids[|pids| - 1]);
    }
  }

  lemma BlankTable(slots: seq<Entry>)
    requires |slots| == MAX_SESSIONS && forall i :: 0 <= i < |slots| ==> slots[i] == EMPTY
    ensures TableInv(Table(slots, 0, {})) && Represents(Table(slots, 0, {}), map[])
  {
    assert forall i :: !Active(slots, i);
    NoneActive(slots);
  }

  /** Tearing down closes every descriptor and leaves a blank table. */
  lemma TearDownRefines(t: Table)
    requires TableInv(t)
    ensures TableInv(TearDown(t)) && Represents(TearDown(t), map[]) && TearDown(t).open == {}
  {
    BlankTable(Cleared());
    forall fd | fd in t.open
      ensures fd in ActiveFds(t.slots)
    {
      assert FdHeld(t.slots, fd);
      var i :| Active(t.slots, i) && t.slots[i].ipcFd == fd;
      ActiveFdListed(t.slots, i);
    }
    assert t.open - ActiveFds(t.slots) == {};
  }

  lemma EmptyTable()
    ensures var t := Table(Cleared(), 0, {}); TableInv(t) && Represents(t, map[])
  {
    BlankTable(Cleared());
  }

  lemma {:induction false} RunRefinesFrom(t: Table, m: Registry, events: seq<Event>)
    requires TableInv(t) && Represents(t, m) && AllowedRun(t, events)
    ensures TableInv(Run(t, events)) && Represents(Run(t, events), MapRun(m, events))
    decreases |events|
  {
    if events != [] {
      match events[0] {
        case Login(name, o) => GetRefines(t, m, name, o);
        case Exits(pids) => ReapRefines(t, m, pids);
        case Teardown => TearDownRefines(t);
      }
      RunRefinesFrom(Next(t, events[0]), MapNext(m, events[0]), events[1..]);
    }
  }

  /** After any interleaving of logins, exits and teardowns the table represents the map that the same
      events produce; it has at most fifty users, the counter is their number, and the daemon holds
      exactly their descriptors open. */
  lemma RegistryRefinesMap(events: seq<Event>)
    requires AllowedRun(Table(Cleared(), 0, {}), events)
    ensures var t := Run(Table(Cleared(), 0, {}), events); var m := MapRun(map[], events);
            TableInv(t) && Represents(t, m) && t.count == |m| <= MAX_SESSIONS
  {
    EmptyTable();
    RunRefinesFrom(Table(Cleared(), 0, {}), map[], events);
    FullExactly(Run(Table(Cleared(), 0, {}), events).slots);
  }
}
