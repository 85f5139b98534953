/** How long a slot that was handed out lasts, and how long it is found again, over every run of the daemon
    and for names of any length (src/daemon/session_mgr.c:132-201). */
module RegistryStability {
  import opened Options
  import opened RegistryRefinement
  import opened SessionRegistry

  /** The daemon does not go down, and the worker with this pid does not exit. */
  predicate Spares(e: Event, pid: int) {
    match e
    case Login(_, _) => true
    case Exits(pids) => pid !in pids
    case Teardown => false
  }

  ghost predicate Undisturbed(events: seq<Event>, pid: int) {
    forall e :: e in events ==> Spares(e, pid)
  }

  lemma {:induction false} ReapSpares(t: Table, i: nat, pids: seq<int>)
    requires Active(t.slots, i) && t.slots[i].pid !in pids
    ensures var r := ReapAll(t, pids).slots; |r| == |t.slots| && r[i] == t.slots[i]
  {
    if pids != [] {
      ReapSpares(t, i, pids[..|pids| - 1]);
    }
  }

  lemma NextSpares(t: Table, i: nat, e: Event)
    requires Active(t.slots, i) && Spares(e, t.slots[i].pid)
    ensures var r := Next(t, e).slots; |r| == |t.slots| && r[i] == t.slots[i]
  {
    if e.Exits? {
      ReapSpares(t, i, e.pids);
    }
  }

  /** From any table, through every run without a teardown and without the exit of its own worker, a slot in
      use keeps its entry. */
  lemma {:induction false} SlotStable(t: Table, i: nat, events: seq<Event>)
    requires Active(t.slots, i) && Undisturbed(events, t.slots[i].pid)
    ensures var r := Run(t, events).slots; |r| == |t.slots| && r[i] == t.slots[i]
    decreases |events|
  {
    if events != [] {
      assert events[0] in events;
      NextSpares(t, i, events[0]);
      SlotStable(Next(t, events[0]), i, events[1..]);
    }
  }

  // --- Finding a slot again ---

  /** Stored names fit their field. */
  ghost predicate NamesFit(slots: seq<Entry>) {
    forall i :: Active(slots, i) ==> |slots[i].username| <= NAME_MAX
  }

  lemma {:induction false} ReapKeepsNames(t: Table, pids: seq<int>)
    requires NamesFit(t.slots)
    ensures NamesFit(ReapAll(t, pids).slots)
  {
    if pids != [] {
      var before := ReapAll(t, pids[..|pids| - 1]);
      ReapKeepsNames(t, pids[..|pids| - 1]);
      var i := FirstIndex(before.slots, WithPid(pids[|pids| - 1]));
      if i < |before.slots| {
        ActiveAfter(before.slots, i, EMPTY);
      }
    }
  }

  lemma NextKeepsNames(t: Table, e: Event)
    requires NamesFit(t.slots)
    ensures NamesFit(Next(t, e).slots)
  {
    match e
    case Login(name, o) =>
      var j := FirstIndex(t.slots, Free());
      if name.Some? && j < |t.slots| {
        ActiveAfter(t.slots, j, EMPTY);
        ActiveAfter(t.slots, j, Occupied(name.value, o));
      }
    case Exits(pids) => ReapKeepsNames(t, pids);
    case Teardown =>
  }

  /** After every history, whatever the names and the kernel's answers. */
  lemma {:induction false} RunKeepsNames(t: Table, events: seq<Event>)
    requires NamesFit(t.slots)
    ensures NamesFit(Run(t, events).slots)
    decreases |events|
  {
    if events != [] {
      NextKeepsNames(t, events[0]);
      RunKeepsNames(Next(t, events[0]), events[1..]);
    }
  }

  lemma HistoryNamesFit(events: seq<Event>)
    ensures NamesFit(Run(Table(Cleared(), 0, {}), events).slots)
  {
    RunKeepsNames(Table(Cleared(), 0, {}), events);
  }

  /** A slot before the i-th one is filed under this name. */
  ghost predicate FiledEarlier(slots: seq<Entry>, i: nat, name: string) {
    exists k :: k < i && Active(slots, k) && slots[k].username == name
  }

  lemma NothingFound(slots: seq<Entry>, name: string)
    requires NamesFit(slots) && |name| > NAME_MAX
    ensures FirstIndex(slots, Named(name)) == |slots|
  {
    forall k | 0 <= k < |slots|
      ensures !Named(name)(slots[k])
    {
      assert slots[k].active ==> Active(slots, k);
    }
    FirstIndexUnique(slots, Named(name), |slots|);
  }

  /** A login finds the i-th slot, and forks nothing, exactly when that is the first one of its name. */
  lemma FindsExactly(t: Table, i: nat, name: string, o: ForkOutcome)
    requires Active(t.slots, i) && NamesFit(t.slots) && t.slots[i].username == Stored(name)
    ensures Get(t, Some(name), o) == (t, Some(i)) <==> |name| <= NAME_MAX && !FiledEarlier(t.slots, i, name)
  {
    var found := FirstIndex(t.slots, Named(name));
    if |name| > NAME_MAX {
      NothingFound(t.slots, name);
    } else if found < i {
      assert Active(t.slots, found);
    } else {
      assert Named(name)(t.slots[i]);
      forall k | 0 <= k < i && Active(t.slots, k)
        ensures t.slots[k].username != name
      {
        assert !Named(name)(t.slots[k]);
      }
    }
  }

  /** The slot that a login hands out is in use and filed under the stored name. */
  lemma HandedOut(t: Table, name: string, o: ForkOutcome)
    requires Get(t, Some(name), o).1.Some? && NamesFit(t.slots)
    ensures var (r, slot) := Get(t, Some(name), o);
            && Active(r.slots, slot.value) && r.slots[slot.value].username == Stored(name)
            && NamesFit(r.slots)
            && (|name| <= NAME_MAX ==> FirstIndex(r.slots, Named(name)) == slot.value)
  {
    var (r, slot) := Get(t, Some(name), o);
    NextKeepsNames(t, Login(Some(name), o));
    var i := FirstIndex(t.slots, Named(name));
    if i < |t.slots| {
      assert Active(t.slots, i);
    } else if |name| <= NAME_MAX {
      FirstIndexUnique(r.slots, Named(name), slot.value);
    }
  }

  /** Asking again, after any run in between that spares the worker: the slot is still there, and the second
      login finds it and forks nothing, exactly when the name fits its field and no earlier slot has come to
      be filed under it. */
  lemma RepeatedGetExactly(t: Table, name: string, o: ForkOutcome, events: seq<Event>, o': ForkOutcome)
    requires NamesFit(t.slots) && Get(t, Some(name), o).1.Some?
    requires var (t1, r1) := Get(t, Some(name), o); Undisturbed(events, t1.slots[r1.value].pid)
    ensures var (t1, r1) := Get(t, Some(name), o); var t2 := Run(t1, events);
            && |t2.slots| == |t1.slots| && t2.slots[r1.value] == t1.slots[r1.value]
            && (Get(t2, Some(name), o') == (t2, r1) <==>
                  |name| <= NAME_MAX && !FiledEarlier(t2.slots, r1.value, name))
  {
    var (t1, r1) := Get(t, Some(name), o);
    HandedOut(t, name, o);
    SlotStable(t1, r1.value, events);
    RunKeepsNames(t1, events);
    FindsExactly(Run(t1, events), r1.value, name, o');
  }

  // --- When an earlier slot can come to be filed under the name ---

  /** No other, longer name is cut to this one. */
  predicate NoNamesake(e: Event, name: string) {
    e.Login? && e.name.Some? && Stored(e.name.value) == name ==> e.name.value == name
  }

  ghost predicate NoNamesakes(events: seq<Event>, name: string) {
    forall e :: e in events ==> NoNamesake(e, name)
  }

  ghost predicate FoundFirst(slots: seq<Entry>, i: nat, name: string) {
    i < |slots| && FirstIndex(slots, Named(name)) == i
  }

  lemma {:induction false} ReapKeepsFirst(t: Table, i: nat, name: string, pids: seq<int>)
    requires FoundFirst(t.slots, i, name) && t.slots[i].pid !in pids
    ensures var r := ReapAll(t, pids).slots; FoundFirst(r, i, name) && r[i] == t.slots[i]
  {
    if pids != [] {
      var before := ReapAll(t, pids[..|pids| - 1]).slots;
      ReapKeepsFirst(t, i, name, pids[..|pids| - 1]);
      var k := FirstIndex(before, WithPid(pids[|pids| - 1]));
      if k < |before| {
        assert forall j :: 0 <= j < i && j != k ==> !Named(name)(before[j]);
        FirstIndexUnique(before[k := EMPTY], Named(name), i);
      }
    }
  }

  lemma LoginKeepsFirst(t: Table, i: nat, name: string, user: string, o: ForkOutcome)
    requires FoundFirst(t.slots, i, name) && (Stored(user) == name ==> user == name)
    ensures var r := Get(t, Some(user), o).0.slots; FoundFirst(r, i, name) && r[i] == t.slots[i]
  {
    var r := Get(t, Some(user), o).0.slots;
    var j := FirstIndex(t.slots, Free());
    if r != t.slots {
      assert j != i && user != name;
      FirstIndexUnique(r, Named(name), i);
    }
  }

  lemma {:induction false} RunKeepsFirst(t: Table, i: nat, name: string, events: seq<Event>)
    requires FoundFirst(t.slots, i, name) && Undisturbed(events, t.slots[i].pid) && NoNamesakes(events, name)
    ensures FoundFirst(Run(t, events).slots, i, name)
    decreases |events|
  {
    if events != [] {
      var e := events[0];
      assert e in events && Spares(e, t.slots[i].pid) && NoNamesake(e, name);
      if e.Exits? {
        ReapKeepsFirst(t, i, name, e.pids);
      } else if e.name.Some? {
        LoginKeepsFirst(t, i, name, e.name.value, e.o);
      }
      RunKeepsFirst(Next(t, e), i, name, events[1..]);
    }
  }

  /** Unless a longer name that is cut to this one logs in between, that is: exactly when the name fits. */
  lemma RepeatedGetWithoutNamesakes(t: Table, name: string, o: ForkOutcome, events: seq<Event>, o': ForkOutcome)
    requires NamesFit(t.slots) && Get(t, Some(name), o).1.Some? && NoNamesakes(events, name)
    requires var (t1, r1) := Get(t, Some(name), o); Undisturbed(events, t1.slots[r1.value].pid)
    ensures var (t1, r1) := Get(t, Some(name), o); var t2 := Run(t1, events);
            Get(t2, Some(name), o') == (t2, r1) <==> |name| <= NAME_MAX
  {
    RepeatedGetExactly(t, name, o, events, o');
    var (t1, r1) := Get(t, Some(name), o);
    if |name| <= NAME_MAX {
      HandedOut(t, name, o);
      RunKeepsFirst(t1, r1.value, name, events);
    }
  }

  lemma FreshLogin(t: Table, name: string, o: ForkOutcome, j: nat)
    requires o.pairOk && o.forkOk && j < |t.slots| && !t.slots[j].active
    requires forall k :: 0 <= k < |t.slots| ==> !Named(name)(t.slots[k])
    requires forall k :: 0 <= k < j ==> t.slots[k].active
    ensures Get(t, Some(name), o) == (Table(t.slots[j := Occupied(name, o)], t.count + 1, t.open + {o.fd}), Some(j))
  {
    FirstIndexUnique(t.slots, Named(name), |t.slots|);
    FirstIndexUnique(t.slots, Free(), j);
  }

  lemma FreedSlotTaken(t: Table, name: string, longer: string, o: ForkOutcome, p: ForkOutcome, q: ForkOutcome)
    requires |t.slots| == MAX_SESSIONS && t.slots[0].active && t.slots[0].pid == o.pid
    requires t.slots[1] == Occupied(name, p) && o.pid != p.pid && NamesFit(t.slots)
    requires |name| == NAME_MAX < |longer| && Stored(longer) == name && q.pairOk && q.forkOk
    ensures var r := Next(Next(t, Exits([o.pid])), Login(Some(longer), q));
            && |r.slots| == MAX_SESSIONS && r.slots[1] == t.slots[1] && r.slots[0] == Occupied(longer, q)
            && Get(r, Some(name), o) == (r, Some(0))
  {
    FirstIndexUnique(t.slots, WithPid(o.pid), 0);
    assert ReapAll(t, [o.pid][..0]) == t;
    var freed := Next(t, Exits([o.pid]));
    assert freed.slots == t.slots[0 := EMPTY];
    NextKeepsNames(t, Exits([o.pid]));
    NothingFound(freed.slots, longer);
    FirstIndexUnique(freed.slots, Free(), 0);
    var r := Next(freed, Login(Some(longer), q));
    FirstIndexUnique(r.slots, Named(name), 0);
  }

  /** A history in which a namesake gets in the way: another user, then a name that just fits, then the other
      user leaves and a longer name, cut to the same, takes the freed slot. From then on the user whose name
      fits is handed the slot of the longer name, although the own worker is still there. */
  lemma NamesakeGetsInTheWay(other: string, name: string, longer: string,
                             o: ForkOutcome, p: ForkOutcome, q: ForkOutcome)
    requires |other| < |name| == NAME_MAX < |longer| && Stored(longer) == name
    requires o.pairOk && o.forkOk && p.pairOk && p.forkOk && q.pairOk && q.forkOk && o.pid != p.pid
    ensures var t2 := Next(Next(Table(Cleared(), 0, {}), Login(Some(other), o)), Login(Some(name), p));
            var t4 := Next(Next(t2, Exits([o.pid])), Login(Some(longer), q));
            && |t2.slots| == |t4.slots| == MAX_SESSIONS && t2.slots[1] == t4.slots[1] == Occupied(name, p)
            && t4.slots[0] == Occupied(longer, q) && Get(t4, Some(name), o) == (t4, Some(0))
  {
    var t0 := Table(Cleared(), 0, {});
    FreshLogin(t0, other, o, 0);
    var t1 := Next(t0, Login(Some(other), o));
    FreshLogin(t1, name, p, 1);
    var t2 := Next(t1, Login(Some(name), p));
    NextKeepsNames(t0, Login(Some(other), o));
    NextKeepsNames(t1, Login(Some(name), p));
    FreedSlotTaken(t2, name, longer, o, p, q);
  }
}
