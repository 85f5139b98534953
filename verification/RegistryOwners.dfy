/** Whose worker a login is handed, for names of any length: the username field keeps 63 characters, so a
    worker can be found under a name that is not its owner's (src/daemon/session_mgr.c:139-163). */
module RegistryOwners {
  import opened Options
  import opened RegistryRefinement
  import opened SessionRegistry

  /** The table, and for each slot the full name of the user for whom its worker was last forked. */
  datatype Book = Book(table: Table, owners: seq<string>)

  const NEW_BOOK := Book(Table(Cleared(), 0, {}), seq(MAX_SESSIONS, i => ""))

  /** The login forks a worker, rather than finding one or failing. */
  predicate Forks(t: Table, name: string, o: ForkOutcome) {
    Get(t, Some(name), o).1.Some? && FirstIndex(t.slots, Named(name)) == |t.slots|
  }

  function NextBook(b: Book, e: Event): (r: Book) {
    var t := Next(b.table, e);
    if e.Login? && e.name.Some? && Forks(b.table, e.name.value, e.o) && |b.owners| == |b.table.slots|
    then Book(t, b.owners[Get(b.table, e.name, e.o).1.value := e.name.value])
    else b.(table := t)
  }

  function RunBook(b: Book, events: seq<Event>): (r: Book)
    decreases |events|
  {
    if events == [] then b else RunBook(NextBook(b, events[0]), events[1..])
  }

  /** The table of a book runs as the table alone does. */
  lemma {:induction false} BookFollowsTable(b: Book, events: seq<Event>)
    ensures RunBook(b, events).table == Run(b.table, events)
    decreases |events|
  {
    if events != [] {
      BookFollowsTable(NextBook(b, events[0]), events[1..]);
    }
  }

  /** Each active slot is filed under its owner's name, as far as that fits. */
  ghost predicate FiledByOwner(b: Book) {
    && |b.owners| == |b.table.slots|
    && forall i :: Active(b.table.slots, i) ==> b.table.slots[i].username == Stored(b.owners[i])
  }

  /** Every active slot of the later table was there before, unchanged. */
  ghost predicate OnlyVacated(before: seq<Entry>, after: seq<Entry>) {
    |after| == |before| && forall i :: Active(after, i) ==> Active(before, i) && after[i] == before[i]
  }

  lemma ReapOneOnlyVacates(t: Table, pid: int)
    ensures OnlyVacated(t.slots, ReapOne(t, pid).slots)
  {
    var i := FirstIndex(t.slots, WithPid(pid));
    if i < |t.slots| {
      ActiveAfter(t.slots, i, EMPTY);
    }
  }

  lemma {:induction false} ReapOnlyVacates(t: Table, pids: seq<int>)
    ensures OnlyVacated(t.slots, ReapAll(t, pids).slots)
  {
    if pids != [] {
      var before := ReapAll(t, pids[..|pids| - 1]);
      ReapOnlyVacates(t, pids[..|pids| - 1]);
      ReapOneOnlyVacates(before, pids[|pids| - 1]);
    }
  }

  lemma LoginFiled(b: Book, name: string, o: ForkOutcome)
    requires FiledByOwner(b)
    ensures var r := NextBook(b, Login(Some(name), o)); FiledByOwner(r) && |r.table.slots| == |b.table.slots|
  {
    var j := FirstIndex(b.table.slots, Free());
    if FirstIndex(b.table.slots, Named(name)) == |b.table.slots| && j < |b.table.slots| {
      ActiveAfter(b.table.slots, j, Occupied(name, o));
      ActiveAfter(b.table.slots, j, EMPTY);
    }
  }

  lemma NextFiled(b: Book, e: Event)
    requires FiledByOwner(b) && |b.table.slots| == MAX_SESSIONS
    ensures FiledByOwner(NextBook(b, e)) && |NextBook(b, e).table.slots| == MAX_SESSIONS
  {
    match e
    case Login(name, o) =>
      if name.Some? {
        LoginFiled(b, name.value, o);
      }
    case Exits(pids) => ReapOnlyVacates(b.table, pids);
    case Teardown =>
  }

  lemma {:induction false} RunFiled(b: Book, events: seq<Event>)
    requires FiledByOwner(b) && |b.table.slots| == MAX_SESSIONS
    ensures FiledByOwner(RunBook(b, events))
    decreases |events|
  {
    if events != [] {
      NextFiled(b, events[0]);
      RunFiled(NextBook(b, events[0]), events[1..]);
    }
  }

  /** After any history, with names of any length and any answers of the kernel: the worker that a login is
      handed was forked for that very user exactly when it was forked just now, or for a name that fits the
      field. A worker of a longer name is handed to the user whose name is the stored part of it. */
  lemma HandedOwnWorkerExactly(events: seq<Event>, name: string, o: ForkOutcome)
    requires Get(RunBook(NEW_BOOK, events).table, Some(name), o).1.Some?
    ensures var b := RunBook(NEW_BOOK, events);
            var r := NextBook(b, Login(Some(name), o));
            var i := Get(b.table, Some(name), o).1.value;
            i < |r.owners| && (r.owners[i] == name <==> Forks(b.table, name, o) || |r.owners[i]| <= NAME_MAX)
  {
    var b := RunBook(NEW_BOOK, events);
    RunFiled(NEW_BOOK, events);
    var i := FirstIndex(b.table.slots, Named(name));
    if i < |b.table.slots| {
      assert Active(b.table.slots, i);
    }
  }

  /** A login under the first 63 characters of a longer name, right after that longer name's. */
  lemma StoredPrefixIsHandedOver(name: string, o: ForkOutcome, o': ForkOutcome)
    requires |name| > NAME_MAX && o.pairOk && o.forkOk
    ensures var b := NextBook(NEW_BOOK, Login(Some(name), o));
            && b.owners[0] == name != Stored(name)
            && Get(b.table, Some(Stored(name)), o') == (b.table, Some(0))
  {
    var t := NEW_BOOK.table;
    FirstIndexUnique(t.slots, Named(name), |t.slots|);
    FirstIndexUnique(t.slots, Free(), 0);
    var b := NextBook(NEW_BOOK, Login(Some(name), o));
    assert b.table.slots[0] == Occupied(name, o);
    FirstIndexUnique(b.table.slots, Named(Stored(name)), 0);
  }
}
