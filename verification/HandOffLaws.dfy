/** What holds over every run of the hand-off: accounting, wake-ups, delivery, agreement on sizes. */
module HandOffLaws {
  import opened Common
  import opened Growth
  import opened KernelTable
  import opened HandOff

  // ---------------------------------------------------------------- accounting

  /**
   While a server runs, what is waiting is what will still be announced, plus what reads swallowed and what never
   reached the eventfd, less what the start-up loop took unannounced; between the pop and the read one more is owed.
   */
  lemma AccountingLaw(s: State)
    requires Reachable(s) && Running(s.phase)
    ensures Pending(s) == s.k.counter + s.inFlight + s.books.swallowed + s.books.lost
                          - (s.books.drained - s.books.base - s.books.empty) - Owing(s.phase)
    ensures s.lives == 1 ==> s.books.base == s.unseen
  {
    ReachableInv(s);
  }

  /** The eventfd read after a successful pop always finds a non-zero counter, so it never blocks. */
  lemma ReadNeverBlocks(s: State)
    requires Reachable(s) && s.phase.Reading?
    ensures Step(s, Read).Some?
  {
    ReachableInv(s);
  }

  /** A server that is parked for good has a backlog exactly as large as its debt, which is never negative. */
  lemma ParkedBacklog(s: State)
    requires Reachable(s) && s.phase.Selecting? && s.k.counter == 0 && s.inFlight == 0
    ensures Pending(s) == Debt(s) >= 0
  {
    ReachableInv(s);
  }

  /**
   At every select, what waits is covered by notifications signalled or in flight exactly while the debt is not
   positive; with all of them signalled the server then wakes at least once more. As long as each read returned 1 and
   no notification was given up with an entry waiting this is so. Covered does not mean that all will be fetched.
   */
  lemma CoveredExactly(s: State)
    requires Reachable(s) && s.phase.Selecting?
    ensures Pending(s) <= s.k.counter + s.inFlight <==> Debt(s) <= 0
    ensures Debt(s) <= 0 && Pending(s) > 0 && s.inFlight == 0 ==> Step(s, Wake).Some?
    ensures s.books.swallowed == 0 && s.books.lost == 0 ==> Debt(s) <= 0 <= Overdrawn(s)
  {
    ReachableInv(s);
  }

  /** What will be left at the least: the debt, and what the next read is going to swallow. */
  function Shortfall(s: State): int {
    Debt(s) + if s.k.counter > 0 then s.k.counter - 1 else 0
  }

  lemma DebtGrows(s: State, l: Label)
    requires Inv(s) && AfterDrain(s.phase) && Step(s, l).Some?
    requires AfterDrain(Step(s, l).value.phase)
    ensures Debt(s) <= Debt(Step(s, l).value)
    ensures Shortfall(s) <= Shortfall(Step(s, l).value)
    ensures s.books.swallowed <= Step(s, l).value.books.swallowed
    ensures Overdrawn(Step(s, l).value) <= Overdrawn(s)
    ensures Step(s, l).value.lives == s.lives
  {
  }

  /** A server past its start-up loop that has stopped running does not come back in the same life. */
  predicate Gone(p: Phase) { p.Off? || p.Unpopping? || p.Leaving? }

  lemma {:induction false} GoneStaysGone(s: State, ls: seq<Label>)
    requires Gone(s.phase) && Run(s, ls).Some?
    ensures s.lives <= Run(s, ls).value.lives
    ensures Run(s, ls).value.lives == s.lives ==> Gone(Run(s, ls).value.phase)
    decreases |ls|
  {
    if ls != [] {
      var s1 := Step(s, ls[0]).value;
      LivesGrow(s1, ls[1..]);
      if s1.lives == s.lives {
        GoneStaysGone(s1, ls[1..]);
      }
    }
  }

  lemma LivesMayGrow(s: State, l: Label)
    requires Step(s, l).Some?
    ensures s.lives <= Step(s, l).value.lives
  {
  }

  lemma {:induction false} LivesGrow(s: State, ls: seq<Label>)
    requires Run(s, ls).Some?
    ensures s.lives <= Run(s, ls).value.lives
    decreases |ls|
  {
    if ls != [] {
      LivesGrow(Step(s, ls[0]).value, ls[1..]);
    }
  }

  lemma GoneOrAfterDrain(s: State, l: Label)
    requires AfterDrain(s.phase) && Step(s, l).Some?
    ensures Gone(Step(s, l).value.phase) || AfterDrain(Step(s, l).value.phase)
  {
  }

  lemma DebtBoundsBacklog(s: State)
    requires Inv(s) && AfterDrain(s.phase)
    ensures Debt(s) <= Shortfall(s) <= Pending(s)
  {
  }

  /**
   Coalescing is permanent: over the rest of a server's life neither its debt nor its shortfall ever shrinks, and the
   backlog never falls below them.
   */
  lemma {:induction false} CoalescingIsPermanent(s: State, ls: seq<Label>)
    requires Inv(s) && AfterDrain(s.phase) && Run(s, ls).Some?
    requires Run(s, ls).value.lives == s.lives && AfterDrain(Run(s, ls).value.phase)
    ensures Debt(s) <= Debt(Run(s, ls).value) <= Pending(Run(s, ls).value)
    ensures Shortfall(s) <= Shortfall(Run(s, ls).value) <= Pending(Run(s, ls).value)
    ensures s.books.swallowed <= Run(s, ls).value.books.swallowed
    ensures Overdrawn(Run(s, ls).value) <= Overdrawn(s)
    decreases |ls|
  {
    hide Step, Inv, Debt, Shortfall, Pending, Overdrawn;
    if ls == [] {
      DebtBoundsBacklog(s);
    } else {
      var s1 := Step(s, ls[0]).value;
      InvKept(s, ls[0]);
      LivesMayGrow(s, ls[0]);
      LivesGrow(s1, ls[1..]);
      GoneOrAfterDrain(s, ls[0]);
      if Gone(s1.phase) {
        GoneStaysGone(s1, ls[1..]);
      } else {
        DebtGrows(s, ls[0]);
        CoalescingIsPermanent(s1, ls[1..]);
      }
    }
  }

  /** Nothing short of a new server brings the backlog below the shortfall. */
  lemma BacklogNeverEmpties(s: State, ls: seq<Label>)
    requires Reachable(s) && AfterDrain(s.phase) && Run(s, ls).Some?
    requires Run(s, ls).value.lives == s.lives && AfterDrain(Run(s, ls).value.phase)
    ensures Pending(Run(s, ls).value) >= Shortfall(s) >= Debt(s)
  {
    ReachableInv(s);
    CoalescingIsPermanent(s, ls);
  }

  // ---------------------------------------------------------------- what a notification does

  /**
   The look of a producer: it is followed by a signal exactly if a server is registered and the cursor is not at the
   last entry (and, with the table lost, something was popped before); else it is over. It changes neither table nor
   counter.
   */
  lemma LookSeesExactly(s: State)
    requires Reachable(s) && Step(s, Peek).Some?
    ensures var s', t := Step(s, Peek).value, s.k.table;
            && s'.k == s.k
            && (s'.announcing <==>
                  s.k.ks != NoServer && t.index + 1 < |s.inserted| && (t.store.Present? || t.index >= 0))
            && s'.inFlight == s.inFlight - (if s'.announcing then 0 else 1)
            && s'.unseen == s.unseen + (if s.k.ks == NoServer then 1 else 0)
            && s'.books.empty == s.books.empty
                                 + (if s.k.ks != NoServer && t.index + 1 == |s.inserted| then 1 else 0)
            && s'.books.lost == s.books.lost
                                + (if s.k.ks != NoServer && t.index + 1 < |s.inserted| && !s'.announcing then 1 else 0)
  {
    ReachableInv(s);
  }

  /** Past the start-up loop, a look that finds nothing is one that the start-up loop took the entry from. */
  lemma EmptyLookNeedsOverdraft(s: State)
    requires Reachable(s) && AfterDrain(s.phase) && Step(s, Peek).Some?
    requires Step(s, Peek).value.books.empty == s.books.empty + 1
    ensures Overdrawn(s) >= 1 && Pending(s) == 0
  {
    ReachableInv(s);
  }

  /** The signal raises the counter by one, for a live server whose eventfd is found, and else is lost. */
  lemma SignalRaisesExactly(s: State, found: bool)
    requires Step(s, Signal(found)).Some?
    ensures var s' := Step(s, Signal(found)).value;
            var reached := found && s.k.ks != Stale;
            && s'.k == s.k.(counter := s.k.counter + if reached then 1 else 0)
            && s'.books == s.books.(lost := s.books.lost + if reached then 0 else 1)
            && s'.inFlight == s.inFlight - 1 && !s'.announcing
  {
  }

  /** What is left of a registration that failed after its allocation, or of a server that died without a word. */
  predicate Orphaned(s: State) { s.k.ks == Stale && s.phase.Off? }

  lemma OrphanedStep(s: State, l: Label)
    requires Orphaned(s) && Step(s, l).Some?
    ensures var s' := Step(s, l).value;
            && s.lives <= s'.lives
            && (s'.lives == s.lives ==>
                  && Orphaned(s') && s'.k.counter == s.k.counter
                  && s'.delivered == s.delivered && s'.unseen == s.unseen)
  {
  }

  /** Until the next registration every notification is given up: nothing is signalled and nothing delivered. */
  lemma {:induction false} OrphanedStaysSilent(s: State, ls: seq<Label>)
    requires Orphaned(s) && Run(s, ls).Some?
    ensures var s' := Run(s, ls).value;
            s'.lives == s.lives ==>
              && Orphaned(s') && s'.k.counter == s.k.counter && s'.delivered == s.delivered && s'.unseen == s.unseen
    decreases |ls|
  {
    hide Step, Orphaned;
    if ls != [] {
      OrphanedStep(s, ls[0]);
      LivesGrow(Step(s, ls[0]).value, ls[1..]);
      if Step(s, ls[0]).value.lives == s.lives {
        OrphanedStaysSilent(Step(s, ls[0]).value, ls[1..]);
      }
    }
  }

  /** How a life ends: in an orderly way nobody is registered any more; otherwise the registration is orphaned. */
  lemma DeathExactly(s: State, handled: bool)
    requires Step(s, Die(handled)).Some?
    ensures var s' := Step(s, Die(handled)).value;
            && s'.phase.Off? && s'.k == s.k.(ks := s'.k.ks)
            && (handled <==> s'.k.ks == NoServer) && (!handled <==> Orphaned(s'))
    ensures s.phase.Leaving? && !s.announcing ==>
              Step(s, Deregister).Some? && Step(s, Deregister).value == s.(phase := Off, k := s.k.(ks := NoServer))
  {
  }

  /** A registration starts a life exactly if all its steps succeed; it fails with nothing set, or leaves an orphan. */
  lemma RegistrationExactly(s: State, gotMemory: bool, fd: int, fileFound: bool)
    requires Step(s, Register(gotMemory, fd, fileFound)).Some?
    ensures var s' := Step(s, Register(gotMemory, fd, fileFound)).value;
            && s'.lives == s.lives + 1 && s'.k.table == s.k.table
            && (s'.phase == Draining && s'.k.ks == Registered && s'.k.counter == 0 <==>
                  gotMemory && fd >= 0 && fileFound)
            && (Orphaned(s') <==> gotMemory && !(fd >= 0 && fileFound))
            && (s'.k.ks == NoServer <==> !gotMemory)
  {
  }

  // ---------------------------------------------------------------- runs that exist

  lemma {:induction false} RunAppend(s: State, ls: seq<Label>, ms: seq<Label>)
    requires Run(s, ls).Some?
    ensures Run(s, ls + ms) == Run(Run(s, ls).value, ms)
    decreases |ls|
  {
    hide Step;
    if ls == [] {
      assert ls + ms == ms;
    } else {
      RunAppend(Step(s, ls[0]).value, ls[1..], ms);
      assert (ls + ms)[1..] == ls[1..] + ms;
    }
  }

  ghost predicate Leads(s: State, t: State) {
    exists ls :: Run(s, ls) == Some(t)
  }

  lemma Stay(s: State)
    ensures Leads(s, s)
  {
    assert Run(s, []) == Some(s);
  }

  /** A run may go on with any action that is enabled at its end. */
  lemma Go(s: State, t: State, l: Label) returns (u: State)
    requires Leads(s, t) && Step(t, l).Some?
    ensures Leads(s, u) && u == Step(t, l).value
  {
    u := Step(t, l).value;
    var ls :| Run(s, ls) == Some(t);
    RunAppend(s, ls, [l]);
    assert Run(t, [l]) == Run(u, []);
  }

  lemma EmptyDrain(s: State) returns (t: State)
    requires IsInitial(s)
    ensures Leads(s, t)
    ensures t.k.table == EMPTY_TABLE && t.k.ks == Registered && t.k.counter == 0 && t.phase == Selecting
    ensures t.books.drained == t.books.base == t.books.empty == 0 && t.inserted == []
    ensures t.inFlight == 0 && !t.announcing && t.delivered == [] && t.books.lost == t.books.swallowed == 0
  {
    Stay(s);
    t := Go(s, s, Register(true, 3, true));
    t := Go(s, t, Pop);
    t := Go(s, t, Settle);
  }

  lemma InsertTwo(s: State, t0: State, a: Entry, b: Entry) returns (t: State)
    requires Leads(s, t0) && t0.k.table == EMPTY_TABLE && t0.k.ks == Registered && t0.k.counter == 0
    requires t0.inFlight == 0 && !t0.announcing && t0.inserted == []
    ensures Leads(s, t)
    ensures t == t0.(k := Kernel(Table(Present([a, b]), -1, INITIAL_SIZE), Registered, 2), inserted := [a, b])
  {
    hide Leads;
    t := Go(s, t0, Put(a, true));
    t := Go(s, t, Put(b, true));
    t := Go(s, t, Peek);
    t := Go(s, t, Signal(true));
    t := Go(s, t, Peek);
    t := Go(s, t, Signal(true));
  }

  lemma WakeAndFetch(s: State, t0: State) returns (t: State)
    requires Leads(s, t0) && Inv(t0) && t0.phase == Selecting && t0.k.counter > 0 && Pending(t0) > 0
    requires t0.k.table.store.Present?
    ensures 0 <= t0.k.table.index + 1 < |t0.inserted|
    ensures Leads(s, t)
    ensures t == t0.(phase := LoopCopy, k := t0.k.(table := PopSpec(t0.k.table)), hand := t.hand)
    ensures t.hand.own && t.hand.uuid == t0.inserted[t0.k.table.index + 1].uuid
  {
    hide Leads;
    t := Go(s, t0, Wake);
    t := Go(s, t, Pop);
    t := Go(s, t, Fetch(0));
  }

  /** A wake-up that finds an entry in its place, up to the next select. */
  lemma OneWakeUp(s: State, t0: State) returns (t: State)
    requires Leads(s, t0) && Inv(t0) && t0.phase == Selecting && t0.k.counter > 0 && Pending(t0) > 0
    requires t0.k.table.store.Present?
    ensures 0 <= t0.k.table.index + 1 < |t0.inserted|
    ensures Leads(s, t)
    ensures t == t0.(
              k := t0.k.(table := PopSpec(t0.k.table), counter := 0),
              hand := t.hand,
              delivered := t0.delivered + [t0.inserted[t0.k.table.index + 1].uuid],
              books := t0.books.(swallowed := t0.books.swallowed + t0.k.counter - 1))
  {
    hide Leads, Inv;
    t := WakeAndFetch(s, t0);
    t := Go(s, t, Copy(true));
    t := Go(s, t, Read);
    t := Go(s, t, Settle);
  }

  /**
   From every initial state a run leads to a server parked for good with an entry left behind: two puts, one wake-up.
   */
  lemma ParkedWithBacklog(s0: State, a: Entry, b: Entry) returns (s: State)
    requires IsInitial(s0)
    ensures Reachable(s)
    ensures s.phase.Selecting? && s.k.counter == 0 && s.inFlight == 0 && Pending(s) == 1
    ensures s.books.lost == 0 && s.books.swallowed == 1 && s.delivered == [a.uuid]
  {
    hide Run, Inv;
    var s1 := EmptyDrain(s0);
    var s2 := InsertTwo(s0, s1, a, b);
    assert Reachable(s2);
    ReachableInv(s2);
    s := OneWakeUp(s0, s2);
  }

  // ---------------------------------------------------------------- what can still be worked off

  lemma LeadsInv(s: State, t: State)
    requires Inv(s) && Leads(s, t)
    ensures Inv(t)
  {
    hide Inv;
    var ls :| Run(s, ls) == Some(t);
    InvOverRun(s, ls);
  }

  /** A notice in flight is signalled. */
  lemma SignalNext(s: State, t0: State) returns (t: State)
    requires Leads(s, t0) && Inv(t0) && t0.phase == Selecting && t0.k.table.store.Present?
    requires t0.inFlight > 0 && Pending(t0) > 0
    ensures Leads(s, t)
    ensures t == t0.(k := t0.k.(counter := t0.k.counter + 1), inFlight := t0.inFlight - 1, announcing := false)
  {
    hide Leads;
    t := t0;
    if !t.announcing {
      t := Go(s, t, Peek);
    }
    t := Go(s, t, Signal(true));
  }

  /**
   Waking up for each signalled notice, and signalling those in flight one at a time, leaves no more than must be
   left.
   */
  lemma {:induction false} WorkOff(s: State, t0: State) returns (t: State)
    requires Inv(s) && Leads(s, t0) && t0.phase == Selecting && t0.k.table.store.Present?
    ensures Leads(s, t) && t.phase == Selecting && t.lives == t0.lives
    ensures Pending(t) == if Shortfall(t0) > 0 then Shortfall(t0) else 0
    decreases t0.inFlight, t0.k.counter
  {
    hide Leads;
    LeadsInv(s, t0);
    t := t0;
    if Pending(t0) > 0 && t0.k.counter > 0 {
      t := OneWakeUp(s, t0);
      t := WorkOff(s, t);
    } else if Pending(t0) > 0 && t0.inFlight > 0 {
      t := SignalNext(s, t0);
      t := WorkOff(s, t);
    }
  }

  ghost predicate CanReachBacklog(s: State, n: int) {
    exists t :: Leads(s, t) && t.lives == s.lives && t.phase == Selecting && Pending(t) == n
  }

  lemma BacklogBoundedBelow(s: State, n: int)
    requires Inv(s) && AfterDrain(s.phase) && CanReachBacklog(s, n)
    ensures n >= 0 && n >= Shortfall(s)
  {
    var t :| Leads(s, t) && t.lives == s.lives && t.phase == Selecting && Pending(t) == n;
    var ls :| Run(s, ls) == Some(t);
    CoalescingIsPermanent(s, ls);
    InvOverRun(s, ls);
  }

  /** The least backlog with which this server can ever be back in select is exactly its shortfall, or nothing. */
  lemma LeastBacklog(s: State, n: int)
    requires Reachable(s) && s.phase.Selecting? && s.k.table.store.Present?
    ensures CanReachBacklog(s, if Shortfall(s) > 0 then Shortfall(s) else 0)
    ensures CanReachBacklog(s, n) ==> n >= if Shortfall(s) > 0 then Shortfall(s) else 0
  {
    ReachableInv(s);
    Stay(s);
    hide Leads, Inv;
    var t := WorkOff(s, s);
    if CanReachBacklog(s, n) {
      BacklogBoundedBelow(s, n);
    }
  }

  /** A lost table with entries waiting is never worked off: fetching is over. */
  lemma {:induction false} LostStaysLost(s: State, ls: seq<Label>)
    requires s.k.table.store.Lost? && Pending(s) > 0 && Selects(s.phase) && Run(s, ls).Some?
    ensures var t := Run(s, ls).value; t.lives == s.lives && Selects(t.phase) ==> Pending(t) == Pending(s)
    decreases |ls|
  {
    if ls != [] {
      var s1 := Step(s, ls[0]).value;
      if Selects(s1.phase) {
        LostStaysLost(s1, ls[1..]);
      } else {
        GoneStaysGone(s1, ls[1..]);
      }
    }
  }

  predicate Selects(p: Phase) { p.Selecting? || p.Woken? }

  /**
   Whether a server in select can ever again be in select with nothing waiting: exactly if there is one notice for each
   entry that waits, where all those already signalled count for one, and the table was not lost meanwhile.
   */
  lemma CatchesUpExactly(s: State)
    requires Reachable(s) && s.phase.Selecting?
    ensures CanReachBacklog(s, 0) <==>
              || Pending(s) == 0
              || (s.k.table.store.Present? && Pending(s) <= s.inFlight + if s.k.counter > 0 then 1 else 0)
  {
    ReachableInv(s);
    Stay(s);
    if s.k.table.store.Present? {
      LeastBacklog(s, 0);
    } else if Pending(s) > 0 && CanReachBacklog(s, 0) {
      var t :| Leads(s, t) && t.lives == s.lives && t.phase == Selecting && Pending(t) == 0;
      var ls :| Run(s, ls) == Some(t);
      LostStaysLost(s, ls);
    }
  }

  /** Covered is not enough: two entries, two notices signalled, no debt, and yet one entry stays behind for good. */
  lemma CoveredButStranded(s0: State, a: Entry, b: Entry) returns (s: State)
    requires IsInitial(s0)
    ensures Reachable(s) && s.phase.Selecting? && Debt(s) == 0 && Pending(s) == s.k.counter + s.inFlight == 2
    ensures !CanReachBacklog(s, 0) && CanReachBacklog(s, 1)
  {
    hide Run, CanReachBacklog;
    var s1 := EmptyDrain(s0);
    s := InsertTwo(s0, s1, a, b);
    assert Reachable(s);
    CatchesUpExactly(s);
    LeastBacklog(s, 1);
  }

  // ---------------------------------------------------------------- the "no new entry" exit

  /** Nothing waits, nothing is signalled, and the table is lost, so nothing will be. */
  predicate Muted(s: State) {
    s.k.table.store.Lost? && Pending(s) == 0 && s.k.counter == 0 && !s.announcing
  }

  /**
   A server past its start-up loop stays clear of the spurious exit if its debt is not negative, or if it is muted.
   */
  predicate Quiet(s: State) {
    && !s.phase.Draining? && !s.phase.DrainFetch? && !s.phase.DrainCopy? && s.phase != Leaving(true)
    && (AfterDrain(s.phase) ==> Debt(s) >= 0 || Muted(s))
  }

  lemma QuietStep(s: State, l: Label)
    requires Inv(s) && Quiet(s) && Step(s, l).Some?
    ensures s.lives <= Step(s, l).value.lives
    ensures Step(s, l).value.lives == s.lives ==> Quiet(Step(s, l).value)
  {
  }

  lemma {:induction false} QuietStaysQuiet(s: State, ls: seq<Label>)
    requires Inv(s) && Quiet(s) && Run(s, ls).Some? && Run(s, ls).value.lives == s.lives
    ensures Quiet(Run(s, ls).value)
    decreases |ls|
  {
    hide Step, Inv, Quiet;
    if ls != [] {
      var s1 := Step(s, ls[0]).value;
      InvKept(s, ls[0]);
      LivesGrow(s1, ls[1..]);
      QuietStep(s, ls[0]);
      QuietStaysQuiet(s1, ls[1..]);
    }
  }

  /** The "select() triggered but proxy module has no new entry" exit can be reached in this life. */
  ghost predicate CanLeaveSpuriously(s: State) {
    exists t :: Leads(s, t) && t.lives == s.lives && t.phase == Leaving(true)
  }

  lemma WakeToNothing(s: State, t0: State)
    requires Leads(s, t0) && t0.lives == s.lives && t0.phase == Selecting && t0.k.counter > 0 && Pending(t0) == 0
    requires t0.k.table.Valid()
    ensures CanLeaveSpuriously(s)
  {
    hide Leads;
    var t := Go(s, t0, Wake);
    t := Go(s, t, Pop);
  }

  /** A notice already signalled, or signalled next by a producer that has looked, outlives the entry it stood for. */
  lemma LateNoticeExits(s: State)
    requires Inv(s) && s.phase == Processing && Pending(s) == 0 && (s.k.counter > 0 || s.announcing)
    ensures CanLeaveSpuriously(s)
  {
    Stay(s);
    hide Leads;
    var t := if s.k.counter > 0 then s else Step(s, Signal(true)).value;
    if s.k.counter == 0 {
      var _ := Go(s, s, Signal(true));
    }
    t := Go(s, t, Settle);
    WakeToNothing(s, t);
  }

  /** The next insertion is announced twice: by its own notice and by one still under way from the start-up loop. */
  lemma InsertedAndAnnounced(s: State, b: Entry) returns (t: State)
    requires Inv(s) && s.phase == Processing && Pending(s) == 0 && s.k.counter == 0 && s.inFlight > 0 && !s.announcing
    requires s.k.table.store.Present?
    ensures Leads(s, t) && Inv(t) && t.phase == Selecting && t.lives == s.lives && t.k.table.store.Present?
    ensures t.k.counter == 1 && Pending(t) == 1 && t.inFlight == s.inFlight && t.announcing && t.k.ks == Registered
  {
    Stay(s);
    hide Leads;
    t := Go(s, s, Put(b, true));
    InvKept(s, Put(b, true));
    t := AnnounceTwice(s, t);
  }

  lemma AnnounceTwice(s: State, t0: State) returns (t: State)
    requires Leads(s, t0) && Inv(t0) && t0.phase == Processing && Pending(t0) == 1 && t0.k.table.store.Present?
    requires t0.k.counter == 0 && t0.inFlight > 1 && !t0.announcing
    ensures Leads(s, t) && Inv(t) && t.phase == Selecting && t.lives == t0.lives && t.k.table.store.Present?
    ensures t.k.counter == 1 && Pending(t) == 1 && t.inFlight == t0.inFlight - 1 && t.announcing && t.k.ks == Registered
  {
    hide Leads;
    t := Go(s, t0, Peek);
    InvKept(t0, Peek);
    var t2 := Go(s, t, Signal(true));
    InvKept(t, Signal(true));
    var t3 := Go(s, t2, Settle);
    InvKept(t2, Settle);
    t := Go(s, t3, Peek);
    InvKept(t3, Peek);
  }

  lemma NoticeInFlightExits(s: State)
    requires Inv(s) && s.phase == Processing && Pending(s) == 0 && s.k.counter == 0 && s.inFlight > 0 && !s.announcing
    requires s.k.table.store.Present?
    ensures CanLeaveSpuriously(s)
  {
    hide Leads;
    var t := InsertedAndAnnounced(s, Entry(0, Layout(0, 0), Layout(0, 0)));
    t := OneWakeUp(s, t);
    t := Go(s, t, Signal(true));
    WakeToNothing(s, t);
  }

  /**
   The "select() triggered but proxy module has no new entry" exit can be reached from the end of a start-up loop
   exactly when a notification had already been signalled by then, or was still under way: one whose sender had
   looked, or any at all as long as the table is there to take another entry.
   */
  lemma SpuriousExitExactly(s0: State)
    requires Reachable(s0) && s0.phase.Draining? && Pending(s0) == 0
    ensures Step(s0, Pop).Some?
    ensures CanLeaveSpuriously(Step(s0, Pop).value) <==>
              s0.k.counter > 0 || s0.announcing || (s0.inFlight > 0 && s0.k.table.store.Present?)
    ensures s0.k.table.store.Present? ==>
              (CanLeaveSpuriously(Step(s0, Pop).value) <==> s0.k.counter + s0.inFlight > 0)
  {
    ReachableInv(s0);
    InvKept(s0, Pop);
    var s := Step(s0, Pop).value;
    if s0.k.counter > 0 || s0.announcing {
      LateNoticeExits(s);
    } else if s0.inFlight > 0 && s0.k.table.store.Present? {
      NoticeInFlightExits(s);
    } else if CanLeaveSpuriously(s) {
      var t :| Leads(s, t) && t.lives == s.lives && t.phase == Leaving(true);
      var ls :| Run(s, ls) == Some(t);
      QuietStaysQuiet(s, ls);
    }
  }

  /** At each wake-up: the exit is taken exactly by a server so far overdrawn that nothing waits. */
  lemma SpuriousExitNeedsOverdraft(s: State)
    requires Reachable(s) && s.phase.Woken? && CanFetch(s.k.table)
    ensures Step(s, Pop).Some?
    ensures Step(s, Pop).value.phase == Leaving(true) <==> Debt(s) == 0 - s.k.counter - s.inFlight
    ensures Step(s, Pop).value.phase == Leaving(true) ==> Overdrawn(s) > 0
  {
    ReachableInv(s);
  }

  // ---------------------------------------------------------------- delivery

  predicate AtRest(s: State) {
    !InKernel(s.phase)
  }

  /**
   Exactly-once, in order, over any number of servers and failed copies: between fetches, the uuids delivered are
   those of the popped entries in table order, one for each, except that entry 0, and no other, is missing if its
   copy ever failed, and that something arbitrary took the uuid's place where the read hit a freed block.
   */
  lemma DeliveredInOrderOnce(s: State)
    requires Reachable(s) && AtRest(s)
    ensures s.k.table.store == Present(s.inserted) || s.k.table.store == Lost(|s.inserted|)
    ensures s.k.table.index < |s.inserted|
    ensures var skipped := if 0 in s.failed then 1 else 0;
            && skipped <= s.k.table.index + 1 == skipped + |s.delivered|
            && (forall i :: i in s.garbled ==> 0 <= i <= s.k.table.index)
            && (forall i :: skipped <= i <= s.k.table.index && i !in s.garbled ==>
                  OwnDelivered(s.inserted, s.delivered, skipped, i))
  {
    ReachableInv(s);
  }

  /**
   When a start-up loop ends, everything inserted so far has been handed over, whatever earlier servers left behind.
   */
  lemma DrainDeliversAll(s: State)
    requires Reachable(s) && s.phase.Draining? && Step(s, Pop).Some? && Step(s, Pop).value.phase.Processing?
    ensures var s' := Step(s, Pop).value;
            && FirstSkipped(s') + |s'.delivered| == |s'.inserted|
            && (forall i :: FirstSkipped(s') <= i < |s'.inserted| && i !in s'.garbled ==>
                  OwnDelivered(s'.inserted, s'.delivered, FirstSkipped(s'), i))
  {
    ReachableInv(s);
    InvKept(s, Pop);
  }

  predicate Full(t: Table) {
    t.store.Present? && |t.store.entries| == t.size
  }

  /** Some put of the run meets a full table and gets it reallocated. */
  predicate Grows(s: State, ls: seq<Label>)
    decreases |ls|
  {
    ls != [] &&
    ((ls[0].Put? && ls[0].granted && Full(s.k.table))
     || match Step(s, ls[0]) case Some(s1) => Grows(s1, ls[1..]) case None => false)
  }

  lemma StepWhileFetching(s: State, l: Label)
    requires TableInv(s) && Fetching(s.phase) && !l.Fetch? && Step(s, l).Some?
    ensures var s' := Step(s, l).value;
            && TableInv(s') && s'.phase == s.phase && s'.hand == s.hand && s'.k.table.index == s.k.table.index
            && s'.garbled == s.garbled
            && if l.Put? && l.granted && Full(s.k.table) then s'.k.table.size > s.k.table.size
               else s'.k.table.size == s.k.table.size
  {
  }

  lemma {:induction false} RunWhileFetching(s: State, ls: seq<Label>)
    requires TableInv(s) && Fetching(s.phase) && Run(s, ls).Some?
    requires forall k :: 0 <= k < |ls| ==> !ls[k].Fetch?
    ensures var s' := Run(s, ls).value;
            && TableInv(s') && s'.phase == s.phase && s'.hand == s.hand && s'.k.table.index == s.k.table.index
            && s'.garbled == s.garbled
            && if Grows(s, ls) then s'.k.table.size > s.k.table.size else s'.k.table.size == s.k.table.size
    decreases |ls|
  {
    hide Step, Full;
    if ls != [] {
      StepWhileFetching(s, ls[0]);
      RunWhileFetching(Step(s, ls[0]).value, ls[1..]);
    }
  }

  /** What a fetch that has popped its entry delivers. */
  function Delivery(t: State, junk: Uuid): State
    requires Fetching(t.phase)
  {
    Copying(Reaching(t, junk), true)
  }

  function Handed(t: State, junk: Uuid): Uuid
    requires Fetching(t.phase)
  {
    var delivered := Delivery(t, junk).delivered;
    delivered[|delivered| - 1]
  }

  lemma DeliveryIsFetchAndCopy(t: State, junk: Uuid)
    requires Fetching(t.phase)
    ensures Run(t, [Fetch(junk), Copy(true)]) == Some(Delivery(t, junk))
  {
    var t1 := Step(t, Fetch(junk)).value;
    assert [Fetch(junk), Copy(true)][1..] == [Copy(true)];
    assert Run(t1, [Copy(true)]) == Run(Step(t1, Copy(true)).value, []);
  }

  lemma ReadThrough(t: State, junk: Uuid)
    requires TableInv(t) && Fetching(t.phase)
    ensures Handed(t, junk) == if t.hand.block == t.k.table.size then t.hand.uuid else junk
    ensures t.k.table.index in Delivery(t, junk).garbled <==>
              t.k.table.index in t.garbled || t.hand.block != t.k.table.size
  {
  }

  lemma PopPoints(s: State)
    requires Inv(s) && Step(s, Pop).Some? && Fetching(Step(s, Pop).value.phase)
    ensures var s1 := Step(s, Pop).value;
            && TableInv(s1) && s1.hand.block == s1.k.table.size && s1.inserted == s.inserted
            && 0 <= s1.k.table.index < |s.inserted| && s1.hand.uuid == s.inserted[s1.k.table.index].uuid
            && s1.k.table.index == s.k.table.index + 1 && s1.k.table.index !in s1.garbled
  {
    InvKept(s, Pop);
  }

  /**
   The uuid read through the popped pointer is the popped entry's own, whatever a freed block may hold, if and only
   if no put grew the table between the pop and the read; otherwise it is what the freed block holds. The delivery
   counts as garbled in exactly these cases.
   */
  lemma FetchIsOwnExactly(s: State, ls: seq<Label>)
    requires Reachable(s) && Step(s, Pop).Some? && Fetching(Step(s, Pop).value.phase)
    requires forall k :: 0 <= k < |ls| ==> !ls[k].Fetch?
    requires Run(Step(s, Pop).value, ls).Some?
    ensures var s1 := Step(s, Pop).value;
            var t := Run(s1, ls).value;
            var i := s.k.table.index + 1;
            && Fetching(t.phase) && 0 <= i < |s.inserted|
            && (forall junk :: Run(t, [Fetch(junk), Copy(true)]) == Some(Delivery(t, junk)))
            && ((forall junk :: Handed(t, junk) == s.inserted[i].uuid) <==> !Grows(s1, ls))
            && (forall junk :: Grows(s1, ls) ==> Handed(t, junk) == junk)
            && (forall junk :: i in Delivery(t, junk).garbled <==> Grows(s1, ls))
  {
    ReachableInv(s);
    PopPoints(s);
    var s1 := Step(s, Pop).value;
    RunWhileFetching(s1, ls);
    var t := Run(s1, ls).value;
    hide Step, Run, Grows, Handed, Delivery, Reachable, Inv;
    forall junk: Uuid
      ensures Handed(t, junk) == if Grows(s1, ls) then junk else s.inserted[s1.k.table.index].uuid
      ensures s1.k.table.index in Delivery(t, junk).garbled <==> Grows(s1, ls)
    {
      ReadThrough(t, junk);
    }
    forall junk: Uuid
      ensures Run(t, [Fetch(junk), Copy(true)]) == Some(Delivery(t, junk))
    {
      DeliveryIsFetchAndCopy(t, junk);
    }
    var own := s.inserted[s1.k.table.index].uuid;
    var other: Uuid := if own == 0 then 1 else 0;
    assert Grows(s1, ls) ==> Handed(t, other) == other;
  }

  lemma {:induction false} PutMany(s: State, t0: State, es: seq<Entry>) returns (t: State)
    requires Leads(s, t0) && t0.k.table == EMPTY_TABLE && t0.inserted == [] && |es| <= INITIAL_SIZE
    ensures Leads(s, t)
    ensures t.k == t0.k.(table := Table(Present(es), -1, INITIAL_SIZE))
    ensures t == t0.(k := t.k, inserted := es, inFlight := t0.inFlight + |es|)
  {
    hide Leads;
    if es == [] {
      t := t0;
    } else {
      var n := |es| - 1;
      t := PutMany(s, t0, es[..n]);
      t := Go(s, t, Put(es[n], true));
      assert es == es[..n] + [es[n]];
    }
  }

  /** A run for every 256 entries and every content of the freed block: put them, pop the first, put one more, read. */
  lemma GarbledDelivery(s0: State, es: seq<Entry>, x: Entry, junk: Uuid) returns (s: State)
    requires IsInitial(s0) && |es| == 256
    ensures Reachable(s) && s.phase == Draining
    ensures s.k.table.store == Present(es + [x]) && s.k.table.index == 0
    ensures s.delivered == [junk]
  {
    hide Run;
    Stay(s0);
    s := Go(s0, s0, Register(true, 3, true));
    s := PutMany(s0, s, es);
    s := Go(s0, s, Pop);
    s := Go(s0, s, Put(x, true));
    s := Go(s0, s, Fetch(junk));
    s := Go(s0, s, Copy(true));
  }

  lemma InsertedGrows(s: State, l: Label)
    requires Step(s, l).Some?
    ensures s.inserted <= Step(s, l).value.inserted
  {
  }

  /** Entries are never removed or changed, whatever is interleaved, as long as the table is there. */
  lemma {:induction false} EntriesArePermanent(s: State, ls: seq<Label>)
    requires Inv(s) && Run(s, ls).Some?
    ensures s.inserted <= Run(s, ls).value.inserted
    ensures var store := Run(s, ls).value.k.table.store; store.Present? ==> store.entries == Run(s, ls).value.inserted
    decreases |ls|
  {
    if ls != [] {
      InsertedGrows(s, ls[0]);
      InvKept(s, ls[0]);
      EntriesArePermanent(Step(s, ls[0]).value, ls[1..]);
    }
  }

  /** What a uuid resolves to once, it resolves to for good. */
  lemma LookupIsStable(s: State, ls: seq<Label>, uuid: Uuid)
    requires Inv(s) && Run(s, ls).Some?
    requires Find(s.inserted, uuid).Found?
    ensures Find(Run(s, ls).value.inserted, uuid) == Find(s.inserted, uuid)
    ensures var store := Run(s, ls).value.k.table.store;
            store.Present? ==> Find(store.entries, uuid) == Find(s.inserted, uuid)
  {
    EntriesArePermanent(s, ls);
    var es, es' := s.inserted, Run(s, ls).value.inserted;
    assert es' == es + es'[|es|..];
    FindSurvivesAppend(es, es'[|es|..], uuid);
  }

  /** A popped entry is what its uuid resolves to ever after, unless an earlier entry carries the same uuid. */
  lemma DeliveredEntryResolves(s: State, i: nat, ls: seq<Label>)
    requires Reachable(s) && i <= s.k.table.index
    requires Run(s, ls).Some? && Run(s, ls).value.k.table.store.Present?
    ensures i < |s.inserted|
    ensures var es := s.inserted;
            (forall k :: 0 <= k < i ==> es[k].uuid != es[i].uuid) ==>
              Find(Run(s, ls).value.k.table.store.entries, es[i].uuid) == Found(es[i])
  {
    ReachableInv(s);
    EntriesArePermanent(s, ls);
    FindIsFirst(s.inserted, s.inserted[i].uuid);
    LookupIsStable(s, ls, s.inserted[i].uuid);
  }

  // ---------------------------------------------------------------- the table under interleaving

  lemma CapacityStep(s: State, l: Label)
    requires Inv(s) && Step(s, l).Some?
    ensures var t, t' := s.k.table, Step(s, l).value.k.table;
            || (t'.store.Count() == t.store.Count() && t'.size == t.size)
            || (t'.store.Count() == t.store.Count() + 1
                && t'.size == if t.store.Count() == t.size then 2 * t.size else t.size)
  {
  }

  lemma {:induction false} CapacityOverRun(s: State, ls: seq<Label>)
    requires Inv(s) && s.k.table.size == Capacity(s.k.table.store.Count()) && Run(s, ls).Some?
    ensures Run(s, ls).value.k.table.size == Capacity(Run(s, ls).value.k.table.store.Count())
    decreases |ls|
  {
    hide Step, Inv;
    if ls != [] {
      InvKept(s, ls[0]);
      CapacityStep(s, ls[0]);
      CapacityOverRun(Step(s, ls[0]).value, ls[1..]);
    }
  }

  /** The cursor stays inside the table and the capacity is the one the growth policy gives. */
  lemma CursorInRange(s: State)
    requires Reachable(s)
    ensures -1 <= s.k.table.index < s.k.table.store.Count() <= s.k.table.size
    ensures s.k.table.size == Capacity(s.k.table.store.Count())
  {
    ReachableInv(s);
    var s0, ls :| IsInitial(s0) && Run(s0, ls) == Some(s);
    InitialInv(s0);
    CapacityOverRun(s0, ls);
  }
}
