/**
 The hand-off joined to the server's table: what one server stores and processes while the kernel goes on beside it.
 */
module Joint {
  import opened Common
  import K = KernelTable
  import opened HandOff
  import opened HandOffLaws
  import M = ProxyModule
  import opened U = UuidTable
  import opened EntryCycle
  import opened Server

  /**
   `from` and `since` say where this life of the server began in the kernel's table and in the list of delivered uuids;
   `refused` that an entry did not make it into the server's table; `hung` that a guest did not return control.
   */
  datatype Whole = Whole(sys: State, table: seq<U.Entry>, from: int, since: nat, refused: bool, hung: bool)

  datatype Move =
    | Other(l: Label)                 // an action that neither copies nor processes
    | Take(ok: bool, stored: bool)    // the copy to user space, and the server's `table_put`
    | Process(env: Env, es: seq<U.Entry>, out: Outcome)

  /** The layout the server got, if any, is the one in the kernel's table; if the uuid is unknown it may be anything. */
  predicate AnsweredBy(t: K.Table, uuid: Uuid, which: M.Which, f: Fetch) {
    match UuidLayout(f)
    case None => true
    case Some(layout) =>
      t.store.Present? && (M.LayoutReply(t.store.entries, uuid, which).Reply? ==>
                             M.LayoutReply(t.store.entries, uuid, which) == M.Reply(layout))
  }

  /**
   The kernel answers both layout requests for the entry that a call of `process_entry` handles, if it handles one.
   */
  predicate LayoutsAnswered(t: K.Table, es: seq<U.Entry>, env: Env) {
    StopIsFirst(es);
    Stop(es) < |es| ==>
      && AnsweredBy(t, es[Stop(es)].uuid, M.Init, env.mem.init)
      && AnsweredBy(t, es[Stop(es)].uuid, M.Core, env.mem.core)
  }

  ghost function Next(j: Whole, m: Move): Option<Whole> {
    match m
    case Other(l) =>
      if l.Copy? || l.Settle? || (j.hung && !ByProducer(l) && !l.Die?) then None
      else Acting(j, l)
    case Take(ok, stored) =>
      if Step(j.sys, Copy(ok)).None? || j.hung then None else Some(Taking(j, ok, stored))
    case Process(env, es, out) =>
      if !(j.sys.phase.Processing? || j.sys.phase.Handling?) || j.hung then None
      else if !Called(j.table, es, env, out) || !LayoutsAnswered(j.sys.k.table, j.table, env) then None
      else Some(Processed(j, es, out))
  }

  function Acting(j: Whole, l: Label): Option<Whole> {
    match Step(j.sys, l)
    case None => None
    case Some(s) =>
      if l.Register? then Some(Whole(s, [], s.k.table.index + 1, |s.delivered|, false, false))
      else Some(j.(sys := s, hung := j.hung && !l.Die?))
  }

  function Taking(j: Whole, ok: bool, stored: bool): Whole
    requires Step(j.sys, Copy(ok)).Some?
  {
    var s := Step(j.sys, Copy(ok)).value;
    if !ok then j.(sys := s)
    else if stored then j.(sys := s, table := j.table + [NewEntry(j.sys.hand.uuid)])
    else j.(sys := s, refused := true)
  }

  /**
   The start-up loop goes on after 1 and ends with 0; the main loop goes back to select after 1; else the server
   quits.
   */
  function Processed(j: Whole, es: seq<U.Entry>, out: Outcome): Whole
    requires j.sys.phase.Processing? || j.sys.phase.Handling?
  {
    match out
    case NeverReturns => j.(table := es, hung := true)
    case Returned(code) =>
      if j.sys.phase.Processing? && code > 0 then j.(table := es)
      else if code == (if j.sys.phase.Processing? then 0 else 1) then
        j.(table := es, sys := Step(j.sys, Settle).value)
      else
        j.(table := es, sys := Step(j.sys, Quit).value)
  }

  ghost function Runs(j: Whole, ms: seq<Move>): Option<Whole>
    decreases |ms|
  {
    if ms == [] then Some(j)
    else match Next(j, ms[0])
      case None => None
      case Some(j') => Runs(j', ms[1..])
  }

  ghost predicate Begins(j: Whole) { IsInitial(j.sys) && !j.hung }

  ghost predicate Arises(j: Whole) {
    exists j0, ms :: Begins(j0) && Runs(j0, ms) == Some(j)
  }

  // ---------------------------------------------------------------- invariant

  predicate AllButLast(es: seq<U.Entry>) {
    forall k :: 0 <= k < |es| - 1 ==> es[k].processed && !es[k].couldNotProcess
  }

  /** The table holds what was delivered since `since`. */
  predicate Mirrors(es: seq<U.Entry>, delivered: seq<Uuid>, since: nat) {
    since + |es| == |delivered| && forall n :: 0 <= n < |es| ==> es[n].uuid == delivered[since + n]
  }

  predicate TableMatchesPhase(es: seq<U.Entry>, p: Phase) {
    && Orderly(es)
    && (p.Selecting? || p.Woken? || p.LoopFetch? || p.LoopCopy? ==> AllProcessed(es))
    && (p.Reading? || p.Handling? ==> AllButLast(es))
  }

  ghost predicate LifeInv(j: Whole) {
    Running(j.sys.phase) && !j.hung ==>
      && j.since == j.from - FirstSkipped(j.sys)
      && TableMatchesPhase(j.table, j.sys.phase)
      && (!j.refused ==> Mirrors(j.table, j.sys.delivered, j.since))
  }

  lemma OtherKeepsLife(j: Whole, l: Label)
    requires Inv(j.sys) && LifeInv(j) && Next(j, Other(l)).Some?
    ensures LifeInv(Next(j, Other(l)).value)
  {
    hide Orderly, AllProcessed, AllButLast, Mirrors;
    if l.Register? {
      EmptyTable();
    }
    BeforeLast(j.table);
  }

  lemma EmptyTable()
    ensures Orderly([]) && forall delivered: seq<Uuid> :: Mirrors([], delivered, |delivered|)
  {
  }

  lemma BeforeLast(es: seq<U.Entry>)
    ensures AllProcessed(es) ==> AllButLast(es)
  {
  }

  lemma OneMoreTaken(es: seq<U.Entry>, delivered: seq<Uuid>, since: nat, uuid: Uuid)
    requires Orderly(es)
    ensures Orderly(es + [NewEntry(uuid)])
    ensures AllProcessed(es) ==> AllButLast(es + [NewEntry(uuid)])
    ensures Mirrors(es, delivered, since) ==> Mirrors(es + [NewEntry(uuid)], delivered + [uuid], since)
  {
  }

  lemma TakeKeepsLife(j: Whole, ok: bool, stored: bool)
    requires Inv(j.sys) && LifeInv(j) && Next(j, Take(ok, stored)).Some?
    ensures LifeInv(Next(j, Take(ok, stored)).value)
  {
    hide Orderly, AllProcessed, AllButLast, Mirrors, Inv;
    if ok && Running(j.sys.phase) {
      OneMoreTaken(j.table, j.sys.delivered, j.since, j.sys.hand.uuid);
      BeforeLast(j.table);
    }
  }

  lemma CallKeepsTable(es: seq<U.Entry>, env: Env, es': seq<U.Entry>, out: Outcome, delivered: seq<Uuid>, since: nat)
    requires Orderly(es) && Called(es, es', env, out)
    ensures Mirrors(es, delivered, since) ==> Mirrors(es', delivered, since)
    ensures out == Returned(1) || out == Returned(0) ==> Orderly(es')
    ensures out == Returned(1) && AllButLast(es) ==> AllProcessed(es')
    ensures out == Returned(0) ==> AllProcessed(es')
    ensures out.Returned? ==> out.code <= 1
  {
    hide Called, MemoryAccepted;
    ResultCodes(es, es', env, out);
  }

  lemma ProcessKeepsLife(j: Whole, env: Env, es: seq<U.Entry>, out: Outcome)
    requires Inv(j.sys) && LifeInv(j) && Next(j, Process(env, es, out)).Some?
    ensures LifeInv(Next(j, Process(env, es, out)).value)
  {
    hide Orderly, AllProcessed, AllButLast, Mirrors, Inv, Called;
    CallKeepsTable(j.table, env, es, out, j.sys.delivered, j.since);
  }

  /** Every move of the whole is a move of the hand-off, or none. */
  lemma SysMoves(j: Whole, m: Move)
    requires Next(j, m).Some?
    ensures var s := Next(j, m).value.sys;
            s == j.sys || exists l :: Step(j.sys, l) == Some(s)
  {
    match m
    case Other(l) => assert Step(j.sys, l) == Some(Next(j, m).value.sys);
    case Take(ok, _) => assert Step(j.sys, Copy(ok)) == Some(Next(j, m).value.sys);
    case Process(_, es, out) =>
      assert Step(j.sys, Settle).Some? && Step(j.sys, Quit).Some?;
  }

  lemma KeptByNext(j: Whole, m: Move)
    requires Inv(j.sys) && LifeInv(j) && Next(j, m).Some?
    ensures Inv(Next(j, m).value.sys) && LifeInv(Next(j, m).value)
  {
    hide Inv, LifeInv, Step, Next;
    SysMoves(j, m);
    var s := Next(j, m).value.sys;
    if s != j.sys {
      var l :| Step(j.sys, l) == Some(s);
      InvKept(j.sys, l);
    }
    match m
    case Other(l) => OtherKeepsLife(j, l);
    case Take(ok, stored) => TakeKeepsLife(j, ok, stored);
    case Process(env, es, out) => ProcessKeepsLife(j, env, es, out);
  }

  lemma {:induction false} KeptByRuns(j: Whole, ms: seq<Move>)
    requires Inv(j.sys) && LifeInv(j) && Runs(j, ms).Some?
    ensures Inv(Runs(j, ms).value.sys) && LifeInv(Runs(j, ms).value)
    decreases |ms|
  {
    hide Inv, LifeInv, Next;
    if ms != [] {
      KeptByNext(j, ms[0]);
      KeptByRuns(Next(j, ms[0]).value, ms[1..]);
    }
  }

  lemma ArisesInv(j: Whole)
    requires Arises(j)
    ensures Inv(j.sys) && LifeInv(j)
  {
    hide Inv, Runs, IsInitial;
    var j0, ms :| Begins(j0) && Runs(j0, ms) == Some(j);
    BeginsInv(j0);
    KeptByRuns(j0, ms);
  }

  lemma BeginsInv(j: Whole)
    requires Begins(j)
    ensures Inv(j.sys) && LifeInv(j)
  {
    InitialInv(j.sys);
  }

  // ---------------------------------------------------------------- results

  /**
   In select the server has processed all it has. If none was refused, that is one entry, in order, for each entry of
   the kernel's table popped since the server registered, with its uuid unless the pointer had gone stale under the
   read.
   */
  lemma SelectingTableIsSlice(j: Whole)
    requires Arises(j) && j.sys.phase.Selecting? && !j.hung
    ensures AllProcessed(j.table)
    ensures var t := j.sys.k.table;
            !j.refused ==>
              && 0 <= j.from && j.from + |j.table| == t.index + 1 <= |j.sys.inserted|
              && forall n :: 0 <= n < |j.table| && j.from + n !in j.sys.garbled ==>
                   j.table[n].uuid == j.sys.inserted[j.from + n].uuid
  {
    ArisesInv(j);
    var es, skipped := j.sys.inserted, FirstSkipped(j.sys);
    if !j.refused {
      forall n | 0 <= n < |j.table| && j.from + n !in j.sys.garbled
        ensures j.table[n].uuid == es[j.from + n].uuid
      {
        assert OwnDelivered(es, j.sys.delivered, skipped, j.from + n);
        assert j.table[n].uuid == j.sys.delivered[j.since + n];
      }
    }
  }

  /**
   A server parked for good that refused nothing lacks, of all entries since its registration, as many as its debt.
   */
  lemma ParkedTableLacksDebt(j: Whole)
    requires Arises(j) && j.sys.phase.Selecting? && !j.hung && !j.refused
    requires j.sys.k.counter == 0 && j.sys.inFlight == 0
    ensures |j.table| == |j.sys.inserted| - j.from - Debt(j.sys)
  {
    ArisesInv(j);
    SelectingTableIsSlice(j);
  }

  // ---------------------------------------------------------------- the memory of an entry is that of its module

  /** The regions an entry has are placed in the guest, and as large, as the module that its uuid leads to wants. */
  predicate FitsModule(e: U.Entry, es: seq<K.Entry>) {
    e.memory.init.Some? || e.memory.core.Some? ==>
      match K.Find(es, e.uuid)
      case Found(m) =>
        && (e.memory.init.Some? ==>
              e.memory.init.value == U.Region(1, m.init.base, m.init.size, e.memory.init.value.userAddr))
        && (e.memory.core.Some? ==>
              e.memory.core.value == U.Region(2, 0x1000, m.core.size, e.memory.core.value.userAddr))
      case _ => false
  }

  predicate AllFitModules(es: seq<U.Entry>, from: int, garbled: set<int>, modules: seq<K.Entry>) {
    forall n :: 0 <= n < |es| && from + n !in garbled ==> FitsModule(es[n], modules)
  }

  ghost predicate ModulesInv(j: Whole) {
    Running(j.sys.phase) && !j.hung && !j.refused ==> AllFitModules(j.table, j.from, j.sys.garbled, j.sys.inserted)
  }

  lemma MoreModules(es: seq<U.Entry>, from: int, garbled: set<int>, modules: seq<K.Entry>, more: seq<K.Entry>)
    requires AllFitModules(es, from, garbled, modules)
    ensures AllFitModules(es, from, garbled, modules + more)
  {
    forall n | 0 <= n < |es| && from + n !in garbled
      ensures FitsModule(es[n], modules + more)
    {
      assert FitsModule(es[n], modules);
      if es[n].memory.init.Some? || es[n].memory.core.Some? {
        K.FindSurvivesAppend(modules, more, es[n].uuid);
      }
    }
  }

  lemma OtherKeepsModules(j: Whole, l: Label)
    requires Inv(j.sys) && ModulesInv(j) && Next(j, Other(l)).Some?
    ensures ModulesInv(Next(j, Other(l)).value)
  {
    hide FitsModule, AllFitModules, Inv;
    var s' := Step(j.sys, l).value;
    InsertedGrows(j.sys, l);
    var more := s'.inserted[|j.sys.inserted|..];
    assert s'.inserted == j.sys.inserted + more;
    if l.Register? {
      NoEntries(s');
    } else if Running(j.sys.phase) && !j.hung && !j.refused {
      MoreModules(j.table, j.from, j.sys.garbled, j.sys.inserted, more);
    }
  }

  lemma NoEntries(s: State)
    ensures AllFitModules([], s.k.table.index + 1, s.garbled, s.inserted)
  {
  }

  lemma TakeKeepsModules(j: Whole, ok: bool, stored: bool)
    requires Inv(j.sys) && ModulesInv(j) && Next(j, Take(ok, stored)).Some?
    ensures ModulesInv(Next(j, Take(ok, stored)).value)
  {
  }

  /** The memory that a call gives to the entry it handles fits the module, if the uuid is one of a module. */
  lemma CallFitsModule(
    es: seq<U.Entry>, env: Env, es': seq<U.Entry>, out: Outcome, t: K.Table, modules: seq<K.Entry>, n: nat)
    requires Orderly(es) && Called(es, es', env, out) && LayoutsAnswered(t, es, env)
    requires t.store == K.Present(modules) || t.store.Lost?
    requires n < |es| && FitsModule(es[n], modules) && K.Find(modules, es[n].uuid).Found?
    ensures |es'| == |es| && FitsModule(es'[n], modules)
  {
    ResultCodes(es, es', env, out);
    StopIsFirst(es);
    var u := Stop(es);
    if n == u {
      FirstIndexIsFirst(es, es[u].uuid);
      hide FateOf, MemoryAccepted;
    }
  }

  lemma ProcessKeepsModules(j: Whole, env: Env, es: seq<U.Entry>, out: Outcome)
    requires Inv(j.sys) && LifeInv(j) && ModulesInv(j) && Next(j, Process(env, es, out)).Some?
    ensures ModulesInv(Next(j, Process(env, es, out)).value)
  {
    hide Inv, LifeInv, Called, LayoutsAnswered, FitsModule;
    if !j.refused {
      forall n | 0 <= n < |es| && j.from + n !in j.sys.garbled
        ensures FitsModule(es[n], j.sys.inserted)
      {
        ProcessFitsModule(j, env, es, out, n);
      }
    }
  }

  lemma ProcessFitsModule(j: Whole, env: Env, es: seq<U.Entry>, out: Outcome, n: nat)
    requires Inv(j.sys) && LifeInv(j) && ModulesInv(j) && Next(j, Process(env, es, out)).Some?
    requires !j.refused && n < |es| && j.from + n !in j.sys.garbled
    ensures FitsModule(es[n], j.sys.inserted)
  {
    hide Called, LayoutsAnswered, FitsModule, Step, Orderly, DeliveryInv, Accounted;
    ResultCodes(j.table, es, env, out);
    TakenPositionIsOwn(j, n);
    K.FindIsFirst(j.sys.inserted, j.table[n].uuid);
    CallFitsModule(j.table, env, es, out, j.sys.k.table, j.sys.inserted, n);
  }

  lemma TakenPositionIsOwn(j: Whole, n: nat)
    requires Inv(j.sys) && LifeInv(j) && (j.sys.phase.Processing? || j.sys.phase.Handling? || j.sys.phase.Selecting?)
    requires !j.hung && !j.refused && n < |j.table| && j.from + n !in j.sys.garbled
    ensures 0 <= j.from + n < |j.sys.inserted| && j.table[n].uuid == j.sys.inserted[j.from + n].uuid
  {
    assert OwnDelivered(j.sys.inserted, j.sys.delivered, FirstSkipped(j.sys), j.from + n);
    assert j.table[n].uuid == j.sys.delivered[j.since + n];
  }

  lemma {:induction false} ModulesKeptByRuns(j: Whole, ms: seq<Move>)
    requires Inv(j.sys) && LifeInv(j) && ModulesInv(j) && Runs(j, ms).Some?
    ensures ModulesInv(Runs(j, ms).value)
    decreases |ms|
  {
    hide Inv, LifeInv, ModulesInv, Next;
    if ms != [] {
      KeptByNext(j, ms[0]);
      match ms[0] {
        case Other(l) => OtherKeepsModules(j, l);
        case Take(ok, stored) => TakeKeepsModules(j, ok, stored);
        case Process(env, es, out) => ProcessKeepsModules(j, env, es, out);
      }
      ModulesKeptByRuns(Next(j, ms[0]).value, ms[1..]);
    }
  }

  lemma ArisesModules(j: Whole)
    requires Arises(j)
    ensures ModulesInv(j)
  {
    hide Inv, Runs, IsInitial;
    var j0, ms :| Begins(j0) && Runs(j0, ms) == Some(j);
    BeginsInv(j0);
    assert !Running(j0.sys.phase) by { BeginsOff(j0); }
    ModulesKeptByRuns(j0, ms);
  }

  lemma BeginsOff(j: Whole)
    requires Begins(j)
    ensures j.sys.phase.Off?
  {
  }

  /**
   In select, the regions of an entry that was delivered as it should be are those of the module whose insertion it
   stands for, in size and place, unless an earlier module had the same uuid; and the bytes that the kernel copies
   for it are as many as the server mapped.
   */
  lemma RegionsAreTheModules(j: Whole, n: nat)
    requires Arises(j) && j.sys.phase.Selecting? && !j.hung && !j.refused
    requires n < |j.table| && j.from + n !in j.sys.garbled
    ensures 0 <= j.from + n < |j.sys.inserted|
    ensures var e, i := j.table[n], j.from + n;
            var m := j.sys.inserted[i];
            (forall k :: 0 <= k < i ==> j.sys.inserted[k].uuid != m.uuid) ==>
              && (e.memory.init.Some? ==>
                    e.memory.init.value == U.Region(1, m.init.base, m.init.size, e.memory.init.value.userAddr))
              && (e.memory.core.Some? ==>
                    && e.memory.core.value == U.Region(2, 0x1000, m.core.size, e.memory.core.value.userAddr)
                    && M.PacketLength(j.sys.inserted, e.uuid) == Some(e.memory.core.value.memorySize))
  {
    ArisesInv(j);
    ArisesModules(j);
    TakenPositionIsOwn(j, n);
    assert FitsModule(j.table[n], j.sys.inserted);
    K.FindIsFirst(j.sys.inserted, j.table[n].uuid);
  }

  // ---------------------------------------------------------------- slots

  /** What an entry has been given once, it keeps. */
  predicate Keeps(e: U.Entry, e': U.Entry) {
    && e'.uuid == e.uuid && (e.processed ==> e' == e)
    && e.memory.numRegions <= e'.memory.numRegions
    && (e.memory.idt.Some? ==> e'.memory.idt == e.memory.idt)
    && (e.memory.init.Some? ==> e'.memory.init == e.memory.init)
    && (e.memory.core.Some? ==> e'.memory.core == e.memory.core)
  }

  predicate AllKeep(es: seq<U.Entry>, es': seq<U.Entry>) {
    |es| <= |es'| && forall k :: 0 <= k < |es| ==> Keeps(es[k], es'[k])
  }

  lemma CallKeepsSlots(es: seq<U.Entry>, es': seq<U.Entry>, env: Env, out: Outcome)
    requires Orderly(es) && Called(es, es', env, out)
    ensures AllKeep(es, es')
  {
    ResultCodes(es, es', env, out);
    StopIsFirst(es);
    var u := Stop(es);
    if u < |es| {
      RegionsOnlyGrow(es, es[u].uuid, env.mem, u);
      assert es[u].memory == NEW_MEMORY;
      CallKeepsConsistent(es, es', env, out);
    }
  }

  lemma NextKeepsSlots(j: Whole, m: Move)
    requires LifeInv(j) && Next(j, m).Some? && Next(j, m).value.sys.lives == j.sys.lives
    ensures AllKeep(j.table, Next(j, m).value.table)
  {
    if m.Process? {
      hide Called, AllKeep, Orderly;
      CallKeepsSlots(j.table, m.es, m.env, m.out);
    }
  }

  lemma NextLives(j: Whole, m: Move)
    requires Next(j, m).Some?
    ensures j.sys.lives <= Next(j, m).value.sys.lives
  {
  }

  lemma {:induction false} RunsLives(j: Whole, ms: seq<Move>)
    requires Runs(j, ms).Some?
    ensures j.sys.lives <= Runs(j, ms).value.sys.lives
    decreases |ms|
  {
    hide Next;
    if ms != [] {
      NextLives(j, ms[0]);
      RunsLives(Next(j, ms[0]).value, ms[1..]);
    }
  }

  lemma {:induction false} RunsKeepSlots(j: Whole, ms: seq<Move>)
    requires Inv(j.sys) && LifeInv(j) && Runs(j, ms).Some? && Runs(j, ms).value.sys.lives == j.sys.lives
    ensures AllKeep(j.table, Runs(j, ms).value.table)
    decreases |ms|
  {
    hide Next, Inv, LifeInv;
    if ms != [] {
      var j1 := Next(j, ms[0]).value;
      NextLives(j, ms[0]);
      RunsLives(j1, ms[1..]);
      NextKeepsSlots(j, ms[0]);
      KeptByNext(j, ms[0]);
      RunsKeepSlots(j1, ms[1..]);
    }
  }

  /**
   Over a server's life, however it goes, each slot of each entry is set at most once and no entry is lost or undone.
   */
  lemma SlotsAreSetOnce(j: Whole, ms: seq<Move>)
    requires Arises(j) && Runs(j, ms).Some? && Runs(j, ms).value.sys.lives == j.sys.lives
    ensures AllKeep(j.table, Runs(j, ms).value.table)
  {
    ArisesInv(j);
    RunsKeepSlots(j, ms);
  }

  /** An entry that a call processed stays for the rest of the life what the answers to that call made of it. */
  lemma ProcessedStaysAsCalled(j: Whole, env: Env, es: seq<U.Entry>, ms: seq<Move>)
    requires Arises(j) && Next(j, Process(env, es, Returned(1))).Some?
    requires Runs(Next(j, Process(env, es, Returned(1))).value, ms).Some?
    ensures var j1 := Next(j, Process(env, es, Returned(1))).value;
            var j2 := Runs(j1, ms).value;
            var u := Stop(j.table);
            j2.sys.lives == j.sys.lives ==>
              && u < |j.table| <= |j2.table| && AsCalled(j2.table[u], env) && j2.table[u].uuid == j.table[u].uuid
              && j2.table[u] == es[u]
  {
    ArisesInv(j);
    var j1 := GoesOn(j, Process(env, es, Returned(1)));
    ProcessedIsBuilt(j.table, es, env, Returned(1));
    ResultCodes(j.table, es, env, Returned(1));
    hide Called, AsCalled, Runs, Inv, Arises, Orderly;
    NextLives(j, Process(env, es, Returned(1)));
    RunsLives(j1, ms);
    if Runs(j1, ms).value.sys.lives == j1.sys.lives {
      SlotsAreSetOnce(j1, ms);
    }
  }

  // ---------------------------------------------------------------- a run that exists

  lemma {:induction false} RunsOneMore(j: Whole, ms: seq<Move>, m: Move)
    requires Runs(j, ms).Some? && Next(Runs(j, ms).value, m).Some?
    ensures Runs(j, ms + [m]) == Next(Runs(j, ms).value, m)
    decreases |ms|
  {
    hide Next;
    if ms == [] {
      assert ([] + [m])[1..] == [];
      assert Runs(Next(j, m).value, []) == Next(j, m);
    } else {
      RunsOneMore(Next(j, ms[0]).value, ms[1..], m);
      assert (ms + [m])[1..] == ms[1..] + [m];
    }
  }

  lemma GoesOn(j: Whole, m: Move) returns (j': Whole)
    requires Arises(j) && Next(j, m).Some?
    ensures Arises(j') && j' == Next(j, m).value
  {
    hide Runs, Begins, Next;
    j' := Next(j, m).value;
    var j0, ms :| Begins(j0) && Runs(j0, ms) == Some(j);
    RunsOneMore(j0, ms, m);
    assert Runs(j0, ms + [m]) == Some(j');
  }

  lemma RegisterAfterPut(j0: Whole, a: K.Entry) returns (j: Whole)
    requires Begins(j0)
    ensures Arises(j) && j.sys.phase == Draining && !j.hung && !j.refused && j.table == [] && j.from == 0
    ensures j.sys.inserted == [a] && j.sys.k.table == K.Table(K.Present([a]), -1, j.sys.k.table.size)
    ensures j.sys.k.table.size >= 1 && j.sys.garbled == {}
  {
    BeginsArises(j0);
    hide Arises;
    j := GoesOn(j0, Other(Put(a, true)));
    j := GoesOn(j, Other(Register(true, 3, true)));
  }

  lemma TakeFirst(j0: Whole, a: K.Entry) returns (j: Whole)
    requires Begins(j0)
    ensures Arises(j) && j.sys.phase == Processing && !j.hung && !j.refused && j.table == [NewEntry(a.uuid)]
    ensures j.from == 0 && j.sys.inserted == [a] && j.sys.k.table.store == K.Present([a]) && j.sys.garbled == {}
  {
    hide Arises, Begins;
    j := RegisterAfterPut(j0, a);
    j := GoesOn(j, Other(Pop));
    j := GoesOn(j, Other(Label.Fetch(0)));
    j := GoesOn(j, Take(true, true));
    j := GoesOn(j, Other(Pop));
  }

  lemma BeginsArises(j: Whole)
    requires Begins(j)
    ensures Arises(j)
  {
    assert Runs(j, []) == Some(j);
  }

  lemma FirstEntryWorks(uuid: Uuid, env: Env)
    requires Favourable(env)
    ensures Stop([NewEntry(uuid)]) == 0
    ensures ResultOf([NewEntry(uuid)], env) == OneDone
  {
    FavourableWorks(env, 0);
    NewEntryWorksExactly([], uuid, env);
    assert [] + [NewEntry(uuid)] == [NewEntry(uuid)];
    StopOfNew([], [NewEntry(uuid)], uuid);
  }

  lemma NothingLeft(es: seq<U.Entry>, env: Env)
    requires AllProcessed(es) && Favourable(env)
    ensures Called(es, es, env, Returned(0)) && Stop(es) == |es|
  {
    StopIsFirst(es);
  }

  /** One module inserted, fetched, processed with its own layouts; then the server waits with all its regions set. */
  lemma OneEntryServed(j0: Whole, a: K.Entry, env: Env) returns (j: Whole)
    requires Begins(j0) && Favourable(env)
    requires UuidLayout(env.mem.init) == Some(a.init) && UuidLayout(env.mem.core) == Some(a.core)
    ensures Arises(j) && j.sys.phase.Selecting? && !j.hung && !j.refused
    ensures |j.table| == 1 && j.table[0].uuid == a.uuid && Complete(j.table[0]) && j.from == 0 && j.sys.garbled == {}
  {
    hide Arises, Favourable, Called, ResultOf, TableAfterCall;
    j := TakeFirst(j0, a);
    var es := j.table;
    FirstEntryWorks(a.uuid, env);
    OneDoneIsCalled(es, env);
    var es' := TableAfterCall(es, env);
    FreshIsOrderly(es);
    ResultCodes(es, es', env, Returned(1));
    ProcessedCompleteExactly(es, es', env, Returned(1));
    j := GoesOn(j, Process(env, es', Returned(1)));
    NothingLeft(es', env);
    j := GoesOn(j, Process(env, es', Returned(0)));
  }
}
