/** The life cycle of a table entry: `initialize_memory_uuid`, the guest run, and `process_entry`. */
module EntryCycle {
  import opened Common
  import opened UuidTable
  import opened ProxyModule

  const CORE_GUEST_BASE := 0x1000
  const IDT_PAGES := 1

  // ---------------------------------------------------------------- initialize_memory_uuid

  /** Answers to one `get_uuid_layout`: whether the buffer was allocated, and the ioctl's result. */
  datatype Fetch = Fetch(gotBuffer: bool, ret: int, layout: Layout)

  /** `get_uuid_layout` */
  function UuidLayout(f: Fetch): Option<Layout> {
    if f.gotBuffer && f.ret == 0 then Some(f.layout) else None
  }

  /** Answers to the system calls of one `initialize_memory_uuid`; a failed mmap is None. */
  datatype MemEnv = MemEnv(
    pageSize: nat,
    idtMap: Option<nat>, idtSet: int,
    init: Fetch, initMap: Option<nat>, initSet: int,
    core: Fetch, coreMap: Option<nat>, coreSet: int)

  function IdtRegion(env: MemEnv): Option<Region> {
    if env.idtMap.Some? then Some(Region(0, 0, env.pageSize * IDT_PAGES % TWO_32, env.idtMap.value)) else None
  }

  function InitRegion(layout: Layout, at: nat): Region {
    Region(1, layout.base, layout.size, at)
  }

  function CoreRegion(layout: Layout, at: nat): Region {
    Region(2, CORE_GUEST_BASE, layout.size, at)
  }

  // How far the calls get.
  predicate IdtDone(env: MemEnv) { env.idtMap.Some? && env.idtSet >= 0 }
  predicate InitFetched(env: MemEnv) { IdtDone(env) && UuidLayout(env.init).Some? }
  predicate InitMapped(env: MemEnv) { InitFetched(env) && env.initMap.Some? }
  predicate InitDone(env: MemEnv) { InitMapped(env) && env.initSet >= 0 }
  predicate CoreFetched(env: MemEnv) { InitDone(env) && UuidLayout(env.core).Some? }
  predicate CoreMapped(env: MemEnv) { CoreFetched(env) && env.coreMap.Some? }
  predicate CoreDone(env: MemEnv) { CoreMapped(env) && env.coreSet >= 0 }

  /** No step failed, except that a layout may not have been fetched: the code then returns an earlier result. */
  predicate NotReported(env: MemEnv) {
    IdtDone(env) && (InitFetched(env) ==> InitDone(env)) && (CoreFetched(env) ==> CoreDone(env))
  }

  /** The memory of an entry that had no region yet. */
  function Filled(m: Memory, env: MemEnv): Memory {
    Memory(
      if env.idtMap.Some? then IdtRegion(env) else m.idt,
      if InitMapped(env) then Some(InitRegion(UuidLayout(env.init).value, env.initMap.value)) else m.init,
      if CoreMapped(env) then Some(CoreRegion(UuidLayout(env.core).value, env.coreMap.value)) else m.core,
      m.numRegions + if CoreDone(env) then 3 else if InitDone(env) then 2 else if IdtDone(env) then 1 else 0)
  }

  /** Position of the first entry that carries the uuid, or the number of entries. */
  function FirstIndex(es: seq<Entry>, uuid: Uuid): nat {
    if es == [] || es[0].uuid == uuid then 0 else 1 + FirstIndex(es[1..], uuid)
  }

  lemma {:induction false} FirstIndexIsFirst(es: seq<Entry>, uuid: Uuid)
    ensures FirstIndex(es, uuid) <= |es|
    ensures forall k :: 0 <= k < FirstIndex(es, uuid) ==> es[k].uuid != uuid
    ensures FirstIndex(es, uuid) < |es| ==> es[FirstIndex(es, uuid)].uuid == uuid
  {
    if es != [] && es[0].uuid != uuid {
      FirstIndexIsFirst(es[1..], uuid);
      assert forall k :: 1 <= k < FirstIndex(es, uuid) ==> es[k] == es[1..][k - 1];
    }
  }

  predicate Unique(es: seq<Entry>, uuid: Uuid) {
    forall j, k :: 0 <= j < k < |es| ==> !(es[j].uuid == uuid && es[k].uuid == uuid)
  }

  /** When `initialize_memory_uuid` returns a non-negative value. */
  predicate MemoryAccepted(es: seq<Entry>, uuid: Uuid, env: MemEnv) {
    FirstIndexIsFirst(es, uuid);
    var m := FirstIndex(es, uuid);
    && m < |es| && es[m].memory.numRegions == 0
    && NotReported(env)
    && (CoreDone(env) ==> Unique(es, uuid))
  }

  /** The table after `initialize_memory_uuid`. */
  function MemoryTable(es: seq<Entry>, uuid: Uuid, env: MemEnv): (es': seq<Entry>)
    ensures |es'| == |es|
  {
    FirstIndexIsFirst(es, uuid);
    var m := FirstIndex(es, uuid);
    if m < |es| && es[m].memory.numRegions == 0 then es[m := es[m].(memory := Filled(es[m].memory, env))] else es
  }

  /** The three regions of the entry at `i`, step by step as far as they go. */
  method FillRegions(t: Table, i: nat, env: MemEnv) returns (ret: int, done: bool)
    requires t.Valid() && i < t.num && t.data[i].memory.numRegions == 0
    modifies t.data
    ensures t.Valid()
    ensures t.Contents() == old(t.Contents())[i := old(t.data[i]).(memory := Filled(old(t.data[i]).memory, env))]
    ensures done <==> CoreDone(env)
    ensures ret >= 0 <==> NotReported(env)
    ensures done ==> ret == 0
  {
    done := false;
    ghost var before := t.data[i];
    var mem := t.data[i].memory;
    if env.idtMap.None? {
      return -1, false;
    }
    mem := mem.(idt := IdtRegion(env));
    t.data[i] := t.data[i].(memory := mem);
    ret := env.idtSet;
    if ret < 0 {
      return;
    }
    mem := mem.(numRegions := mem.numRegions + 1);
    t.data[i] := t.data[i].(memory := mem);

    var initLayout := UuidLayout(env.init);
    if initLayout.None? {
      return;
    }
    if env.initMap.None? {
      return -1, false;
    }
    mem := mem.(init := Some(InitRegion(initLayout.value, env.initMap.value)));
    t.data[i] := t.data[i].(memory := mem);
    ret := env.initSet;
    if ret < 0 {
      return;
    }
    mem := mem.(numRegions := mem.numRegions + 1);
    t.data[i] := t.data[i].(memory := mem);

    var coreLayout := UuidLayout(env.core);
    if coreLayout.None? {
      return;
    }
    if env.coreMap.None? {
      return -1, false;
    }
    mem := mem.(core := Some(CoreRegion(coreLayout.value, env.coreMap.value)));
    t.data[i] := t.data[i].(memory := mem);
    ret := env.coreSet;
    if ret < 0 {
      return;
    }
    mem := mem.(numRegions := mem.numRegions + 1);
    t.data[i] := t.data[i].(memory := mem);
    ret, done := 0, true;
  }

  method InitializeMemory(t: Table, uuid: Uuid, env: MemEnv) returns (ret: int)
    requires t.Valid()
    modifies t.data
    ensures t.Valid()
    ensures t.Contents() == MemoryTable(old(t.Contents()), uuid, env)
    ensures ret >= 0 <==> MemoryAccepted(old(t.Contents()), uuid, env)
  {
    hide CoreDone, NotReported, Filled;
    ghost var es := t.Contents();
    ghost var m := FirstIndex(es, uuid);
    FirstIndexIsFirst(es, uuid);
    var found := false;
    ret := 0;
    var i := 0;
    while i < t.num
      invariant 0 <= i <= t.num
      invariant t.Valid() && |es| == t.num
      invariant !found ==> t.Contents() == es && i <= m
      invariant found ==> m < i && es[m].memory.numRegions == 0 && CoreDone(env) && NotReported(env) && ret == 0
      invariant found ==> t.Contents() == MemoryTable(es, uuid, env)
      invariant found ==> forall k :: m < k < i ==> es[k].uuid != uuid
    {
      assert t.data[i].uuid == es[i].uuid;
      if t.data[i].uuid == uuid {
        if found {
          assert es[m].uuid == uuid && es[i].uuid == uuid;
          return -1;
        }
        found := true;
        if t.data[i].memory.numRegions < 0 {
          return -1;
        }
        if t.data[i].memory.numRegions != 0 {
          return -1;
        }
        var done;
        ret, done := FillRegions(t, i, env);
        if !done {
          return;
        }
      }
      i := i + 1;
    }
    if !found {
      ret := -1;
    }
  }

  /**
   A non-negative result: the entry had no region, and every other entry is untouched. The three regions are set exactly
   if both layouts were fetched, in slots 0, 1 and 2 of the only entry with the uuid.
   */
  lemma AcceptedMeansThreeRegions(es: seq<Entry>, uuid: Uuid, env: MemEnv)
    requires MemoryAccepted(es, uuid, env)
    ensures var m, es' := FirstIndex(es, uuid), MemoryTable(es, uuid, env);
            && m < |es| == |es'|
            && (forall k :: 0 <= k < |es| && k != m ==> es'[k] == es[k])
            && es[m].memory.numRegions == 0 && es'[m].memory.numRegions in {1, 2, 3}
            && (es'[m].memory.numRegions == 3 <==> UuidLayout(env.init).Some? && UuidLayout(env.core).Some?)
            && es'[m].memory.idt == Some(Region(0, 0, env.pageSize % TWO_32, env.idtMap.value))
            && (UuidLayout(env.init).Some? ==>
                  es'[m].memory.init == Some(Region(1, env.init.layout.base, env.init.layout.size, env.initMap.value)))
            && (es'[m].memory.numRegions == 3 ==>
                  && (forall k :: 0 <= k < |es| ==> (es[k].uuid == uuid <==> k == m))
                  && es'[m].memory.core == Some(Region(2, 0x1000, env.core.layout.size, env.coreMap.value)))
  {
    FirstIndexIsFirst(es, uuid);
  }

  /**
   How far a call gets, whatever its result: the regions it sets, each in a slot of its own, at its own place in the
   guest and in the server, and their number, which counts those that the machine was given.
   */
  lemma RegionsExactly(es: seq<Entry>, uuid: Uuid, env: MemEnv)
    requires FirstIndex(es, uuid) < |es| && es[FirstIndex(es, uuid)].memory.numRegions == 0
    ensures var m := FirstIndex(es, uuid);
            var before, after := es[m].memory, MemoryTable(es, uuid, env)[m].memory;
            var first := env.idtMap.Some? && env.idtSet >= 0;
            var second := first && env.init.gotBuffer && env.init.ret == 0 && env.initMap.Some?;
            var third := second && env.initSet >= 0 && env.core.gotBuffer && env.core.ret == 0 && env.coreMap.Some?;
            && after.idt == (if env.idtMap.None? then before.idt
                             else Some(Region(0, 0, env.pageSize % 0x1_0000_0000, env.idtMap.value)))
            && after.init == (if !second then before.init
                              else Some(Region(1, env.init.layout.base, env.init.layout.size, env.initMap.value)))
            && after.core == (if !third then before.core
                              else Some(Region(2, 0x1000, env.core.layout.size, env.coreMap.value)))
            && (after.numRegions == 3 <==> third && env.coreSet >= 0)
            && (after.numRegions == 2 <==> second && env.initSet >= 0 && !(third && env.coreSet >= 0))
            && (after.numRegions == 1 <==> first && !(second && env.initSet >= 0))
            && 0 <= after.numRegions <= 3
  {
    FirstIndexIsFirst(es, uuid);
  }

  /** What a result that is not negative promises: one entry with the uuid, and it has just got its three regions. */
  predicate AllRegionsSet(es: seq<Entry>, es': seq<Entry>, uuid: Uuid) {
    && |es'| == |es| && Unique(es, uuid)
    && exists m :: 0 <= m < |es| && es[m].uuid == uuid && es[m].memory.numRegions == 0 && es'[m].memory.numRegions == 3
  }

  /** The first step that failed was asking for a layout. */
  predicate LayoutMissed(es: seq<Entry>, uuid: Uuid, env: MemEnv) {
    FirstIndexIsFirst(es, uuid);
    var m := FirstIndex(es, uuid);
    && m < |es| && es[m].memory.numRegions == 0 && IdtDone(env)
    && (UuidLayout(env.init).None? || (InitDone(env) && UuidLayout(env.core).None?))
  }

  /**
   "0 on success, negative on error" is kept exactly when no layout was missed: a missed layout is the one failure
   that is reported as a success, whatever the table and the other answers.
   */
  lemma ErrorIsReportedExactly(es: seq<Entry>, uuid: Uuid, env: MemEnv)
    ensures (MemoryAccepted(es, uuid, env) <==> AllRegionsSet(es, MemoryTable(es, uuid, env), uuid)) <==>
              !LayoutMissed(es, uuid, env)
    ensures LayoutMissed(es, uuid, env) ==> MemoryAccepted(es, uuid, env)
  {
    FirstIndexIsFirst(es, uuid);
    var m, es' := FirstIndex(es, uuid), MemoryTable(es, uuid, env);
    if MemoryAccepted(es, uuid, env) && CoreDone(env) {
      assert es[m].uuid == uuid && es'[m].memory.numRegions == 3;
    }
    if AllRegionsSet(es, es', uuid) {
      var k :| 0 <= k < |es| && es[k].uuid == uuid && es[k].memory.numRegions == 0 && es'[k].memory.numRegions == 3;
      assert k == m;
    }
  }

  /**
   A failure reported as a success, in every table with an untouched entry for the uuid: the init layout is refused.
   */
  lemma UnreportedFailure(es: seq<Entry>, uuid: Uuid, at: nat, refusal: int) returns (env: MemEnv)
    requires FirstIndex(es, uuid) < |es| && es[FirstIndex(es, uuid)].memory == NEW_MEMORY && refusal < 0
    ensures UuidLayout(env.init).None? && env.init.ret == refusal
    ensures MemoryAccepted(es, uuid, env)
    ensures MemoryTable(es, uuid, env)[FirstIndex(es, uuid)].memory == Memory(IdtRegion(env), None, None, 1)
  {
    var refused := Fetch(true, refusal, Layout(at, at));
    env := MemEnv(at, Some(at), 0, refused, None, refusal, refused, None, refusal);
  }

  /** Regions are only ever added: an entry that has one is never touched again. */
  lemma RegionsOnlyGrow(es: seq<Entry>, uuid: Uuid, env: MemEnv, k: nat)
    requires k < |es|
    ensures |MemoryTable(es, uuid, env)| == |es|
    ensures var e, e' := es[k], MemoryTable(es, uuid, env)[k];
            && e.memory.numRegions <= e'.memory.numRegions
            && (e.memory.numRegions != 0 ==> e' == e)
            && e' == e.(memory := e'.memory)
  {
    FirstIndexIsFirst(es, uuid);
  }

  // ---------------------------------------------------------------- the guest

  /** Results of KVM_RUN: a failed call, or an exit reason. `Out` is one byte written to port 0x3f8. */
  datatype Exit = RunFailed | Hlt | Out(b: nat) | OtherIo | FailEntry | InternalError | OtherReason

  datatype GuestEnd = Halted | Broken | Endless

  function EndOf(guest: seq<Exit>): GuestEnd {
    if guest == [] then Endless
    else match guest[0]
      case Hlt => Halted
      case RunFailed => Broken
      case FailEntry => Broken
      case InternalError => Broken
      case _ => EndOf(guest[1..])
  }

  /** The bytes a guest prints before it ends. */
  function Printed(guest: seq<Exit>): seq<nat> {
    if guest == [] then []
    else match guest[0]
      case Out(b) => [b] + Printed(guest[1..])
      case OtherIo => Printed(guest[1..])
      case OtherReason => Printed(guest[1..])
      case _ => []
  }

  /** A guest never returns control for good exactly when none of its exits is a final one. */
  lemma {:induction false} EndlessExactly(guest: seq<Exit>)
    ensures EndOf(guest) == Endless <==>
              forall k :: 0 <= k < |guest| ==> guest[k].Out? || guest[k].OtherIo? || guest[k].OtherReason?
  {
    if guest != [] {
      EndlessExactly(guest[1..]);
      assert forall k :: 1 <= k < |guest| ==> guest[k] == guest[1..][k - 1];
    }
  }

  /** The exits that end the run loop. */
  predicate Final(e: Exit) { e.Hlt? || e.RunFailed? || e.FailEntry? || e.InternalError? }

  /** `n` is the number of exits before the first final one. */
  predicate BeforeFinal(guest: seq<Exit>, n: nat) {
    n <= |guest| && (forall k :: 0 <= k < n ==> !Final(guest[k])) && (n < |guest| ==> Final(guest[n]))
  }

  /** The bytes written to the serial port by a list of exits. */
  function Written(exits: seq<Exit>): seq<nat> {
    if exits == [] then []
    else Written(exits[..|exits| - 1]) + match exits[|exits| - 1] case Out(b) => [b] case _ => []
  }

  lemma {:induction false} WrittenFront(exits: seq<Exit>)
    requires exits != []
    ensures Written(exits) == Written(exits[..1]) + Written(exits[1..])
  {
    var n := |exits| - 1;
    assert exits[..1][..0] == [];
    if n > 0 {
      WrittenFront(exits[..n]);
      assert exits[..n][..1] == exits[..1] && exits[..n][1..] == exits[1..][..n - 1];
    } else {
      assert exits[..1] == exits;
    }
  }

  /** The first final exit alone decides how a guest ends, and what it printed is what was written before that exit. */
  lemma {:induction false} FirstFinalDecides(guest: seq<Exit>) returns (n: nat)
    ensures BeforeFinal(guest, n)
    ensures EndOf(guest) == if n == |guest| then Endless else if guest[n].Hlt? then Halted else Broken
    ensures Printed(guest) == Written(guest[..n])
  {
    n := 0;
    if guest != [] && !Final(guest[0]) {
      var m := FirstFinalDecides(guest[1..]);
      n := m + 1;
      WrittenFront(guest[..n]);
      assert guest[..n][..1] == [guest[0]] && guest[..n][1..] == guest[1..][..m];
      assert Written([guest[0]]) == match guest[0] case Out(b) => [b] case _ => [] by {
        assert [guest[0]][..0] == [];
      }
    }
  }

  method RunGuest(guest: seq<Exit>) returns (end: GuestEnd, console: seq<nat>)
    ensures end == EndOf(guest)
    ensures console == Printed(guest)
  {
    console := [];
    var k := 0;
    while k < |guest|
      invariant 0 <= k <= |guest|
      invariant EndOf(guest) == EndOf(guest[k..])
      invariant Printed(guest) == console + Printed(guest[k..])
      decreases |guest| - k
    {
      assert guest[k..][1..] == guest[k + 1..];
      match guest[k] {
        case Hlt => return Halted, console;
        case RunFailed => return Broken, console;
        case FailEntry => return Broken, console;
        case InternalError => return Broken, console;
        case Out(b) => console := console + [b];
        case OtherIo =>
        case OtherReason =>
      }
      k := k + 1;
    }
    end := Endless;
  }

  // ---------------------------------------------------------------- process_entry

  /** Answers to the system and library calls of one `process_entry`; `gotCopy` is malloc while scanning. */
  datatype Env = Env(
    gotCopy: nat -> bool,
    createVm: int,
    mem: MemEnv,
    reloaded1: bool, written: int, reloaded2: bool,
    createVcpu: int, mmapSize: int, runBytes: nat, runMapped: bool,
    getSregs: int, setSregs: int, reloaded3: bool, setRegs: int,
    guest: seq<Exit>)

  datatype Outcome = Returned(code: int) | NeverReturns

  /** What becomes of the entry being handled: marked as impossible, left as it was, processed, or never given up. */
  datatype Fate = Condemned | Abandoned | Done | Stuck

  /** The virtual machine got its memory, the module's code and its CPU. */
  predicate CpuCreated(env: Env, memoryAccepted: bool) {
    && env.createVm >= 0 && memoryAccepted && env.reloaded1 && env.written == PACKET_BYTES && env.reloaded2
    && env.createVcpu >= 0
  }

  predicate GuestStarts(env: Env, memoryAccepted: bool) {
    && CpuCreated(env, memoryAccepted)
    && env.mmapSize >= 0 && env.mmapSize >= env.runBytes && env.runMapped
    && env.getSregs >= 0 && env.setSregs >= 0 && env.reloaded3 && env.setRegs >= 0
  }

  /** Only failures up to the size query mark the entry; a failed reload or a later failure leaves it unmarked. */
  function FateOf(env: Env, memoryAccepted: bool): Fate {
    if GuestStarts(env, memoryAccepted) then
      match EndOf(env.guest)
      case Halted => Done
      case Broken => Abandoned
      case Endless => Stuck
    else if env.createVm < 0 || !memoryAccepted then Condemned
    else if !env.reloaded1 then Abandoned
    else if env.written != PACKET_BYTES then Condemned
    else if !env.reloaded2 then Abandoned
    else if env.createVcpu < 0 || env.mmapSize < 0 then Condemned
    else Abandoned
  }

  predicate Unsettled(e: Entry) { !e.processed && !e.couldNotProcess }

  predicate Contradictory(e: Entry) { e.processed && e.couldNotProcess }

  /** The first entry the scan does not pass over. */
  function Stop(es: seq<Entry>): nat {
    if es == [] || Unsettled(es[0]) || Contradictory(es[0]) then 0 else 1 + Stop(es[1..])
  }

  lemma {:induction false} StopIsFirst(es: seq<Entry>)
    ensures Stop(es) <= |es|
    ensures forall k :: 0 <= k < Stop(es) ==> !Unsettled(es[k]) && !Contradictory(es[k])
    ensures Stop(es) < |es| ==> Unsettled(es[Stop(es)]) || Contradictory(es[Stop(es)])
  {
    if es != [] && !Unsettled(es[0]) && !Contradictory(es[0]) {
      StopIsFirst(es[1..]);
      assert forall k :: 1 <= k < Stop(es) ==> es[k] == es[1..][k - 1];
    }
  }

  /** The table after handling the entry at `u`, whose flags become those given. */
  function TableAfter(es: seq<Entry>, u: nat, env: Env, processed: bool, couldNotProcess: bool): seq<Entry>
    requires u < |es|
  {
    if env.createVm < 0 then
      es[u := es[u].(processed := processed, couldNotProcess := couldNotProcess)]
    else
      var mems := MemoryTable(es, es[u].uuid, env.mem);
      var cpu := CpuCreated(env, MemoryAccepted(es, es[u].uuid, env.mem));
      mems[u := mems[u].(
        vmfd := env.createVm,
        vcpufd := if cpu then env.createVcpu else es[u].vcpufd,
        processed := processed,
        couldNotProcess := couldNotProcess)]
  }

  /** The effect of handling the entry at `u`, on every entry and on the result. */
  ghost predicate Handled(es: seq<Entry>, es': seq<Entry>, u: nat, env: Env, out: Outcome)
    requires u < |es|
  {
    var fate := FateOf(env, MemoryAccepted(es, es[u].uuid, env.mem));
    && es' == TableAfter(es, u, env, fate == Done, fate == Condemned)
    && (fate == Done ==> out == Returned(1))
    && (fate == Stuck ==> out == NeverReturns)
    && (fate == Condemned || fate == Abandoned ==> out.Returned? && out.code < 0)
  }

  lemma {:induction false} SameUuidsSameFirst(es: seq<Entry>, fs: seq<Entry>, uuid: Uuid)
    requires |es| == |fs| && forall k :: 0 <= k < |es| ==> es[k].uuid == fs[k].uuid
    ensures FirstIndex(es, uuid) == FirstIndex(fs, uuid)
    ensures Unique(es, uuid) == Unique(fs, uuid)
  {
    if es != [] && es[0].uuid != uuid {
      SameUuidsSameFirst(es[1..], fs[1..], uuid);
    }
  }

  /** Setting a file descriptor first makes no difference to the memory. */
  lemma MemoryAfterVmfd(es: seq<Entry>, i: nat, vmfd: int, env: MemEnv)
    requires i < |es|
    ensures var uuid, fs := es[i].uuid, es[i := es[i].(vmfd := vmfd)];
            var mems := MemoryTable(es, uuid, env);
            && MemoryTable(fs, uuid, env) == mems[i := mems[i].(vmfd := vmfd)]
            && MemoryAccepted(fs, uuid, env) == MemoryAccepted(es, uuid, env)
            && mems[i] == es[i].(memory := mems[i].memory)
  {
    var uuid, fs := es[i].uuid, es[i := es[i].(vmfd := vmfd)];
    SameUuidsSameFirst(es, fs, uuid);
    var m := FirstIndex(es, uuid);
    if m < i {
      assert es[m].memory == fs[m].memory;
    }
  }

  /** Machine and memory for the entry at `i`. */
  method PrepareMemory(t: Table, i: nat, env: Env) returns (ret: int)
    requires t.Valid() && i < t.num && Unsettled(t.data[i])
    modifies t.data
    ensures t.Valid()
    ensures var es := old(t.Contents());
            var mems := MemoryTable(es, es[i].uuid, env.mem);
            && (ret >= 0 <==> env.createVm >= 0 && MemoryAccepted(es, es[i].uuid, env.mem))
            && mems[i] == es[i].(memory := mems[i].memory)
            && t.Contents() == if env.createVm < 0 then es[i := es[i].(couldNotProcess := true)]
                               else mems[i := mems[i].(vmfd := env.createVm, couldNotProcess := ret < 0)]
  {
    hide MemoryAccepted, MemoryTable;
    ghost var es := t.Contents();
    var errno;
    MemoryAfterVmfd(es, i, env.createVm, env.mem);
    if env.createVm < 0 {
      errno := t.SetEntry(i, t.data[i].(couldNotProcess := true));
      return -1;
    }
    var uuid := t.data[i].uuid;
    errno := t.SetEntry(i, t.data[i].(vmfd := env.createVm));
    ret := InitializeMemory(t, uuid, env.mem);
    if ret < 0 {
      errno := t.SetEntry(i, t.data[i].(couldNotProcess := true));
    }
  }

  /** The first part of handling the entry at `i`: machine, memory, module code, CPU. Non-negative if all went well. */
  method BuildMachine(t: Table, i: nat, env: Env) returns (ret: int)
    requires t.Valid() && i < t.num && Unsettled(t.data[i])
    modifies t.data
    ensures t.Valid()
    ensures var es := old(t.Contents());
            var accepted := MemoryAccepted(es, es[i].uuid, env.mem);
            && (ret >= 0 <==> CpuCreated(env, accepted))
            && t.Contents() == TableAfter(es, i, env, false, ret < 0 && FateOf(env, accepted) == Condemned)
  {
    hide MemoryAccepted, MemoryTable;
    var errno;
    ret := PrepareMemory(t, i, env);
    if ret < 0 {
      return;
    }
    if !env.reloaded1 {
      return -1;
    }
    if env.written != PACKET_BYTES {
      errno := t.SetEntry(i, t.data[i].(couldNotProcess := true));
      return -1;
    }
    if !env.reloaded2 {
      return -1;
    }
    if env.createVcpu < 0 {
      errno := t.SetEntry(i, t.data[i].(couldNotProcess := true));
      return -1;
    }
    errno := t.SetEntry(i, t.data[i].(vcpufd := env.createVcpu));
    ret := 0;
  }

  /** The part of `process_entry` that handles the entry at `i`. */
  method HandleEntry(t: Table, i: nat, env: Env) returns (out: Outcome, console: seq<nat>)
    requires t.Valid() && i < t.num && Unsettled(t.data[i])
    modifies t.data
    ensures t.Valid()
    ensures Handled(old(t.Contents()), t.Contents(), i, env, out)
    ensures console == if GuestStarts(env, MemoryAccepted(old(t.Contents()), old(t.data[i].uuid), env.mem))
                       then Printed(env.guest) else []
  {
    console := [];
    var errno;
    var ret := BuildMachine(t, i, env);
    if ret < 0 {
      return Returned(ret), console;
    }
    if env.mmapSize < 0 {
      errno := t.SetEntry(i, t.data[i].(couldNotProcess := true));
      return Returned(-1), console;
    }
    if env.mmapSize < env.runBytes {
      return Returned(-1), console;
    }
    if !env.runMapped {
      return Returned(-1), console;
    }
    if env.getSregs < 0 {
      return Returned(env.getSregs), console;
    }
    if env.setSregs < 0 {
      return Returned(env.setSregs), console;
    }
    if !env.reloaded3 {
      return Returned(-1), console;
    }
    if env.setRegs < 0 {
      return Returned(env.setRegs), console;
    }
    var end;
    end, console := RunGuest(env.guest);
    match end {
      case Halted =>
        errno := t.SetEntry(i, t.data[i].(processed := true));
        out := Returned(1);
      case Broken => out := Returned(-1);
      case Endless => out := NeverReturns;
    }
  }

  /** The scan up to and including `u` got all its copies. */
  predicate CopiesGranted(es: seq<Entry>, env: Env) {
    forall k :: 0 <= k <= Stop(es) && k < |es| ==> env.gotCopy(k)
  }

  /** The effect of a call of `process_entry`: it handles the first unsettled entry, or changes nothing. */
  ghost predicate Called(es: seq<Entry>, es': seq<Entry>, env: Env, out: Outcome) {
    var u := Stop(es);
    if CopiesGranted(es, env) && u < |es| && Unsettled(es[u]) then
      Handled(es, es', u, env, out)
    else
      es' == es && out == Returned(if CopiesGranted(es, env) && u >= |es| then 0 else -1)
  }

  /** What a call of `process_entry` reports. */
  datatype Result = NoneLeft | OneDone | Failure | Hangs

  function ResultOf(es: seq<Entry>, env: Env): Result {
    StopIsFirst(es);
    var u := Stop(es);
    if !CopiesGranted(es, env) || (u < |es| && Contradictory(es[u])) then Failure
    else if u == |es| then NoneLeft
    else
      match FateOf(env, MemoryAccepted(es, es[u].uuid, env.mem))
      case Done => OneDone
      case Stuck => Hangs
      case _ => Failure
  }

  function TableAfterCall(es: seq<Entry>, env: Env): seq<Entry> {
    var u := Stop(es);
    if CopiesGranted(es, env) && u < |es| && Unsettled(es[u]) then
      var fate := FateOf(env, MemoryAccepted(es, es[u].uuid, env.mem));
      TableAfter(es, u, env, fate == Done, fate == Condemned)
    else es
  }

  predicate Reports(out: Outcome, r: Result) {
    match r
    case NoneLeft => out == Returned(0)
    case OneDone => out == Returned(1)
    case Hangs => out == NeverReturns
    case Failure => out.Returned? && out.code < 0
  }

  /** A call is determined by the table and the answers, but for which negative number an error is. */
  lemma CalledExactly(es: seq<Entry>, es': seq<Entry>, env: Env, out: Outcome)
    ensures Called(es, es', env, out) ==> es' == TableAfterCall(es, env) && Reports(out, ResultOf(es, env))
  {
    StopIsFirst(es);
  }

  lemma OneDoneIsCalled(es: seq<Entry>, env: Env)
    requires ResultOf(es, env) == OneDone
    ensures Called(es, TableAfterCall(es, env), env, Returned(1))
  {
    StopIsFirst(es);
  }

  method ProcessEntry(t: Table, env: Env) returns (out: Outcome, console: seq<nat>)
    requires t.Valid()
    modifies t.data
    ensures t.Valid()
    ensures Called(old(t.Contents()), t.Contents(), env, out)
  {
    console := [];
    ghost var es := t.Contents();
    StopIsFirst(es);
    var num := t.NumEntries();
    if num == 0 {
      return Returned(0), console;
    }
    if num < 0 {
      assert false;  // the conversion to int never makes the count negative
    }
    var i := 0;
    while i < num
      invariant 0 <= i <= num == |es| && i <= Stop(es)
      invariant t.Valid() && t.Contents() == es
      invariant forall k :: 0 <= k < i ==> env.gotCopy(k)
    {
      var p := t.EntryAtCopy(i, env.gotCopy(i));
      if p.None? {
        return Returned(-1), console;
      }
      var entry := p.value;
      if entry.processed && entry.couldNotProcess {
        return Returned(-1), console;
      }
      if !entry.processed && !entry.couldNotProcess {
        assert Stop(es) == i;
        out, console := HandleEntry(t, i, env);
        return;
      }
      i := i + 1;
    }
    out := Returned(0);
  }

  // ---------------------------------------------------------------- over a server's life

  /** What the table of a server that has not left looks like: nothing condemned, untouched until processed. */
  predicate Orderly(es: seq<Entry>) {
    forall k :: 0 <= k < |es| ==>
      && !es[k].couldNotProcess
      && (if es[k].processed then es[k].memory.numRegions >= 1 else es[k].memory == NEW_MEMORY)
  }

  /** All three regions are there. An entry can be processed without. */
  predicate Complete(e: Entry) {
    e.memory.idt.Some? && e.memory.init.Some? && e.memory.core.Some? && e.memory.numRegions == 3
  }

  predicate LayoutsFetched(env: Env) {
    UuidLayout(env.mem.init).Some? && UuidLayout(env.mem.core).Some?
  }

  predicate AllProcessed(es: seq<Entry>) {
    forall k :: 0 <= k < |es| ==> es[k].processed && !es[k].couldNotProcess
  }

  /**
   The result codes are exact in an orderly table. 1: the lowest unsettled entry became processed. 0: there is none.
   Negative: a call failed. In every case no entry but the one handled changes.
   */
  lemma ResultCodes(es: seq<Entry>, es': seq<Entry>, env: Env, out: Outcome)
    requires Orderly(es) && Called(es, es', env, out)
    ensures |es'| == |es|
    ensures forall k :: 0 <= k < |es| ==> es'[k].uuid == es[k].uuid
    ensures forall k :: 0 <= k < |es| && k != Stop(es) ==> es'[k] == es[k]
    ensures out.Returned? ==> out.code <= 1
    ensures out == Returned(0) <==> CopiesGranted(es, env) && AllProcessed(es)
    ensures out == Returned(1) <==>
              && CopiesGranted(es, env) && Stop(es) < |es|
              && FateOf(env, MemoryAccepted(es, es[Stop(es)].uuid, env.mem)) == Done
    ensures out == NeverReturns <==>
              && CopiesGranted(es, env) && Stop(es) < |es|
              && FateOf(env, MemoryAccepted(es, es[Stop(es)].uuid, env.mem)) == Stuck
    ensures out == Returned(1) ==>
              && Orderly(es')
              && (forall k :: 0 <= k < Stop(es) ==> es[k].processed)
              && !es[Stop(es)].processed && es'[Stop(es)].processed
              && CountUnsettled(es') == CountUnsettled(es) - 1
    ensures out == Returned(0) ==> es' == es && CountUnsettled(es) == 0
    ensures AllProcessed(es) ==> CountUnsettled(es) == 0
  {
    StopIsFirst(es);
    if AllProcessed(es) {
      NoneUnsettled(es);
    }
    if CopiesGranted(es, env) && Stop(es) < |es| {
      HandlingIsLocal(es, es', Stop(es), env, out);
      if out == Returned(1) {
        CountWhenOneSettles(es, es', Stop(es));
      }
    }
  }

  /** In an orderly table handling an entry touches no other one, and a success keeps the table orderly. */
  lemma HandlingIsLocal(es: seq<Entry>, es': seq<Entry>, u: nat, env: Env, out: Outcome)
    requires Orderly(es) && u == Stop(es) < |es| && Handled(es, es', u, env, out)
    ensures forall k :: 0 <= k < |es| && k != u ==> es'[k] == es[k]
    ensures out == Returned(1) ==> Orderly(es') && es'[u].processed
    ensures out == Returned(1) ==>
              Unique(es, es[u].uuid) || UuidLayout(env.mem.init).None? || UuidLayout(env.mem.core).None?
  {
    StopIsFirst(es);
    FirstIndexIsFirst(es, es[u].uuid);
  }

  /**
   The entry processed by a call has its three regions exactly if the kernel gave both layouts. Without the core
   layout the kernel was told to copy the module's core to an address that was never set, and the guest ran all the
   same.
   */
  lemma ProcessedCompleteExactly(es: seq<Entry>, es': seq<Entry>, env: Env, out: Outcome)
    requires Orderly(es) && Called(es, es', env, out) && out == Returned(1)
    ensures Stop(es) < |es| == |es'| && es'[Stop(es)].processed && env.written == PACKET_BYTES
    ensures Complete(es'[Stop(es)]) <==> LayoutsFetched(env)
    ensures es'[Stop(es)].memory.core.Some? <==> LayoutsFetched(env)
    ensures es'[Stop(es)].memory.init.Some? <==> UuidLayout(env.mem.init).Some?
  {
    StopIsFirst(es);
    FirstIndexIsFirst(es, es[Stop(es)].uuid);
  }

  /** The answers of `env`, but for those about the memory, such that everything else goes well. */
  function Untroubled(env: Env, mem: MemEnv): Env {
    env.(createVm := 0, mem := mem, reloaded1 := true, written := PACKET_BYTES, reloaded2 := true,
         createVcpu := 0, mmapSize := env.runBytes, runMapped := true, getSregs := 0, setSregs := 0,
         reloaded3 := true, setRegs := 0, guest := [Hlt])
  }

  /** In every table of a live server the first entry left to do, with a new uuid, can end as processed with no core. */
  lemma ProcessedWithoutCore(es: seq<Entry>, env: Env, at: nat, refusal: int) returns (mem: MemEnv, es': seq<Entry>)
    requires Orderly(es) && CopiesGranted(es, env) && Stop(es) < |es| && refusal < 0
    requires FirstIndex(es, es[Stop(es)].uuid) == Stop(es)
    ensures Called(es, es', Untroubled(env, mem), Returned(1))
    ensures |es'| == |es| && es'[Stop(es)].processed && es'[Stop(es)].memory.core == None
  {
    var u := Stop(es);
    StopIsFirst(es);
    mem := UnreportedFailure(es, es[u].uuid, at, refusal);
    assert EndOf([Hlt]) == Halted;
    es' := TableAfter(es, u, Untroubled(env, mem), true, false);
  }

  /**
   The entry that a call handles, field by field: it keeps its uuid; it has the machine as soon as there is one, and
   the CPU only after machine, memory, code and both reloads; it is processed exactly if its guest was started and
   halted, and marked as impossible exactly if one of five steps failed with none before.
   */
  lemma HandledExactly(es: seq<Entry>, es': seq<Entry>, env: Env, out: Outcome)
    requires Called(es, es', env, out) && CopiesGranted(es, env) && Stop(es) < |es| && Unsettled(es[Stop(es)])
    ensures |es'| == |es|
    ensures var u := Stop(es);
            var e, e' := es[u], es'[u];
            var memory := env.createVm >= 0 && MemoryAccepted(es, e.uuid, env.mem);
            var cpu := memory && env.reloaded1 && env.written == 304 && env.reloaded2 && env.createVcpu >= 0;
            var started := cpu && env.mmapSize >= env.runBytes && env.runMapped && env.getSregs >= 0
                           && env.setSregs >= 0 && env.reloaded3 && env.setRegs >= 0;
            && e'.uuid == e.uuid
            && e'.vmfd == (if env.createVm >= 0 then env.createVm else e.vmfd)
            && e'.vcpufd == (if cpu then env.createVcpu else e.vcpufd)
            && (env.createVm < 0 ==> e'.memory == e.memory)
            && (e'.processed <==> started && EndOf(env.guest) == Halted)
            && (e'.couldNotProcess <==>
                  || !memory
                  || (env.reloaded1 && env.written != 304)
                  || (env.reloaded1 && env.reloaded2 && env.createVcpu < 0)
                  || (cpu && env.mmapSize < 0))
            && (out == Returned(1) <==> e'.processed)
            && (out == NeverReturns <==> started && EndOf(env.guest) == Endless)
            && (out.Returned? && out.code != 1 ==> out.code < 0)
  {
    StopIsFirst(es);
  }

  /** What a call that succeeds makes of its entry: all of it comes from the answers to that call. */
  predicate BuiltBy(e: Entry, env: Env) {
    && e.vmfd == env.createVm && e.vcpufd == env.createVcpu && e.processed && !e.couldNotProcess
    && env.mem.idtMap.Some?
    && e.memory.idt == Some(Region(0, 0, env.mem.pageSize % 0x1_0000_0000, env.mem.idtMap.value))
    && (if env.mem.init.gotBuffer && env.mem.init.ret == 0 then
          && env.mem.initMap.Some?
          && e.memory.init
          == Some(Region(1, env.mem.init.layout.base, env.mem.init.layout.size, env.mem.initMap.value))
          && if env.mem.core.gotBuffer && env.mem.core.ret == 0 then
               && env.mem.coreMap.Some?
               && e.memory.core == Some(Region(2, 0x1000, env.mem.core.layout.size, env.mem.coreMap.value))
               && e.memory.numRegions == 3
             else
               e.memory.core == None && e.memory.numRegions == 2
        else
          e.memory.init == e.memory.core == None && e.memory.numRegions == 1)
  }

  /** All three regions are there exactly if the call got both layouts. */
  lemma BuiltIsComplete(e: Entry, env: Env)
    requires BuiltBy(e, env)
    ensures Complete(e) <==> LayoutsFetched(env)
  {
  }

  predicate AsCalled(e: Entry, env: Env) {
    BuiltBy(e, env) && (Complete(e) <==> LayoutsFetched(env))
  }

  lemma ProcessedIsBuilt(es: seq<Entry>, es': seq<Entry>, env: Env, out: Outcome)
    requires Orderly(es) && Called(es, es', env, out) && out == Returned(1)
    ensures Stop(es) < |es| == |es'| && AsCalled(es'[Stop(es)], env)
  {
    StopIsFirst(es);
    var u := Stop(es);
    FirstIndexIsFirst(es, es[u].uuid);
    HandledExactly(es, es', env, out);
    RegionsExactly(es, es[u].uuid, env.mem);
    AcceptedMeansThreeRegions(es, es[u].uuid, env.mem);
    assert BuiltBy(es'[u], env);
    BuiltIsComplete(es'[u], env);
  }

  /** No entry is both processed and impossible to process. */
  predicate Consistent(es: seq<Entry>) {
    forall k :: 0 <= k < |es| ==> !Contradictory(es[k])
  }

  /** However a call ends, it clears no flag and contradicts none. */
  lemma CallKeepsConsistent(es: seq<Entry>, es': seq<Entry>, env: Env, out: Outcome)
    requires Consistent(es) && Called(es, es', env, out)
    ensures Consistent(es') && |es'| == |es|
    ensures forall k :: 0 <= k < |es| ==>
              (es[k].processed ==> es'[k].processed) && (es[k].couldNotProcess ==> es'[k].couldNotProcess)
  {
  }

  /** Number of entries still to be handled. */
  function CountUnsettled(es: seq<Entry>): nat {
    if es == [] then 0 else (if Unsettled(es[0]) then 1 else 0) + CountUnsettled(es[1..])
  }

  lemma {:induction false} CountWhenOneSettles(es: seq<Entry>, es': seq<Entry>, u: nat)
    requires |es| == |es'| && u < |es| && Unsettled(es[u]) && !Unsettled(es'[u])
    requires forall k :: 0 <= k < |es| && k != u ==> Unsettled(es'[k]) == Unsettled(es[k])
    ensures CountUnsettled(es') == CountUnsettled(es) - 1
  {
    if u == 0 {
      CountIsPointwise(es[1..], es'[1..]);
    } else {
      CountWhenOneSettles(es[1..], es'[1..], u - 1);
    }
  }

  lemma {:induction false} CountIsPointwise(es: seq<Entry>, es': seq<Entry>)
    requires |es| == |es'| && forall k :: 0 <= k < |es| ==> Unsettled(es'[k]) == Unsettled(es[k])
    ensures CountUnsettled(es') == CountUnsettled(es)
  {
    if es != [] {
      CountIsPointwise(es[1..], es'[1..]);
    }
  }

  lemma {:induction false} NoneUnsettled(es: seq<Entry>)
    requires Stop(es) == |es|
    ensures CountUnsettled(es) == 0
  {
    StopIsFirst(es);
    if es != [] {
      NoneUnsettled(es[1..]);
    }
  }

  /** A call that reports one entry done leaves one fewer, whatever the table. */
  lemma CallSettlesOne(es: seq<Entry>, env: Env)
    requires ResultOf(es, env) == OneDone
    ensures CountUnsettled(TableAfterCall(es, env)) == CountUnsettled(es) - 1
  {
    StopIsFirst(es);
    CountWhenOneSettles(es, TableAfterCall(es, env), Stop(es));
  }
}
