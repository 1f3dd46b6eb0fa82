/**
 The hand-off between producers inserting modules, the proxy module in the kernel, and one server process at a time.

 The state machine has one action for each section of code that runs under a lock, and one for each step outside a
 lock that touches shared state. Producers, of which there may be any number, appear as `Put`, `Peek` and `Signal`:
 `send_event` looks into the table under the table's mutex and signals after releasing it, with the registration's
 mutex held throughout. A fetch of the server is `Pop`, `Fetch`, `Copy` and perhaps `Unpop`: the uuid is read through
 the popped pointer after the table's mutex was released.
 */
module HandOff {
  import opened Common
  import opened KernelTable

  // ---------------------------------------------------------------- the kernel's part

  /** The registration pointer `ks`: NULL, a live server, or a structure whose file is not usable. */
  datatype Ks = NoServer | Registered | Stale

  /** `counter` is the eventfd of the registered server. */
  datatype Kernel = Kernel(table: Table, ks: Ks, counter: nat)

  /** The first half of `send_event`: what a producer sees that holds the registration's mutex. */
  datatype Sight = Unseen | NothingPending | Seen

  function SightOf(k: Kernel): Sight
    requires k.table.Valid()
  {
    if k.ks == NoServer then Unseen
    else if PopPointer(k.table).None? then NothingPending
    else Seen
  }

  /** The second half: `found` is the answer of `eventfd_ctx_fileget`. */
  function SignalSpec(k: Kernel, found: bool): (int, Kernel) {
    if k.ks == Stale || !found then (-1, k) else (0, k.(counter := k.counter + 1))
  }

  /** `send_event` when nothing comes between the halves. */
  function SendEventSpec(k: Kernel, found: bool): (int, Kernel)
    requires k.table.Valid()
  {
    match SightOf(k)
    case Unseen => (0, k)
    case NothingPending => (-1, k)
    case Seen => SignalSpec(k, found)
  }

  /** `kvm_host_server_register`: a failure after the allocation leaves `ks` set. */
  function RegisterSpec(k: Kernel, gotMemory: bool, fd: int, fileFound: bool): (int, Kernel) {
    if !gotMemory then (-ENOMEM, k.(ks := NoServer))
    else if fd < 0 || !fileFound then (-1, k.(ks := Stale))
    else (0, k.(ks := Registered, counter := 0))
  }

  // ---------------------------------------------------------------- the whole system

  datatype Phase =
    | Off                       // no server process
    | Draining                  // start-up loop, about to ask for an entry
    | DrainFetch                // an entry is popped, its uuid not yet read through the pointer
    | DrainCopy                 // the uuid is read, not yet copied out
    | Processing                // start-up loop over process_entry
    | Selecting                 // blocked in select
    | Woken                     // select returned, about to ask for an entry
    | LoopFetch                 // as DrainFetch, in the main loop
    | LoopCopy                  // as DrainCopy, in the main loop
    | Reading                   // about to read the eventfd
    | Handling                  // in process_entry
    | Unpopping                 // a copy failed, the cursor is about to be moved back
    | Leaving(spurious: bool)   // on the way to out_table; spurious: woken with nothing to fetch

  /**
   What the fetch in progress holds: the block that the popped pointer points into, and the uuid it points at. A
   successful reallocation frees the block it grows, and every block has its own size, so the size tells which block
   it is.
   */
  datatype Hand = Hand(block: nat, uuid: Uuid, own: bool)

  /** Accounts of one server's life. */
  datatype Books = Books(
    base: int,        // entries waiting at registration that no notification in flight stands for
    drained: nat,     // entries popped by the start-up loop
    empty: nat,       // notifications that found nothing pending
    lost: nat,        // notifications given up with an entry waiting: no eventfd, or a table seen as NULL
    swallowed: int)   // sum over all eventfd reads of (value - 1)

  datatype State = State(
    k: Kernel,
    inserted: seq<Entry>,   // all entries ever stored, in order; the table's contents until it is lost
    inFlight: nat,          // puts whose send_event has not ended
    announcing: bool,       // one of them has looked and not yet signalled; it holds the registration's mutex
    phase: Phase,
    hand: Hand,
    delivered: seq<Uuid>,   // uuids copied out to servers, over all lives
    garbled: set<int>,      // positions for which something read from a freed block was delivered
    failed: set<int>,       // positions whose copy to user space ever failed
    lives: nat,             // registration attempts
    unseen: nat,            // notifications that found no server, over all lives
    books: Books)

  /** The module has just been loaded: nothing inserted, no server. */
  ghost predicate IsInitial(s: State) {
    && s.k.table == EMPTY_TABLE && s.k.ks == NoServer && s.phase == Off
    && s.inserted == [] && s.inFlight == 0 && !s.announcing && s.delivered == [] && s.garbled == {} && s.failed == {}
    && s.lives == 0 && s.unseen == 0
  }

  datatype Label =
    | Put(e: Entry, granted: bool)
    | Peek
    | Signal(found: bool)
    | Register(gotMemory: bool, fd: int, fileFound: bool)
    | Pop
    | Fetch(junk: Uuid)   // junk: what a freed block happens to hold
    | Copy(ok: bool)
    | Unpop
    | Settle              // process_entry has nothing left to do / has processed the new entry
    | Wake
    | Read
    | Quit                // any error exit other than the spurious one
    | Deregister
    | Die(handled: bool)  // SIGINT is handled by de-registering; any other death is not

  predicate InKernel(p: Phase) {
    p.DrainFetch? || p.DrainCopy? || p.LoopFetch? || p.LoopCopy? || p.Unpopping?
  }

  predicate InUserSpace(p: Phase) { !p.Off? && !InKernel(p) }

  predicate Fetching(p: Phase) { p.DrainFetch? || p.LoopFetch? }

  predicate CopyingOut(p: Phase) { p.DrainCopy? || p.LoopCopy? }

  /** A run goes on up to the first fetch of an entry from a table that was lost. */
  predicate CanFetch(t: Table) { t.store.Present? || t.Pending() <= 0 }

  function Step(s: State, l: Label): Option<State> {
    match l
    case Put(e, granted) => Some(Putting(s, e, granted))
    case Peek => if s.inFlight == 0 || s.announcing || !s.k.table.Valid() then None else Some(Looking(s))
    case Signal(found) => if s.inFlight > 0 && s.announcing then Some(Signalling(s, found)) else None
    case Register(gotMemory, fd, fileFound) =>
      if s.phase.Off? && !s.announcing then Some(Registering(s, gotMemory, fd, fileFound)) else None
    case Pop =>
      if (s.phase.Draining? || s.phase.Woken?) && s.k.table.Valid() && CanFetch(s.k.table) then Some(Popping(s))
      else None
    case Fetch(junk) => if Fetching(s.phase) then Some(Reaching(s, junk)) else None
    case Copy(ok) => if CopyingOut(s.phase) then Some(Copying(s, ok)) else None
    case Unpop =>
      if s.phase.Unpopping? then
        Some(s.(k := s.k.(table := UnpopSpec(s.k.table).1), phase := Leaving(false)))
      else None
    case Settle =>
      if s.phase.Processing? || s.phase.Handling? then Some(s.(phase := Selecting)) else None
    case Wake =>
      if s.phase.Selecting? && s.k.counter > 0 then Some(s.(phase := Woken)) else None
    case Read =>
      if s.phase.Reading? && s.k.counter > 0 then
        Some(s.(k := s.k.(counter := 0), phase := Handling,
                books := s.books.(swallowed := s.books.swallowed + s.k.counter - 1)))
      else None
    case Quit =>
      if InUserSpace(s.phase) && !s.phase.Leaving? then Some(s.(phase := Leaving(false))) else None
    case Deregister =>
      if s.phase.Leaving? && !s.announcing then Some(s.(phase := Off, k := s.k.(ks := NoServer))) else None
    case Die(handled) =>
      if InUserSpace(s.phase) && !(handled && s.announcing) then
        Some(s.(phase := Off, k := s.k.(ks := if handled then NoServer else Stale)))
      else None
  }

  function Putting(s: State, e: Entry, granted: bool): State {
    var (ret, t) := PutSpec(s.k.table, e, granted);
    var s' := s.(k := s.k.(table := t));
    if ret == 0 then s'.(inserted := s.inserted + [e], inFlight := s.inFlight + 1) else s'
  }

  function Looking(s: State): State
    requires s.inFlight > 0 && s.k.table.Valid()
  {
    match SightOf(s.k)
    case Unseen => s.(inFlight := s.inFlight - 1, unseen := s.unseen + 1)
    case NothingPending =>
      s.(inFlight := s.inFlight - 1,
         books := if s.k.table.Pending() > 0 then s.books.(lost := s.books.lost + 1)
                  else s.books.(empty := s.books.empty + 1))
    case Seen => s.(announcing := true)
  }

  function Signalling(s: State, found: bool): State
    requires s.inFlight > 0
  {
    var (ret, k) := SignalSpec(s.k, found);
    var s' := s.(k := k, inFlight := s.inFlight - 1, announcing := false);
    if ret == 0 then s' else s'.(books := s.books.(lost := s.books.lost + 1))
  }

  function Registering(s: State, gotMemory: bool, fd: int, fileFound: bool): State {
    var (ret, k) := RegisterSpec(s.k, gotMemory, fd, fileFound);
    s.(k := k, lives := s.lives + 1,
       phase := if ret == 0 then Draining else Off,
       books := Books(s.k.table.Pending() - s.inFlight, 0, 0, 0, 0))
  }

  function Popping(s: State): State
    requires (s.phase.Draining? || s.phase.Woken?) && s.k.table.Valid() && CanFetch(s.k.table)
  {
    var t := s.k.table;
    var s' := s.(k := s.k.(table := PopSpec(t)));
    if t.Pending() <= 0 then
      s'.(phase := if s.phase.Draining? then Processing else Leaving(true))
    else
      var s'' := s'.(hand := Hand(t.size, t.store.entries[t.index + 1].uuid, true));
      if s.phase.Draining? then s''.(phase := DrainFetch, books := s.books.(drained := s.books.drained + 1))
      else s''.(phase := LoopFetch)
  }

  /** The read through the popped pointer: the entry's uuid, unless the block has been freed since. */
  function Reaching(s: State, junk: Uuid): State
    requires Fetching(s.phase)
  {
    var own := s.hand.block == s.k.table.size;
    s.(hand := Hand(s.hand.block, if own then s.hand.uuid else junk, own),
       phase := if s.phase.DrainFetch? then DrainCopy else LoopCopy)
  }

  function Copying(s: State, ok: bool): State
    requires CopyingOut(s.phase)
  {
    var i := s.k.table.index;
    if ok then
      s.(delivered := s.delivered + [s.hand.uuid],
         garbled := if s.hand.own then s.garbled else s.garbled + {i},
         phase := if s.phase.DrainCopy? then Draining else Reading)
    else
      s.(failed := s.failed + {i}, phase := Unpopping)
  }

  /** A run is a list of labels; each is taken where it is enabled. */
  function Run(s: State, ls: seq<Label>): Option<State>
    decreases |ls|
  {
    if ls == [] then Some(s)
    else match Step(s, ls[0])
      case None => None
      case Some(s') => Run(s', ls[1..])
  }

  ghost predicate Reachable(s: State) {
    exists s0, ls :: IsInitial(s0) && Run(s0, ls) == Some(s)
  }

  // ---------------------------------------------------------------- quantities of the accounting laws

  predicate Running(p: Phase) {
    !p.Off? && !p.Unpopping? && !p.Leaving?
  }

  predicate AfterDrain(p: Phase) {
    Running(p) && !p.Draining? && !p.DrainFetch? && !p.DrainCopy?
  }

  /** An entry is popped whose notification has not been read off the eventfd. */
  function Owing(p: Phase): nat {
    if p.LoopFetch? || p.LoopCopy? || p.Reading? then 1 else 0
  }

  function Pending(s: State): int { s.k.table.Pending() }

  /** By how much the start-up loop took more than was waiting unannounced. */
  function Overdrawn(s: State): int { s.books.drained - s.books.base - s.books.empty }

  /** Notifications that will never wake the server, less the overdraft that makes up for them. */
  function Debt(s: State): int { s.books.swallowed + s.books.lost - Overdrawn(s) }

  /** Entries whose hand-over has been decided: all popped ones but the one being fetched or given back. */
  function Decided(s: State): int {
    var i := s.k.table.index;
    if Fetching(s.phase) || CopyingOut(s.phase) || (s.phase.Unpopping? && i > 0) then i else i + 1
  }

  function FirstSkipped(s: State): nat { if 0 in s.failed then 1 else 0 }

  // ---------------------------------------------------------------- invariants

  ghost predicate TableInv(s: State) {
    && s.k.table.Valid()
    && (s.k.table.store == Present(s.inserted) || s.k.table.store == Lost(|s.inserted|))
    && (InKernel(s.phase) ==> s.k.table.index >= 0)
    && (Running(s.phase) || s.phase.Unpopping? || s.phase.Leaving? ==> s.k.ks == Registered)
    && (s.announcing ==> s.inFlight > 0 && s.k.ks != NoServer)
    && (s.lives == 0 ==> s.phase.Off? && s.k.ks == NoServer && Pending(s) == s.inFlight + s.unseen)
  }

  /** The entry stored as number `i` was handed over as it should be. */
  predicate OwnDelivered(es: seq<Entry>, delivered: seq<Uuid>, skipped: nat, i: int) {
    skipped <= i < |es| && i - skipped < |delivered| && delivered[i - skipped] == es[i].uuid
  }

  ghost predicate DeliveryInv(s: State) {
    && Decided(s) <= |s.inserted|
    && (s.phase.Unpopping? ==> s.k.table.index in s.failed)
    && FirstSkipped(s) <= Decided(s) == FirstSkipped(s) + |s.delivered|
    && (forall i :: i in s.garbled ==> 0 <= i < Decided(s))
    && (Fetching(s.phase) || (CopyingOut(s.phase) && s.hand.own) ==>
          0 <= s.k.table.index < |s.inserted| && s.hand.uuid == s.inserted[s.k.table.index].uuid)
    && (forall i :: FirstSkipped(s) <= i < Decided(s) && i !in s.garbled ==>
          OwnDelivered(s.inserted, s.delivered, FirstSkipped(s), i))
  }

  ghost predicate LawInv(s: State) {
    && (Running(s.phase) ==> Pending(s) == s.k.counter + s.inFlight + Debt(s) - Owing(s.phase))
    && (Running(s.phase) && s.lives == 1 ==> s.books.base == s.unseen)
  }

  ghost predicate AfterDrainInv(s: State) {
    && (s.phase.Woken? || Owing(s.phase) == 1 ==> s.k.counter >= 1)
    && (AfterDrain(s.phase) ==> Overdrawn(s) >= 0 && s.books.swallowed >= 0)
    && (Running(s.phase) && !AfterDrain(s.phase) ==> s.books.swallowed == 0)
  }

  ghost predicate Accounted(s: State) { LawInv(s) && AfterDrainInv(s) }

  ghost predicate Inv(s: State) {
    TableInv(s) && DeliveryInv(s) && Accounted(s)
  }

  /** The producers' actions. */
  predicate ByProducer(l: Label) { l.Put? || l.Peek? || l.Signal? }

  lemma ProducerKeepsTable(s: State, l: Label)
    requires TableInv(s) && ByProducer(l) && Step(s, l).Some?
    ensures TableInv(Step(s, l).value)
  {
  }

  lemma ServerKeepsTable(s: State, l: Label)
    requires TableInv(s) && !ByProducer(l) && Step(s, l).Some?
    ensures TableInv(Step(s, l).value)
  {
  }

  lemma TableInvKept(s: State, l: Label)
    requires TableInv(s) && Step(s, l).Some?
    ensures TableInv(Step(s, l).value)
  {
    hide Step, TableInv;
    if ByProducer(l) {
      ProducerKeepsTable(s, l);
    } else {
      ServerKeepsTable(s, l);
    }
  }

  // ---- delivery

  lemma PutKeepsDelivery(s: State, e: Entry, granted: bool)
    requires TableInv(s) && DeliveryInv(s)
    ensures DeliveryInv(Step(s, Put(e, granted)).value)
  {
    var es, es' := s.inserted, Step(s, Put(e, granted)).value.inserted;
    forall i | FirstSkipped(s) <= i < Decided(s) && i !in s.garbled
      ensures OwnDelivered(es', s.delivered, FirstSkipped(s), i)
    {
      assert OwnDelivered(es, s.delivered, FirstSkipped(s), i);
    }
  }

  lemma CopyKeepsDelivery(s: State, ok: bool)
    requires TableInv(s) && DeliveryInv(s) && Step(s, Copy(ok)).Some?
    ensures DeliveryInv(Step(s, Copy(ok)).value)
  {
    var s' := Step(s, Copy(ok)).value;
    var es := s.inserted;
    forall i | FirstSkipped(s') <= i < Decided(s') && i !in s'.garbled
      ensures OwnDelivered(es, s'.delivered, FirstSkipped(s'), i)
    {
      if i < Decided(s) {
        assert OwnDelivered(es, s.delivered, FirstSkipped(s), i);
      }
    }
  }

  lemma FetchKeepsDelivery(s: State, junk: Uuid)
    requires TableInv(s) && DeliveryInv(s) && Step(s, Fetch(junk)).Some?
    ensures DeliveryInv(Step(s, Fetch(junk)).value)
  {
  }

  /** What the delivery invariant speaks about. */
  predicate SameDelivery(s: State, s': State) {
    && s'.inserted == s.inserted && s'.delivered == s.delivered
    && s'.failed == s.failed && s'.garbled == s.garbled
    && Decided(s') == Decided(s)
    && (Fetching(s'.phase) ==> Fetching(s.phase) && s'.hand == s.hand && s'.k.table.index == s.k.table.index)
    && (CopyingOut(s'.phase) ==> CopyingOut(s.phase) && s'.hand == s.hand && s'.k.table.index == s.k.table.index)
    && (s'.phase.Unpopping? ==> s.phase.Unpopping? && s'.k.table.index == s.k.table.index)
  }

  lemma PopKeepsDelivery(s: State)
    requires TableInv(s) && DeliveryInv(s) && Step(s, Pop).Some?
    ensures DeliveryInv(Step(s, Pop).value)
  {
  }

  lemma OthersKeepDelivery(s: State, l: Label)
    requires TableInv(s) && Step(s, l).Some? && !l.Put? && !l.Copy? && !l.Fetch? && !l.Pop?
    ensures SameDelivery(s, Step(s, l).value)
  {
  }

  lemma SameDeliveryKeeps(s: State, s': State)
    requires DeliveryInv(s) && SameDelivery(s, s')
    ensures DeliveryInv(s')
  {
  }

  lemma DeliveryInvKept(s: State, l: Label)
    requires TableInv(s) && DeliveryInv(s) && Step(s, l).Some?
    ensures DeliveryInv(Step(s, l).value)
  {
    hide TableInv, DeliveryInv, Step;
    match l
    case Put(e, granted) => PutKeepsDelivery(s, e, granted);
    case Pop => PopKeepsDelivery(s);
    case Copy(ok) => CopyKeepsDelivery(s, ok);
    case Fetch(junk) => FetchKeepsDelivery(s, junk);
    case _ =>
      OthersKeepDelivery(s, l);
      SameDeliveryKeeps(s, Step(s, l).value);
  }

  // ---- accounts

  lemma PeekKeepsAccounts(s: State)
    requires TableInv(s) && Accounted(s) && Step(s, Peek).Some?
    ensures Accounted(Step(s, Peek).value)
  {
  }

  lemma ProducerKeepsAccounts(s: State, l: Label)
    requires TableInv(s) && Accounted(s) && (l.Put? || l.Signal?) && Step(s, l).Some?
    ensures Accounted(Step(s, l).value)
  {
  }

  lemma PopKeepsAccounts(s: State)
    requires TableInv(s) && Accounted(s) && Step(s, Pop).Some?
    ensures Accounted(Step(s, Pop).value)
  {
  }

  lemma ServerKeepsLaw(s: State, l: Label)
    requires TableInv(s) && Accounted(s) && !ByProducer(l) && !l.Pop? && Step(s, l).Some?
    ensures LawInv(Step(s, l).value)
  {
  }

  lemma ServerKeepsAfterDrain(s: State, l: Label)
    requires TableInv(s) && Accounted(s) && !ByProducer(l) && !l.Pop? && Step(s, l).Some?
    ensures AfterDrainInv(Step(s, l).value)
  {
  }

  lemma AccountsKept(s: State, l: Label)
    requires TableInv(s) && Accounted(s) && Step(s, l).Some?
    ensures Accounted(Step(s, l).value)
  {
    hide Step, TableInv, LawInv, AfterDrainInv;
    if l.Peek? {
      PeekKeepsAccounts(s);
    } else if l.Put? || l.Signal? {
      ProducerKeepsAccounts(s, l);
    } else if l.Pop? {
      PopKeepsAccounts(s);
    } else {
      ServerKeepsLaw(s, l);
      ServerKeepsAfterDrain(s, l);
    }
  }

  // ---- runs

  lemma InvKept(s: State, l: Label)
    requires Inv(s) && Step(s, l).Some?
    ensures Inv(Step(s, l).value)
  {
    hide Step, TableInv, DeliveryInv, Accounted;
    TableInvKept(s, l);
    DeliveryInvKept(s, l);
    AccountsKept(s, l);
  }

  lemma {:induction false} InvOverRun(s: State, ls: seq<Label>)
    requires Inv(s) && Run(s, ls).Some?
    ensures Inv(Run(s, ls).value)
    decreases |ls|
  {
    hide Step, Inv;
    if ls != [] {
      InvKept(s, ls[0]);
      InvOverRun(Step(s, ls[0]).value, ls[1..]);
    }
  }

  lemma InitialInv(s: State)
    requires IsInitial(s)
    ensures Inv(s)
  {
  }

  /** Every state of every run satisfies the invariant. */
  lemma ReachableInv(s: State)
    requires Reachable(s)
    ensures Inv(s)
  {
    hide Inv, Run;
    var s0, ls :| IsInitial(s0) && Run(s0, ls) == Some(s);
    InitialInv(s0);
    InvOverRun(s0, ls);
  }
}
