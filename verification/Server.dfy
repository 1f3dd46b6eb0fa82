/** The server's main program: start-up loops and the select loop, over the answers the outside world gives. */
module Server {
  import opened Common
  import opened Growth
  import opened UuidTable
  import opened EntryCycle

  const COUNTER_BYTES := 8

  /** Answers to one `get_new_entry`: the ioctl with the uuid it wrote, `new_memory`, and a possible `realloc`. */
  datatype Reply = Reply(ret: int, uuid: Uuid, gotMemory: bool, granted: bool)

  /** Answers to one round of the main loop. */
  datatype Wake = Wake(selected: int, ready: bool, reply: Reply, readBytes: int, env: Env)

  function NewEntry(uuid: Uuid): Entry {
    Entry(uuid, -1, -1, NEW_MEMORY, false, false)
  }

  function UuidsOf(es: seq<Entry>): seq<Uuid> {
    if es == [] then [] else UuidsOf(es[..|es| - 1]) + [es[|es| - 1].uuid]
  }

  lemma {:induction false} UuidsOfSame(es: seq<Entry>, fs: seq<Entry>)
    requires |es| == |fs| && forall k :: 0 <= k < |es| ==> es[k].uuid == fs[k].uuid
    ensures UuidsOf(es) == UuidsOf(fs)
  {
    if es != [] {
      UuidsOfSame(es[..|es| - 1], fs[..|fs| - 1]);
    }
  }

  /** What `get_new_entry` returns. */
  function Effective(r: Reply): int {
    if r.ret == 1 && !r.gotMemory then -1 else r.ret
  }

  predicate TakesIn(es: seq<Entry>, r: Reply, entryBytes: nat) {
    Effective(r) == 1 && Room(|es|, r.granted, entryBytes)
  }

  /** The table after `get_new_entry`. */
  function TakenIn(es: seq<Entry>, r: Reply, entryBytes: nat): seq<Entry> {
    if TakesIn(es, r, entryBytes) then es + [NewEntry(r.uuid)] else es
  }

  /** `get_new_entry`. `stored` records whether the ignored result of `table_put` was a success. */
  method GetNewEntry(t: Table, r: Reply) returns (ret: int, stored: bool)
    requires t.Valid()
    modifies t, t.data
    ensures t.Valid() && (t.data == old(t.data) || fresh(t.data))
    ensures ret == Effective(r) && (stored <==> TakesIn(old(t.Contents()), r, t.entryBytes))
    ensures old(t.num < t.size) ==> t.size == old(t.size)
    ensures t.Contents() == TakenIn(old(t.Contents()), r, t.entryBytes)
    ensures ret == if r.ret == 1 && !r.gotMemory then -1 else r.ret
    ensures stored <==> r.ret == 1 && r.gotMemory && Room(|old(t.Contents())|, r.granted, t.entryBytes)
    ensures t.Contents() == old(t.Contents())
                            + if stored then [Entry(r.uuid, -1, -1, Memory(None, None, None, 0), false, false)] else []
  {
    stored := false;
    ret := r.ret;
    if ret == 1 {
      if !r.gotMemory {
        return -1, false;
      }
      var put := t.Put(NewEntry(r.uuid), r.granted);
      stored := put == 0;
    }
  }

  /** Uuids that a list of successful replies brought, in order. */
  function Received(replies: seq<Reply>): seq<Uuid> {
    if replies == [] then []
    else Received(replies[..|replies| - 1])
         + if replies[|replies| - 1].ret == 1 then [replies[|replies| - 1].uuid] else []
  }

  predicate AllNew(es: seq<Entry>) {
    forall k :: 0 <= k < |es| ==> es[k] == NewEntry(es[k].uuid)
  }

  /** The number of replies before the first that ends the start-up loop. */
  predicate BeforeEnd(replies: seq<Reply>, n: nat) {
    n <= |replies| && (forall k :: 0 <= k < n ==> Effective(replies[k]) > 0)
    && (n < |replies| ==> Effective(replies[n]) <= 0)
  }

  /** The table after these replies. */
  function Drained(replies: seq<Reply>, entryBytes: nat): seq<Entry> {
    if replies == [] then []
    else TakenIn(Drained(replies[..|replies| - 1], entryBytes), replies[|replies| - 1], entryBytes)
  }

  /** How many of the replies brought an entry. */
  function Arrivals(replies: seq<Reply>): nat {
    if replies == [] then 0
    else Arrivals(replies[..|replies| - 1]) + if Effective(replies[|replies| - 1]) == 1 then 1 else 0
  }

  /** Each reply that brought an entry finds room in a table that holds all those before. */
  predicate AllFit(replies: seq<Reply>, entryBytes: nat) {
    forall k :: 0 <= k < |replies| && Effective(replies[k]) == 1 ==>
      Room(Arrivals(replies[..k]), replies[k].granted, entryBytes)
  }

  /** The table of a start-up loop: fresh entries, and exactly those received, in order, if all fit. */
  lemma {:induction false} DrainedIsReceived(replies: seq<Reply>, entryBytes: nat)
    ensures AllNew(Drained(replies, entryBytes)) && |Drained(replies, entryBytes)| <= Arrivals(replies)
    ensures AllFit(replies, entryBytes) <==> |Drained(replies, entryBytes)| == Arrivals(replies)
    ensures AllFit(replies, entryBytes) && (forall k :: 0 <= k < |replies| ==> Effective(replies[k]) >= 0) ==>
              UuidsOf(Drained(replies, entryBytes)) == Received(replies)
  {
    if replies != [] {
      var n := |replies| - 1;
      var es, r := Drained(replies[..n], entryBytes), replies[n];
      DrainedIsReceived(replies[..n], entryBytes);
      assert forall k :: 0 <= k < n ==> replies[..n][..k] == replies[..k];
      assert AllFit(replies, entryBytes) <==>
               && AllFit(replies[..n], entryBytes)
               && (Effective(r) == 1 ==> Room(Arrivals(replies[..n]), r.granted, entryBytes));
      assert (es + [NewEntry(r.uuid)])[..|es|] == es;
    }
  }

  lemma FreshIsOrderly(es: seq<Entry>)
    requires AllNew(es)
    ensures Orderly(es) && Consistent(es)
  {
    forall k | 0 <= k < |es|
      ensures !es[k].couldNotProcess && !es[k].processed && es[k].memory.numRegions == 0
    {
      assert es[k] == NewEntry(es[k].uuid);
    }
  }

  lemma NothingDrained(replies: seq<Reply>, entryBytes: nat)
    ensures Drained(replies[..0], entryBytes) == [] && Arrivals(replies[..0]) == 0
  {
  }

  lemma DrainedNext(replies: seq<Reply>, n: nat, entryBytes: nat)
    requires n < |replies|
    ensures var es := Drained(replies[..n], entryBytes);
            && |es| <= Arrivals(replies[..n])
            && Drained(replies[..n + 1], entryBytes) == TakenIn(es, replies[n], entryBytes)
            && |TakenIn(es, replies[n], entryBytes)| == |es| + (if TakesIn(es, replies[n], entryBytes) then 1 else 0)
            && Arrivals(replies[..n + 1]) == Arrivals(replies[..n]) + if Effective(replies[n]) == 1 then 1 else 0
  {
    DrainedIsReceived(replies[..n], entryBytes);
    assert replies[..n + 1][..n] == replies[..n];
  }

  /**
   The start-up loop asks until there is nothing more, or an error; a positive result means that the replies ran out
   first. `allStored` records that no put was refused.
   */
  method Drain(t: Table, replies: seq<Reply>) returns (ret: int, used: nat, allStored: bool)
    requires t.Valid() && t.Contents() == []
    modifies t, t.data
    ensures t.Valid() && (t.data == old(t.data) || fresh(t.data))
    ensures used <= |replies|
    ensures if ret > 0 then used == |replies| && BeforeEnd(replies, used)
            else used > 0 && BeforeEnd(replies, used - 1) && ret == Effective(replies[used - 1])
    ensures t.Contents() == Drained(replies[..used], t.entryBytes)
    ensures allStored <==> AllFit(replies[..used], t.entryBytes)
    ensures allStored && ret >= 0 ==> UuidsOf(t.Contents()) == Received(replies[..used])
    ensures AllNew(t.Contents()) && Orderly(t.Contents()) && Consistent(t.Contents())
  {
    hide AllNew, UuidsOf, Received, Room, Drained, Arrivals, AllFit, TakenIn;
    NothingDrained(replies, t.entryBytes);
    ret, used, allStored := 1, 0, true;
    while ret > 0 && used < |replies|
      invariant t.Valid() && (t.data == old(t.data) || fresh(t.data))
      invariant used <= |replies|
      invariant if ret > 0 then forall k :: 0 <= k < used ==> Effective(replies[k]) > 0
                else used > 0 && BeforeEnd(replies, used - 1) && ret == Effective(replies[used - 1])
      invariant t.Contents() == Drained(replies[..used], t.entryBytes)
      invariant allStored <==> |t.Contents()| == Arrivals(replies[..used])
      decreases |replies| - used
    {
      DrainedNext(replies, used, t.entryBytes);
      var stored;
      ret, stored := GetNewEntry(t, replies[used]);
      allStored := allStored && (ret == 1 ==> stored);
      used := used + 1;
    }
    DrainedIsReceived(replies[..used], t.entryBytes);
    FreshIsOrderly(t.Contents());
  }

  /** The first `n` entries are processed, each as its own call left it; no other is. */
  ghost predicate FirstAreDone(es: seq<Entry>, n: nat, envs: nat -> Env) {
    n <= |es| && forall k: nat :: k < |es| ==>
      (es[k].processed <==> k < n) && (k < n ==> AsCalled(es[k], envs(k)))
  }

  lemma NoneIsDone(es: seq<Entry>, envs: nat -> Env)
    requires AllNew(es)
    ensures FirstAreDone(es, 0, envs)
  {
    assert forall k :: 0 <= k < |es| ==> es[k] == NewEntry(es[k].uuid);
  }

  lemma OneMoreDone(es: seq<Entry>, es': seq<Entry>, n: nat, envs: nat -> Env, out: Outcome)
    requires Orderly(es) && FirstAreDone(es, n, envs) && Called(es, es', envs(n), out)
    ensures out == Returned(1) ==> FirstAreDone(es', n + 1, envs)
    ensures out == Returned(0) ==> FirstAreDone(es', |es'|, envs)
  {
    StopIsFirst(es);
    assert Stop(es) == n;
    hide AsCalled, Called;
    ResultCodes(es, es', envs(n), out);
    if out == Returned(1) {
      ProcessedIsBuilt(es, es', envs(n), out);
    }
  }

  /**
   The second start-up loop from its call number `k` on: the last result, the number of calls so far, and the table.
   */
  function StartUp(es: seq<Entry>, envs: nat -> Env, k: nat): (Result, nat, seq<Entry>)
    decreases CountUnsettled(es)
  {
    var r, es' := ResultOf(es, envs(k)), TableAfterCall(es, envs(k));
    if r == OneDone then
      CallSettlesOne(es, envs(k));
      StartUp(es', envs, k + 1)
    else (r, k + 1, es')
  }

  /**
   The second start-up loop calls `process_entry` until a call does not report one entry done, at most once more than
   there are unsettled entries; it hangs only in a guest that never ends. With 0, everything is processed, one entry
   a call, though an entry has its three regions only if its call got both layouts.
   */
  method ProcessAll(t: Table, envs: nat -> Env) returns (out: Outcome, calls: nat)
    requires t.Valid() && Orderly(t.Contents())
    modifies t.data
    ensures t.Valid()
    ensures var (r, n, es) := StartUp(old(t.Contents()), envs, 0);
            Reports(out, r) && calls == n && t.Contents() == es
    ensures out == NeverReturns ==> calls > 0 && EndOf(envs(calls - 1).guest) == Endless
    ensures (forall k :: EndOf(envs(k).guest) != Endless) ==> out.Returned?
    ensures out.Returned? ==> out.code <= 0
    ensures 1 <= calls <= CountUnsettled(old(t.Contents())) + 1
    ensures AllNew(old(t.Contents())) ==>
              && (forall i: nat :: i < calls - 1 ==> ResultAt(UuidsOf(old(t.Contents())), envs(i), i) == OneDone)
              && calls > 0
              && Reports(out, ResultAt(UuidsOf(old(t.Contents())), envs(calls - 1), calls - 1))
    ensures AllNew(old(t.Contents())) ==>
              (out == Returned(0) <==> StartUpWorks(UuidsOf(old(t.Contents())), envs))
    ensures out == Returned(0) ==>
              && AllProcessed(t.Contents()) && Orderly(t.Contents())
              && calls == CountUnsettled(old(t.Contents())) + 1
    ensures out == Returned(0) && AllNew(old(t.Contents())) ==>
              forall k: nat :: k < |t.Contents()| ==> AsCalled(t.Contents()[k], envs(k))
    ensures UuidsOf(t.Contents()) == UuidsOf(old(t.Contents()))
    ensures Consistent(t.Contents())
  {
    hide UuidsOf, Called, MemoryAccepted, AsCalled, ResultOf, TableAfterCall, EndOf, StartUpWorks,
      Orderly, AllProcessed, Consistent, AllNew, FateOf, CopiesGranted, Stop, CountUnsettled,
      StartUp, ResultAt, DoneUpTo;
    out, calls := Returned(1), 0;
    ghost var start := t.Contents();
    OrderlyIsConsistent(start);
    if AllNew(start) {
      NoneIsDone(start, envs);
      FreshAreToDo(start);
      StartUpExactly(start, envs, 0);
      StartUpSucceedsExactly(start, envs);
    }
    while out.Returned? && out.code > 0
      invariant t.Valid()
      invariant out.Returned? ==> out.code <= 1
      invariant if out == Returned(1) then StartUp(start, envs, 0) == StartUp(t.Contents(), envs, calls)
                else var (r, n, es) := StartUp(start, envs, 0); Reports(out, r) && calls == n && t.Contents() == es
      invariant out == NeverReturns ==> calls > 0 && EndOf(envs(calls - 1).guest) == Endless
      invariant out == Returned(1) ==>
                  && Orderly(t.Contents())
                  && calls + CountUnsettled(t.Contents()) == CountUnsettled(start)
      invariant out != Returned(1) ==> 1 <= calls <= CountUnsettled(start) + 1
      invariant out == Returned(0) ==>
                  && Orderly(t.Contents()) && AllProcessed(t.Contents())
                  && calls == CountUnsettled(start) + 1
      invariant AllNew(start) && (out == Returned(1) || out == Returned(0)) ==>
                  FirstAreDone(t.Contents(), if out == Returned(1) then calls else |t.Contents()|, envs)
      invariant UuidsOf(t.Contents()) == UuidsOf(start)
      invariant Consistent(t.Contents())
      decreases out.Returned? && out.code > 0, CountUnsettled(t.Contents())
    {
      ghost var es := t.Contents();
      var console;
      out, console := ProcessEntry(t, envs(calls));
      StartUpCall(es, t.Contents(), envs, calls, out);
      if AllNew(start) {
        OneMoreDone(es, t.Contents(), calls, envs, out);
      }
      calls := calls + 1;
    }
  }

  /** What one call does for the loop. */
  lemma StartUpCall(es: seq<Entry>, es': seq<Entry>, envs: nat -> Env, k: nat, out: Outcome)
    requires Orderly(es) && Called(es, es', envs(k), out)
    ensures out.Returned? ==> out.code <= 1
    ensures if out == Returned(1) then StartUp(es, envs, k) == StartUp(es', envs, k + 1)
            else
              var (r, n, es'') := StartUp(es, envs, k);
              n == k + 1 && es'' == es' && Reports(out, r)
    ensures out == NeverReturns ==> EndOf(envs(k).guest) == Endless
    ensures out == Returned(1) ==> Orderly(es') && CountUnsettled(es') == CountUnsettled(es) - 1
    ensures out == Returned(0) ==> Orderly(es') && AllProcessed(es') && CountUnsettled(es) == 0
    ensures UuidsOf(es') == UuidsOf(es) && Consistent(es')
  {
    hide Called, MemoryAccepted, ResultOf, TableAfterCall, EndOf, FateOf, CopiesGranted, Stop, Orderly, AllProcessed,
      UuidsOf;
    ResultCodes(es, es', envs(k), out);
    CalledExactly(es, es', envs(k), out);
    OrderlyIsConsistent(es);
    CallKeepsConsistent(es, es', envs(k), out);
    HangsInTheGuest(es, envs(k));
    UuidsOfSame(es, es');
  }

  lemma HangsInTheGuest(es: seq<Entry>, env: Env)
    ensures ResultOf(es, env) == Hangs ==> EndOf(env.guest) == Endless
  {
  }

  // ---- when the start-up loop succeeds, said of the answers alone

  /** The answers with which `process_entry` succeeds at position `n`, if the uuid there is a new one. */
  predicate Works(env: Env, n: nat) {
    (forall i: nat :: i <= n ==> env.gotCopy(i)) && FateOf(env, NotReported(env.mem)) == Done
  }

  /** The first `k` entries are processed, the others fresh. */
  predicate DoneUpTo(es: seq<Entry>, k: nat) {
    && k <= |es| && Orderly(es)
    && (forall i :: 0 <= i < k ==> es[i].processed)
    && (forall i :: k <= i < |es| ==> !es[i].processed)
  }

  /** No uuid from position `k` on has been there before. */
  predicate NoRepeats(es: seq<Entry>, k: nat) {
    forall i, j :: 0 <= i < j < |es| && k <= j ==> es[i].uuid != es[j].uuid
  }

  /** One call of the start-up loop: it succeeds only with a new uuid, and surely if no uuid is ever repeated. */
  lemma OneStartUpCall(es: seq<Entry>, k: nat, env: Env)
    requires DoneUpTo(es, k) && k < |es|
    ensures ResultOf(es, env) != NoneLeft
    ensures ResultOf(es, env) == OneDone ==>
              && Works(env, k) && (forall i :: 0 <= i < k ==> es[i].uuid != es[k].uuid)
    ensures Works(env, k) && NoRepeats(es, k) ==> ResultOf(es, env) == OneDone
    ensures ResultOf(es, env) == OneDone ==>
              && DoneUpTo(TableAfterCall(es, env), k + 1) && |TableAfterCall(es, env)| == |es|
              && forall i :: 0 <= i < |es| ==> TableAfterCall(es, env)[i].uuid == es[i].uuid
  {
    StopIsFirst(es);
    assert Stop(es) == k;
    StartUpMemory(es, k, env.mem);
    hide MemoryAccepted, NotReported, TableAfterCall, Orderly;
    if ResultOf(es, env) == OneDone {
      OneDoneIsCalled(es, env);
      ResultCodes(es, TableAfterCall(es, env), env, Returned(1));
    }
  }

  lemma StartUpMemory(es: seq<Entry>, k: nat, env: MemEnv)
    requires DoneUpTo(es, k) && k < |es|
    ensures MemoryAccepted(es, es[k].uuid, env) ==>
              NotReported(env) && forall i :: 0 <= i < k ==> es[i].uuid != es[k].uuid
    ensures NotReported(env) && NoRepeats(es, k) ==> MemoryAccepted(es, es[k].uuid, env)
  {
    FirstIndexIsFirst(es, es[k].uuid);
  }

  lemma {:induction false} StartUpFrom(es: seq<Entry>, envs: nat -> Env, k: nat)
    requires DoneUpTo(es, k)
    ensures StartUp(es, envs, k).0 == NoneLeft <==>
              && NoRepeats(es, k)
              && (forall i: nat :: k <= i < |es| ==> Works(envs(i), i))
              && (forall i: nat :: i < |es| ==> envs(|es|).gotCopy(i))
    decreases |es| - k
  {
    if k < |es| {
      hide Works, ResultOf, TableAfterCall, DoneUpTo, CountUnsettled;
      OneStartUpCall(es, k, envs(k));
      if ResultOf(es, envs(k)) == OneDone {
        StartUpFrom(TableAfterCall(es, envs(k)), envs, k + 1);
      }
    } else {
      LastCall(es, envs(k));
    }
  }

  lemma LastCall(es: seq<Entry>, env: Env)
    requires DoneUpTo(es, |es|)
    ensures ResultOf(es, env) == NoneLeft <==> forall i: nat :: i < |es| ==> env.gotCopy(i)
    ensures ResultOf(es, env) != OneDone
  {
    StopIsFirst(es);
  }

  predicate Distinct(uuids: seq<Uuid>) {
    forall i, j :: 0 <= i < j < |uuids| ==> uuids[i] != uuids[j]
  }

  /** The memory for the uuid at `k` is accepted: it was not there before, nor, if all goes to the end, is it again. */
  predicate NewAt(uuids: seq<Uuid>, k: nat, env: MemEnv)
    requires k < |uuids|
  {
    NotReported(env) && uuids[k] !in uuids[..k] && (CoreDone(env) ==> uuids[k] !in uuids[k + 1..])
  }

  /** What call number `k` of the start-up loop reports if all before succeeded: from uuids and answers alone. */
  function ResultAt(uuids: seq<Uuid>, env: Env, k: nat): Result {
    if exists i: nat :: i <= k && i < |uuids| && !env.gotCopy(i) then Failure
    else if k >= |uuids| then NoneLeft
    else
      match FateOf(env, NewAt(uuids, k, env.mem))
      case Done => OneDone
      case Stuck => Hangs
      case _ => Failure
  }

  lemma StartUpResult(es: seq<Entry>, k: nat, env: Env)
    requires DoneUpTo(es, k)
    ensures ResultOf(es, env) == ResultAt(UuidsOf(es), env, k)
  {
    hide DoneUpTo, MemoryAccepted, NewAt, FateOf, UuidsOf, Stop, CopiesGranted;
    UuidsOfAt(es);
    StopsAt(es, k);
    CopiesUpTo(es, k, env);
    if k < |es| {
      AcceptedAt(es, k, env.mem);
    }
  }

  lemma StopsAt(es: seq<Entry>, k: nat)
    requires DoneUpTo(es, k)
    ensures Stop(es) == k <= |es| && (k < |es| ==> Unsettled(es[k]))
  {
    assert forall i :: 0 <= i < k ==> es[i].processed && !Contradictory(es[i]);
    assert k < |es| ==> Unsettled(es[k]);
    StopIsFirst(es);
  }

  lemma CopiesUpTo(es: seq<Entry>, k: nat, env: Env)
    requires Stop(es) == k
    ensures CopiesGranted(es, env) <==> !exists i: nat :: i <= k && i < |es| && !env.gotCopy(i)
  {
  }

  lemma AcceptedAt(es: seq<Entry>, k: nat, env: MemEnv)
    requires DoneUpTo(es, k) && k < |es|
    ensures |UuidsOf(es)| == |es|
    ensures MemoryAccepted(es, es[k].uuid, env) <==> NewAt(UuidsOf(es), k, env)
  {
    UuidsOfAt(es);
    FirstIndexIsFirst(es, es[k].uuid);
    var uuids, m := UuidsOf(es), FirstIndex(es, es[k].uuid);
    assert m < k ==> uuids[m] in uuids[..k];
    if uuids[k] !in uuids[..k] {
      assert forall i :: 0 <= i < k ==> uuids[i] in uuids[..k];
      assert m == k;
      assert Unique(es, es[k].uuid) <==> uuids[k] !in uuids[k + 1..] by {
        assert forall j :: k < j < |es| ==> uuids[j] == uuids[k + 1..][j - k - 1];
      }
    }
  }

  /** The start-up loop ends with the first call that does not report one entry done, and with its result. */
  lemma {:induction false} StartUpExactly(es: seq<Entry>, envs: nat -> Env, k: nat)
    requires DoneUpTo(es, k)
    ensures var (r, n, _) := StartUp(es, envs, k);
            && k < n <= |es| + 1 && r != OneDone
            && (forall i: nat :: k <= i < n - 1 ==> ResultAt(UuidsOf(es), envs(i), i) == OneDone)
            && ResultAt(UuidsOf(es), envs(n - 1), n - 1) == r
    decreases |es| - k
  {
    hide ResultOf, ResultAt, TableAfterCall, DoneUpTo, CountUnsettled, UuidsOf;
    StartUpResult(es, k, envs(k));
    if ResultOf(es, envs(k)) == OneDone {
      DoneIsNotPast(es, k, envs(k));
      OneStartUpCall(es, k, envs(k));
      UuidsOfSame(es, TableAfterCall(es, envs(k)));
      StartUpExactly(TableAfterCall(es, envs(k)), envs, k + 1);
    } else {
      DoneUpToBound(es, k);
    }
  }

  lemma DoneUpToBound(es: seq<Entry>, k: nat)
    requires DoneUpTo(es, k)
    ensures k <= |es|
  {
  }

  lemma DoneIsNotPast(es: seq<Entry>, k: nat, env: Env)
    requires DoneUpTo(es, k) && ResultOf(es, env) == OneDone
    ensures k < |es|
  {
    StopIsFirst(es);
  }

  /** What the start-up loop needs: no uuid twice, each call's answers good, and the copies of the last scan. */
  predicate StartUpWorks(uuids: seq<Uuid>, envs: nat -> Env) {
    && Distinct(uuids)
    && (forall k: nat :: k < |uuids| ==> Works(envs(k), k))
    && (forall i: nat :: i < |uuids| ==> envs(|uuids|).gotCopy(i))
  }

  lemma StartUpIsDistinct(uuids: seq<Uuid>, envs: nat -> Env)
    requires StartUpWorks(uuids, envs)
    ensures Distinct(uuids)
  {
  }

  /** On a table of fresh entries the second start-up loop ends with 0 exactly then. */
  lemma StartUpSucceedsExactly(es: seq<Entry>, envs: nat -> Env)
    requires AllNew(es)
    ensures StartUp(es, envs, 0).0 == NoneLeft <==> StartUpWorks(UuidsOf(es), envs)
  {
    hide StartUp, Works, UuidsOf, AllNew, DoneUpTo, NoRepeats, Distinct;
    FreshAreToDo(es);
    StartUpFrom(es, envs, 0);
    UuidsOfAt(es);
    NoRepeatsIsDistinct(es);
  }

  lemma FreshAreToDo(es: seq<Entry>)
    requires AllNew(es)
    ensures DoneUpTo(es, 0)
  {
    FreshIsOrderly(es);
    assert forall k :: 0 <= k < |es| ==> es[k] == NewEntry(es[k].uuid);
  }

  lemma NoRepeatsIsDistinct(es: seq<Entry>)
    ensures NoRepeats(es, 0) <==> Distinct(UuidsOf(es))
  {
    UuidsOfAt(es);
    assert forall i, j :: 0 <= i < j < |es| ==> (es[i].uuid != es[j].uuid <==> UuidsOf(es)[i] != UuidsOf(es)[j]);
  }

  /** How the main loop ends; `Parked` means that it is waiting in select and nothing more comes. */
  datatype Exit =
    | Parked | SelectFailed | NoNewEntry | FetchFailed | UnexpectedReply | ReadFailed
    | NothingProcessed | EntryFailed | UnexpectedResult | GuestNeverReturns

  /** The uuids brought by the rounds of the main loop that were completed. */
  function Brought(wakes: seq<Wake>): seq<Uuid> {
    if wakes == [] then []
    else Brought(wakes[..|wakes| - 1])
         + if wakes[|wakes| - 1].ready then [wakes[|wakes| - 1].reply.uuid] else []
  }

  /** A round that stored an entry and processed one has processed exactly that entry. */
  lemma OneRound(before: seq<Entry>, es: seq<Entry>, es': seq<Entry>, uuid: Uuid)
    requires AllProcessed(before) && (es == before + [NewEntry(uuid)] || es == before)
    requires Stop(es) < |es| == |es'| && !es[Stop(es)].processed && es'[Stop(es)].processed
    requires Orderly(es') && forall k :: 0 <= k < |es| && k != Stop(es) ==> es'[k] == es[k]
    requires forall k :: 0 <= k < |es| ==> es'[k].uuid == es[k].uuid
    ensures es == before + [NewEntry(uuid)]
    ensures AllProcessed(es') && es'[..|before|] == before
    ensures UuidsOf(es') == UuidsOf(before) + [uuid]
  {
    hide UuidsOf;
    assert forall k :: 0 <= k < |before| ==> es[k] == before[k];
    assert Stop(es) == |before|;
    assert es'[..|before|] == before;
    UuidsOfOneMore(before, es', uuid);
  }

  lemma UuidsOfOneMore(before: seq<Entry>, es: seq<Entry>, uuid: Uuid)
    requires |es| == |before| + 1 && es[..|before|] == before && es[|before|].uuid == uuid
    ensures UuidsOf(es) == UuidsOf(before) + [uuid]
  {
  }

  lemma StopOfNew(before: seq<Entry>, es: seq<Entry>, uuid: Uuid)
    requires AllProcessed(before) && Orderly(before)
    requires es == before || es == before + [NewEntry(uuid)]
    ensures Stop(es) == |before| && Orderly(es) && Consistent(es)
    ensures es == before <==> AllProcessed(es)
    ensures es != before ==> es[|before|].uuid == uuid
  {
    StopIsFirst(es);
    assert forall k :: 0 <= k < |before| ==> es[k] == before[k];
    if es != before {
      assert Unsettled(es[|before|]);
    }
  }

  /** `es` is `before` with one more entry, for `uuid`, which is processed like all others. */
  ghost predicate ProcessedOneMore(before: seq<Entry>, es: seq<Entry>, uuid: Uuid, env: Env) {
    && AllProcessed(es) && Orderly(es)
    && |es| == |before| + 1 && es[..|before|] == before && es[|before|].uuid == uuid
    && AsCalled(es[|before|], env)
    && UuidsOf(es) == UuidsOf(before) + [uuid]
  }

  /** What `process_entry` makes of the entry that `before` has just been given. */
  predicate NewEntryMeets(before: seq<Entry>, uuid: Uuid, env: Env, fate: Fate) {
    var es := before + [NewEntry(uuid)];
    CopiesGranted(es, env) && FateOf(env, MemoryAccepted(es, uuid, env.mem)) == fate
  }

  /** What the main loop does after `process_entry`; `None` means that it goes back to select. */
  function AfterResult(r: Result): Option<Exit> {
    match r
    case NoneLeft => Some(NothingProcessed)
    case OneDone => None
    case Failure => Some(EntryFailed)
    case Hangs => Some(GuestNeverReturns)
  }

  /** The processing of an entry just received; the table is `before` with or without a fresh entry for `uuid`. */
  method ProcessNew(t: Table, env: Env, ghost before: seq<Entry>, ghost uuid: Uuid) returns (end: Option<Exit>)
    requires t.Valid() && AllProcessed(before) && Orderly(before)
    requires t.Contents() == before || t.Contents() == before + [NewEntry(uuid)]
    modifies t.data
    ensures t.Valid() && Consistent(t.Contents())
    ensures end.None? || end.value in {NothingProcessed, EntryFailed, GuestNeverReturns}
    ensures end == Some(NothingProcessed) <==> old(t.Contents()) == before && CopiesGranted(before, env)
    ensures old(t.Contents()) == before ==> t.Contents() == before
    ensures end == Some(GuestNeverReturns) <==> old(t.Contents()) != before && NewEntryMeets(before, uuid, env, Stuck)
    ensures end == None <==> old(t.Contents()) != before && NewEntryMeets(before, uuid, env, Done)
    ensures end == None ==> ProcessedOneMore(before, t.Contents(), uuid, env)
    ensures end == AfterResult(ResultOf(old(t.Contents()), env))
    ensures t.Contents() == TableAfterCall(old(t.Contents()), env)
  {
    hide AsCalled, UuidsOf, MemoryAccepted, ResultOf, TableAfterCall;
    ghost var es := t.Contents();
    StopOfNew(before, es, uuid);
    var out, console := ProcessEntry(t, env);
    ResultCodes(es, t.Contents(), env, out);
    CallKeepsConsistent(es, t.Contents(), env, out);
    CalledExactly(es, t.Contents(), env, out);
    match out {
      case NeverReturns => end := Some(GuestNeverReturns);
      case Returned(code) =>
        if code == 0 {
          end := Some(NothingProcessed);
        } else if code == 1 {
          OneRound(before, es, t.Contents(), uuid);
          ProcessedIsBuilt(es, t.Contents(), env, out);
          end := None;
        } else if code < 0 {
          end := Some(EntryFailed);
        } else {
          assert false;  // process_entry has no other results
        }
    }
  }

  /** The wake-up brought an uuid that the server had the memory to take in. */
  predicate Arrived(w: Wake) {
    w.selected >= 0 && w.ready && w.reply.ret == 1 && w.reply.gotMemory
  }

  // ---- when a round succeeds, said of the answers alone

  lemma {:induction false} UuidsOfAt(es: seq<Entry>)
    ensures |UuidsOf(es)| == |es| && forall k :: 0 <= k < |es| ==> UuidsOf(es)[k] == es[k].uuid
  {
    if es != [] {
      UuidsOfAt(es[..|es| - 1]);
    }
  }

  /** `process_entry` succeeds with a new entry exactly if the uuid is new, too: the memory of an old one is taken. */
  lemma NewEntryWorksExactly(before: seq<Entry>, uuid: Uuid, env: Env)
    requires AllProcessed(before) && Orderly(before)
    ensures NewEntryMeets(before, uuid, env, Done) <==> uuid !in UuidsOf(before) && Works(env, |before|)
  {
    var es := before + [NewEntry(uuid)];
    StopOfNew(before, es, uuid);
    NewMemoryAccepted(before, uuid, env.mem);
  }

  lemma NewMemoryAccepted(before: seq<Entry>, uuid: Uuid, env: MemEnv)
    requires AllProcessed(before) && Orderly(before)
    ensures MemoryAccepted(before + [NewEntry(uuid)], uuid, env) <==> uuid !in UuidsOf(before) && NotReported(env)
  {
    var es := before + [NewEntry(uuid)];
    UuidsOfAt(before);
    FirstIndexIsFirst(es, uuid);
    assert es[|before|].uuid == uuid;
    assert forall k :: 0 <= k < |before| ==> es[k] == before[k];
    if uuid in UuidsOf(before) {
      assert before[FirstIndex(es, uuid)].memory.numRegions >= 1;
    }
  }

  /** A wake-up after which the server goes back to select; `known` are the uuids it has had so far. */
  predicate WakeGoesWell(known: seq<Uuid>, w: Wake, entryBytes: nat) {
    w.selected >= 0 &&
    (w.ready ==>
       && Arrived(w) && Room(|known|, w.reply.granted, entryBytes) && w.readBytes == COUNTER_BYTES
       && w.reply.uuid !in known && Works(w.env, |known|))
  }

  /** How a round ends, from the uuids known before and the answers alone; `None` is back in select. */
  function ExitOf(known: seq<Uuid>, w: Wake, entryBytes: nat): Option<Exit> {
    if w.selected < 0 then Some(SelectFailed)
    else if !w.ready then None
    else if w.reply.ret < 0 || (w.reply.ret == 1 && !w.reply.gotMemory) then Some(FetchFailed)
    else if w.reply.ret == 0 then Some(NoNewEntry)
    else if w.reply.ret > 1 then Some(UnexpectedReply)
    else if w.readBytes != 8 then Some(ReadFailed)
    else if !Room(|known|, w.reply.granted, entryBytes) then
      if forall i: nat :: i < |known| ==> w.env.gotCopy(i) then Some(NothingProcessed) else Some(EntryFailed)
    else if !forall i: nat :: i <= |known| ==> w.env.gotCopy(i) then Some(EntryFailed)
    else
      match FateOf(w.env, w.reply.uuid !in known && NotReported(w.env.mem))
      case Done => None
      case Stuck => Some(GuestNeverReturns)
      case _ => Some(EntryFailed)
  }

  /** With everything processed, the entries matter to a round only through their uuids. */
  lemma RoundEndExactly(es: seq<Entry>, w: Wake, entryBytes: nat)
    requires AllProcessed(es) && Orderly(es)
    ensures RoundEnd(es, w, entryBytes) == ExitOf(UuidsOf(es), w, entryBytes)
  {
    UuidsOfAt(es);
    if w.selected >= 0 && w.ready && Effective(w.reply) == 1 && w.readBytes == COUNTER_BYTES {
      StopOfNew(es, TakenIn(es, w.reply, entryBytes), w.reply.uuid);
      NewMemoryAccepted(es, w.reply.uuid, w.env.mem);
      hide FateOf, MemoryAccepted, NotReported, Room, UuidsOf;
    }
  }

  /** A round ends back in select exactly if its wake-up goes well. */
  lemma RoundGoesOnExactly(es: seq<Entry>, w: Wake, entryBytes: nat)
    requires AllProcessed(es) && Orderly(es)
    ensures RoundEnd(es, w, entryBytes) == None <==> WakeGoesWell(UuidsOf(es), w, entryBytes)
    ensures RoundEnd(es, w, entryBytes) == None ==>
              && AllProcessed(RoundTable(es, w, entryBytes)) && Orderly(RoundTable(es, w, entryBytes))
              && UuidsOf(RoundTable(es, w, entryBytes)) == UuidsOf(es) + if w.ready then [w.reply.uuid] else []
  {
    UuidsOfAt(es);
    if w.selected >= 0 && w.ready && Effective(w.reply) == 1 && w.readBytes == COUNTER_BYTES {
      var es1 := TakenIn(es, w.reply, entryBytes);
      StopOfNew(es, es1, w.reply.uuid);
      NewEntryWorksExactly(es, w.reply.uuid, w.env);
      hide Works, UuidsOf, FateOf, MemoryAccepted, Room, TableAfterCall;
      if ResultOf(es1, w.env) == OneDone {
        var es2 := TableAfterCall(es1, w.env);
        OneDoneIsCalled(es1, w.env);
        ResultCodes(es1, es2, w.env, Returned(1));
        OneRound(es, es1, es2, w.reply.uuid);
      }
    }
  }

  /** How one round of the main loop ends. */
  function RoundEnd(es: seq<Entry>, w: Wake, entryBytes: nat): Option<Exit> {
    var ret := Effective(w.reply);
    if w.selected < 0 then Some(SelectFailed)
    else if !w.ready then None
    else if ret < 0 then Some(FetchFailed)
    else if ret == 0 then Some(NoNewEntry)
    else if ret > 1 then Some(UnexpectedReply)
    else if w.readBytes != COUNTER_BYTES then Some(ReadFailed)
    else AfterResult(ResultOf(TakenIn(es, w.reply, entryBytes), w.env))
  }

  /** The table after one round of the main loop. */
  function RoundTable(es: seq<Entry>, w: Wake, entryBytes: nat): seq<Entry> {
    if w.selected < 0 || !w.ready then es
    else if Effective(w.reply) != 1 || w.readBytes != COUNTER_BYTES then TakenIn(es, w.reply, entryBytes)
    else TableAfterCall(TakenIn(es, w.reply, entryBytes), w.env)
  }

  /**
   One round of the main loop: when it ends with which exit, from the table before and the answers. `None` means that
   the server goes back to select. It does so with everything processed, and then the table gained exactly the uuid
   received, if any. The exit for an entry that was received but not processed is taken exactly when the table was
   full and could not grow (and the scan got its copies); the exit for an unknown result is never taken; any other
   failure with an entry is `EntryFailed`.
   */
  method Round(t: Table, w: Wake) returns (end: Option<Exit>, stored: bool)
    requires t.Valid() && AllProcessed(t.Contents()) && Orderly(t.Contents())
    modifies t, t.data
    ensures t.Valid() && (t.data == old(t.data) || fresh(t.data)) && (old(t.num < t.size) ==> t.size == old(t.size))
    ensures Consistent(t.Contents())
    ensures end != Some(Parked) && end != Some(UnexpectedResult)
    ensures end == RoundEnd(old(t.Contents()), w, t.entryBytes)
    ensures t.Contents() == RoundTable(old(t.Contents()), w, t.entryBytes)
    ensures stored <==> Arrived(w) && Room(|old(t.Contents())|, w.reply.granted, t.entryBytes)
    ensures end == Some(SelectFailed) <==> w.selected < 0
    ensures end == Some(NoNewEntry) <==> w.selected >= 0 && w.ready && w.reply.ret == 0
    ensures end == Some(FetchFailed) <==>
              w.selected >= 0 && w.ready && (w.reply.ret < 0 || (w.reply.ret == 1 && !w.reply.gotMemory))
    ensures end == Some(UnexpectedReply) <==> w.selected >= 0 && w.ready && w.reply.ret > 1
    ensures end == Some(ReadFailed) <==> Arrived(w) && w.readBytes != COUNTER_BYTES
    ensures end == Some(NothingProcessed) <==>
              && Arrived(w) && w.readBytes == COUNTER_BYTES
              && !Room(|old(t.Contents())|, w.reply.granted, t.entryBytes) && CopiesGranted(old(t.Contents()), w.env)
    ensures end == Some(GuestNeverReturns) <==>
              stored && w.readBytes == COUNTER_BYTES && NewEntryMeets(old(t.Contents()), w.reply.uuid, w.env, Stuck)
    ensures end == None <==>
              w.selected >= 0 &&
              (w.ready ==>
                 stored && w.readBytes == COUNTER_BYTES && NewEntryMeets(old(t.Contents()), w.reply.uuid, w.env, Done))
    ensures end == None ==>
              if w.ready then ProcessedOneMore(old(t.Contents()), t.Contents(), w.reply.uuid, w.env)
              else t.Contents() == old(t.Contents())
  {
    hide NewEntryMeets, ProcessedOneMore, Room, ResultOf, TableAfterCall;
    stored := false;
    if w.selected < 0 {
      return Some(SelectFailed), stored;
    }
    if !w.ready {
      return None, stored;
    }
    ghost var before := t.Contents();
    var ret;
    ret, stored := GetNewEntry(t, w.reply);
    if ret == 0 {
      return Some(NoNewEntry), stored;
    } else if ret == 1 {
      if w.readBytes != COUNTER_BYTES {
        StopOfNew(before, t.Contents(), w.reply.uuid);
        return Some(ReadFailed), stored;
      }
      end := ProcessNew(t, w.env, before, w.reply.uuid);
    } else if ret < 0 {
      end := Some(FetchFailed);
    } else {
      end := Some(UnexpectedReply);
    }
  }

  /** For each uuid brought, the answers to its call of `process_entry`. */
  function CallsOf(wakes: seq<Wake>): seq<Env> {
    if wakes == [] then []
    else CallsOf(wakes[..|wakes| - 1])
         + if wakes[|wakes| - 1].ready then [wakes[|wakes| - 1].env] else []
  }

  lemma BroughtNext(wakes: seq<Wake>)
    ensures Brought(wakes[..0]) == [] && CallsOf(wakes[..0]) == []
    ensures forall n :: 0 <= n < |wakes| ==>
              && Brought(wakes[..n + 1]) == Brought(wakes[..n]) + (if wakes[n].ready then [wakes[n].reply.uuid] else [])
              && CallsOf(wakes[..n + 1])
              == CallsOf(wakes[..n]) + if wakes[n].ready then [wakes[n].env] else []
  {
    forall n | 0 <= n < |wakes|
      ensures Brought(wakes[..n + 1]) == Brought(wakes[..n]) + (if wakes[n].ready then [wakes[n].reply.uuid] else [])
      ensures CallsOf(wakes[..n + 1])
           == CallsOf(wakes[..n]) + if wakes[n].ready then [wakes[n].env] else []
    {
      assert wakes[..n + 1][..n] == wakes[..n];
    }
  }

  lemma BroughtThen(wakes: seq<Wake>, k: nat, start: seq<Uuid>)
    requires k < |wakes|
    ensures start + Brought(wakes[..k + 1])
         == start + Brought(wakes[..k]) + if wakes[k].ready then [wakes[k].reply.uuid] else []
  {
    assert wakes[..k + 1][..k] == wakes[..k];
  }

  lemma OrderlyIsConsistent(es: seq<Entry>)
    requires Orderly(es)
    ensures Consistent(es)
  {
  }

  /** `es` is `before` with more entries, each as the call in `calls` left it. */
  ghost predicate Extends(before: seq<Entry>, es: seq<Entry>, calls: seq<Env>) {
    && |es| == |before| + |calls| && es[..|before|] == before
    && forall j :: 0 <= j < |calls| ==> AsCalled(es[|before| + j], calls[j])
  }

  lemma ExtendsOneMore(start: seq<Entry>, before: seq<Entry>, es: seq<Entry>, calls: seq<Env>, uuid: Uuid, env: Env)
    requires Extends(start, before, calls) && ProcessedOneMore(before, es, uuid, env)
    ensures Extends(start, es, calls + [env])
  {
    hide AsCalled, UuidsOf;
    assert forall k :: 0 <= k < |before| ==> es[k] == es[..|before|][k];
    assert es[..|start|] == es[..|before|][..|start|];
  }

  /** The main loop from round `k` on: its exit, the number of completed rounds, and the table. */
  function Rounds(es: seq<Entry>, wakes: seq<Wake>, k: nat, entryBytes: nat): (Exit, nat, seq<Entry>)
    requires k <= |wakes|
    decreases |wakes| - k
  {
    if k == |wakes| then (Parked, k, es)
    else
      var es' := RoundTable(es, wakes[k], entryBytes);
      match RoundEnd(es, wakes[k], entryBytes)
      case None => Rounds(es', wakes, k + 1, entryBytes)
      case Some(end) => (end, k, es')
  }

  /** The main loop ends parked in select exactly if each wake-up goes well, given all uuids that came before. */
  lemma {:induction false} ParkedExactly(
    es: seq<Entry>, wakes: seq<Wake>, k: nat, entryBytes: nat, start: seq<Uuid>)
    requires AllProcessed(es) && Orderly(es) && k <= |wakes|
    requires UuidsOf(es) == start + Brought(wakes[..k])
    ensures Rounds(es, wakes, k, entryBytes).0 == Parked <==>
              forall i :: k <= i < |wakes| ==> WakeGoesWell(start + Brought(wakes[..i]), wakes[i], entryBytes)
    decreases |wakes| - k
  {
    hide WakeGoesWell, RoundEnd, RoundTable, AllProcessed, Orderly, UuidsOf, Brought;
    if k < |wakes| {
      RoundGoesOnExactly(es, wakes[k], entryBytes);
      BroughtThen(wakes, k, start);
      RoundEndNotParked(es, wakes[k], entryBytes);
      if RoundEnd(es, wakes[k], entryBytes) == None {
        ParkedExactly(RoundTable(es, wakes[k], entryBytes), wakes, k + 1, entryBytes, start);
      }
    }
  }

  /** The main loop ends with the exit of the first round that has one, after all completed rounds before it. */
  lemma {:induction false} RoundsExactly(
    es: seq<Entry>, wakes: seq<Wake>, k: nat, entryBytes: nat, start: seq<Uuid>)
    requires AllProcessed(es) && Orderly(es) && k <= |wakes|
    requires UuidsOf(es) == start + Brought(wakes[..k])
    ensures var (exit, n, _) := Rounds(es, wakes, k, entryBytes);
            && k <= n <= |wakes|
            && (forall i :: k <= i < n ==> ExitOf(start + Brought(wakes[..i]), wakes[i], entryBytes) == None)
            && if n == |wakes| then exit == Parked
               else ExitOf(start + Brought(wakes[..n]), wakes[n], entryBytes) == Some(exit)
    decreases |wakes| - k
  {
    hide ExitOf, RoundEnd, RoundTable, AllProcessed, Orderly, UuidsOf, WakeGoesWell, Brought;
    if k < |wakes| {
      RoundEndExactly(es, wakes[k], entryBytes);
      RoundGoesOnExactly(es, wakes[k], entryBytes);
      BroughtThen(wakes, k, start);
      if RoundEnd(es, wakes[k], entryBytes) == None {
        RoundsExactly(RoundTable(es, wakes[k], entryBytes), wakes, k + 1, entryBytes, start);
      }
    }
  }

  /** Each wake-up goes well, `start` being the uuids known before the first. */
  predicate AllGoWell(start: seq<Uuid>, wakes: seq<Wake>, entryBytes: nat) {
    forall i :: 0 <= i < |wakes| ==> WakeGoesWell(start + Brought(wakes[..i]), wakes[i], entryBytes)
  }

  lemma OneMoreDistinct(uuids: seq<Uuid>, uuid: Uuid)
    requires Distinct(uuids)
    ensures uuid !in uuids ==> Distinct(uuids + [uuid])
  {
  }

  /** A uuid that comes twice is fatal: among those of a server whose wake-ups all went well, no two are the same. */
  lemma {:induction false} NoUuidTwice(start: seq<Uuid>, wakes: seq<Wake>, entryBytes: nat)
    requires Distinct(start) && AllGoWell(start, wakes, entryBytes)
    ensures Distinct(start + Brought(wakes))
  {
    if wakes == [] {
      assert start + Brought(wakes) == start;
    } else {
      var n := |wakes| - 1;
      assert forall i :: 0 <= i < n ==> wakes[..n][..i] == wakes[..i];
      NoUuidTwice(start, wakes[..n], entryBytes);
      assert WakeGoesWell(start + Brought(wakes[..n]), wakes[n], entryBytes);
      BroughtThen(wakes, n, start);
      assert wakes[..n + 1] == wakes;
      OneMoreDistinct(start + Brought(wakes[..n]), wakes[n].reply.uuid);
    }
  }

  lemma RoundEndNotParked(es: seq<Entry>, w: Wake, entryBytes: nat)
    ensures RoundEnd(es, w, entryBytes) != Some(Parked)
  {
  }

  /**
   The select loop. It ends with the exit of the first round that has one, and is parked if there is none, which is
   so exactly if each wake-up goes well. The table then holds every uuid ever brought, in order, all processed, each
   with its three regions exactly if its call got both layouts.
   */
  method SelectLoop(t: Table, wakes: seq<Wake>) returns (exit: Exit, rounds: nat)
    requires t.Valid() && AllProcessed(t.Contents()) && Orderly(t.Contents())
    modifies t, t.data
    ensures t.Valid() && Consistent(t.Contents())
    ensures (exit, rounds, t.Contents()) == Rounds(old(t.Contents()), wakes, 0, t.entryBytes)
    ensures exit == Parked <==> AllGoWell(UuidsOf(old(t.Contents())), wakes, t.entryBytes)
    ensures var known := UuidsOf(old(t.Contents()));
            && rounds <= |wakes|
            && (forall i :: 0 <= i < rounds ==> ExitOf(known + Brought(wakes[..i]), wakes[i], t.entryBytes) == None)
            && (rounds < |wakes| ==>
                  ExitOf(known + Brought(wakes[..rounds]), wakes[rounds], t.entryBytes) == Some(exit))
    ensures exit != UnexpectedResult
    ensures rounds <= |wakes| && (exit == Parked <==> rounds == |wakes|)
    ensures exit == NoNewEntry ==> rounds < |wakes| && wakes[rounds].reply.ret == 0
    ensures exit == Parked ==>
              && AllProcessed(t.Contents())
              && Extends(old(t.Contents()), t.Contents(), CallsOf(wakes))
              && UuidsOf(t.Contents()) == UuidsOf(old(t.Contents())) + Brought(wakes)
  {
    hide UuidsOf, Brought, CallsOf, AllProcessed, Orderly, Consistent, Extends, AsCalled,
      NewEntryMeets, RoundEnd, RoundTable, WakeGoesWell, ExitOf;
    BroughtNext(wakes);
    ParkedExactly(t.Contents(), wakes, 0, t.entryBytes, UuidsOf(t.Contents()));
    RoundsExactly(t.Contents(), wakes, 0, t.entryBytes, UuidsOf(t.Contents()));
    OrderlyIsConsistent(t.Contents());
    rounds := 0;
    ghost var start := t.Contents();
    ExtendsNothing(start);
    while rounds < |wakes|
      invariant rounds <= |wakes|
      invariant t.Valid() && (t.data == old(t.data) || fresh(t.data))
      invariant AllProcessed(t.Contents()) && Orderly(t.Contents()) && Consistent(t.Contents())
      invariant Rounds(start, wakes, 0, t.entryBytes) == Rounds(t.Contents(), wakes, rounds, t.entryBytes)
      invariant Extends(start, t.Contents(), CallsOf(wakes[..rounds]))
      invariant UuidsOf(t.Contents()) == UuidsOf(start) + Brought(wakes[..rounds])
      decreases |wakes| - rounds
    {
      ghost var before := t.Contents();
      var w := wakes[rounds];
      var end, _ := Round(t, w);
      if end.Some? {
        return end.value, rounds;
      }
      if w.ready {
        ExtendsOneMore(start, before, t.Contents(), CallsOf(wakes[..rounds]), w.reply.uuid, w.env);
      } else {
        assert CallsOf(wakes[..rounds]) + [] == CallsOf(wakes[..rounds]);
      }
      rounds := rounds + 1;
    }
    assert wakes[..rounds] == wakes;
    exit := Parked;
  }

  lemma ExtendsNothing(start: seq<Entry>)
    ensures Extends(start, start, [])
  {
  }

  datatype ServerEnd = DrainFailed | StillDraining | StartUpFailed | StartUpHangs | Served(exit: Exit)

  /** Which entries have all their regions: those of the start-up loop first, then those of the main loop. */
  ghost predicate MadeByCalls(table: seq<Entry>, envs: nat -> Env, calls: seq<Env>) {
    var started := |table| - |calls|;
    && started >= 0
    && (forall k: nat :: k < started ==> AsCalled(table[k], envs(k)))
    && (forall j :: 0 <= j < |calls| ==> AsCalled(table[started + j], calls[j]))
  }

  lemma ExtendedMadeByCalls(start: seq<Entry>, table: seq<Entry>, envs: nat -> Env, calls: seq<Env>)
    requires Extends(start, table, calls)
    requires forall k: nat :: k < |start| ==> AsCalled(start[k], envs(k))
    ensures MadeByCalls(table, envs, calls)
  {
    hide AsCalled;
    assert forall k :: 0 <= k < |start| ==> table[k] == table[..|start|][k];
  }

  /** The table that the replies to the first start-up loop lead to, the one that ends the loop being number `n`. */
  function StartTable(replies: seq<Reply>, n: nat, entryBytes: nat): seq<Entry>
    requires n < |replies|
  {
    Drained(replies[..n + 1], entryBytes)
  }

  /** How a server ends whose first start-up loop is ended by reply number `n`. */
  predicate EndsAs(
    end: ServerEnd, n: nat, replies: seq<Reply>, envs: nat -> Env, wakes: seq<Wake>, entryBytes: nat)
    requires n < |replies|
  {
    if Effective(replies[n]) < 0 then end == DrainFailed
    else
      var (r, _, es) := StartUp(StartTable(replies, n, entryBytes), envs, 0);
      match r
      case NoneLeft => end == Served(Rounds(es, wakes, 0, entryBytes).0)
      case Hangs => end == StartUpHangs
      case _ => end == StartUpFailed
  }

  /**
   From registration to the end of the process: how it ends, given all answers. It ends parked in select exactly if
   the start-up loop got its end from the kernel and then everything went well, in which no uuid may come twice. A
   server parked in select that could store what its start-up loop received, which is so exactly if each entry found
   room, has processed exactly the uuids it was ever given, each once and in the order of arrival. Processed does not
   mean that the module was there: an entry has its three regions exactly if its call got both layouts.
   */
  method Serve(entryBytes: nat, replies: seq<Reply>, envs: nat -> Env, wakes: seq<Wake>)
    returns (end: ServerEnd, table: seq<Entry>, used: nat, allStored: bool, calls: nat, rounds: nat)
    requires 1 <= entryBytes && INITIAL_SIZE * entryBytes <= INT_MAX
    ensures Consistent(table) && used <= |replies|
    ensures end == StillDraining <==> BeforeEnd(replies, |replies|)
    ensures if end == StillDraining then used == |replies|
            else used > 0 && BeforeEnd(replies, used - 1) && EndsAs(end, used - 1, replies, envs, wakes, entryBytes)
    ensures allStored <==> AllFit(replies[..used], entryBytes)
    ensures end == Served(Parked) <==>
              && !BeforeEnd(replies, |replies|) && Effective(replies[used - 1]) == 0
              && StartUpWorks(UuidsOf(StartTable(replies, used - 1, entryBytes)), envs)
              && AllGoWell(UuidsOf(StartTable(replies, used - 1, entryBytes)), wakes, entryBytes)
    ensures end == Served(Parked) ==>
              && AllProcessed(table) && Distinct(UuidsOf(table)) && MadeByCalls(table, envs, CallsOf(wakes))
              && UuidsOf(table) == UuidsOf(StartTable(replies, used - 1, entryBytes)) + Brought(wakes)
              && (allStored ==> UuidsOf(table) == Received(replies[..used]) + Brought(wakes))
    ensures end == DrainFailed <==> !BeforeEnd(replies, |replies|) && Effective(replies[used - 1]) < 0
    ensures !BeforeEnd(replies, |replies|) && Effective(replies[used - 1]) == 0 ==>
              var uuids := UuidsOf(StartTable(replies, used - 1, entryBytes));
              && calls > 0
              && (forall i: nat :: i < calls - 1 ==> ResultAt(uuids, envs(i), i) == OneDone)
              && (end == StartUpHangs <==> ResultAt(uuids, envs(calls - 1), calls - 1) == Hangs)
              && (end == StartUpFailed <==> ResultAt(uuids, envs(calls - 1), calls - 1) == Failure)
              && (end.Served? <==> ResultAt(uuids, envs(calls - 1), calls - 1) == NoneLeft)
    ensures end.Served? ==>
              var uuids := UuidsOf(StartTable(replies, used - 1, entryBytes));
              && rounds <= |wakes|
              && (forall i :: 0 <= i < rounds ==> ExitOf(uuids + Brought(wakes[..i]), wakes[i], entryBytes) == None)
              && if rounds == |wakes| then end.exit == Parked
                 else ExitOf(uuids + Brought(wakes[..rounds]), wakes[rounds], entryBytes) == Some(end.exit)
    ensures end != Served(UnexpectedResult)
  {
    hide ResultAt, ExitOf, UuidsOf, Received, Brought, CallsOf, AllProcessed, Orderly, Consistent, Extends, AsCalled,
      MadeByCalls, AllNew, AllFit, StartUpWorks, AllGoWell, StartUp, Rounds, Drained, Effective, Distinct;
    var t := new Table(entryBytes);
    var ret;
    calls, rounds := 0, 0;
    ret, used, allStored := Drain(t, replies);
    if ret > 0 {
      return StillDraining, t.data[..t.num], used, allStored, calls, rounds;
    } else if ret < 0 {
      return DrainFailed, t.data[..t.num], used, allStored, calls, rounds;
    }
    var out;
    out, calls := ProcessAll(t, envs);
    match out {
      case NeverReturns => end := StartUpHangs;
      case Returned(code) =>
        if code < 0 {
          end := StartUpFailed;
        } else {
          ghost var start := t.Contents();
          var exit;
          exit, rounds := SelectLoop(t, wakes);
          if exit == Parked {
            StartUpIsDistinct(UuidsOf(start), envs);
            NoUuidTwice(UuidsOf(start), wakes, entryBytes);
            ExtendedMadeByCalls(start, t.Contents(), envs, CallsOf(wakes));
          }
          end := Served(exit);
        }
    }
    table := t.data[..t.num];
  }

  // ---------------------------------------------------------------- a table that cannot take more

  /** Answers under which everything works. */
  ghost predicate Favourable(env: Env) {
    && (forall k: nat :: env.gotCopy(k))
    && GuestStarts(env, true) && EndOf(env.guest) == Halted
    && CoreDone(env.mem)
  }

  ghost predicate Numbered(es: seq<Entry>) {
    forall k :: 0 <= k < |es| ==> es[k].uuid == k
  }

  lemma NextNumberIsProcessed(es: seq<Entry>, env: Env)
    requires Numbered(es) && |es| < INITIAL_SIZE && Favourable(env)
    ensures NewEntryMeets(es, |es|, env, Done)
  {
    var es' := es + [NewEntry(|es|)];
    FirstIndexIsFirst(es', |es|);
    assert es'[|es|].uuid == |es|;
    assert NotReported(env.mem);
  }

  /** A server that has processed 256 entries without a fault ends at the next one, if its table cannot grow. */
  method RefusedEntryEndsServer(entryBytes: nat, env: Env, uuid: Uuid) returns (end: Option<Exit>, processed: nat)
    requires 1 <= entryBytes && INITIAL_SIZE * entryBytes <= INT_MAX
    requires Favourable(env)
    ensures end == Some(NothingProcessed) && processed == 256
  {
    hide NewEntryMeets, UuidsOf, AsCalled, Orderly, AllProcessed, Favourable;
    var t := new Table(entryBytes);
    EmptyTableIsOrderly();
    processed := 0;
    while processed < INITIAL_SIZE
      invariant processed <= INITIAL_SIZE
      invariant t.Valid() && fresh(t) && fresh(t.data) && t.num == processed && t.size == INITIAL_SIZE
      invariant AllProcessed(t.Contents()) && Orderly(t.Contents()) && Numbered(t.Contents())
    {
      ghost var before := t.Contents();
      NextNumberIsProcessed(before, env);
      var stored;
      end, stored := Round(t, Wake(1, true, Reply(1, processed, true, false), COUNTER_BYTES, env));
      assert forall k :: 0 <= k < |before| ==> t.Contents()[k] == t.Contents()[..|before|][k];
      processed := processed + 1;
    }
    assert CopiesGranted(t.Contents(), env) by { AllCopies(t.Contents(), env); }
    var stored;
    end, stored := Round(t, Wake(1, true, Reply(1, uuid, true, false), COUNTER_BYTES, env));
  }

  lemma AllCopies(es: seq<Entry>, env: Env)
    requires Favourable(env)
    ensures CopiesGranted(es, env)
  {
  }

  lemma EmptyTableIsOrderly()
    ensures AllProcessed([]) && Orderly([])
  {
  }

  // ---------------------------------------------------------------- a server for which all goes well

  lemma FavourableWorks(env: Env, n: nat)
    requires Favourable(env)
    ensures Works(env, n)
  {
    assert NotReported(env.mem);
  }

  /** One module inserted before the server started and one after: both are processed, and the server waits for more. */
  method ServedAndParked(entryBytes: nat, a: Uuid, b: Uuid, env: Env) returns (end: ServerEnd, table: seq<Entry>)
    requires 1 <= entryBytes && INITIAL_SIZE * entryBytes <= INT_MAX
    requires a != b && Favourable(env)
    ensures end == Served(Parked) && AllProcessed(table) && UuidsOf(table) == [a, b]
  {
    var replies := [Reply(1, a, true, false), Reply(0, a, true, false)];
    var wakes := [Wake(1, true, Reply(1, b, true, false), COUNTER_BYTES, env)];
    var envs := (k: nat) => env;
    var used, allStored, calls, rounds;
    TwoReplies(a, entryBytes);
    OneWake(a, b, env, entryBytes);
    assert StartUpWorks([a], envs) by {
      FavourableWorks(env, 0);
    }
    hide Works, WakeGoesWell, StartUpWorks, AllGoWell, Favourable, Drained, EndsAs, UuidsOf, Brought;
    end, table, used, allStored, calls, rounds := Serve(entryBytes, replies, envs, wakes);
    assert BeforeEnd(replies, 1);
  }

  lemma TwoReplies(a: Uuid, entryBytes: nat)
    ensures var replies := [Reply(1, a, true, false), Reply(0, a, true, false)];
            UuidsOf(StartTable(replies, 1, entryBytes)) == [a]
  {
    var replies := [Reply(1, a, true, false), Reply(0, a, true, false)];
    assert replies[..2] == replies && replies[..1] == [Reply(1, a, true, false)] && replies[..1][..0] == [];
    assert Capacity(0) == INITIAL_SIZE;
    assert Drained(replies[..1], entryBytes) == [NewEntry(a)];
    assert UuidsOf([NewEntry(a)]) == [a] by {
      assert [NewEntry(a)][..0] == [];
    }
  }

  lemma OneWake(a: Uuid, b: Uuid, env: Env, entryBytes: nat)
    requires a != b && Favourable(env)
    ensures var wakes := [Wake(1, true, Reply(1, b, true, false), COUNTER_BYTES, env)];
            AllGoWell([a], wakes, entryBytes) && [a] + Brought(wakes) == [a, b]
  {
    var wakes := [Wake(1, true, Reply(1, b, true, false), COUNTER_BYTES, env)];
    assert wakes[..0] == [];
    assert [a] + Brought([]) == [a];
    assert Capacity(1) == INITIAL_SIZE;
    FavourableWorks(env, 1);
  }
}
