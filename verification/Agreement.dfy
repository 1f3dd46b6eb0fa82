/** The two sides together: what the kernel answers about a delivered uuid, and what the server does with it. */
module Agreement {
  import opened Common
  import K = KernelTable
  import opened HandOff
  import opened HandOffLaws
  import opened ProxyModule
  import opened UuidTable
  import opened EntryCycle
  import S = Server

  /**
   While the table is there, requests about a uuid never run into the uninitialised copy exactly if an entry carries
   it; so it is for every uuid that was delivered from where it belongs.
   */
  lemma DeliveredIsKnown(s: State, n: nat, which: Which)
    requires Reachable(s) && n < |s.delivered|
    ensures FirstSkipped(s) + n !in s.garbled ==> Known(s.inserted, s.delivered[n])
    ensures LayoutReply(s.inserted, s.delivered[n], which).Reply? <==> Known(s.inserted, s.delivered[n])
    ensures PacketLength(s.inserted, s.delivered[n]).Some? <==> Known(s.inserted, s.delivered[n])
    ensures s.k.table.store.Present? ==> s.k.table.store.entries == s.inserted
  {
    ReachableInv(s);
    var es, i := s.inserted, FirstSkipped(s) + n;
    assert i !in s.garbled ==> OwnDelivered(es, s.delivered, FirstSkipped(s), i);
    K.FindIsFirst(es, s.delivered[n]);
  }

  /** Some inserted module has the uuid. */
  ghost predicate Known(es: seq<K.Entry>, uuid: Uuid) {
    exists k :: 0 <= k < |es| && es[k].uuid == uuid
  }

  /**
   However many puts, growths, events and other servers come between the layout request and the packet, the number of
   bytes the kernel copies is the number of bytes the server mapped for the core region.
   */
  lemma MappedSizeIsCopiedSize(s: State, ls: seq<Label>, uuid: Uuid, es: seq<Entry>, env: MemEnv)
    requires Reachable(s) && Run(s, ls).Some?
    requires s.k.table.store.Present? && Run(s, ls).value.k.table.store.Present?
    requires LayoutReply(s.k.table.store.entries, uuid, Core) == Reply(env.core.layout)
    requires MemoryAccepted(es, uuid, env) && CoreDone(env)
    ensures var m := MemoryTable(es, uuid, env)[FirstIndex(es, uuid)].memory;
            && m.core.Some?
            && PacketLength(Run(s, ls).value.k.table.store.entries, uuid) == Some(m.core.value.memorySize)
  {
    ReachableInv(s);
    K.FindIsFirst(s.k.table.store.entries, uuid);
    LookupIsStable(s, ls, uuid);
    FirstIndexIsFirst(es, uuid);
  }

  /**
   What the server does with the code of a fetch, in its start-up loop and in its main loop: nothing waiting ends the
   one and is an error for the other; a failed copy ends the server in both; an entry is taken in.
   */
  lemma FetchSteersServer(
    t: K.Table, notCopied: nat, r: S.Reply, w: S.Wake, replies: seq<S.Reply>, n: nat, es: seq<Entry>, entryBytes: nat)
    requires t.Valid() && t.store.Present? && FetchSpec(t, notCopied).0 == Some(r.ret) && r.gotMemory
    requires w.reply == r && w.selected >= 0 && w.ready
    requires n < |replies| && replies[n] == r && forall k :: 0 <= k < n ==> S.Effective(replies[k]) > 0
    ensures t.Pending() == 0 ==> S.BeforeEnd(replies, n) && S.RoundEnd(es, w, entryBytes) == Some(S.NoNewEntry)
    ensures t.Pending() > 0 && notCopied > 0 ==>
              && S.BeforeEnd(replies, n) && S.RoundEnd(es, w, entryBytes) == Some(S.FetchFailed)
              && forall end, envs, wakes :: S.EndsAs(end, n, replies, envs, wakes, entryBytes) ==> end == S.DrainFailed
    ensures t.Pending() > 0 && notCopied == 0 ==>
              && !S.BeforeEnd(replies, n)
              && S.RoundEnd(es, w, entryBytes) !in {Some(S.NoNewEntry), Some(S.FetchFailed), Some(S.UnexpectedReply)}
  {
  }
}
