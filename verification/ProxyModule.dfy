/** The proxy module's entry points, as calls that are not disturbed, on the in-place table and registration pointer. */
module ProxyModule {
  import opened Common
  import opened KernelTable
  import opened HandOff

  const UUID_BYTES := 16
  /** `sizeof(packet)` on x86-64: the uuid, then 280 bytes of `vm_memory`, padded to the alignment of the uuid. */
  const PACKET_BYTES := 304

  /**
   `kvm_host_server_get_pending_module`: return code, uuid handed over, table afterwards. There is no return code
   where the code reads through a pointer computed from a table that is NULL.
   */
  function FetchSpec(t: Table, notCopied: nat): (Option<int>, Option<Uuid>, Table)
    requires t.Valid()
  {
    match PopPointer(t)
    case None => (Some(0), None, PopSpec(t))
    case Some(slot) =>
      if t.store.Lost? then (None, None, PopSpec(t))
      else if notCopied == 0 then (Some(1), Some(t.store.entries[slot].uuid), PopSpec(t))
      else (Some(0 - notCopied), None, UnpopSpec(PopSpec(t)).1)
  }

  /** A failed copy to user space is undone exactly when the popped entry was not entry 0. */
  lemma FailedFetchIsUndone(t: Table, notCopied: nat)
    requires t.Valid() && t.store.Present? && t.Pending() > 0 && notCopied > 0
    ensures FetchSpec(t, notCopied).2 == t <==> t.index >= 0
    ensures t.index < 0 ==> FetchSpec(t, notCopied).2 == t.(index := 0)
  {
  }

  /** The actions of a fetch that nothing disturbs. */
  function FetchLabels(t: Table, notCopied: nat, junk: Uuid): seq<Label> {
    if t.Pending() <= 0 then [Pop]
    else if notCopied == 0 then [Pop, Fetch(junk), Copy(true)]
    else [Pop, Fetch(junk), Copy(false), Unpop]
  }

  lemma RunOne(s: State, l: Label, rest: seq<Label>)
    requires Step(s, l).Some?
    ensures Run(s, [l] + rest) == Run(Step(s, l).value, rest)
  {
    assert ([l] + rest)[1..] == rest;
  }

  lemma PopFetchCopy(s: State, junk: Uuid, ok: bool, rest: seq<Label>)
    requires s.phase.Draining? || s.phase.Woken?
    requires s.k.table.Valid() && s.k.table.store.Present? && s.k.table.Pending() > 0
    ensures Run(s, [Pop, Fetch(junk), Copy(ok)] + rest)
         == Run(Copying(Reaching(Popping(s), junk), ok), rest)
  {
    var s1 := Popping(s);
    var s2 := Reaching(s1, junk);
    RunOne(s, Pop, [Fetch(junk), Copy(ok)] + rest);
    RunOne(s1, Fetch(junk), [Copy(ok)] + rest);
    RunOne(s2, Copy(ok), rest);
    hide Run, Step;
    assert [Pop, Fetch(junk), Copy(ok)] + rest == [Pop] + ([Fetch(junk), Copy(ok)] + rest);
    assert [Fetch(junk), Copy(ok)] + rest == [Fetch(junk)] + ([Copy(ok)] + rest);
  }

  /** Where these actions lead. */
  lemma UndisturbedFetch(s: State, notCopied: nat, junk: Uuid)
    requires s.phase.Draining? || s.phase.Woken?
    requires s.k.table.Valid() && CanFetch(s.k.table)
    ensures Run(s, FetchLabels(s.k.table, notCopied, junk)) ==
              if s.k.table.Pending() <= 0 then Some(Popping(s))
              else
                var s3 := Copying(Reaching(Popping(s), junk), notCopied == 0);
                if notCopied == 0 then Some(s3) else Step(s3, Unpop)
  {
    if s.k.table.Pending() <= 0 {
      RunOne(s, Pop, []);
      assert [Pop] + [] == [Pop];
    } else if notCopied == 0 {
      PopFetchCopy(s, junk, true, []);
      assert [Pop, Fetch(junk), Copy(true)] + [] == [Pop, Fetch(junk), Copy(true)];
    } else {
      PopFetchCopy(s, junk, false, [Unpop]);
      assert [Pop, Fetch(junk), Copy(false)] + [Unpop] == [Pop, Fetch(junk), Copy(false), Unpop];
      var s3 := Copying(Reaching(Popping(s), junk), false);
      RunOne(s3, Unpop, []);
      assert [Unpop] + [] == [Unpop];
    }
  }

  /**
   A fetch is these actions of the state machine when nothing comes between them, at start-up and in the main loop.
   */
  lemma FetchIsPopCopyUnpop(s: State, notCopied: nat, junk: Uuid)
    requires s.phase.Draining? || s.phase.Woken?
    requires s.k.table.Valid() && CanFetch(s.k.table)
    ensures var (ret, uuid, t) := FetchSpec(s.k.table, notCopied);
            var run := Run(s, FetchLabels(s.k.table, notCopied, junk));
            && ret.Some? && run.Some?
            && run.value.k == s.k.(table := t)
            && run.value.delivered == s.delivered + (if uuid.Some? then [uuid.value] else [])
            && run.value.garbled == s.garbled
            && (ret.value == 1 <==> run.value.phase == if s.phase.Draining? then Draining else Reading)
            && (ret.value == 0 <==> run.value.phase == if s.phase.Draining? then Processing else Leaving(true))
            && (ret.value < 0 <==> run.value.phase == Leaving(false))
            && (ret.value == 0 <==> Pending(s) == 0) && (ret.value == 1 <==> Pending(s) > 0 && notCopied == 0)
            && (ret.value < 0 ==> ret.value == 0 - notCopied)
  {
    UndisturbedFetch(s, notCopied, junk);
    hide Run, FetchLabels;
  }

  /** The table and registration after `lxc_uio_proxy_put_module_1`. */
  function PutModuleSpec(k: Kernel, e: Entry, granted: bool, found: bool): (int, Kernel)
    requires k.table.Valid()
  {
    var (ret, t) := PutSpec(k.table, e, granted);
    (ret, if ret == 0 then SendEventSpec(k.(table := t), found).1 else k.(table := t))
  }

  /**
   `send_event` is its two halves when nothing comes between them; the second is reached only if an entry is in
   sight.
   */
  lemma SendEventIsPeekThenSignal(s: State, found: bool)
    requires s.k.table.Valid() && s.inFlight > 0 && !s.announcing
    ensures var run := Run(s, if SightOf(s.k).Seen? then [Peek, Signal(found)] else [Peek]);
            && run.Some?
            && run.value.k == SendEventSpec(s.k, found).1
            && run.value.inFlight == s.inFlight - 1 && !run.value.announcing && run.value.inserted == s.inserted
  {
    var s1 := Step(s, Peek).value;
    if SightOf(s.k).Seen? {
      assert [Peek, Signal(found)][1..] == [Signal(found)];
      assert Run(s1, [Signal(found)]) == Run(Step(s1, Signal(found)).value, []);
    } else {
      assert Run(s, [Peek]) == Run(s1, []);
    }
  }

  /** The actions of an insertion that nothing disturbs. */
  function InsertLabels(k: Kernel, e: Entry, granted: bool, found: bool): seq<Label> {
    if PutSpec(k.table, e, granted).0 != 0 then [Put(e, granted)]
    else if k.ks == NoServer then [Put(e, granted), Peek]
    else [Put(e, granted), Peek, Signal(found)]
  }

  /**
   An insertion is these actions of the state machine when nothing comes between them. It announces what it stored to a
   live server, and nothing else.
   */
  lemma PutModuleIsPutThenEvent(s: State, e: Entry, granted: bool, found: bool)
    requires s.k.table.Valid() && !s.announcing
    ensures var (ret, k) := PutModuleSpec(s.k, e, granted, found);
            var run := Run(s, InsertLabels(s.k, e, granted, found));
            && run.Some? && run.value.k == k
            && run.value.inFlight == s.inFlight && !run.value.announcing
            && run.value.inserted == s.inserted + (if ret == 0 then [e] else [])
            && (k.counter == s.k.counter + 1 <==> ret == 0 && s.k.ks == Registered && found)
  {
    var s1 := Step(s, Put(e, granted)).value;
    if PutSpec(s.k.table, e, granted).0 == 0 {
      SendEventIsPeekThenSignal(s1, found);
      assert [Put(e, granted), Peek][1..] == [Peek];
      assert [Put(e, granted), Peek, Signal(found)][1..] == [Peek, Signal(found)];
    } else {
      assert Run(s, [Put(e, granted)]) == Run(s1, []);
    }
  }

  datatype Which = Init | Core

  /** `Undefined`: the call works on memory that was never initialised, or on a NULL pointer. */
  datatype Reply = Failed(ret: int) | Reply(layout: Layout) | Undefined

  /** What a layout ioctl answers when both user-space copies succeed. */
  function LayoutReply(es: seq<Entry>, uuid: Uuid, which: Which): Reply {
    match Find(es, uuid)
    case Found(e) => Reply(if which.Init? then e.init else e.core)
    case _ => Undefined
  }

  /** How many bytes `process_packet` copies for a packet that names `uuid`. */
  function PacketLength(es: seq<Entry>, uuid: Uuid): Option<nat> {
    match Find(es, uuid)
    case Found(e) => Some(e.core.size)
    case _ => None
  }

  class Proxy {
    const table: ModuleTable
    var ks: Ks
    var counter: nat

    constructor ()
      ensures Valid() && fresh(table) && fresh(table.data)
      ensures View() == Kernel(EMPTY_TABLE, NoServer, 0)
    {
      table := new ModuleTable();
      ks, counter := NoServer, 0;
    }

    ghost predicate Valid()
      reads this, table, table.data
    {
      table.Valid()
    }

    ghost function View(): Kernel
      requires Valid()
      reads this, table, table.data
    {
      Kernel(table.Contents(), ks, counter)
    }

    method SendEvent(found: bool) returns (ret: int)
      requires Valid()
      modifies this`counter
      ensures Valid()
      ensures (ret, View()) == SendEventSpec(old(View()), found)
      ensures counter == old(counter) + 1 <==>
                && ks == Registered && found
                && table.index + 1 < table.num && (table.data != null || table.index >= 0)
      ensures counter != old(counter) + 1 ==> counter == old(counter)
      ensures ret == if ks == NoServer || counter == old(counter) + 1 then 0 else -1
    {
      ret := 0;
      if ks != NoServer {
        var slot := table.Peek();
        if slot.None? {
          return -1;
        }
        if ks == Stale || !found {
          return -1;
        }
        counter := counter + 1;
      }
    }

    /** `lxc_uio_proxy_put_module_1`: the notification is sent only for a stored entry, and its result is ignored. */
    method PutModule(e: Entry, granted: bool, found: bool) returns (ret: int)
      requires Valid()
      modifies this`counter, table, table.data
      ensures Valid()
      ensures (ret, View()) == PutModuleSpec(old(View()), e, granted, found)
      ensures ret == 0 <==> old(table.data) != null && (old(table.num) < old(table.size) || granted)
      ensures ret == 0 ==>
                && table.data != null && table.num == old(table.num) + 1
                && table.data[..table.num - 1] == old(if table.data == null then [] else table.data[..table.num])
                && table.data[table.num - 1] == e
      ensures counter == old(counter) + if ret == 0 && ks == Registered && found then 1 else 0
    {
      ret := table.Put(e, granted);
      if ret == 0 {
        var _ := SendEvent(found);
      }
    }

    method Register(gotMemory: bool, fd: int, fileFound: bool) returns (ret: int)
      requires Valid()
      modifies this`ks, this`counter
      ensures Valid()
      ensures (ret, View()) == RegisterSpec(old(View()), gotMemory, fd, fileFound)
      ensures ret == if !gotMemory then -12 else if fd >= 0 && fileFound then 0 else -1
      ensures ks == if !gotMemory then NoServer else if ret == 0 then Registered else Stale
      ensures counter == if ret == 0 then 0 else old(counter)
    {
      ks := NoServer;
      if !gotMemory {
        return -ENOMEM;
      }
      ks := Stale;
      if fd < 0 {
        return -1;
      }
      if !fileFound {
        return -1;
      }
      ks, counter := Registered, 0;
      ret := 0;
    }

    method Deregister()
      requires Valid()
      modifies this`ks
      ensures Valid() && View() == old(View()).(ks := NoServer)
    {
      ks := NoServer;
    }

    /**
     0 if nothing waits, 1 for an entry handed over, the number of bytes not copied as a negative number for one that
     was not. Without a return code, the uuid was read through an invalid pointer.
     */
    method GetPendingModule(notCopied: nat) returns (ret: Option<int>, uuid: Option<Uuid>)
      requires Valid()
      requires notCopied <= UUID_BYTES
      modifies table`index
      ensures Valid()
      ensures (ret, uuid, View().table) == FetchSpec(old(View()).table, notCopied)
      ensures table.data != null ==>
                var i, waits := old(table.index), old(table.index) + 1 < table.num;
                && (ret == Some(0) <==> !waits)
                && (ret == Some(1) <==> waits && notCopied == 0)
                && (ret == Some(0 - notCopied) && notCopied > 0 <==> waits && notCopied > 0)
                && (uuid.Some? <==> waits && notCopied == 0)
                && (uuid.Some? ==> uuid.value == table.data[i + 1].uuid)
                && table.index == if waits && (notCopied == 0 || i == -1) then i + 1 else i
      ensures ret == Some(1) <==> uuid.Some?
      ensures ret.None? <==> table.data == null && 0 <= old(table.index) < table.num - 1
    {
      uuid := None;
      var slot := table.Pop();
      if slot.None? {
        return Some(0), None;
      }
      if table.data == null {
        return None, None;
      }
      var fetched := table.data[slot.value].uuid;
      if notCopied == 0 {
        return Some(1), Some(fetched);
      }
      var _ := table.PopReverse();
      ret := Some(0 - notCopied);
    }

    method GetLayout(uuid: Uuid, which: Which, notRead: nat, granted: bool, notCopied: nat) returns (r: Reply)
      requires Valid() && table.data != null
      ensures r == if notRead > 0 then Failed(0 - notRead)
                   else if !granted then Failed(-1)
                   else if !LayoutReply(View().table.store.entries, uuid, which).Undefined? && notCopied > 0 then
                     Failed(0 - notCopied)
                   else LayoutReply(View().table.store.entries, uuid, which)
    {
      if notRead > 0 {
        return Failed(0 - notRead);
      }
      FindIsFirst(View().table.store.entries, uuid);
      var entry := table.GetCopy(uuid, granted);
      match entry {
        case NoMemory => r := Failed(-1);
        case Uninitialised => r := Undefined;
        case Found(e) =>
          var layout := if which.Init? then e.init else e.core;
          r := if notCopied != 0 then Failed(0 - notCopied) else Reply(layout);
      }
    }

    /** `cdev_write`: the value returned, or None for the undefined case; and the bytes placed in the core region. */
    method Write(uuid: Uuid, notRead: nat, granted: bool, notCopied: nat) returns (ret: Option<int>, copied: nat)
      requires Valid() && table.data != null
      ensures PACKET_BYTES == 304
      ensures ret == Some(PACKET_BYTES) <==>
                && notRead == 0 && granted && notCopied == 0
                && PacketLength(View().table.store.entries, uuid).Some?
      ensures ret == Some(PACKET_BYTES) ==> PacketLength(View().table.store.entries, uuid) == Some(copied)
      ensures ret.None? <==> notRead == 0 && (!granted || PacketLength(View().table.store.entries, uuid).None?)
      ensures ret.Some? ==> ret.value == PACKET_BYTES || ret.value == -1
    {
      copied := 0;
      if notRead != 0 {
        return Some(-1), 0;
      }
      var mts := table.GetCopy(uuid, granted);
      match mts {
        case NoMemory => ret := None;
        case Uninitialised => ret := None;
        case Found(e) =>
          if notCopied == 0 {
            ret, copied := Some(PACKET_BYTES), e.core.size;
          } else {
            ret := Some(-1);
          }
      }
    }
  }
}
