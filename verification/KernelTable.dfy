/** The kernel's table of pending modules: its specification on values, and the array that implements it. */
module KernelTable {
  import opened Common
  import opened Growth

  /**
   One inserted module. The kernel keeps a pointer to its `struct module`; the model keeps the layouts it leads to.
   */
  datatype Entry = Entry(uuid: Uuid, init: Layout, core: Layout)

  /** `Lost` is what remains once `krealloc` has failed: the pointer is NULL, the counters survive. */
  datatype Store = Present(entries: seq<Entry>) | Lost(count: nat)
  {
    function Count(): nat {
      if Present? then |entries| else count
    }
  }

  /** `index` is the position of the last entry that was popped. */
  datatype Table = Table(store: Store, index: int, size: nat)
  {
    function Pending(): int {
      store.Count() - (index + 1)
    }

    predicate Valid() {
      -1 <= index < store.Count() <= size && 0 < size
    }
  }

  const EMPTY_TABLE := Table(Present([]), -1, INITIAL_SIZE)

  /** `table_put`: the return code and the table afterwards. `granted` is the answer of `krealloc`. */
  function PutSpec(t: Table, e: Entry, granted: bool): (int, Table) {
    match t.store
    case Lost(_) => (-1, t)
    case Present(es) =>
      if |es| < t.size then (0, t.(store := Present(es + [e])))
      else if |es| > t.size then (-ENOMEM, t)
      else if granted then (0, t.(store := Present(es + [e]), size := 2 * t.size))
      else (-ENOMEM, t.(store := Lost(|es|)))
  }

  /** A list of puts, each with the answer `krealloc` would give: the return codes and the table afterwards. */
  function PutAll(t: Table, es: seq<Entry>, granted: seq<bool>): (seq<int>, Table)
    requires |granted| == |es|
  {
    if es == [] then ([], t)
    else
      var (rets, t') := PutAll(t, es[..|es| - 1], granted[..|es| - 1]);
      var (ret, t'') := PutSpec(t', es[|es| - 1], granted[|es| - 1]);
      (rets + [ret], t'')
  }

  /** While every allocation succeeds, every put succeeds, and the table is what was put, in order. */
  lemma {:induction false} GrantedPutsAppend(es: seq<Entry>, granted: seq<bool>)
    requires |granted| == |es| && forall k :: 0 <= k < |es| ==> granted[k]
    ensures var (rets, t) := PutAll(EMPTY_TABLE, es, granted);
            && |rets| == |es| && (forall k :: 0 <= k < |es| ==> rets[k] == 0)
            && t == Table(Present(es), -1, Capacity(|es|))
            && |es| <= t.size
  {
    if es != [] {
      var n := |es| - 1;
      GrantedPutsAppend(es[..n], granted[..n]);
      assert es == es[..n] + [es[n]];
    }
  }

  /** `table_pop`: moves the cursor when there is an entry behind it. */
  function PopSpec(t: Table): Table {
    if t.Pending() > 0 then t.(index := t.index + 1) else t
  }

  /**
   The pointer `table_pop` returns, as the position it points at; None is NULL. With the table lost the pointer is
   computed from NULL, so that the one to entry 0 is NULL as well.
   */
  function PopPointer(t: Table): Option<nat>
    requires t.Pending() > 0 ==> t.index >= -1
  {
    if t.Pending() <= 0 || (t.store.Lost? && t.index == -1) then None else Some(t.index + 1)
  }

  /** `table_pop_reverse`: entry 0 cannot be un-popped. */
  function UnpopSpec(t: Table): (int, Table) {
    if t.index <= 0 then (-1, t) else (0, t.(index := t.index - 1))
  }

  /** The operations that change the table; each runs under the table's mutex. */
  datatype TableOp = Append(e: Entry, granted: bool) | TakeOne | GiveBack

  function Applied(t: Table, op: TableOp): Table {
    match op
    case Append(e, granted) => PutSpec(t, e, granted).1
    case TakeOne => PopSpec(t)
    case GiveBack => UnpopSpec(t).1
  }

  function AppliedAll(t: Table, ops: seq<TableOp>): Table {
    if ops == [] then t else Applied(AppliedAll(t, ops[..|ops| - 1]), ops[|ops| - 1])
  }

  /**
   Whatever threads put, pop and un-pop in whatever order, with or without memory: the cursor stays inside the table,
   the entries fit the capacity, and the capacity is the one the growth policy gives.
   */
  lemma {:induction false} AnyInterleavingIsValid(ops: seq<TableOp>)
    ensures var t := AppliedAll(EMPTY_TABLE, ops);
            -1 <= t.index < t.store.Count() <= t.size && t.size == Capacity(t.store.Count()) && 0 < t.size
  {
    if ops != [] {
      AnyInterleavingIsValid(ops[..|ops| - 1]);
    }
  }

  /** What `table_get_copy` hands back: the copy is uninitialised when the uuid is absent. */
  datatype Lookup = NoMemory | Uninitialised | Found(entry: Entry)

  function Find(es: seq<Entry>, uuid: Uuid): Lookup {
    if es == [] then Uninitialised
    else if es[0].uuid == uuid then Found(es[0])
    else Find(es[1..], uuid)
  }

  /** Lookup finds exactly the first entry with the uuid, and fails exactly when there is none. */
  lemma {:induction false} FindIsFirst(es: seq<Entry>, uuid: Uuid)
    ensures Find(es, uuid) == Uninitialised <==> forall k :: 0 <= k < |es| ==> es[k].uuid != uuid
    ensures forall j :: 0 <= j < |es| && es[j].uuid == uuid && (forall k :: 0 <= k < j ==> es[k].uuid != uuid) ==>
              Find(es, uuid) == Found(es[j])
    ensures Find(es, uuid) != NoMemory
  {
    if es != [] {
      FindIsFirst(es[1..], uuid);
      assert forall k :: 1 <= k < |es| ==> es[k] == es[1..][k - 1];
      forall j | 0 <= j < |es| && es[j].uuid == uuid && (forall k :: 0 <= k < j ==> es[k].uuid != uuid)
        ensures Find(es, uuid) == Found(es[j])
      {
        if j > 0 {
          assert es[j] == es[1..][j - 1];
          assert forall k :: 0 <= k < j - 1 ==> es[1..][k].uuid == es[k + 1].uuid;
        }
      }
    }
  }

  /** Later puts never change what a uuid resolves to. */
  lemma {:induction false} FindSurvivesAppend(es: seq<Entry>, more: seq<Entry>, uuid: Uuid)
    requires Find(es, uuid).Found?
    ensures Find(es + more, uuid) == Find(es, uuid)
  {
    if es[0].uuid != uuid {
      FindSurvivesAppend(es[1..], more, uuid);
      assert (es + more)[1..] == es[1..] + more;
    }
  }

  class ModuleTable {
    var data: array?<Entry>
    var size: nat
    var num: nat
    var index: int
    ghost var moved: nat  // entries copied by all reallocations

    ghost predicate Valid()
      reads this, data
    {
      && (data != null ==> data.Length == size)
      && -1 <= index < num <= size
      && size == Capacity(num) > 0
      && moved == Moved(num)
    }

    ghost function Contents(): Table
      requires Valid()
      reads this, data
    {
      Table(if data == null then Lost(num) else Present(data[..num]), index, size)
    }

    /** `table_init` */
    constructor ()
      ensures Valid() && fresh(data)
      ensures Contents() == EMPTY_TABLE
    {
      data := new Entry[INITIAL_SIZE];
      size, num, index, moved := INITIAL_SIZE, 0, -1, 0;
    }

    /** `krealloc` keeps the old contents, or fails with NULL. */
    static method Krealloc(block: array<Entry>, count: nat, granted: bool) returns (p: array?<Entry>)
      requires block.Length <= count
      ensures p == null <==> !granted
      ensures p != null ==> fresh(p) && p.Length == count && p[..block.Length] == block[..]
    {
      p := null;
      if granted {
        p := new Entry[count];
        forall i | 0 <= i < block.Length {
          p[i] := block[i];
        }
      }
    }

    /** 0 for a stored entry; a full table has to grow, and is lost if it cannot; a lost table takes nothing. */
    method Put(e: Entry, granted: bool) returns (ret: int)
      requires Valid()
      modifies this, data
      ensures Valid()
      ensures (ret, Contents()) == PutSpec(old(Contents()), e, granted)
      ensures ret == 0 <==> old(data) != null && (old(num) < old(size) || granted)
      ensures ret == 0 ==> data != null && data[..num] == old(if data == null then [] else data[..num]) + [e]
      ensures ret == 0 ==> size == if old(num) == old(size) then 2 * old(size) else old(size)
      ensures ret != 0 ==> ret == (if old(data) == null then -1 else -12) && data == null
      ensures ret != 0 ==> num == old(num) && size == old(size)
      ensures index == old(index)
      ensures data == old(data) || data == null || fresh(data)
    {
      if data == null {
        return -1;
      }
      if num > size {
        assert false;  // the "should never happen" branch cannot be taken
      }
      ghost var before := data[..num];
      if num == size {
        data := Krealloc(data, 2 * size, granted);
        if data == null {
          return -ENOMEM;
        }
        size := 2 * size;
        moved := moved + num;
      }
      assert data[..num] == before;
      data[num] := e;
      num := num + 1;
      assert data[..num] == before + [e];
      ret := 0;
    }

    /** `&module_table[slot]`: NULL for the first position of a table that is NULL. */
    function AddressOf(slot: nat): Option<nat>
      reads this`data
    {
      if data == null && slot == 0 then None else Some(slot)
    }

    method Pop() returns (p: Option<nat>)
      requires Valid()
      modifies this`index
      ensures Valid()
      ensures index == old(index) + if old(index) + 1 < num then 1 else 0
      ensures p == if old(index) + 1 < num && !(data == null && index == 0) then Some(index) else None
      ensures Contents() == PopSpec(old(Contents())) && p == PopPointer(old(Contents()))
    {
      p := None;
      if index + 1 <= num - 1 {
        index := index + 1;
        p := AddressOf(index);
      }
    }

    method PopReverse() returns (ret: int)
      requires Valid()
      modifies this`index
      ensures Valid()
      ensures (ret, Contents()) == UnpopSpec(old(Contents()))
      ensures if old(index) > 0 then ret == 0 && index == old(index) - 1 else ret == -1 && index == old(index)
    {
      if index <= 0 {
        return -1;
      }
      index := index - 1;
      ret := 0;
    }

    method Peek() returns (p: Option<nat>)
      requires Valid()
      ensures p == PopPointer(Contents())
      ensures p == if index + 1 < num && !(data == null && index == -1) then Some(index + 1) else None
    {
      p := None;
      if index + 1 <= num - 1 {
        p := AddressOf(index + 1);
      }
    }

    /** The source walks the table without a NULL check, so the table must be present. */
    method GetCopy(uuid: Uuid, granted: bool) returns (r: Lookup)
      requires Valid() && data != null
      ensures r == if granted then Find(Contents().store.entries, uuid) else NoMemory
    {
      if !granted {
        return NoMemory;
      }
      r := Uninitialised;
      var i := 0;
      while i < num
        invariant 0 <= i <= num
        invariant r == Uninitialised
        invariant Find(data[..num], uuid) == Find(data[i..num], uuid)
      {
        assert data[i..num][1..] == data[i + 1..num];
        if data[i].uuid == uuid {
          r := Found(data[i]);
          break;
        }
        i := i + 1;
      }
    }
  }
}
