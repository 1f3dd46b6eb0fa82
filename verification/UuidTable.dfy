/** The server's table: an array that `realloc` grows, with the byte count computed in C `int` arithmetic. */
module UuidTable {
  import opened Common
  import opened Growth

  /** `struct kvm_userspace_memory_region` */
  datatype Region = Region(slot: nat, guestPhys: nat, memorySize: nat, userAddr: nat)

  /** `vm_memory`: a region is None until it is filled in. */
  datatype Memory = Memory(idt: Option<Region>, init: Option<Region>, core: Option<Region>, numRegions: int)

  /** `new_memory` */
  const NEW_MEMORY := Memory(None, None, None, 0)

  /** `struct UUID_table` */
  datatype Entry = Entry(uuid: Uuid, vmfd: int, vcpufd: int, memory: Memory, processed: bool, couldNotProcess: bool)

  // ---------------------------------------------------------------- growth arithmetic

  /** `int newsize=2*uuid_table_size` */
  function NewSize(size: nat): int {
    ToInt32(2 * size)
  }

  /** `int new_size_bytes=newsize*sizeof(*uuid_table)`: the product is a `size_t`, the variable an `int`. */
  function NewSizeBytes(size: nat, entryBytes: nat): int {
    ToInt32(ToSizeT(ToSizeT(NewSize(size)) * entryBytes))
  }

  lemma AddMultiple(x: int, q: int)
    ensures ToInt32(x + q * TWO_32) == ToInt32(x)
  {
  }

  lemma Distribute(x: int, q: int, k: int)
    ensures (x + q * TWO_32) * k == x * k + (q * k) * TWO_32
  {
  }

  lemma SizeTKeepsLowBits(x: int) returns (q: int)
    ensures ToSizeT(x) == x + q * TWO_32
  {
    q := -(x / TWO_64) * TWO_32;
  }

  lemma IntKeepsLowBits(x: int) returns (q: int)
    ensures ToInt32(x) == x + q * TWO_32
  {
    q := -(x / TWO_32) - if x % TWO_32 <= INT_MAX then 0 else 1;
  }

  /** All conversions together keep the byte count modulo 2^32. */
  lemma ByteCountIsWrapped(size: nat, entryBytes: nat)
    ensures NewSizeBytes(size, entryBytes) == ToInt32(2 * size * entryBytes)
  {
    var q1 := IntKeepsLowBits(2 * size);
    var q2 := SizeTKeepsLowBits(NewSize(size));
    var n := ToSizeT(NewSize(size));
    var q3 := SizeTKeepsLowBits(n * entryBytes);
    calc {
      NewSizeBytes(size, entryBytes);
      ToInt32(n * entryBytes + q3 * TWO_32);
      { AddMultiple(n * entryBytes, q3); }
      ToInt32(n * entryBytes);
      { assert n == 2 * size + (q1 + q2) * TWO_32; }
      ToInt32((2 * size + (q1 + q2) * TWO_32) * entryBytes);
      { Distribute(2 * size, q1 + q2, entryBytes); }
      ToInt32(2 * size * entryBytes + ((q1 + q2) * entryBytes) * TWO_32);
      { AddMultiple(2 * size * entryBytes, (q1 + q2) * entryBytes); }
      ToInt32(2 * size * entryBytes);
    }
  }

  /** The byte count is the true one exactly while it fits an `int`. */
  lemma ByteCountExactly(size: nat, entryBytes: nat)
    ensures NewSizeBytes(size, entryBytes) == 2 * size * entryBytes <==> 2 * size * entryBytes <= INT_MAX
  {
    ByteCountIsWrapped(size, entryBytes);
    assert 2 * size * entryBytes >= 0;
  }

  lemma AtLeastOnce(size: nat, entryBytes: nat)
    requires entryBytes >= 1
    ensures size <= size * entryBytes
  {
  }

  /**
   A table whose present size fits an `int` never asks for too little: doubling it either gives the true byte count, or
   a negative one, which as a `size_t` is more than any allocator grants.
   */
  lemma GrowthNeverUndersized(size: nat, entryBytes: nat)
    requires entryBytes >= 1 && size * entryBytes <= INT_MAX
    ensures 2 * size * entryBytes <= INT_MAX ==>
              NewSize(size) == 2 * size && NewSizeBytes(size, entryBytes) == 2 * size * entryBytes
    ensures 2 * size * entryBytes > 0x7FFF_FFFF ==> ToSizeT(NewSizeBytes(size, entryBytes)) > 0x7FFF_FFFF_FFFF_FFFF
  {
    hide NewSizeBytes, NewSize, ToInt32, ToSizeT;
    ByteCountIsWrapped(size, entryBytes);
    AtLeastOnce(2 * size, entryBytes);
    var total := 2 * size * entryBytes;
    assert total == 2 * (size * entryBytes);
    if total <= INT_MAX {
      FitsUnchanged(total);
      SizeFits(size);
    }
    WrapOfDoubled(size * entryBytes);
  }

  lemma FitsUnchanged(x: nat)
    requires x <= INT_MAX
    ensures ToInt32(x) == x
  {
  }

  lemma SizeFits(size: nat)
    requires 2 * size <= INT_MAX
    ensures NewSize(size) == 2 * size
  {
  }

  lemma WrapOfDoubled(bytes: nat)
    requires bytes <= INT_MAX
    ensures 2 * bytes > INT_MAX ==> ToSizeT(ToInt32(2 * bytes)) > PTRDIFF_MAX
  {
  }

  /** The new entry count and the `size_t` that reaches `realloc`. */
  method GrowthRequest(size: nat, entryBytes: nat) returns (newsize: int, request: nat)
    requires entryBytes >= 1 && size * entryBytes <= INT_MAX
    ensures 2 * size * entryBytes <= INT_MAX ==> newsize == 2 * size && request == 2 * size * entryBytes
    ensures 2 * size * entryBytes > INT_MAX ==> request > PTRDIFF_MAX
  {
    GrowthNeverUndersized(size, entryBytes);
    newsize := NewSize(size);
    request := ToSizeT(NewSizeBytes(size, entryBytes));
    if 2 * size * entryBytes <= INT_MAX {
      assert 2 * size * entryBytes >= 0;
    }
  }

  /** An allocation of the true byte count has room for exactly that many entries. */
  lemma RoomFor(size: nat, entryBytes: nat)
    requires entryBytes >= 1
    ensures size * entryBytes / entryBytes == size
  {
    var q, r := size * entryBytes / entryBytes, size * entryBytes % entryBytes;
    assert size * entryBytes == q * entryBytes + r;
    if size > q {
      AtLeastOnceMore(size - q, entryBytes);
    } else if size < q {
      AtLeastOnceMore(q - size, entryBytes);
    }
  }

  lemma AtLeastOnceMore(x: nat, entryBytes: nat)
    requires x >= 1
    ensures x * entryBytes >= entryBytes
  {
  }

  // ---------------------------------------------------------------- the table

  /** A table of `num` entries has a free slot, or can be doubled. */
  predicate Room(num: nat, granted: bool, entryBytes: nat) {
    num < Capacity(num) || (granted && 2 * Capacity(num) * entryBytes <= INT_MAX)
  }

  class Table {
    const entryBytes: nat   // sizeof(struct UUID_table)
    var data: array<Entry>  // as many entries as the allocation has room for
    var size: int           // uuid_table_size
    var num: int            // table_num_entries
    ghost var moved: nat    // entries copied by all reallocations

    ghost predicate Valid()
      reads this
    {
      && 0 <= num <= size && size == Capacity(num) && moved == Moved(num)
      && entryBytes >= 1 && size * entryBytes <= INT_MAX
      && data.Length == size
    }

    ghost function Contents(): seq<Entry>
      requires Valid()
      reads this, data
    {
      data[..num]
    }

    /** `table_init` */
    constructor (entryBytes: nat)
      requires 1 <= entryBytes && INITIAL_SIZE * entryBytes <= INT_MAX
      ensures Valid() && fresh(data) && Contents() == [] && this.entryBytes == entryBytes
    {
      this.entryBytes := entryBytes;
      data := new Entry[INITIAL_SIZE];
      size, num, moved := INITIAL_SIZE, 0, 0;
    }

    /** `realloc`: never succeeds for more than PTRDIFF_MAX bytes; otherwise `granted` decides. */
    method Realloc(bytes: nat, granted: bool) returns (p: array?<Entry>)
      requires entryBytes >= 1
      ensures p != null <==> granted && bytes <= PTRDIFF_MAX
      ensures p != null ==> fresh(p) && p.Length == bytes / entryBytes
      ensures p != null ==> forall i :: 0 <= i < data.Length && i < p.Length ==> p[i] == data[i]
    {
      p := null;
      if granted && bytes <= PTRDIFF_MAX {
        p := new Entry[bytes / entryBytes];
        forall i | 0 <= i < data.Length && i < p.Length {
          p[i] := data[i];
        }
      }
    }

    /** Appends, or changes nothing; it fails exactly when a full table cannot grow. */
    method Put(entry: Entry, granted: bool) returns (ret: int)
      requires Valid()
      modifies this, data
      ensures Valid()
      ensures ret == 0 || ret == -ENOMEM
      ensures ret == 0 <==> Room(|old(Contents())|, granted, entryBytes)
      ensures ret == 0 <==> old(num) < old(size) || (granted && 2 * old(size) * entryBytes <= 0x7FFF_FFFF)
      ensures ret == 0 ==> size == if old(num) == old(size) then 2 * old(size) else old(size)
      ensures Contents() == if ret == 0 then old(Contents()) + [entry] else old(Contents())
      ensures ret != 0 ==> data == old(data)
      ensures ret != 0 || old(num < size) ==> size == old(size)
      ensures data == old(data) || fresh(data)
    {
      ghost var before := Contents();
      if num == size {
        var newsize, request := GrowthRequest(size, entryBytes);
        var p := Realloc(request, granted);
        if p == null {
          return -ENOMEM;
        }
        RoomFor(2 * size, entryBytes);
        data := p;
        size := newsize;
        moved := moved + num;
        assert data[..num] == before;
      } else if num > size {
        assert false;  // the "should never happen" branch cannot be taken
      }
      data[num] := entry;
      num := num + 1;
      assert data[..num] == before + [entry];
      ret := 0;
    }

    /** `get_table_num_entries` goes through an `int`, and loses nothing. */
    method NumEntries() returns (n: int)
      requires Valid()
      ensures n == num == |Contents()|
    {
      FitsInt(size, entryBytes);
      n := ToInt32(num);
    }

    /** `table_entry_at_index_copy` */
    method EntryAtCopy(index: nat, granted: bool) returns (p: Option<Entry>)
      requires Valid()
      ensures p == if index < num && granted then Some(Contents()[index]) else None
    {
      if index >= num {
        return None;
      }
      if !granted {
        return None;
      }
      p := Some(data[index]);
    }

    /** `table_set_xxx`: the value left in errno. `entry` is the entry at `index` with one field changed. */
    method SetEntry(index: nat, entry: Entry) returns (errno: int)
      requires Valid()
      modifies data
      ensures Valid()
      ensures errno == if index < num then 0 else -1
      ensures Contents() == if index < num then old(Contents())[index := entry] else old(Contents())
    {
      errno := 0;
      if index <= num - 1 {
        data[index] := entry;
      } else {
        errno := -1;
      }
    }
  }

  lemma FitsInt(size: nat, entryBytes: nat)
    requires entryBytes >= 1 && size * entryBytes <= INT_MAX
    ensures size <= INT_MAX
  {
    AtLeastOnce(size, entryBytes);
  }
}
