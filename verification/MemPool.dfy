/** The slab memory pool: blocks from malloc cut into items of one size, handed out and taken back. */
module MemPool {

  type Address = nat

  const NULL: Address := 0

  /** Item i of a block. */
  function SlotAt(base: Address, itemSize: int, i: nat): Address
    requires itemSize > 0
  {
    base + i * itemSize
  }

  predicate AreApart(a: Address, b: Address, length: int) {
    a + length <= b || b + length <= a
  }

  /** The blocks malloc gave are different memory. */
  predicate BlocksApart(pools: seq<Address>, length: int) {
    forall k, l :: 0 <= k < l < |pools| ==> AreApart(pools[k], pools[l], length)
  }

  predicate IsSlotOf(base: Address, itemSize: int, itemNum: int, a: Address)
    requires itemSize > 0
  {
    exists i :: 0 <= i < itemNum && a == SlotAt(base, itemSize, i)
  }

  predicate IsSlot(pools: seq<Address>, itemSize: int, itemNum: int, a: Address)
    requires itemSize > 0
  {
    exists k :: 0 <= k < |pools| && IsSlotOf(pools[k], itemSize, itemNum, a)
  }

  /** The items of a block in the order extend lists them. */
  function Slots(base: Address, itemSize: int, n: nat): (r: seq<Address>)
    requires itemSize > 0
    ensures |r| == n
    ensures forall i :: 0 <= i < n ==> r[i] == SlotAt(base, itemSize, i)
  {
    seq(n, i requires 0 <= i < n => SlotAt(base, itemSize, i))
  }

  predicate HasNoDuplicates(s: seq<Address>) {
    forall i, j :: 0 <= i < j < |s| ==> s[i] != s[j]
  }

  /** What holds of the pool's lists between calls. */
  ghost predicate IsConsistent(pools: seq<Address>, used: set<Address>, frees: seq<Address>, size: int, itemSize: int, itemNum: int) {
    && HasNoDuplicates(frees)
    && (forall i :: 0 <= i < |frees| ==> frees[i] !in used)
    && |used| + |frees| == size == |pools| * itemNum
    && (pools != [] ==> itemSize > 0 && itemNum > 0 && BlocksApart(pools, itemNum * itemSize))
    && (forall a :: a in used || a in frees <==> itemSize > 0 && IsSlot(pools, itemSize, itemNum, a))
    && NULL !in pools
  }

  // ---- slots -------------------------------------------------------------------------------

  lemma {:induction false} ItemsApart(itemSize: int, i: nat, j: nat)
    requires itemSize > 0 && i < j
    ensures i * itemSize + itemSize <= j * itemSize
    decreases j
  {
    assert (j - 1) * itemSize + itemSize == j * itemSize;
    if i < j - 1 {
      ItemsApart(itemSize, i, j - 1);
    }
  }

  lemma {:induction false} SlotInBlock(base: Address, itemSize: int, itemNum: int, i: nat)
    requires itemSize > 0 && i < itemNum
    ensures base <= SlotAt(base, itemSize, i) && SlotAt(base, itemSize, i) + itemSize <= base + itemNum * itemSize
  {
    ItemsApart(itemSize, i, itemNum);
    assert i * itemSize >= 0;
  }

  lemma {:induction false} SlotsApart(base: Address, itemSize: int, i: nat, j: nat)
    requires itemSize > 0 && i != j
    ensures AreApart(SlotAt(base, itemSize, i), SlotAt(base, itemSize, j), itemSize)
  {
    if i < j {
      ItemsApart(itemSize, i, j);
    } else {
      ItemsApart(itemSize, j, i);
    }
  }

  /** Different items of the pool never share a byte. */
  lemma {:induction false} ItemsNeverOverlap(pools: seq<Address>, itemSize: int, itemNum: int, a: Address, b: Address)
    requires itemSize > 0 && itemNum > 0 && BlocksApart(pools, itemNum * itemSize)
    requires IsSlot(pools, itemSize, itemNum, a) && IsSlot(pools, itemSize, itemNum, b) && a != b
    ensures AreApart(a, b, itemSize)
  {
    var k :| 0 <= k < |pools| && IsSlotOf(pools[k], itemSize, itemNum, a);
    var l :| 0 <= l < |pools| && IsSlotOf(pools[l], itemSize, itemNum, b);
    var i :| 0 <= i < itemNum && a == SlotAt(pools[k], itemSize, i);
    var j :| 0 <= j < itemNum && b == SlotAt(pools[l], itemSize, j);
    if k == l {
      SlotsApart(pools[k], itemSize, i, j);
    } else {
      SlotInBlock(pools[k], itemSize, itemNum, i);
      SlotInBlock(pools[l], itemSize, itemNum, j);
      assert AreApart(pools[k], pools[l], itemNum * itemSize);
    }
  }

  /** A block that malloc just gave holds none of the items there are. */
  lemma {:induction false} NewSlotsAreNew(pools: seq<Address>, base: Address, itemSize: int, itemNum: int, i: nat)
    requires itemSize > 0 && BlocksApart(pools + [base], itemNum * itemSize) && i < itemNum
    ensures !IsSlot(pools, itemSize, itemNum, SlotAt(base, itemSize, i))
  {
    var more := pools + [base];
    SlotInBlock(base, itemSize, itemNum, i);
    forall k, j | 0 <= k < |pools| && 0 <= j < itemNum ensures SlotAt(base, itemSize, i) != SlotAt(pools[k], itemSize, j) {
      SlotInBlock(pools[k], itemSize, itemNum, j);
      assert AreApart(more[k], more[|pools|], itemNum * itemSize);
    }
  }

  lemma {:induction false} SlotsAfterExtend(pools: seq<Address>, base: Address, itemSize: int, itemNum: int, a: Address)
    requires itemSize > 0
    ensures IsSlot(pools + [base], itemSize, itemNum, a) <==>
            IsSlot(pools, itemSize, itemNum, a) || IsSlotOf(base, itemSize, itemNum, a)
  {
    var more := pools + [base];
    if IsSlot(pools, itemSize, itemNum, a) {
      var k :| 0 <= k < |pools| && IsSlotOf(pools[k], itemSize, itemNum, a);
      assert more[k] == pools[k];
    }
    if IsSlotOf(base, itemSize, itemNum, a) {
      assert more[|pools|] == base;
    }
  }

  lemma {:induction false} SlotsMembers(base: Address, itemSize: int, itemNum: nat, a: Address)
    requires itemSize > 0
    ensures a in Slots(base, itemSize, itemNum) <==> IsSlotOf(base, itemSize, itemNum, a)
  {
    if IsSlotOf(base, itemSize, itemNum, a) {
      var i :| 0 <= i < itemNum && a == SlotAt(base, itemSize, i);
      assert Slots(base, itemSize, itemNum)[i] == a;
    }
  }

  /** Listing a new block's items as free keeps everything consistent. */
  lemma {:induction false} ExtendIsConsistent(
    pools: seq<Address>, used: set<Address>, frees: seq<Address>, size: int, itemSize: int, itemNum: int, base: Address)
    requires IsConsistent(pools, used, frees, size, itemSize, itemNum) && itemSize > 0 && itemNum > 0
    requires base != NULL && BlocksApart(pools + [base], itemNum * itemSize)
    ensures IsConsistent(pools + [base], used, frees + Slots(base, itemSize, itemNum), size + itemNum, itemSize, itemNum)
  {
    var new' := Slots(base, itemSize, itemNum);
    var frees' := frees + new';
    forall i | 0 <= i < itemNum ensures new'[i] !in used && new'[i] !in frees {
      NewSlotsAreNew(pools, base, itemSize, itemNum, i);
    }
    forall i, j | 0 <= i < j < itemNum ensures new'[i] != new'[j] {
      SlotsApart(base, itemSize, i, j);
    }
    forall a ensures a in used || a in frees' <==> IsSlot(pools + [base], itemSize, itemNum, a) {
      SlotsAfterExtend(pools, base, itemSize, itemNum, a);
      SlotsMembers(base, itemSize, itemNum, a);
    }
    assert |pools + [base]| * itemNum == |pools| * itemNum + itemNum;
  }

  lemma {:induction false} AllocIsConsistent(
    pools: seq<Address>, used: set<Address>, frees: seq<Address>, size: int, itemSize: int, itemNum: int)
    requires IsConsistent(pools, used, frees, size, itemSize, itemNum) && frees != []
    ensures IsConsistent(pools, used + {frees[0]}, frees[1..], size, itemSize, itemNum)
  {
    var used', frees' := used + {frees[0]}, frees[1..];
    forall a ensures a in used' || a in frees' <==> a in used || a in frees {
      assert frees == [frees[0]] + frees';
    }
  }

  lemma {:induction false} FreeIsConsistent(
    pools: seq<Address>, used: set<Address>, frees: seq<Address>, size: int, itemSize: int, itemNum: int, a: Address)
    requires IsConsistent(pools, used, frees, size, itemSize, itemNum) && a in used
    ensures IsConsistent(pools, used - {a}, frees + [a], size, itemSize, itemNum)
  {
    var used', frees' := used - {a}, frees + [a];
    forall b ensures b in used' || b in frees' <==> b in used || b in frees {
    }
  }

  lemma {:induction false} NothingWithoutPools(used: set<Address>, frees: seq<Address>, size: int, itemSize: int, itemNum: int)
    requires IsConsistent([], used, frees, size, itemSize, itemNum)
    ensures used == {} && frees == [] && size == 0
  {
  }

  lemma {:induction false} EmptyIsConsistent(itemSize: int, itemNum: int)
    ensures IsConsistent([], {}, [], 0, itemSize, itemNum)
  {
  }

  // ---- the clearing of a new item ----------------------------------------------------------

  /** alloc clears sizeof(item_size) bytes, the size of an int, whatever the size of an item. */
  const CLEARED_BYTES := 4

  predicate Spares(a: Address, cleared: int, b: Address, itemSize: int) {
    a + cleared <= b || b + itemSize <= a
  }

  /** Clearing an item writes nothing outside its block and nothing of another item. */
  ghost predicate ClearingIsLocal(pools: seq<Address>, itemSize: int, itemNum: int)
    requires itemSize > 0
  {
    && (forall k, i :: 0 <= k < |pools| && 0 <= i < itemNum ==>
          SlotAt(pools[k], itemSize, i) + CLEARED_BYTES <= pools[k] + itemNum * itemSize)
    && (forall a, b :: IsSlot(pools, itemSize, itemNum, a) && IsSlot(pools, itemSize, itemNum, b) && a != b ==>
          Spares(a, CLEARED_BYTES, b, itemSize))
  }

  /** So it is exactly if an item has room for an int; otherwise the last item of a block is cleared past the block's end. */
  lemma {:induction false} ClearingIsLocalExactly(pools: seq<Address>, itemSize: int, itemNum: int)
    requires pools != [] && itemSize > 0 && itemNum > 0 && BlocksApart(pools, itemNum * itemSize)
    ensures ClearingIsLocal(pools, itemSize, itemNum) <==> itemSize >= CLEARED_BYTES
  {
    if itemSize >= CLEARED_BYTES {
      forall a, b | IsSlot(pools, itemSize, itemNum, a) && IsSlot(pools, itemSize, itemNum, b) && a != b
        ensures Spares(a, CLEARED_BYTES, b, itemSize)
      {
        ItemsNeverOverlap(pools, itemSize, itemNum, a, b);
      }
      forall k, i | 0 <= k < |pools| && 0 <= i < itemNum
        ensures SlotAt(pools[k], itemSize, i) + CLEARED_BYTES <= pools[k] + itemNum * itemSize
      {
        SlotInBlock(pools[k], itemSize, itemNum, i);
      }
    } else {
      assert SlotAt(pools[0], itemSize, itemNum - 1) + itemSize == pools[0] + itemNum * itemSize;
    }
  }

  /** In a block of several items, a shorter item's clearing overwrites the first byte of the item behind it. */
  lemma {:induction false} ClearingHitsNeighbour(base: Address, itemSize: int, itemNum: int, i: nat)
    requires 0 < itemSize && i + 1 < itemNum
    ensures Spares(SlotAt(base, itemSize, i), CLEARED_BYTES, SlotAt(base, itemSize, i + 1), itemSize) <==>
            itemSize >= CLEARED_BYTES
  {
    assert SlotAt(base, itemSize, i + 1) == SlotAt(base, itemSize, i) + itemSize;
  }

  // ---- the pool ----------------------------------------------------------------------------

  /** All the items of the blocks, block by block. */
  function AllSlots(pools: seq<Address>, itemSize: int, itemNum: nat): seq<Address>
    requires itemSize > 0
    decreases |pools|
  {
    if pools == [] then []
    else AllSlots(pools[..|pools| - 1], itemSize, itemNum) + Slots(pools[|pools| - 1], itemSize, itemNum)
  }

  /** The blocks malloc gives before it first fails. */
  function Given(blocks: seq<Address>): seq<Address> {
    if blocks == [] || blocks[0] == NULL then [] else [blocks[0]] + Given(blocks[1..])
  }

  class MemPoolItem {
    var dynamic: bool
    var size: int
    var itemSize: int
    var itemNumPerPool: int
    var pools: seq<Address>
    var used: set<Address>
    var frees: seq<Address>

    ghost predicate Valid()
      reads this
    {
      IsConsistent(pools, used, frees, size, itemSize, itemNumPerPool)
    }

    /** Some init has set the sizes. */
    predicate IsConfigured()
      reads this
    {
      itemSize > 0 && itemNumPerPool > 0
    }

    /** What malloc promises: nothing, or memory that is not in use. */
    predicate IsFreshBlock(base: Address)
      reads this
    {
      base != NULL ==> BlocksApart(pools + [base], itemNumPerPool * itemSize)
    }

    /** The constructor leaves three fields as the storage had them. */
    constructor (dynamic: bool, itemSize: int, itemNumPerPool: int)
      ensures Valid() && pools == [] && used == {} && frees == [] && size == 0
    {
      this.dynamic, this.itemSize, this.itemNumPerPool := dynamic, itemSize, itemNumPerPool;
      size := 0;
      pools, used, frees := [], {}, [];
      EmptyIsConsistent(itemSize, itemNumPerPool);
    }

    /** base is what malloc answers. */
    method Extend(base: Address) returns (rc: int)
      requires Valid() && IsConfigured() && IsFreshBlock(base)
      modifies this`pools, this`size, this`frees
      ensures Valid()
      ensures rc == if dynamic && base != NULL then 0 else -1
      ensures pools == if rc == 0 then old(pools) + [base] else old(pools)
      ensures frees == if rc == 0 then old(frees) + Slots(base, itemSize, itemNumPerPool) else old(frees)
      ensures size == if rc == 0 then old(size) + itemNumPerPool else old(size)
    {
      if !dynamic {
        return -1;
      }
      if base == NULL {
        return -1;
      }
      ExtendIsConsistent(pools, used, frees, size, itemSize, itemNumPerPool, base);
      pools := pools + [base];
      size := size + itemNumPerPool;
      ListItems(base);
      rc := 0;
    }

    method ListItems(base: Address)
      requires IsConfigured()
      modifies this`frees
      ensures frees == old(frees) + Slots(base, itemSize, itemNumPerPool)
    {
      for i := 0 to itemNumPerPool
        invariant frees == old(frees) + Slots(base, itemSize, i)
      {
        assert Slots(base, itemSize, i + 1) == Slots(base, itemSize, i) + [SlotAt(base, itemSize, i)];
        frees := frees + [SlotAt(base, itemSize, i)];
      }
    }

    method Cleanup()
      requires Valid()
      modifies this`pools, this`used, this`frees, this`size
      ensures Valid() && pools == [] && used == {} && frees == [] && size == 0
    {
      if pools == [] {
        NothingWithoutPools(used, frees, size, itemSize, itemNumPerPool);
        return;
      }
      used, frees, size := {}, [], 0;
      pools := [];
      EmptyIsConsistent(itemSize, itemNumPerPool);
    }

    /** blocks are what malloc answers, in order. */
    method Init(newItemSize: int, newDynamic: bool, poolNum: int, itemNum: int, blocks: seq<Address>) returns (rc: int)
      requires Valid() && |blocks| >= poolNum && BlocksApart(Given(blocks), itemNum * newItemSize)
      modifies this
      ensures Valid()
      ensures old(pools) != [] ==> rc == 0 && pools == old(pools) && used == old(used) && frees == old(frees) && size == old(size)
      ensures old(pools) == [] ==>
        rc == if newItemSize > 0 && poolNum > 0 && itemNum > 0 && |Given(blocks)| >= poolNum then 0 else -1
      ensures rc == -1 ==> pools == [] && used == {} && frees == [] && size == 0
      ensures rc == -1 ==>
        dynamic == if newItemSize > 0 && poolNum > 0 && itemNum > 0 then true else old(dynamic)
      ensures old(pools) != [] ==> dynamic == old(dynamic)
      ensures old(pools) == [] && rc == 0 ==>
        && pools == blocks[..poolNum] && used == {} && size == poolNum * itemNum
        && itemSize == newItemSize > 0 && itemNumPerPool == itemNum > 0 && dynamic == newDynamic
        && frees == AllSlots(pools, itemSize, itemNum)
    {
      if pools != [] {
        return 0;
      }
      NothingWithoutPools(used, frees, size, itemSize, itemNumPerPool);
      if newItemSize <= 0 || poolNum <= 0 || itemNum <= 0 {
        return -1;
      }
      itemSize, itemNumPerPool := newItemSize, itemNum;
      dynamic := true;
      EmptyIsConsistent(itemSize, itemNumPerPool);
      rc := ExtendAll(poolNum, blocks);
      if rc < 0 {
        return -1;
      }
      dynamic := newDynamic;
      rc := 0;
    }

    /** The loop of init. */
    method ExtendAll(poolNum: nat, blocks: seq<Address>) returns (rc: int)
      requires Valid() && IsConfigured() && dynamic && pools == [] && frees == [] && used == {}
      requires |blocks| >= poolNum && BlocksApart(Given(blocks), itemNumPerPool * itemSize)
      modifies this`pools, this`used, this`frees, this`size
      ensures Valid() && used == {}
      ensures rc == if |Given(blocks)| >= poolNum then 0 else -1
      ensures rc == -1 ==> pools == [] && frees == [] && size == 0
      ensures rc == 0 ==> pools == blocks[..poolNum] && frees == AllSlots(pools, itemSize, itemNumPerPool)
    {
      for i := 0 to poolNum
        invariant Valid() && used == {}
        invariant i <= |Given(blocks)| && pools == blocks[..i]
        invariant frees == AllSlots(blocks[..i], itemSize, itemNumPerPool)
      {
        rc := ExtendNext(blocks, i);
        if rc < 0 {
          Cleanup();
          return -1;
        }
      }
      rc := 0;
    }

    /** Round i of the loop. */
    method ExtendNext(blocks: seq<Address>, i: nat) returns (rc: int)
      requires i < |blocks| && Valid() && IsConfigured() && dynamic && pools == blocks[..i]
      requires i <= |Given(blocks)| && BlocksApart(Given(blocks), itemNumPerPool * itemSize)
      requires frees == AllSlots(blocks[..i], itemSize, itemNumPerPool)
      modifies this`pools, this`frees, this`size
      ensures Valid() && rc == if i < |Given(blocks)| then 0 else -1
      ensures rc == 0 ==> pools == blocks[..i + 1] && frees == AllSlots(blocks[..i + 1], itemSize, itemNumPerPool)
    {
      GivenAt(blocks, i);
      FreshAt(blocks, i, itemNumPerPool * itemSize);
      AllSlotsNext(blocks, i, itemSize, itemNumPerPool);
      rc := Extend(blocks[i]);
    }

    /** The oldest free item, after one more block if there is none and that is allowed. `cleared` bytes of it are zeroed. */
    method Alloc(base: Address) returns (item: Address, cleared: nat)
      requires Valid() && IsConfigured() && IsFreshBlock(base)
      modifies this`pools, this`size, this`frees, this`used
      ensures Valid()
      ensures item == NULL <==> old(frees) == [] && !(dynamic && base != NULL)
      ensures item == NULL ==> pools == old(pools) && used == old(used) && frees == old(frees)
      ensures item != NULL ==> item !in old(used) && used == old(used) + {item}
      ensures item != NULL ==>
        [item] + frees == if old(frees) == [] then Slots(base, itemSize, itemNumPerPool) else old(frees)
      ensures item != NULL ==> forall live :: live in old(used) ==> AreApart(item, live, itemSize)
      ensures pools == if item != NULL && old(frees) == [] then old(pools) + [base] else old(pools)
      ensures cleared == if item == NULL then 0 else CLEARED_BYTES
    {
      if frees == [] {
        if !dynamic {
          return NULL, 0;
        }
        var rc := Extend(base);
        if rc < 0 {
          return NULL, 0;
        }
      }
      item := TakeFirst();
      cleared := CLEARED_BYTES;
    }

    method TakeFirst() returns (item: Address)
      requires Valid() && frees != []
      modifies this`frees, this`used
      ensures Valid() && item != NULL && item !in old(used)
      ensures used == old(used) + {item} && [item] + frees == old(frees)
      ensures forall live :: live in old(used) ==> AreApart(item, live, itemSize)
    {
      AllocIsConsistent(pools, used, frees, size, itemSize, itemNumPerPool);
      item := frees[0];
      LiveApart(item);
      frees := frees[1..];
      used := used + {item};
    }

    /** A free item is different memory from every used one, and not null. */
    lemma {:induction false} LiveApart(item: Address)
      requires Valid() && item in frees
      ensures itemSize > 0 && item != NULL
      ensures forall live :: live in used ==> live != item && AreApart(item, live, itemSize)
    {
      assert IsSlot(pools, itemSize, itemNumPerPool, item);
      var k :| 0 <= k < |pools| && IsSlotOf(pools[k], itemSize, itemNumPerPool, item);
      var i :| 0 <= i < itemNumPerPool && item == SlotAt(pools[k], itemSize, i);
      SlotInBlock(pools[k], itemSize, itemNumPerPool, i);
      forall live | live in used ensures live != item && AreApart(item, live, itemSize) {
        ItemsNeverOverlap(pools, itemSize, itemNumPerPool, item, live);
      }
    }

    /** A used item becomes the last free one; any other address changes nothing. */
    method Free(buf: Address)
      requires Valid()
      modifies this`used, this`frees
      ensures Valid()
      ensures buf !in old(used) ==> used == old(used) && frees == old(frees)
      ensures buf in old(used) ==> used == old(used) - {buf} && frees == old(frees) + [buf]
    {
      if buf !in used {
        return;
      }
      FreeIsConsistent(pools, used, frees, size, itemSize, itemNumPerPool, buf);
      used := used - {buf};
      frees := frees + [buf];
    }

    method IsUsed(item: Address) returns (r: bool)
      requires Valid()
      ensures r ==> item !in frees && itemSize > 0 && IsSlot(pools, itemSize, itemNumPerPool, item)
      ensures !r && itemSize > 0 && IsSlot(pools, itemSize, itemNumPerPool, item) ==> item in frees
    {
      return item in used;
    }
  }

  lemma {:induction false} GivenAt(blocks: seq<Address>, i: nat)
    requires i < |blocks| && i <= |Given(blocks)|
    ensures i < |Given(blocks)| <==> blocks[i] != NULL
    ensures i < |Given(blocks)| ==> Given(blocks)[i] == blocks[i]
  {
    if i > 0 {
      GivenAt(blocks[1..], i - 1);
    }
  }

  lemma {:induction false} AllSlotsNext(blocks: seq<Address>, i: nat, itemSize: int, itemNum: nat)
    requires i < |blocks| && itemSize > 0
    ensures blocks[..i + 1] == blocks[..i] + [blocks[i]]
    ensures AllSlots(blocks[..i + 1], itemSize, itemNum) ==
            AllSlots(blocks[..i], itemSize, itemNum) + Slots(blocks[i], itemSize, itemNum)
  {
    assert blocks[..i + 1][..i] == blocks[..i];
  }

  lemma {:induction false} GivenIsPrefix(blocks: seq<Address>, i: nat)
    requires i <= |Given(blocks)|
    ensures i <= |blocks| && Given(blocks)[..i] == blocks[..i]
  {
    if i > 0 {
      GivenIsPrefix(blocks[1..], i - 1);
      assert blocks[..i] == [blocks[0]] + blocks[1..][..i - 1];
    }
  }

  lemma {:induction false} FreshAt(blocks: seq<Address>, i: nat, length: int)
    requires i < |blocks| && i <= |Given(blocks)| && BlocksApart(Given(blocks), length)
    ensures blocks[i] != NULL ==> BlocksApart(blocks[..i] + [blocks[i]], length)
  {
    GivenAt(blocks, i);
    if blocks[i] != NULL {
      GivenIsPrefix(blocks, i + 1);
      assert blocks[..i] + [blocks[i]] == Given(blocks)[..i + 1];
    }
  }
}
