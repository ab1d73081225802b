/** The versions of one key, ordered by transaction index (multiversion/data_structure.go). The B-tree
    is the sorted sequence it enumerates. */
module VersionTree {
  import opened Storage
  import opened Table

  datatype ValueItem = ValueItem(index: nat, cell: Cell) {
    predicate IsEstimate() {
      cell.estimate
    }

    predicate IsDeleted() {
      cell.value == ZERO && !cell.estimate
    }
  }

  ghost predicate Ordered(items: seq<ValueItem>) {
    forall p, q :: 0 <= p < q < |items| ==> items[p].index < items[q].index
  }

  ghost function Indices(items: seq<ValueItem>): set<nat> {
    set item | item in items :: item.index
  }

  /** `items` lists exactly the entries of `versions`. */
  ghost predicate Lists(items: seq<ValueItem>, versions: map<nat, Cell>) {
    versions.Keys == Indices(items) && forall item :: item in items ==> versions[item.index] == item.cell
  }

  /** `p` splits the items into those below `index` and those at or above it. */
  ghost predicate Splits(items: seq<ValueItem>, p: nat, index: int) {
    p <= |items| &&
    (forall q :: 0 <= q < p ==> items[q].index < index) &&
    (forall q :: p <= q < |items| ==> items[q].index >= index)
  }

  /** The position after the item at `p`, if that item is the one for `index`. */
  function TailFrom(items: seq<ValueItem>, p: nat, index: int): (q: nat)
    requires p <= |items|
    ensures p <= q <= |items|
  {
    if p < |items| && items[p].index == index then p + 1 else p
  }

  /** Cutting the items at the split drops the item for `index` and no other. */
  lemma CutDropsOne(items: seq<ValueItem>, p: nat, index: int, item: ValueItem)
    requires Ordered(items) && Splits(items, p, index)
    ensures item in items[..p] || item in items[TailFrom(items, p, index)..] <==> item in items && item.index != index
  {
    if item in items && item.index != index {
      var q :| 0 <= q < |items| && items[q] == item;
      if q < p {
        assert items[..p][q] == item;
      } else {
        assert items[TailFrom(items, p, index)..][q - TailFrom(items, p, index)] == item;
      }
    }
  }

  lemma InsertedMembers(items: seq<ValueItem>, p: nat, item: ValueItem, other: ValueItem)
    requires Ordered(items) && Splits(items, p, item.index)
    ensures other in items[..p] + [item] + items[TailFrom(items, p, item.index)..] <==>
            other == item || (other in items && other.index != item.index)
  {
    CutDropsOne(items, p, item.index, other);
  }

  lemma InsertedOrdered(items: seq<ValueItem>, p: nat, item: ValueItem)
    requires Ordered(items) && Splits(items, p, item.index)
    ensures Ordered(items[..p] + [item] + items[TailFrom(items, p, item.index)..])
  {
  }

  lemma InsertedLists(items: seq<ValueItem>, versions: map<nat, Cell>, p: nat, item: ValueItem)
    requires Ordered(items) && Lists(items, versions) && Splits(items, p, item.index)
    ensures Lists(items[..p] + [item] + items[TailFrom(items, p, item.index)..], versions[item.index := item.cell])
  {
    var now := items[..p] + [item] + items[TailFrom(items, p, item.index)..];
    forall other ensures other in now <==> other == item || (other in items && other.index != item.index) {
      InsertedMembers(items, p, item, other);
    }
    assert item in now;
    assert Indices(now) == Indices(items) + {item.index};
  }

  lemma RemovedLists(items: seq<ValueItem>, versions: map<nat, Cell>, p: nat, index: nat)
    requires Ordered(items) && Lists(items, versions) && Splits(items, p, index)
    ensures var now := items[..p] + items[TailFrom(items, p, index)..];
            Ordered(now) && Lists(now, versions - {index})
  {
    var now := items[..p] + items[TailFrom(items, p, index)..];
    forall other ensures other in now <==> other in items && other.index != index {
      CutDropsOne(items, p, index, other);
    }
    assert Indices(now) == Indices(items) - {index};
  }

  class MultiVersionItem {
    var valueTree: seq<ValueItem>
    ghost var versions: map<nat, Cell>
    ghost const key: StorageKey  // whose versions these are: every key has an item of its own

    ghost predicate Valid()
      reads this
    {
      Ordered(valueTree) && Lists(valueTree, versions)
    }

    ghost predicate Entry(item: ValueItem)
      reads this
    {
      item.index in versions && versions[item.index] == item.cell
    }

    constructor (ghost key: StorageKey)
      ensures Valid() && versions == map[] && this.key == key
    {
      this.key := key;
      valueTree := [];
      versions := map[];
    }

    /** The first position whose index is not below `index`: where a descent from `index - 1` starts. */
    static method Position(items: seq<ValueItem>, index: int) returns (p: nat)
      requires Ordered(items)
      ensures Splits(items, p, index)
    {
      p := |items|;
      while p > 0 && items[p - 1].index >= index
        invariant 0 <= p <= |items|
        invariant forall q :: p <= q < |items| ==> items[q].index >= index
      {
        p := p - 1;
      }
    }

    method ReplaceOrInsert(item: ValueItem)
      requires Valid()
      modifies this
      ensures Valid() && versions == old(versions)[item.index := item.cell]
    {
      var p := Position(valueTree, item.index);
      InsertedOrdered(valueTree, p, item);
      InsertedLists(valueTree, versions, p, item);
      valueTree := valueTree[..p] + [item] + valueTree[TailFrom(valueTree, p, item.index)..];
      versions := versions[item.index := item.cell];
    }

    /** A zero value is not stored: deletions go through Delete. */
    method Set(index: nat, incarnation: nat, value: Hash)
      requires Valid()
      modifies this
      ensures Valid()
      ensures versions == if value == ZERO then old(versions) else old(versions)[index := ValueCell(incarnation, value)]
      ensures value != ZERO ==>
                versions[index].incarnation == incarnation && versions[index].value == value &&
                    !versions[index].estimate
    {
      if value == ZERO {
        return;
      }
      ReplaceOrInsert(ValueItem(index, Cell(incarnation, value, false)));
    }

    method Delete(index: nat, incarnation: nat)
      requires Valid()
      modifies this
      ensures Valid() && versions == old(versions)[index := ValueCell(incarnation, ZERO)]
      ensures versions[index].incarnation == incarnation && versions[index].value == 0 && !versions[index].estimate
    {
      ReplaceOrInsert(ValueItem(index, Cell(incarnation, ZERO, false)));
    }

    method SetEstimate(index: nat, incarnation: nat)
      requires Valid()
      modifies this
      ensures Valid() && versions == old(versions)[index := EstimateCell(incarnation)]
      ensures versions[index].incarnation == incarnation && versions[index].estimate
    {
      ReplaceOrInsert(ValueItem(index, Cell(incarnation, ZERO, true)));
    }

    method Remove(index: nat)
      requires Valid()
      modifies this
      ensures Valid() && versions == old(versions) - {index}
    {
      var p := Position(valueTree, index);
      RemovedLists(valueTree, versions, p, index);
      valueTree := valueTree[..p] + valueTree[TailFrom(valueTree, p, index)..];
      versions := versions - {index};
    }

    method GetLatest() returns (found: Option<ValueItem>)
      requires Valid()
      ensures found.None? <==> versions == map[]
      ensures found.Some? ==> Entry(found.value)
      ensures found.Some? ==> forall i :: i in versions ==> i <= found.value.index
    {
      if valueTree == [] {
        assert versions == map[];
        return None;
      }
      var last := valueTree[|valueTree| - 1];
      assert last in valueTree && last.index in versions;
      assert forall item :: item in valueTree ==> item.index <= last.index;
      return Some(last);
    }

    /** The highest version that is not an estimate. */
    method GetLatestNonEstimate() returns (found: Option<ValueItem>)
      requires Valid()
      ensures found.None? <==> forall i :: i in versions ==> versions[i].estimate
      ensures found.Some? ==> Entry(found.value) && !found.value.IsEstimate()
      ensures found.Some? ==> forall i :: i in versions && i > found.value.index ==> versions[i].estimate
    {
      var p := |valueTree|;
      while p > 0 && valueTree[p - 1].IsEstimate()
        invariant 0 <= p <= |valueTree|
        invariant forall q :: p <= q < |valueTree| ==> valueTree[q].IsEstimate()
      {
        p := p - 1;
      }
      found := if p > 0 then Some(valueTree[p - 1]) else None;
    }

    /** The nearest version below `index`. */
    method GetLatestBeforeIndex(index: nat) returns (found: Option<ValueItem>)
      requires Valid()
      ensures found.None? <==> forall i :: i in versions ==> i >= index
      ensures found.Some? ==> Entry(found.value) && found.value.index < index
      ensures found.Some? ==> forall i :: i in versions && i < index ==> i <= found.value.index
    {
      var p := Position(valueTree, index);
      found := if p > 0 then Some(valueTree[p - 1]) else None;
    }
  }
}
