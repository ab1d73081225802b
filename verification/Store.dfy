/** The multi-version store (multiversion/store.go): per-key version trees, per-transaction key lists
    and readsets, kept in step with the table they stand for. */
module MultiVersionStore {
  import opened Storage
  import opened Programs
  import opened Table
  import opened VersionTree

  /** Sorting a set of keys into a list, as the store does with the keys of a writeset. */
  method SortedList(keys: set<StorageKey>) returns (list: seq<StorageKey>)
    ensures SortedKeys(list) && KeySet(list) == keys
  {
    list := [];
    var todo := keys;
    while todo != {}
      invariant SortedKeys(list) && todo <= keys
      invariant forall k :: k in list <==> k in keys - todo
      decreases todo
    {
      var k :| k in todo;
      list := Inserted(list, k);
      todo := todo - {k};
    }
  }

  method Inserted(list: seq<StorageKey>, key: StorageKey) returns (longer: seq<StorageKey>)
    requires SortedKeys(list) && key !in list
    ensures SortedKeys(longer) && forall k :: k in longer <==> k == key || k in list
  {
    var p := 0;
    while p < |list| && KeyLess(list[p], key)
      invariant 0 <= p <= |list|
      invariant forall q :: 0 <= q < p ==> KeyLess(list[q], key)
    {
      p := p + 1;
    }
    InsertionSorted(list, p, key);
    longer := list[..p] + [key] + list[p..];
    assert list == list[..p] + list[p..];
  }

  lemma InsertionSorted(list: seq<StorageKey>, p: nat, key: StorageKey)
    requires SortedKeys(list) && p <= |list| && key !in list
    requires forall q :: 0 <= q < p ==> KeyLess(list[q], key)
    requires p < |list| ==> !KeyLess(list[p], key)
    ensures SortedKeys(list[..p] + [key] + list[p..])
  {
    forall q | p <= q < |list| ensures KeyLess(key, list[q]) {
      assert list[p] != key;
      assert p < q ==> KeyLess(list[p], list[q]);
    }
  }

  /** The members of a set of indices below `bound`, in ascending order. */
  method AscendingList(indices: set<nat>, bound: nat) returns (list: seq<nat>)
    requires forall j :: j in indices ==> j < bound
    ensures forall p, q :: 0 <= p < q < |list| ==> list[p] < list[q]
    ensures forall j: nat :: j in list <==> j in indices
  {
    list := [];
    for i := 0 to bound
      invariant forall p, q :: 0 <= p < q < |list| ==> list[p] < list[q]
      invariant forall p :: 0 <= p < |list| ==> list[p] < i
      invariant forall j: nat :: j in list <==> j in indices && j < i
    {
      if i in indices {
        list := list + [i];
      }
    }
  }

  ghost function KeySet(list: seq<StorageKey>): set<StorageKey> {
    set k | k in list
  }

  /** Taking the first key off a sorted list takes it out of the set of keys still to come. */
  lemma NextKey(list: seq<StorageKey>, p: nat)
    requires SortedKeys(list) && p < |list|
    ensures list[p] in KeySet(list[p..]) && KeySet(list[p..]) <= KeySet(list)
    ensures KeySet(list[p + 1..]) == KeySet(list[p..]) - {list[p]}
  {
    assert list[p..] == [list[p]] + list[p + 1..];
    assert list[p] !in list[p + 1..];
  }

  /** The versions in the trees are exactly those in the table. */
  ghost predicate TreesAre(trees: map<StorageKey, map<nat, Cell>>, table: Table) {
    forall k, i: nat :: CellMatches(trees, table, k, i)
  }

  ghost predicate CellMatches(trees: map<StorageKey, map<nat, Cell>>, table: Table, k: StorageKey, i: nat) {
    if k in trees && i in trees[k] then k in At(table, i).row && At(table, i).row[k] == trees[k][i]
    else k !in At(table, i).row
  }

  /** The key lists, sorted and without duplicates, and the readsets are those of the table. */
  ghost predicate ListsAre(keyLists: map<nat, seq<StorageKey>>, readsets: map<nat, ReadSet>, table: Table) {
    forall i: nat :: ListMatches(keyLists, readsets, table, i)
  }

  ghost predicate ListMatches(keyLists: map<nat, seq<StorageKey>>, readsets: map<nat, ReadSet>, table: Table, i: nat) {
    At(table, i).keys == (if i in keyLists then Some(KeySet(keyLists[i])) else None) &&
    At(table, i).readset == (if i in readsets then Some(readsets[i]) else None) &&
    (i in keyLists ==> SortedKeys(keyLists[i]))
  }

  function WithCell(versions: map<nat, Cell>, i: nat, cell: Cell): map<nat, Cell> {
    versions[i := cell]
  }

  function PutVersion(t: Table, i: nat, k: StorageKey, cell: Cell): Table {
    t[i := At(t, i).(row := At(t, i).row[k := cell])]
  }

  /** A whole row of versions laid over the row of index `i`. */
  function PutRow(t: Table, i: nat, row: Row): Table {
    if row == map[] then t else t[i := At(t, i).(row := At(t, i).row + row)]
  }

  lemma PutRowGrows(t: Table, i: nat, row: Row, k: StorageKey, cell: Cell)
    ensures PutVersion(PutRow(t, i, row), i, k, cell) == PutRow(t, i, row[k := cell])
  {
    var s := At(t, i);
    assert (s.row + row)[k := cell] == s.row + row[k := cell];
    assert s.row + map[] == s.row;
    assert k in row[k := cell];
    assert PutVersion(PutRow(t, i, row), i, k, cell) == t[i := s.(row := s.row + row[k := cell])];
  }

  lemma WrittenGrows(t: Table, i: nat, incarnation: nat, writeset: WriteSet, todo: set<StorageKey>, k: StorageKey)
    requires k in todo && todo <= writeset.Keys
    ensures PutVersion(PutRow(t, i, WrittenRow(incarnation, writeset - todo)), i, k,
                       ValueCell(incarnation, writeset[k])) ==
            PutRow(t, i, WrittenRow(incarnation, writeset - (todo - {k})))
  {
    PutRowGrows(t, i, WrittenRow(incarnation, writeset - todo), k, ValueCell(incarnation, writeset[k]));
    assert WrittenRow(incarnation, writeset - (todo - {k})) ==
           WrittenRow(incarnation, writeset - todo)[k := ValueCell(incarnation, writeset[k])];
  }

  lemma EstimatedGrows(t: Table, i: nat, incarnation: nat, keys: set<StorageKey>, todo: set<StorageKey>, k: StorageKey)
    requires k in todo && todo <= keys
    ensures PutVersion(PutRow(t, i, EstimatedRow(incarnation, keys - todo)), i, k, EstimateCell(incarnation)) ==
            PutRow(t, i, EstimatedRow(incarnation, keys - (todo - {k})))
  {
    PutRowGrows(t, i, EstimatedRow(incarnation, keys - todo), k, EstimateCell(incarnation));
    assert EstimatedRow(incarnation, keys - (todo - {k})) ==
           EstimatedRow(incarnation, keys - todo)[k := EstimateCell(incarnation)];
  }

  /** The old key list and the old versions go, except those that are about to be overwritten. */
  function DropOld(t: Table, i: nat, newKeys: set<StorageKey>): Table {
    var s := At(t, i);
    t[i := s.(keys := None, row := s.row - (ListedKeys(s) - newKeys))]
  }

  function PutKeys(t: Table, i: nat, keys: set<StorageKey>): Table {
    t[i := At(t, i).(keys := Some(keys))]
  }

  /** Leaving the keys of the new row in place gives the same store as removing all old keys first. */
  lemma RemovalShortcut(t: Table, i: nat, row: Row, keys: set<StorageKey>)
    requires keys == row.Keys
    ensures var s := At(t, i);
            PutKeys(PutRow(DropOld(t, i, keys), i, row), i, keys) ==
            t[i := s.(keys := Some(keys), row := (s.row - ListedKeys(s)) + row)]
  {
    var s := At(t, i);
    var kept := s.row - (ListedKeys(s) - row.Keys);
    assert kept + row == (s.row - ListedKeys(s)) + row;
    assert kept + map[] == kept;
    assert At(PutRow(DropOld(t, i, keys), i, row), i) == s.(keys := None, row := kept + row);
  }

  function DropVersion(t: Table, i: nat, k: StorageKey): Table {
    t[i := At(t, i).(row := At(t, i).row - {k})]
  }

  lemma PutVersionMatches(trees: map<StorageKey, map<nat, Cell>>, table: Table, i: nat, k: StorageKey, cell: Cell)
    requires TreesAre(trees, table) && k in trees
    ensures TreesAre(trees[k := WithCell(trees[k], i, cell)], PutVersion(table, i, k, cell))
  {
    var now, next := trees[k := WithCell(trees[k], i, cell)], PutVersion(table, i, k, cell);
    forall k', i': nat ensures CellMatches(now, next, k', i') {
      assert CellMatches(trees, table, k', i');
    }
  }

  lemma DropVersionMatches(trees: map<StorageKey, map<nat, Cell>>, table: Table, i: nat, k: StorageKey)
    requires TreesAre(trees, table)
    ensures TreesAre(if k in trees then trees[k := trees[k] - {i}] else trees, DropVersion(table, i, k))
  {
    var now := if k in trees then trees[k := trees[k] - {i}] else trees;
    forall k', i': nat ensures CellMatches(now, DropVersion(table, i, k), k', i') {
      assert CellMatches(trees, table, k', i');
    }
  }

  lemma NewTreeMatches(trees: map<StorageKey, map<nat, Cell>>, table: Table, k: StorageKey)
    requires TreesAre(trees, table) && k !in trees
    ensures TreesAre(trees[k := map[]], table)
  {
    var now := trees[k := map[]];
    forall k', i': nat ensures CellMatches(now, table, k', i') {
      assert CellMatches(trees, table, k', i');
    }
  }

  /** Tables with the same rows match the same trees; with the same lists and readsets, the same lists. */
  lemma SameRowsMatch(trees: map<StorageKey, map<nat, Cell>>, t: Table, u: Table)
    requires TreesAre(trees, t) && forall i: nat :: At(t, i).row == At(u, i).row
    ensures TreesAre(trees, u)
  {
    forall k, i: nat ensures CellMatches(trees, u, k, i) {
      assert CellMatches(trees, t, k, i);
    }
  }

  lemma SameListsMatch(keyLists: map<nat, seq<StorageKey>>, readsets: map<nat, ReadSet>, t: Table, u: Table)
    requires ListsAre(keyLists, readsets, t)
    requires forall i: nat :: At(t, i).keys == At(u, i).keys && At(t, i).readset == At(u, i).readset
    ensures ListsAre(keyLists, readsets, u)
  {
    forall i: nat ensures ListMatches(keyLists, readsets, u, i) {
      assert ListMatches(keyLists, readsets, t, i);
    }
  }

  lemma VersionKeepsLists(keyLists: map<nat, seq<StorageKey>>, readsets: map<nat, ReadSet>, t: Table,
                          i: nat, k: StorageKey, cell: Cell)
    requires ListsAre(keyLists, readsets, t)
    ensures ListsAre(keyLists, readsets, PutVersion(t, i, k, cell))
    ensures ListsAre(keyLists, readsets, DropVersion(t, i, k))
  {
    SameListsMatch(keyLists, readsets, t, PutVersion(t, i, k, cell));
    SameListsMatch(keyLists, readsets, t, DropVersion(t, i, k));
  }

  /** Changing the key list or the readset of one index changes the match at that index only. */
  lemma OneListMatches(keyLists: map<nat, seq<StorageKey>>, readsets: map<nat, ReadSet>, t: Table,
                       keyLists': map<nat, seq<StorageKey>>, readsets': map<nat, ReadSet>, u: Table, i: nat)
    requires ListsAre(keyLists, readsets, t) && ListMatches(keyLists', readsets', u, i)
    requires keyLists' - {i} == keyLists - {i} && readsets' - {i} == readsets - {i}
    requires forall j: nat :: j != i ==> At(u, j) == At(t, j)
    ensures ListsAre(keyLists', readsets', u)
  {
    forall j: nat ensures ListMatches(keyLists', readsets', u, j) {
      assert ListMatches(keyLists, readsets, t, j);
      if j != i {
        assert j in keyLists' <==> j in keyLists' - {i};
        assert j in keyLists <==> j in keyLists - {i};
        assert j in readsets' <==> j in readsets' - {i};
        assert j in readsets <==> j in readsets - {i};
        assert j in keyLists ==> keyLists[j] == (keyLists - {i})[j] == (keyLists' - {i})[j] == keyLists'[j];
        assert j in readsets ==> readsets[j] == (readsets - {i})[j] == (readsets' - {i})[j] == readsets'[j];
      }
    }
  }

  class Store {
    var multiVersionMap: map<StorageKey, MultiVersionItem>
    var txWritesetKeys: map<nat, seq<StorageKey>>
    var txReadSets: map<nat, ReadSet>
    const parentStore: StateDB
    ghost var table: Table

    ghost var items: set<MultiVersionItem>
    ghost var trees: map<StorageKey, map<nat, Cell>>

    /** Every key has a version tree object of its own. */
    ghost predicate TreesSound()
      reads this, items
    {
      multiVersionMap.Keys == trees.Keys &&
      forall k :: k in multiVersionMap ==>
        multiVersionMap[k] in items && multiVersionMap[k].key == k && multiVersionMap[k].Valid()
    }

    /** The trees of all keys but one hold the versions in `trees`. */
    ghost predicate SoundBut(key: StorageKey)
      reads this, items
    {
      TreesSound() && forall k :: k in multiVersionMap && k != key ==> multiVersionMap[k].versions == trees[k]
    }

    ghost predicate Valid()
      reads this, items
    {
      TreesSound() && (forall k :: k in multiVersionMap ==> multiVersionMap[k].versions == trees[k]) &&
      TreesAre(trees, table) && ListsAre(txWritesetKeys, txReadSets, table)
    }

    constructor (parent: StateDB)
      ensures Valid() && parentStore == parent && table == map[] && fresh(items)
    {
      multiVersionMap, txWritesetKeys, txReadSets := map[], map[], map[];
      parentStore := parent;
      table, items, trees := map[], {}, map[];
    }

    /* Atomic accesses: one version, one key list, one readset. */

    /** LoadOrStore of the tree for a key. */
    method Item(key: StorageKey) returns (item: MultiVersionItem)
      requires Valid()
      modifies this`multiVersionMap, this`items, this`trees
      ensures Valid() && key in multiVersionMap && multiVersionMap[key] == item && item in items
      ensures old(items) <= items && fresh(items - old(items))
    {
      if key in multiVersionMap {
        item := multiVersionMap[key];
        return;
      }
      item := new MultiVersionItem(key);
      NewTreeMatches(trees, table, key);
      multiVersionMap := multiVersionMap[key := item];
      items := items + {item};
      trees := trees[key := map[]];
    }

    /** The table follows a version that has just been put into its tree. */
    ghost method RecordVersion(index: nat, key: StorageKey, cell: Cell)
      requires key in trees && TreesAre(trees, table) && ListsAre(txWritesetKeys, txReadSets, table)
      requires SoundBut(key) && multiVersionMap[key].versions == WithCell(trees[key], index, cell)
      modifies this`trees, this`table
      ensures Valid() && table == PutVersion(old(table), index, key, cell)
    {
      hide MultiVersionItem.Valid, PutVersion;
      PutVersionMatches(trees, table, index, key, cell);
      VersionKeepsLists(txWritesetKeys, txReadSets, table, index, key, cell);
      trees, table := trees[key := WithCell(trees[key], index, cell)], PutVersion(table, index, key, cell);
      assert SoundBut(key);
    }

    method WriteVersion(index: nat, incarnation: nat, key: StorageKey, value: Hash)
      requires Valid()
      modifies this`multiVersionMap, this`items, this`trees, this`table, items
      ensures Valid() && old(items) <= items && fresh(items - old(items))
      ensures table == PutVersion(old(table), index, key, ValueCell(incarnation, value))
    {
      hide MultiVersionItem.Valid;
      var item := Item(key);
      if value == ZERO {
        item.Delete(index, incarnation);
      } else {
        item.Set(index, incarnation, value);
      }
      RecordVersion(index, key, ValueCell(incarnation, value));
    }

    method WriteEstimate(index: nat, incarnation: nat, key: StorageKey)
      requires Valid()
      modifies this`multiVersionMap, this`items, this`trees, this`table, items
      ensures Valid() && old(items) <= items && fresh(items - old(items))
      ensures table == PutVersion(old(table), index, key, EstimateCell(incarnation))
    {
      hide MultiVersionItem.Valid;
      var item := Item(key);
      item.SetEstimate(index, incarnation);
      RecordVersion(index, key, EstimateCell(incarnation));
    }

    method RemoveVersion(index: nat, key: StorageKey)
      requires Valid()
      modifies this`trees, this`table, items
      ensures Valid() && table == DropVersion(old(table), index, key)
    {
      hide MultiVersionItem.Valid;
      DropVersionMatches(trees, table, index, key);
      VersionKeepsLists(txWritesetKeys, txReadSets, table, index, key, EstimateCell(0));
      if key in multiVersionMap {
        multiVersionMap[key].Remove(index);
        trees := trees[key := trees[key] - {index}];
      }
      table := DropVersion(table, index, key);
    }

    /** LoadAndDelete of the key list of a transaction. */
    method TakeKeys(index: nat) returns (keys: seq<StorageKey>)
      requires Valid()
      modifies this`txWritesetKeys, this`table
      ensures Valid() && SortedKeys(keys) && KeySet(keys) == ListedKeys(At(old(table), index))
      ensures table == old(table)[index := At(old(table), index).(keys := None)]
    {
      assert ListMatches(txWritesetKeys, txReadSets, table, index);
      ghost var now := table[index := At(table, index).(keys := None)];
      keys := if index in txWritesetKeys then txWritesetKeys[index] else [];
      OneListMatches(txWritesetKeys, txReadSets, table, txWritesetKeys - {index}, txReadSets, now, index);
      SameRowsMatch(trees, table, now);
      txWritesetKeys := txWritesetKeys - {index};
      table := now;
    }

    method StoreKeys(index: nat, keys: set<StorageKey>)
      requires Valid()
      modifies this`txWritesetKeys, this`table
      ensures Valid() && table == PutKeys(old(table), index, keys)
    {
      assert ListMatches(txWritesetKeys, txReadSets, table, index);
      ghost var now := PutKeys(table, index, keys);
      var list := SortedList(keys);
      OneListMatches(txWritesetKeys, txReadSets, table, txWritesetKeys[index := list], txReadSets, now, index);
      SameRowsMatch(trees, table, now);
      txWritesetKeys := txWritesetKeys[index := list];
      table := now;
    }

    method SetReadset(index: nat, readset: ReadSet)
      requires Valid()
      modifies this`txReadSets, this`table
      ensures Valid() && table == WithReadset(old(table), index, Some(readset))
    {
      assert ListMatches(txWritesetKeys, txReadSets, table, index);
      ghost var now := WithReadset(table, index, Some(readset));
      OneListMatches(txWritesetKeys, txReadSets, table, txWritesetKeys, txReadSets[index := readset], now, index);
      SameRowsMatch(trees, table, now);
      txReadSets := txReadSets[index := readset];
      table := now;
    }

    /** The readset, if one is stored: an empty one is not the same as none. */
    method GetReadset(index: nat) returns (readset: Option<ReadSet>)
      requires Valid()
      ensures readset == At(table, index).readset
    {
      assert ListMatches(txWritesetKeys, txReadSets, table, index);
      readset := if index in txReadSets then Some(txReadSets[index]) else None;
    }

    method GetWritesetKeys(index: nat) returns (keys: set<StorageKey>)
      requires Valid()
      ensures keys == ListedKeys(At(table, index))
    {
      assert ListMatches(txWritesetKeys, txReadSets, table, index);
      keys := if index in txWritesetKeys then set k | k in txWritesetKeys[index] else {};
    }

    method ClearReadset(index: nat)
      requires Valid()
      modifies this`txReadSets, this`table
      ensures Valid() && table == WithReadset(old(table), index, None)
    {
      assert ListMatches(txWritesetKeys, txReadSets, table, index);
      ghost var now := WithReadset(table, index, None);
      OneListMatches(txWritesetKeys, txReadSets, table, txWritesetKeys, txReadSets - {index}, now, index);
      SameRowsMatch(trees, table, now);
      txReadSets := txReadSets - {index};
      table := now;
    }

    /* Whole-writeset operations, loops over those accesses. */

    /** The old versions go, except those that the new writeset is about to overwrite. */
    method RemoveOldWriteset(index: nat, newKeys: set<StorageKey>)
      requires Valid()
      modifies this`txWritesetKeys, this`trees, this`table, items
      ensures Valid() && table == DropOld(old(table), index, newKeys)
    {
      ghost var s := At(table, index);
      var keys := TakeKeys(index);
      ghost var gone: set<StorageKey> := {};
      assert s.row - gone == s.row;
      for p := 0 to |keys|
        invariant Valid()
        invariant gone == (set k | k in keys[..p] && k !in newKeys)
        invariant table == old(table)[index := s.(keys := None, row := s.row - gone)]
      {
        if keys[p] !in newKeys {
          RemoveVersion(index, keys[p]);
          assert s.row - gone - {keys[p]} == s.row - (gone + {keys[p]});
          gone := gone + {keys[p]};
        }
        assert keys[..p + 1] == keys[..p] + [keys[p]];
      }
      assert keys[..|keys|] == keys;
      assert gone == ListedKeys(s) - newKeys;
    }

    method WriteVersions(index: nat, incarnation: nat, writeset: WriteSet)
      requires Valid()
      modifies this`multiVersionMap, this`items, this`trees, this`table, items
      ensures Valid() && old(items) <= items && fresh(items - old(items))
      ensures table == PutRow(old(table), index, WrittenRow(incarnation, writeset))
    {
      var todo := writeset.Keys;
      assert writeset - todo == map[];
      while todo != {}
        invariant Valid() && old(items) <= items && fresh(items - old(items)) && todo <= writeset.Keys
        invariant table == PutRow(old(table), index, WrittenRow(incarnation, writeset - todo))
        decreases todo
      {
        var k :| k in todo;
        WriteVersion(index, incarnation, k, writeset[k]);
        WrittenGrows(old(table), index, incarnation, writeset, todo, k);
        todo := todo - {k};
      }
      assert writeset - {} == writeset;
    }

    method WriteEstimates(index: nat, incarnation: nat, keys: set<StorageKey>)
      requires Valid()
      modifies this`multiVersionMap, this`items, this`trees, this`table, items
      ensures Valid() && old(items) <= items && fresh(items - old(items))
      ensures table == PutRow(old(table), index, EstimatedRow(incarnation, keys))
    {
      var todo := keys;
      assert EstimatedRow(incarnation, keys - todo) == map[];
      while todo != {}
        invariant Valid() && old(items) <= items && fresh(items - old(items)) && todo <= keys
        invariant table == PutRow(old(table), index, EstimatedRow(incarnation, keys - todo))
        decreases todo
      {
        var k :| k in todo;
        WriteEstimate(index, incarnation, k);
        EstimatedGrows(old(table), index, incarnation, keys, todo, k);
        todo := todo - {k};
      }
      assert keys - {} == keys;
    }

    /** Replaces the writeset of a transaction. */
    method SetWriteset(index: nat, incarnation: nat, writeset: WriteSet)
      requires Valid()
      modifies this`multiVersionMap, this`items, this`txWritesetKeys, this`trees, this`table, items
      ensures Valid() && old(items) <= items && fresh(items - old(items))
      ensures table == StoreWriteset(old(table), index, incarnation, writeset)
      ensures forall k :: k in writeset ==>
                k in At(table, index).row && !At(table, index).row[k].estimate &&
                At(table, index).row[k].value == writeset[k] && At(table, index).row[k].incarnation == incarnation
    {
      RemoveOldWriteset(index, writeset.Keys);
      WriteVersions(index, incarnation, writeset);
      StoreKeys(index, writeset.Keys);
      RemovalShortcut(old(table), index, WrittenRow(incarnation, writeset), writeset.Keys);
    }

    /** Writes estimates for the keys of a writeset that was never stored. */
    method SetEstimatedWriteset(index: nat, incarnation: nat, writeset: WriteSet)
      requires Valid()
      modifies this`multiVersionMap, this`items, this`txWritesetKeys, this`trees, this`table, items
      ensures Valid() && old(items) <= items && fresh(items - old(items))
      ensures table == StoreEstimates(old(table), index, incarnation, writeset.Keys)
      ensures forall k :: k in writeset ==>
                k in At(table, index).row && At(table, index).row[k].estimate &&
                At(table, index).row[k].incarnation == incarnation
    {
      RemoveOldWriteset(index, writeset.Keys);
      WriteEstimates(index, incarnation, writeset.Keys);
      StoreKeys(index, writeset.Keys);
      RemovalShortcut(old(table), index, EstimatedRow(incarnation, writeset.Keys), writeset.Keys);
    }

    /** Turns every listed version of a transaction into an estimate; its key list stays. */
    method InvalidateWriteset(index: nat, incarnation: nat)
      requires Valid()
      modifies this`multiVersionMap, this`items, this`trees, this`table, items
      ensures Valid() && old(items) <= items && fresh(items - old(items))
      ensures table == Invalidate(old(table), index, incarnation)
      ensures forall k :: k in ListedKeys(At(old(table), index)) ==>
                k in At(table, index).row && At(table, index).row[k].estimate &&
                At(table, index).row[k].incarnation == incarnation
    {
      assert ListMatches(txWritesetKeys, txReadSets, table, index);
      assert EstimatedRow(incarnation, {}) == map[];
      if index in txWritesetKeys {
        ghost var keys := ListedKeys(At(table, index));
        assert keys != {} ==> EstimatedRow(incarnation, keys) != map[] by {
          assert EstimatedRow(incarnation, keys).Keys == keys;
        }
        WriteEstimates(index, incarnation, set k | k in txWritesetKeys[index]);
      }
    }

    /* Lookups. */

    /** The nearest lower version of a key is what scanning the table downwards finds. */
    method GetLatestBeforeIndex(index: nat, key: StorageKey) returns (found: Option<ValueItem>)
      requires Valid()
      ensures found.None? <==> Scan(table, index, key).None?
      ensures found.Some? ==> Scan(table, index, key) == Some(found.value.index) &&
                              At(table, found.value.index).row[key] == found.value.cell
    {
      ScanIsNearest(table, index, key);
      forall i: nat ensures key in At(table, i).row <==> key in multiVersionMap && i in multiVersionMap[key].versions {
        assert CellMatches(trees, table, key, i);
      }
      if key !in multiVersionMap {
        return None;
      }
      found := multiVersionMap[key].GetLatestBeforeIndex(index);
      assert found.Some? ==> CellMatches(trees, table, key, found.value.index);
    }

    method Has(index: nat, key: StorageKey) returns (has: bool)
      requires Valid()
      ensures has <==> exists i: nat :: i < index && key in At(table, i).row
    {
      var found := GetLatestBeforeIndex(index, key);
      ScanIsNearest(table, index, key);
      has := found.Some?;
    }

    /* Validation. */

    /** Checks one recorded read against the store and the parent state. */
    method CheckKey(index: nat, key: StorageKey, values: seq<Hash>) returns (ok: bool, conflict: Option<nat>)
      requires Valid()
      ensures ok <==> KeyStands(table, parentStore.kv, index, key, values)
      ensures conflict.Some? ==> Blames(table, index, key, values, conflict.value)
      ensures forall j: nat :: Blames(table, index, key, values, j) ==> conflict == Some(j)
      ensures ok ==> conflict.None?
      ensures |values| != 1 ==> !ok && conflict.None?
      ensures |values| == 1 ==>
                match Scan(table, index, key)
                case None => (ok <==> Lookup(parentStore.kv, key) == values[0]) && conflict.None?
                case Some(j) =>
                  (ok <==> !At(table, j).row[key].estimate && At(table, j).row[key].value == values[0]) &&
                  conflict == if ok then None else Some(j)
    {
      if |values| != 1 {
        return false, None;
      }
      var latest := GetLatestBeforeIndex(index, key);
      if latest.None? {
        return parentStore.GetValue(key) == values[0], None;
      }
      var item := latest.value;
      if item.IsEstimate() {
        return false, Some(item.index);
      } else if item.IsDeleted() {
        if values[0] != ZERO {
          return false, Some(item.index);
        }
      } else if item.cell.value != values[0] {
        return false, Some(item.index);
      }
      return true, None;
    }

    /** checkReadsetAtIndex: the readset is valid exactly when every read of it stands, and the
        conflicts are exactly the nearest writers that are estimates or disagree, in ascending order. */
    method CheckReadsetAtIndex(index: nat) returns (valid: bool, conflicts: seq<nat>)
      requires Valid()
      ensures var readset := At(table, index).readset;
              valid <==> (readset.Some? ==> ReadsetStands(table, parentStore.kv, index, readset.value))
      ensures forall j: nat :: j in conflicts <==>
                At(table, index).readset.Some? && Blamed(table, index, At(table, index).readset.value, j)
      ensures forall j: nat :: At(table, index).readset.Some? ==>
                var readset := At(table, index).readset.value;
                (j in conflicts <==>
                   exists k :: k in readset && |readset[k]| == 1 && Scan(table, index, k) == Some(j) &&
                               (At(table, j).row[k].estimate || At(table, j).row[k].value != readset[k][0]))
      ensures forall p, q :: 0 <= p < q < |conflicts| ==> conflicts[p] < conflicts[q]
      ensures forall j :: j in conflicts ==> j < index
      ensures valid ==> conflicts == []
    {
      assert ListMatches(txWritesetKeys, txReadSets, table, index);
      if index !in txReadSets {
        return true, [];
      }
      var readset := txReadSets[index];
      var conflictSet: set<nat> := {};
      valid := true;
      var todo := readset.Keys;
      while todo != {}
        invariant todo <= readset.Keys && (valid ==> conflictSet == {})
        invariant valid <==> forall k :: k in readset.Keys - todo ==>
                  KeyStands(table, parentStore.kv, index, k, readset[k])
        invariant forall j: nat :: j in conflictSet <==>
                    exists k :: k in readset.Keys - todo && Blames(table, index, k, readset[k], j)
        decreases todo
      {
        var k :| k in todo;
        var ok, conflict := CheckKey(index, k, readset[k]);
        valid := valid && ok;
        if conflict.Some? {
          conflictSet := conflictSet + {conflict.value};
        }
        assert readset.Keys - (todo - {k}) == (readset.Keys - todo) + {k};
        todo := todo - {k};
      }
      conflicts := AscendingList(conflictSet, index);
      assert conflictSet == {} ==> conflicts == [] by {
        if conflicts != [] {
          assert conflicts[0] in conflicts;
        }
      }
    }

    /* Flushing versions into a state. */

    method NewestVersion(key: StorageKey) returns (found: Option<ValueItem>)
      requires Valid() && key in multiVersionMap
      ensures found.None? <==> !HasNewest(table, key)
      ensures found.Some? ==> Newest(table, key, found.value.index) &&
                              At(table, found.value.index).row[key] == found.value.cell
    {
      found := multiVersionMap[key].GetLatestNonEstimate();
      forall i: nat
        ensures key in At(table, i).row <==> i in trees[key]
        ensures key in At(table, i).row ==> At(table, i).row[key] == trees[key][i]
      {
        assert CellMatches(trees, table, key, i);
      }
      if found.Some? {
        assert Newest(table, key, found.value.index);
      }
    }

    method WriteOut(key: StorageKey, item: ValueItem, finalState: StateDB)
      requires !item.IsEstimate()
      modifies finalState
      ensures finalState.kv == old(finalState.kv)[key := item.cell.value]
    {
      if item.IsDeleted() {
        finalState.SetValue(key, ZERO);
      } else if item.cell.value != ZERO {
        finalState.SetValue(key, item.cell.value);
      }
    }

    method FlushKey(key: StorageKey, lastStoreIndex: nat, startIndex: nat, finalState: StateDB)
      requires Valid() && key in multiVersionMap
      modifies finalState
      ensures Valid()
      ensures FlushedKey(table, lastStoreIndex, startIndex, key,
                         Lookup(old(finalState.kv), key), Lookup(finalState.kv, key))
      ensures forall k :: k != key ==> Lookup(finalState.kv, k) == Lookup(old(finalState.kv), k)
    {
      var found := NewestVersion(key);
      if found.Some? && lastStoreIndex <= found.value.index < startIndex {
        WriteOut(key, found.value, finalState);
      }
      if found.Some? {
        forall h: nat | Newest(table, key, h) ensures h == found.value.index {
          NewestIsUnique(table, key, h, found.value.index);
        }
      }
    }

    /** Writes the newest version of each key into the state, if its index lies in the window
        [lastStoreIndex, startIndex). */
    method WriteLatestToStoreUntil(lastStoreIndex: nat, startIndex: nat, finalState: StateDB)
      requires Valid()
      modifies finalState
      ensures Flushed(table, lastStoreIndex, startIndex, old(finalState.kv), finalState.kv)
    {
      hide FlushedKey, FlushedKeyAll, TreesAre, ListsAre, MultiVersionItem.Valid;
      var keys := SortedList(multiVersionMap.Keys);
      ghost var todo := KeySet(keys);
      for p := 0 to |keys|
        invariant Valid() && todo == KeySet(keys[p..])
        invariant forall k :: k in multiVersionMap && k !in todo ==>
                    FlushedKey(table, lastStoreIndex, startIndex, k,
                               Lookup(old(finalState.kv), k), Lookup(finalState.kv, k))
        invariant forall k :: k in todo || k !in multiVersionMap ==>
                    Lookup(finalState.kv, k) == Lookup(old(finalState.kv), k)
      {
        NextKey(keys, p);
        todo := todo - {keys[p]};
        FlushKey(keys[p], lastStoreIndex, startIndex, finalState);
      }
      KeysAreFlushed(lastStoreIndex, startIndex, old(finalState.kv), finalState.kv);
    }

    /** A flush of all keys that have a tree is a flush of all keys. */
    lemma KeysAreFlushed(lo: nat, hi: nat, p: State, q: State)
      requires Valid()
      requires forall k :: k in multiVersionMap ==> FlushedKey(table, lo, hi, k, Lookup(p, k), Lookup(q, k))
      requires forall k :: k !in multiVersionMap ==> Lookup(q, k) == Lookup(p, k)
      ensures Flushed(table, lo, hi, p, q)
    {
      forall k ensures FlushedKey(table, lo, hi, k, Lookup(p, k), Lookup(q, k)) {
        if k !in multiVersionMap {
          UnknownKeyHasNoVersion(k);
        }
      }
    }

    lemma AllKeysAreFlushed(p: State, q: State)
      requires Valid()
      requires forall k :: k in multiVersionMap ==> FlushedKeyAll(table, k, Lookup(p, k), Lookup(q, k))
      requires forall k :: k !in multiVersionMap ==> Lookup(q, k) == Lookup(p, k)
      ensures FlushedAll(table, p, q)
    {
      forall k ensures FlushedKeyAll(table, k, Lookup(p, k), Lookup(q, k)) {
        if k !in multiVersionMap {
          UnknownKeyHasNoVersion(k);
        }
      }
    }

    method FlushKeyAll(key: StorageKey, finalState: StateDB)
      requires Valid() && key in multiVersionMap
      modifies finalState
      ensures Valid()
      ensures FlushedKeyAll(table, key, Lookup(old(finalState.kv), key), Lookup(finalState.kv, key))
      ensures forall k :: k != key ==> Lookup(finalState.kv, k) == Lookup(old(finalState.kv), k)
    {
      var found := NewestVersion(key);
      if found.Some? {
        WriteOut(key, found.value, finalState);
      }
      if found.Some? {
        forall h: nat | Newest(table, key, h) ensures h == found.value.index {
          NewestIsUnique(table, key, h, found.value.index);
        }
      }
    }

    /** Writes the newest version of every key into the state. */
    method WriteLatestToStore(finalState: StateDB)
      requires Valid()
      modifies finalState
      ensures FlushedAll(table, old(finalState.kv), finalState.kv)
    {
      hide FlushedKey, FlushedKeyAll, TreesAre, ListsAre, MultiVersionItem.Valid;
      var keys := SortedList(multiVersionMap.Keys);
      ghost var todo := KeySet(keys);
      for p := 0 to |keys|
        invariant Valid() && todo == KeySet(keys[p..])
        invariant forall k :: k in multiVersionMap && k !in todo ==>
                    FlushedKeyAll(table, k, Lookup(old(finalState.kv), k), Lookup(finalState.kv, k))
        invariant forall k :: k in todo || k !in multiVersionMap ==>
                    Lookup(finalState.kv, k) == Lookup(old(finalState.kv), k)
      {
        NextKey(keys, p);
        todo := todo - {keys[p]};
        FlushKeyAll(keys[p], finalState);
      }
      AllKeysAreFlushed(old(finalState.kv), finalState.kv);
    }

    lemma UnknownKeyHasNoVersion(k: StorageKey)
      requires Valid() && k !in multiVersionMap
      ensures !HasNewest(table, k)
    {
      forall i: nat ensures k !in At(table, i).row {
        assert CellMatches(trees, table, k, i);
      }
    }
  }
}
