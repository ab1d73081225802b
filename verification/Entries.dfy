/** The store against its plainest description: after any sequence of writeset commands it holds, per
    transaction index, one entry with an incarnation, an estimate mark and a writeset. */
module Entries {
  import opened Storage
  import opened Programs
  import opened Table
  import opened VersionTree
  import opened MultiVersionStore

  datatype Command =
    | PutWriteset(index: nat, incarnation: nat, writeset: WriteSet)
    | PutEstimates(index: nat, incarnation: nat, writeset: WriteSet)
    | MarkInvalid(index: nat, incarnation: nat)

  datatype Entry = Entry(incarnation: nat, estimate: bool, writeset: WriteSet)

  type EntryTable = map<nat, Entry>

  /** A command replaces one entry, or marks it; marking an index without entry does nothing. */
  function Entered(entries: EntryTable, command: Command): EntryTable {
    match command
    case PutWriteset(i, incarnation, writeset) => entries[i := Entry(incarnation, false, writeset)]
    case PutEstimates(i, incarnation, writeset) => entries[i := Entry(incarnation, true, writeset)]
    case MarkInvalid(i, incarnation) =>
      if i in entries then entries[i := Entry(incarnation, true, entries[i].writeset)] else entries
  }

  function EntriesAfter(commands: seq<Command>): EntryTable {
    if commands == [] then map[] else Entered(EntriesAfter(commands[..|commands| - 1]), commands[|commands| - 1])
  }

  /** The nearest entry below `i` whose writeset has `k`. */
  function NearestEntry(entries: EntryTable, i: nat, k: StorageKey): (j: Option<nat>)
    ensures j.Some? ==> j.value < i && j.value in entries && k in entries[j.value].writeset
  {
    if i == 0 then None
    else if i - 1 in entries && k in entries[i - 1].writeset then Some(i - 1)
    else NearestEntry(entries, i - 1, k)
  }

  /* The same commands on the store's table. */

  function Performed(t: Table, command: Command): Table {
    match command
    case PutWriteset(i, incarnation, writeset) => StoreWriteset(t, i, incarnation, writeset)
    case PutEstimates(i, incarnation, writeset) => StoreEstimates(t, i, incarnation, writeset.Keys)
    case MarkInvalid(i, incarnation) => Invalidate(t, i, incarnation)
  }

  function TableAfter(commands: seq<Command>): Table {
    if commands == [] then map[] else Performed(TableAfter(commands[..|commands| - 1]), commands[|commands| - 1])
  }

  /** The slot holds exactly the entry: its key list, and one version per key. */
  ghost predicate SlotHolds(s: Slot, entries: EntryTable, i: nat) {
    Supported(s) &&
    if i in entries then
      s.keys == Some(entries[i].writeset.Keys) &&
      forall k :: k in entries[i].writeset ==>
        k in s.row && s.row[k].incarnation == entries[i].incarnation && s.row[k].estimate == entries[i].estimate &&
        s.row[k].value == if entries[i].estimate then 0 else entries[i].writeset[k]
    else s.keys.None?
  }

  ghost predicate Represents(t: Table, entries: EntryTable) {
    forall i: nat :: SlotHolds(At(t, i), entries, i)
  }

  lemma CommandKeepsRepresentation(t: Table, entries: EntryTable, command: Command)
    requires Represents(t, entries)
    ensures Represents(Performed(t, command), Entered(entries, command))
  {
    var t', entries' := Performed(t, command), Entered(entries, command);
    forall i: nat ensures SlotHolds(At(t', i), entries', i) {
      assert SlotHolds(At(t, i), entries, i);
      if i == command.index {
        assert At(t, i).row - ListedKeys(At(t, i)) == map[];
      }
    }
  }

  /** After any sequence of commands, key lists and versions are those of the entries. */
  lemma {:induction false} CommandsAreEntries(commands: seq<Command>)
    ensures Represents(TableAfter(commands), EntriesAfter(commands))
  {
    if commands != [] {
      CommandsAreEntries(commands[..|commands| - 1]);
      CommandKeepsRepresentation(TableAfter(commands[..|commands| - 1]), EntriesAfter(commands[..|commands| - 1]),
                                 commands[|commands| - 1]);
    }
  }

  lemma {:induction false} ScanIsNearestEntry(t: Table, entries: EntryTable, i: nat, k: StorageKey)
    requires Represents(t, entries)
    ensures Scan(t, i, k) == NearestEntry(entries, i, k)
    ensures NearestEntry(entries, i, k).Some? ==>
              var m := NearestEntry(entries, i, k).value;
              At(t, m).row[k] ==
              Cell(entries[m].incarnation, if entries[m].estimate then 0 else entries[m].writeset[k],
                   entries[m].estimate)
  {
    if i > 0 {
      assert SlotHolds(At(t, i - 1), entries, i - 1);
      ScanIsNearestEntry(t, entries, i - 1, k);
    }
  }

  /** A store object that has been through any sequence of commands answers a lookup with the nearest
      lower entry that has the key. */
  method LookupAfter(commands: seq<Command>, index: nat, key: StorageKey) returns (found: Option<ValueItem>)
    ensures var entries := EntriesAfter(commands);
            match NearestEntry(entries, index, key)
            case None => found.None?
            case Some(j) =>
              found.Some? && found.value.index == j && found.value.cell.incarnation == entries[j].incarnation &&
              found.value.cell.estimate == entries[j].estimate &&
              found.value.cell.value == if entries[j].estimate then 0 else entries[j].writeset[key]
  {
    var parent := new StateDB(map[], map[]);
    var store := new Store(parent);
    for n := 0 to |commands|
      invariant store.Valid() && fresh(store) && fresh(store.items)
      invariant store.table == TableAfter(commands[..n])
    {
      match commands[n] {
        case PutWriteset(i, incarnation, writeset) => store.SetWriteset(i, incarnation, writeset);
        case PutEstimates(i, incarnation, writeset) => store.SetEstimatedWriteset(i, incarnation, writeset);
        case MarkInvalid(i, incarnation) => store.InvalidateWriteset(i, incarnation);
      }
      assert commands[..n + 1][..n] == commands[..n];
    }
    assert commands[..|commands|] == commands;
    CommandsAreEntries(commands);
    ScanIsNearestEntry(store.table, EntriesAfter(commands), index, key);
    found := store.GetLatestBeforeIndex(index, key);
  }
}
