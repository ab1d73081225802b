/** The multi-version store as the simple table it stands for: one slot per transaction index, holding
    the versions that transaction wrote, the list of keys it wrote, and its readset. The classes of
    VersionTree.dfy and Store.dfy are proved against this table. */
module Table {
  import opened Storage
  import opened Programs

  /** One version of a key. A zero value that is no estimate marks a deletion. */
  datatype Cell = Cell(incarnation: nat, value: Hash, estimate: bool)

  type Row = map<StorageKey, Cell>

  datatype Slot = Slot(row: Row, keys: Option<set<StorageKey>>, readset: Option<ReadSet>)

  type Table = map<nat, Slot>

  function At(t: Table, i: nat): Slot {
    if i in t then t[i] else Slot(map[], None, None)
  }

  function ListedKeys(s: Slot): set<StorageKey> {
    if s.keys.Some? then s.keys.value else {}
  }

  /** The key list names exactly the keys that have a version at this index. */
  ghost predicate Supported(s: Slot) {
    s.row.Keys == ListedKeys(s)
  }

  function ValueCell(incarnation: nat, value: Hash): Cell {
    Cell(incarnation, value, false)
  }

  function EstimateCell(incarnation: nat): Cell {
    Cell(incarnation, ZERO, true)
  }

  /** The row of a transaction whose writeset was stored, and of one that stored estimates only. */
  function WrittenRow(incarnation: nat, writeset: WriteSet): Row {
    map k | k in writeset :: ValueCell(incarnation, writeset[k])
  }

  function EstimatedRow(incarnation: nat, keys: set<StorageKey>): Row {
    map k | k in keys :: EstimateCell(incarnation)
  }

  ghost predicate NoEstimates(row: Row) {
    forall k :: k in row ==> !row[k].estimate
  }

  ghost predicate OnlyEstimates(row: Row) {
    forall k :: k in row ==> row[k].estimate
  }

  /** The nearest index below `i` that has a version of `k`, found by walking the table downwards. */
  function Scan(t: Table, i: nat, k: StorageKey): (j: Option<nat>)
    ensures j.Some? ==> j.value < i && k in At(t, j.value).row
  {
    if i == 0 then None
    else if k in At(t, i - 1).row then Some(i - 1)
    else Scan(t, i - 1, k)
  }

  lemma {:induction false} ScanIsNearest(t: Table, i: nat, k: StorageKey)
    ensures match Scan(t, i, k)
            case None => forall m: nat :: m < i ==> k !in At(t, m).row
            case Some(j) => forall m: nat :: j < m < i ==> k !in At(t, m).row
  {
    if i > 0 && k !in At(t, i - 1).row {
      ScanIsNearest(t, i - 1, k);
    }
  }

  /** Only the keys of the rows below `i` matter to a scan from `i`. */
  lemma {:induction false} ScanFrame(t: Table, u: Table, i: nat, k: StorageKey)
    requires forall m: nat :: m < i ==> (k in At(t, m).row <==> k in At(u, m).row)
    ensures Scan(t, i, k) == Scan(u, i, k)
  {
    if i > 0 && k !in At(t, i - 1).row {
      ScanFrame(t, u, i - 1, k);
    }
  }

  /** The value transaction `i` should see at `k`: the nearest lower version, else the parent state. */
  function Resolved(t: Table, parent: State, i: nat, k: StorageKey): Hash {
    match Scan(t, i, k)
    case None => Lookup(parent, k)
    case Some(j) => At(t, j).row[k].value
  }

  predicate BlockedByEstimate(t: Table, i: nat, k: StorageKey) {
    var j := Scan(t, i, k);
    j.Some? && At(t, j.value).row[k].estimate
  }

  /** A recorded read still stands: one value, no estimate in the way, and the value is the resolved one. */
  predicate KeyStands(t: Table, parent: State, i: nat, k: StorageKey, values: seq<Hash>) {
    |values| == 1 && !BlockedByEstimate(t, i, k) && values[0] == Resolved(t, parent, i, k)
  }

  ghost predicate ReadsetStands(t: Table, parent: State, i: nat, readset: ReadSet) {
    forall k :: k in readset ==> KeyStands(t, parent, i, k, readset[k])
  }

  /** No read of the readset has an estimate in its way. */
  ghost predicate Unblocked(t: Table, i: nat, readset: ReadSet) {
    forall k :: k in readset ==> !BlockedByEstimate(t, i, k)
  }

  /** Index `j` is to blame for a single-valued read of `k`: it is the nearest lower writer, and it is
      an estimate or wrote something else. */
  predicate Blames(t: Table, i: nat, k: StorageKey, values: seq<Hash>, j: nat) {
    |values| == 1 && Scan(t, i, k) == Some(j) &&
    (At(t, j).row[k].estimate || At(t, j).row[k].value != values[0])
  }

  /** The indices to blame for the reads of a readset. */
  ghost predicate Blamed(t: Table, i: nat, readset: ReadSet, j: nat) {
    exists k :: k in readset && Blames(t, i, k, readset[k], j)
  }

  /* The operations of the store, on the table. */

  /** The new writeset replaces the old one, whose keys are removed first. */
  function StoreWriteset(t: Table, i: nat, incarnation: nat, writeset: WriteSet): Table {
    var s := At(t, i);
    t[i := s.(row := (s.row - ListedKeys(s)) + WrittenRow(incarnation, writeset), keys := Some(writeset.Keys))]
  }

  function StoreEstimates(t: Table, i: nat, incarnation: nat, keys: set<StorageKey>): Table {
    var s := At(t, i);
    t[i := s.(row := (s.row - ListedKeys(s)) + EstimatedRow(incarnation, keys), keys := Some(keys))]
  }

  /** Every listed key becomes an estimate; the list stays. */
  function Invalidate(t: Table, i: nat, incarnation: nat): Table {
    var s := At(t, i);
    if ListedKeys(s) == {} then t else t[i := s.(row := s.row + EstimatedRow(incarnation, ListedKeys(s)))]
  }

  function WithReadset(t: Table, i: nat, readset: Option<ReadSet>): Table {
    t[i := At(t, i).(readset := readset)]
  }

  /* The flush of versions into the parent state. */

  /** `h` holds the highest version of `k` that is not an estimate. */
  ghost predicate Newest(t: Table, k: StorageKey, h: nat) {
    k in At(t, h).row && !At(t, h).row[k].estimate &&
    forall m: nat :: m > h && k in At(t, m).row ==> At(t, m).row[k].estimate
  }

  ghost predicate HasNewest(t: Table, k: StorageKey) {
    exists h: nat :: Newest(t, k, h)
  }

  /** What a flush of the window [lo, hi) does to one key that held `before`. */
  ghost predicate FlushedKey(t: Table, lo: nat, hi: nat, k: StorageKey, before: Hash, after: Hash) {
    (forall h: nat :: Newest(t, k, h) ==> after == if lo <= h < hi then At(t, h).row[k].value else before) &&
    (!HasNewest(t, k) ==> after == before)
  }

  /** State `q` is state `p` after a flush of the window [lo, hi). */
  ghost predicate Flushed(t: Table, lo: nat, hi: nat, p: State, q: State) {
    forall k :: FlushedKey(t, lo, hi, k, Lookup(p, k), Lookup(q, k))
  }

  ghost predicate FlushedKeyAll(t: Table, k: StorageKey, before: Hash, after: Hash) {
    (forall h: nat :: Newest(t, k, h) ==> after == At(t, h).row[k].value) &&
    (!HasNewest(t, k) ==> after == before)
  }

  /** State `q` is state `p` after the final flush of everything. */
  ghost predicate FlushedAll(t: Table, p: State, q: State) {
    forall k :: FlushedKeyAll(t, k, Lookup(p, k), Lookup(q, k))
  }

  /** Below `i`, index `m` holds the highest version of `k` that is not an estimate. */
  ghost predicate Top(t: Table, i: nat, k: StorageKey, m: nat) {
    m < i && k in At(t, m).row && !At(t, m).row[k].estimate &&
    forall n: nat :: m < n < i && k in At(t, n).row ==> At(t, n).row[k].estimate
  }

  ghost predicate NoTop(t: Table, i: nat, k: StorageKey) {
    forall m: nat :: m < i && k in At(t, m).row ==> At(t, m).row[k].estimate
  }

  lemma NewestIsUnique(t: Table, k: StorageKey, h: nat, h': nat)
    requires Newest(t, k, h) && Newest(t, k, h')
    ensures h == h'
  {
  }

  /** On an unchanged store, adjacent windows compose, in either way of cutting. */
  lemma FlushWindowsCompose(t: Table, lo: nat, mid: nat, hi: nat, p: State, q: State, r: State)
    requires lo <= mid <= hi
    requires Flushed(t, lo, mid, p, q) && Flushed(t, mid, hi, q, r)
    ensures Flushed(t, lo, hi, p, r)
  {
    forall k ensures FlushedKey(t, lo, hi, k, Lookup(p, k), Lookup(r, k)) {
      assert FlushedKey(t, lo, mid, k, Lookup(p, k), Lookup(q, k));
      assert FlushedKey(t, mid, hi, k, Lookup(q, k), Lookup(r, k));
    }
  }

  /** A window that covers every index of the table is the final flush. */
  lemma FullWindowIsFinalFlush(t: Table, hi: nat, p: State, q: State)
    requires forall i :: i in t ==> i < hi
    ensures Flushed(t, 0, hi, p, q) <==> FlushedAll(t, p, q)
  {
    forall k
      ensures FlushedKey(t, 0, hi, k, Lookup(p, k), Lookup(q, k)) <==> FlushedKeyAll(t, k, Lookup(p, k), Lookup(q, k))
    {
    }
  }

  /** A flush changes a key only when its highest version that is not an estimate lies in the window,
      so a higher such version outside the window hides a lower one inside it. */
  lemma FlushIsConfined(t: Table, lo: nat, hi: nat, p: State, q: State, k: StorageKey)
    requires Flushed(t, lo, hi, p, q)
    ensures Lookup(q, k) != Lookup(p, k) ==>
              exists h: nat :: lo <= h < hi && Newest(t, k, h) && At(t, h).row[k].value == Lookup(q, k)
    ensures forall h: nat, low: nat :: Newest(t, k, h) && h >= hi && lo <= low < hi && k in At(t, low).row ==>
              Lookup(q, k) == Lookup(p, k)
  {
    assert FlushedKey(t, lo, hi, k, Lookup(p, k), Lookup(q, k));
    if Lookup(q, k) != Lookup(p, k) {
      assert HasNewest(t, k);
      var h: nat :| Newest(t, k, h);
      assert lo <= h < hi && Newest(t, k, h);
    }
  }
}
