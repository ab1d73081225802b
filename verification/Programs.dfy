/** Transactions as deterministic programs, run either directly on a state or through the recording
    sets of the access tracer (multiversion/tracer.go). */
module Programs {
  import opened Storage

  /** What a transaction hands back: its receipt and its trace, opaque here. */
  datatype Response = Response(receipt: int, trace: int)

  /** A transaction: what it does after a read depends only on the value read. As there are finitely
      many words, a finite table of branches with a default covers every such dependence. `Fail` is a
      transaction that the chain refuses (ApplyTransaction returns an error). */
  datatype Program =
    | Done(response: Response)
    | Fail
    | Read(key: StorageKey, branches: map<Hash, Program>, otherwise: Program)
    | Write(key: StorageKey, value: Hash, next: Program)

  function AfterRead(p: Program, v: Hash): (q: Program)
    requires p.Read?
    ensures q < p
  {
    if v in p.branches then p.branches[v] else p.otherwise
  }

  type ReadSet = map<StorageKey, seq<Hash>>
  type WriteSet = map<StorageKey, Hash>

  datatype Outcome = Outcome(readset: ReadSet, writeset: WriteSet, result: Option<Response>)

  /** The value a tracer `Get` returns: its own write, else its first read, else the parent state. */
  function Seen(s: State, readset: ReadSet, writeset: WriteSet, k: StorageKey): Hash {
    if k in writeset then writeset[k]
    else if k in readset && readset[k] != [] then readset[k][0]
    else Lookup(s, k)
  }

  /** The readset after that `Get`: a key is recorded only when it was looked up in the parent state. */
  function Recorded(s: State, readset: ReadSet, writeset: WriteSet, k: StorageKey): ReadSet {
    if k in writeset || (k in readset && readset[k] != []) then readset else readset[k := [Lookup(s, k)]]
  }

  /** A traced run of `p` over parent state `s`, continued from what was recorded so far. */
  function Run(p: Program, s: State, readset: ReadSet, writeset: WriteSet): Outcome
    decreases p
  {
    match p
    case Done(r) => Outcome(readset, writeset, Some(r))
    case Fail => Outcome(readset, writeset, None)
    case Write(k, v, next) => Run(next, s, readset, writeset[k := v])
    case Read(k, _, _) =>
      Run(AfterRead(p, Seen(s, readset, writeset, k)), s, Recorded(s, readset, writeset, k), writeset)
  }

  function RunFresh(p: Program, s: State): Outcome {
    Run(p, s, map[], map[])
  }

  /** The reference: the program applied to a state of its own, with no recording at all. */
  datatype Effect = Effect(state: State, result: Option<Response>)

  function Apply(p: Program, s: State): Effect
    decreases p
  {
    match p
    case Done(r) => Effect(s, Some(r))
    case Fail => Effect(s, None)
    case Write(k, v, next) => Apply(next, s[k := v])
    case Read(k, _, _) => Apply(AfterRead(p, Lookup(s, k)), s)
  }

  /** One transaction on its own: a refused transaction leaves the state as it was. */
  function ApplyTransaction(p: Program, s: State): Effect {
    var e := Apply(p, s);
    if e.result.Some? then e else Effect(s, None)
  }

  /** `s` holds, for every key of `readset`, the one value recorded for it. */
  ghost predicate Agrees(s: State, readset: ReadSet) {
    forall k :: k in readset ==> readset[k] == [Lookup(s, k)]
  }

  lemma {:induction false} RunRecords(p: Program, s: State, readset: ReadSet, writeset: WriteSet)
    requires Agrees(s, readset)
    ensures Agrees(s, Run(p, s, readset, writeset).readset)
    ensures readset.Keys <= Run(p, s, readset, writeset).readset.Keys
    ensures writeset.Keys <= Run(p, s, readset, writeset).writeset.Keys
    ensures forall k :: k in readset ==> Run(p, s, readset, writeset).readset[k] == readset[k]
    decreases p
  {
    match p
    case Done(_) =>
    case Fail =>
    case Write(k, v, next) => RunRecords(next, s, readset, writeset[k := v]);
    case Read(k, _, _) =>
      RunRecords(AfterRead(p, Seen(s, readset, writeset, k)), s, Recorded(s, readset, writeset, k), writeset);
  }

  /** Replay: any state that agrees with the recorded reads reproduces reads, writes and result. */
  lemma {:induction false} Replay(p: Program, s: State, other: State, readset: ReadSet, writeset: WriteSet)
    requires Agrees(s, readset)
    requires Agrees(other, Run(p, s, readset, writeset).readset)
    ensures Run(p, other, readset, writeset) == Run(p, s, readset, writeset)
    decreases p
  {
    match p
    case Done(_) =>
    case Fail =>
    case Write(k, v, next) => Replay(next, s, other, readset, writeset[k := v]);
    case Read(k, _, _) =>
      var readset' := Recorded(s, readset, writeset, k);
      var next := AfterRead(p, Seen(s, readset, writeset, k));
      RunRecords(next, s, readset', writeset);
      if k !in writeset {
        assert k in readset';
        assert Lookup(other, k) == Lookup(s, k) by {
          assert Run(next, s, readset', writeset).readset[k] == readset'[k];
        }
      }
      Replay(next, s, other, readset', writeset);
  }

  /** A traced run computes what running the program directly computes: its writeset is exactly the
      change of state. */
  lemma {:induction false} TracedIsDirect(p: Program, s: State, readset: ReadSet, writeset: WriteSet)
    requires Agrees(s, readset)
    ensures Apply(p, s + writeset) ==
            Effect(s + Run(p, s, readset, writeset).writeset, Run(p, s, readset, writeset).result)
    decreases p
  {
    match p
    case Done(_) =>
    case Fail =>
    case Write(k, v, next) =>
      assert (s + writeset)[k := v] == s + writeset[k := v];
      TracedIsDirect(next, s, readset, writeset[k := v]);
    case Read(k, _, _) =>
      assert Seen(s, readset, writeset, k) == Lookup(s + writeset, k);
      TracedIsDirect(AfterRead(p, Lookup(s + writeset, k)), s, Recorded(s, readset, writeset, k), writeset);
  }

  /** Running the block one transaction after the other, in index order. */
  function SerialState(block: seq<Program>, init: State, j: nat): State
    requires j <= |block|
  {
    if j == 0 then init else ApplyTransaction(block[j - 1], SerialState(block, init, j - 1)).state
  }

  function SerialResult(block: seq<Program>, init: State, j: nat): Option<Response>
    requires j < |block|
  {
    ApplyTransaction(block[j], SerialState(block, init, j)).result
  }

  function SerialOutcome(block: seq<Program>, init: State, j: nat): Outcome
    requires j < |block|
  {
    RunFresh(block[j], SerialState(block, init, j))
  }

  /** A tracer run over the serial state yields the serial result, and its writeset leads to the next
      serial state. */
  lemma SerialStep(block: seq<Program>, init: State, j: nat)
    requires j < |block|
    ensures SerialOutcome(block, init, j).result == SerialResult(block, init, j)
    ensures SerialOutcome(block, init, j).result.Some? ==>
              SerialState(block, init, j + 1) == SerialState(block, init, j) + SerialOutcome(block, init, j).writeset
  {
    var s := SerialState(block, init, j);
    assert s + map[] == s;
    TracedIsDirect(block[j], s, map[], map[]);
  }
}
