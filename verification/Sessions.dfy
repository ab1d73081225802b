/** The session of one tracer (multiversion/tracer.go) as a value: what it has recorded so far, and how
    each access changes it. */
module Sessions {
  import opened Storage
  import opened Programs
  import opened Table

  /** What one tracer holds: the recorded sets and the first abort that reached its channel. */
  datatype Session = Session(readset: ReadSet, writeset: WriteSet, abort: Option<nat>)

  const NEW_SESSION := Session(map[], map[], None)

  /** A tracer `Get` of transaction `i`: the version store is consulted only to notice an estimate, and
      only when the key is in neither recorded set; the first abort wins, as the channel holds one. */
  function SessionRead(t: Table, parent: State, i: nat, s: Session, k: StorageKey): Session {
    if k in s.writeset || (k in s.readset && s.readset[k] != []) then s
    else
      Session(Recorded(parent, s.readset, s.writeset, k), s.writeset,
              if s.abort.None? && BlockedByEstimate(t, i, k) then Scan(t, i, k) else s.abort)
  }

  function SessionWrite(s: Session, k: StorageKey, v: Hash): Session {
    s.(writeset := s.writeset[k := v])
  }

  /** The session after a program has run to its end with nobody else moving. */
  function SessionRun(p: Program, t: Table, parent: State, i: nat, s: Session): Session
    decreases p
  {
    match p
    case Done(_) => s
    case Fail => s
    case Write(k, v, next) => SessionRun(next, t, parent, i, SessionWrite(s, k, v))
    case Read(k, _, _) =>
      SessionRun(AfterRead(p, Seen(parent, s.readset, s.writeset, k)), t, parent, i, SessionRead(t, parent, i, s, k))
  }

  /** The recorded sets are those of a traced run over the parent state alone: the store decides about
      the abort and about nothing else. */
  lemma {:induction false} SessionRunRecords(p: Program, t: Table, parent: State, i: nat, s: Session)
    ensures var o := Run(p, parent, s.readset, s.writeset);
            SessionRun(p, t, parent, i, s).readset == o.readset && SessionRun(p, t, parent, i, s).writeset == o.writeset
    decreases p
  {
    match p
    case Done(_) =>
    case Fail =>
    case Write(k, v, next) => SessionRunRecords(next, t, parent, i, SessionWrite(s, k, v));
    case Read(k, _, _) =>
      SessionRunRecords(AfterRead(p, Seen(parent, s.readset, s.writeset, k)), t, parent, i,
                        SessionRead(t, parent, i, s, k));
  }

  /** What the abort of a session says: some recorded key is blocked by an estimate, and the abort names the
      slot of such an estimate. */
  ghost predicate AbortIsSound(t: Table, i: nat, s: Session) {
    (s.abort.Some? <==> exists k :: k in s.readset && BlockedByEstimate(t, i, k)) &&
    (s.abort.Some? ==>
       s.abort.value < i &&
       exists k :: k in s.readset && Scan(t, i, k) == s.abort && At(t, s.abort.value).row[k].estimate)
  }

  lemma ReadKeepsAbortSound(t: Table, parent: State, i: nat, s: Session, k: StorageKey)
    requires AbortIsSound(t, i, s)
    ensures AbortIsSound(t, i, SessionRead(t, parent, i, s, k))
  {
    var s' := SessionRead(t, parent, i, s, k);
    if s' != s {
      assert s'.readset.Keys == s.readset.Keys + {k};
      if s.abort.Some? {
        var k' :| k' in s.readset && Scan(t, i, k') == s.abort && At(t, s.abort.value).row[k'].estimate;
        assert k' in s'.readset && BlockedByEstimate(t, i, k');
      } else if BlockedByEstimate(t, i, k) {
        assert k in s'.readset && Scan(t, i, k) == s'.abort;
      }
    }
  }

  /** The session aborts exactly when some key it recorded is blocked by an estimate in a lower slot, and
      then on the slot of such an estimate. */
  lemma {:induction false} SessionAbortIsExact(p: Program, t: Table, parent: State, i: nat, s: Session)
    requires AbortIsSound(t, i, s)
    ensures var e := SessionRun(p, t, parent, i, s);
            (e.abort.Some? <==> exists k :: k in e.readset && BlockedByEstimate(t, i, k)) &&
            (e.abort.Some? ==> e.abort.value < i) &&
            (e.abort.Some? ==>
               exists k :: k in e.readset && Scan(t, i, k) == e.abort && At(t, e.abort.value).row[k].estimate)
    decreases p
  {
    match p
    case Done(_) =>
    case Fail =>
    case Write(k, v, next) => SessionAbortIsExact(next, t, parent, i, SessionWrite(s, k, v));
    case Read(k, _, _) =>
      ReadKeepsAbortSound(t, parent, i, s, k);
      SessionAbortIsExact(AfterRead(p, Seen(parent, s.readset, s.writeset, k)), t, parent, i,
                          SessionRead(t, parent, i, s, k));
  }
}
