/** The access tracer (multiversion/tracer.go): one object per execution of a transaction, which records
    first reads and last writes, and reports a read that an estimate blocks. */
module Tracer {
  import opened Storage
  import opened Programs
  import opened Table
  import opened Sessions
  import opened Fees
  import opened MultiVersionStore

  /** How a validation of the tracer's own readset ends. */
  datatype Verdict = Stands | Fails | Panics

  /** Every recorded key that has no lower version reads the same through GetValue and GetState. */
  ghost predicate OrdinaryReads(t: Table, values: State, storage: State, i: nat, readset: ReadSet) {
    forall k :: k in readset && Scan(t, i, k).None? ==> Lookup(values, k) == Lookup(storage, k)
  }

  /** A readset that stands over one view of the state stands over the other exactly if its reads are
      ordinary. */
  lemma StandsOverBothIffOrdinary(t: Table, values: State, storage: State, i: nat, readset: ReadSet)
    requires ReadsetStands(t, values, i, readset) || ReadsetStands(t, storage, i, readset)
    ensures ReadsetStands(t, values, i, readset) && ReadsetStands(t, storage, i, readset) <==>
            OrdinaryReads(t, values, storage, i, readset)
  {
    forall k | k in readset
      ensures KeyStands(t, values, i, k, readset[k]) && KeyStands(t, storage, i, k, readset[k]) ==>
                Scan(t, i, k).Some? || Lookup(values, k) == Lookup(storage, k)
      ensures Scan(t, i, k).Some? || Lookup(values, k) == Lookup(storage, k) ==>
                (KeyStands(t, values, i, k, readset[k]) <==> KeyStands(t, storage, i, k, readset[k]))
    {
    }
  }

  /** The two validations of a readset agree if and only if its reads are ordinary, or neither accepts. */
  lemma ValidatorsAgreeIff(t: Table, values: State, storage: State, i: nat, readset: ReadSet)
    ensures (ReadsetStands(t, values, i, readset) <==> ReadsetStands(t, storage, i, readset)) <==>
            (OrdinaryReads(t, values, storage, i, readset) ||
             (!ReadsetStands(t, values, i, readset) && !ReadsetStands(t, storage, i, readset)))
  {
    if ReadsetStands(t, values, i, readset) || ReadsetStands(t, storage, i, readset) {
      StandsOverBothIffOrdinary(t, values, storage, i, readset);
    }
  }

  class AccessListTracer {
    var readset: ReadSet
    var writeset: WriteSet
    var aborted: Option<nat>  // the abort channel, which holds one value
    const multiVersionStore: Store
    const transactionIndex: nat
    const incarnation: nat

    constructor (store: Store, index: nat, incarnation: nat)
      ensures multiVersionStore == store && transactionIndex == index && this.incarnation == incarnation
      ensures Recording() == NEW_SESSION
    {
      multiVersionStore, transactionIndex, this.incarnation := store, index, incarnation;
      readset, writeset, aborted := map[], map[], None;
    }

    function Recording(): Session
      reads this
    {
      Session(readset, writeset, aborted)
    }

    /** A recorded key has a recorded value. */
    ghost predicate ReadsOnce()
      reads this
    {
      forall k :: k in readset ==> readset[k] != []
    }

    ghost function ParentState(): State
      reads multiVersionStore.parentStore
    {
      multiVersionStore.parentStore.kv
    }

    ghost function TableSeen(): Table
      reads multiVersionStore
    {
      multiVersionStore.table
    }

    /** What a `Get` of the key would return. */
    ghost function Sees(key: StorageKey): Hash
      reads this, multiVersionStore.parentStore
    {
      Seen(ParentState(), readset, writeset, key)
    }

    /** What the state's GetState says, which the validation below asks instead of GetValue. */
    ghost function ParentStorage(): State
      reads multiVersionStore.parentStore
    {
      multiVersionStore.parentStore.storage
    }

    /** The channel keeps its first value; later ones are discarded. */
    method WriteAbort(dependentTxIdx: nat)
      modifies this`aborted
      ensures aborted == if old(aborted).None? then Some(dependentTxIdx) else old(aborted)
    {
      if aborted.None? {
        aborted := Some(dependentTxIdx);
      }
    }

    method UpdateReadSet(key: StorageKey, value: Hash)
      modifies this`readset
      ensures var before := if key in old(readset) then old(readset)[key] else [];
              readset == old(readset)[key := if value in before then before else before + [value]]
    {
      if key !in readset {
        readset := readset[key := []];
      }
      for n := 0 to |readset[key]|
        invariant readset == old(readset)[key := if key in old(readset) then old(readset)[key] else []]
        invariant value !in readset[key][..n]
      {
        if readset[key][n] == value {
          return;
        }
      }
      readset := readset[key := readset[key] + [value]];
    }

    /** Own write, first read, or the parent state, in this order; the store is asked for estimates only. */
    method Get(key: StorageKey) returns (value: Hash)
      requires multiVersionStore.Valid()
      requires ReadsOnce()
      modifies this`readset, this`aborted
      ensures value == Seen(ParentState(), old(readset), old(writeset), key)
      ensures Recording() == SessionRead(TableSeen(), ParentState(), transactionIndex, old(Recording()), key)
      ensures key in writeset ==> value == writeset[key]
      ensures key !in writeset && key in old(readset) ==> value == old(readset)[key][0]
      ensures key in writeset || key in old(readset) ==> readset == old(readset) && aborted == old(aborted)
      ensures key !in writeset && key !in old(readset) ==>
                value == Lookup(ParentState(), key) && readset == old(readset)[key := [value]]
      ensures key !in writeset && key !in old(readset) ==>
                var j := Scan(TableSeen(), transactionIndex, key);
                if old(aborted).None? && j.Some? && At(TableSeen(), j.value).row[key].estimate
                then aborted == j else aborted == old(aborted)
      ensures ReadsOnce()
    {
      if key in writeset {
        return writeset[key];
      }
      if key in readset {
        return readset[key][0];
      }
      var mvsValue := multiVersionStore.GetLatestBeforeIndex(transactionIndex, key);
      if mvsValue.Some? && mvsValue.value.IsEstimate() {
        WriteAbort(mvsValue.value.index);
      }
      value := multiVersionStore.parentStore.GetValue(key);
      assert [] + [value] == [value];
      UpdateReadSet(key, value);
    }

    method Set(key: StorageKey, value: Hash)
      modifies this`writeset
      ensures Recording() == SessionWrite(old(Recording()), key, value)
    {
      writeset := writeset[key := value];
    }

    /** The next access of a running program, which the rest of the run follows. */
    method Access(program: Program) returns (rest: Program)
      requires multiVersionStore.Valid() && ReadsOnce() && (program.Read? || program.Write?)
      modifies this`readset, this`writeset, this`aborted
      ensures rest < program && ReadsOnce()
      ensures SessionRun(rest, TableSeen(), ParentState(), transactionIndex, Recording()) ==
              SessionRun(program, TableSeen(), ParentState(), transactionIndex, old(Recording()))
      ensures Run(rest, ParentState(), readset, writeset) == Run(program, ParentState(), old(readset), old(writeset))
    {
      if program.Read? {
        var value := Get(program.key);
        rest := AfterRead(program, value);
      } else {
        Set(program.key, program.value);
        rest := program.next;
      }
    }

    /** Runs a transaction to its end through this tracer, with nobody else moving. The recorded sets and
        the result are those of a traced run over the parent state; it aborts exactly when a key it had
        to read from the parent state is blocked by an estimate. */
    method Deliver(program: Program) returns (result: Option<Response>)
      requires multiVersionStore.Valid() && Recording() == NEW_SESSION
      modifies this`readset, this`writeset, this`aborted
      ensures Outcome(readset, writeset, result) == RunFresh(program, ParentState())
      ensures Recording() == SessionRun(program, TableSeen(), ParentState(), transactionIndex, NEW_SESSION)
      ensures aborted.Some? <==> exists k :: k in readset && BlockedByEstimate(TableSeen(), transactionIndex, k)
      ensures aborted.Some? ==> aborted.value < transactionIndex
      ensures aborted.Some? ==>
                exists k :: k in readset && Scan(TableSeen(), transactionIndex, k) == aborted &&
                            At(TableSeen(), aborted.value).row[k].estimate
    {
      SessionRunRecords(program, TableSeen(), ParentState(), transactionIndex, NEW_SESSION);
      SessionAbortIsExact(program, TableSeen(), ParentState(), transactionIndex, NEW_SESSION);
      var rest := program;
      while rest.Read? || rest.Write?
        invariant multiVersionStore.Valid()
        invariant ReadsOnce()
        invariant SessionRun(rest, TableSeen(), ParentState(), transactionIndex, Recording()) ==
                  SessionRun(program, TableSeen(), ParentState(), transactionIndex, NEW_SESSION)
        invariant Run(rest, ParentState(), readset, writeset) == RunFresh(program, ParentState())
        decreases rest
      {
        rest := Access(rest);
      }
      result := if rest.Done? then Some(rest.response) else None;
    }

    /** Publishes the run: the writeset becomes the versions of this transaction, the readset is stored. */
    method WriteToMultiVersionStore()
      requires multiVersionStore.Valid()
      modifies multiVersionStore, multiVersionStore.items
      ensures multiVersionStore.Valid() && old(multiVersionStore.items) <= multiVersionStore.items
      ensures fresh(multiVersionStore.items - old(multiVersionStore.items))
      ensures TableSeen() ==
              WithReadset(StoreWriteset(old(TableSeen()), transactionIndex, incarnation, writeset), transactionIndex,
                          Some(readset))
    {
      multiVersionStore.SetWriteset(transactionIndex, incarnation, writeset);
      multiVersionStore.SetReadset(transactionIndex, readset);
    }

    method WriteEstimatesToMultiVersionStore()
      requires multiVersionStore.Valid()
      modifies multiVersionStore, multiVersionStore.items
      ensures multiVersionStore.Valid() && old(multiVersionStore.items) <= multiVersionStore.items
      ensures fresh(multiVersionStore.items - old(multiVersionStore.items))
      ensures TableSeen() == StoreEstimates(old(TableSeen()), transactionIndex, incarnation, writeset.Keys)
    {
      multiVersionStore.SetEstimatedWriteset(transactionIndex, incarnation, writeset);
    }

    ghost predicate KeyHolds(k: StorageKey)
      reads this`readset, multiVersionStore, multiVersionStore.parentStore
      requires k in readset
    {
      KeyStands(TableSeen(), ParentStorage(), transactionIndex, k, readset[k])
    }

    /** Validates one recorded read: against the nearest lower version, or else the state's GetState. */
    method ValidateRead(key: StorageKey) returns (verdict: Verdict)
      requires multiVersionStore.Valid() && key in readset
      modifies this`aborted
      ensures verdict.Stands? <==> KeyHolds(key)
      ensures verdict.Panics? ==> |readset[key]| == 1 && Scan(TableSeen(), transactionIndex, key).None?
      ensures verdict.Fails? && |readset[key]| == 1 ==> Scan(TableSeen(), transactionIndex, key).Some?
      ensures aborted ==
              if verdict.Fails? && |readset[key]| == 1 && old(aborted).None? &&
                 BlockedByEstimate(TableSeen(), transactionIndex, key)
              then Scan(TableSeen(), transactionIndex, key) else old(aborted)
    {
      var values := readset[key];
      if |values| != 1 {
        return Fails;
      }
      var mvsValue := multiVersionStore.GetLatestBeforeIndex(transactionIndex, key);
      if mvsValue.Some? {
        var item := mvsValue.value;
        if item.IsEstimate() {
          WriteAbort(item.index);
          return Fails;
        } else if item.IsDeleted() {
          return if values[0] != ZERO then Fails else Stands;
        }
        return if values[0] != item.cell.value then Fails else Stands;
      }
      return if multiVersionStore.parentStore.GetState(key) != values[0] then Panics else Stands;
    }

    /** Validates the recorded reads in key order and stops at the first that does not stand. A read
        without a lower version is compared with the state's GetState, and panics if it differs. If
        the exhaustive check of the store accepts the readset, this validation does exactly if all its
        reads are ordinary; and if this one accepts it, so does the store's on the same condition. */
    method ValidateReadset() returns (verdict: Verdict, ghost culprit: Option<StorageKey>)
      requires multiVersionStore.Valid()
      modifies this`aborted
      ensures verdict.Stands? <==> ReadsetStands(TableSeen(), ParentStorage(), transactionIndex, readset)
      ensures var valid := ReadsetStands(TableSeen(), ParentState(), transactionIndex, readset);
              var ordinary := OrdinaryReads(TableSeen(), ParentState(), ParentStorage(), transactionIndex, readset);
              (verdict.Stands? <==> valid) <==> (ordinary || (!verdict.Stands? && !valid))
      ensures !verdict.Stands? ==>
                culprit.Some? && culprit.value in readset && !KeyHolds(culprit.value) &&
                forall k :: k in readset && KeyLess(k, culprit.value) ==> KeyHolds(k)
      ensures verdict.Panics? ==>
                |readset[culprit.value]| == 1 && Scan(TableSeen(), transactionIndex, culprit.value).None?
      ensures verdict.Fails? && |readset[culprit.value]| == 1 ==>
                Scan(TableSeen(), transactionIndex, culprit.value).Some?
      ensures aborted ==
              if verdict.Fails? && |readset[culprit.value]| == 1 && old(aborted).None? &&
                 BlockedByEstimate(TableSeen(), transactionIndex, culprit.value)
              then Scan(TableSeen(), transactionIndex, culprit.value) else old(aborted)
    {
      hide KeyStands, OrdinaryReads, BlockedByEstimate;
      ValidatorsAgreeIff(TableSeen(), ParentState(), ParentStorage(), transactionIndex, readset);
      var keys := SortedList(readset.Keys);
      for n := 0 to |keys|
        invariant aborted == old(aborted)
        invariant forall m :: 0 <= m < n ==> keys[m] in readset && KeyHolds(keys[m])
      {
        var key := keys[n];
        assert key in KeySet(keys);
        forall k | k in readset && KeyLess(k, key) ensures KeyHolds(k) {
          assert k in KeySet(keys);
          var m :| 0 <= m < |keys| && keys[m] == k;
        }
        culprit := Some(key);
        verdict := ValidateRead(key);
        if !verdict.Stands? {
          return;
        }
      }
      forall k | k in readset ensures KeyHolds(k) {
        assert k in KeySet(keys);
      }
      verdict, culprit := Stands, None;
    }

    /* Balances and nonces. */

    method UpdateAndSetBalance(address: nat, value: int)
      requires multiVersionStore.Valid() && ReadsOnce()
      modifies this`readset, this`writeset, this`aborted
      ensures Recording() == SessionStep(TableSeen(), ParentState(), transactionIndex, old(Recording()),
                                         Debit(address, value))
      ensures forall key ::
                Sees(key) == if key == BalanceKey(address) then BigToHash(old(Sees(BalanceKey(address))) - value)
                             else old(Sees(key))
      ensures ReadsOnce()
    {
      var balance := Get(BalanceKey(address));
      Set(BalanceKey(address), BigToHash(balance - value));
    }

    method UpdateAndSetNonce(address: nat)
      requires multiVersionStore.Valid() && ReadsOnce()
      modifies this`readset, this`writeset, this`aborted
      ensures Recording() == SessionStep(TableSeen(), ParentState(), transactionIndex, old(Recording()),
                                         BumpNonce(address))
      ensures var nonce := old(Sees(NonceKey(address))) as int;
              Sees(NonceKey(address)) == if nonce + 1 == TWO_256 then 0 else nonce + 1
      ensures forall key :: key != NonceKey(address) ==> Sees(key) == old(Sees(key))
      ensures ReadsOnce()
    {
      var nonce := Get(NonceKey(address));
      Set(NonceKey(address), BigToHash(nonce as int + 1));
    }

    /** Charges `fee` to whoever pays it, in the proportions of the message; `sign` is -1 for a refund. In
        range, the payer and the sender lose their shares, and nothing else changes. */
    method HandleFee(msg: Message, fee: nat, sign: int)
      requires multiVersionStore.Valid() && ReadsOnce()
      modifies this`readset, this`writeset, this`aborted
      ensures Recording() == SessionSteps(TableSeen(), ParentState(), transactionIndex, old(Recording()),
                                          FeeDebits(msg, fee, sign))
      ensures var p := if msg.split.None? then fee else msg.split.value(fee).0;
              var q := if msg.split.None? then 0 else msg.split.value(fee).1;
              0 <= old(Sees(BalanceKey(msg.feePayer))) - sign * p < TWO_256 &&
              0 <= old(Sees(BalanceKey(msg.sender))) - When(msg.sender == msg.feePayer, sign * p) - sign * q &&
              old(Sees(BalanceKey(msg.sender))) - When(msg.sender == msg.feePayer, sign * p) - sign * q < TWO_256 ==>
              forall a: nat ::
                Sees(BalanceKey(a)) == old(Sees(BalanceKey(a))) -
                                       When(a == msg.feePayer, sign * p) - When(a == msg.sender, sign * q)
      ensures forall key: StorageKey :: key.slot != BALANCE_SLOT ==> Sees(key) == old(Sees(key))
      ensures ReadsOnce()
    {
      ghost var ds := FeeDebits(msg, fee, sign);
      if msg.split.Some? {
        var shares := msg.split.value(fee);
        TwoSteps(TableSeen(), ParentState(), transactionIndex, Recording(), ds[0], ds[1]);
        UpdateAndSetBalance(msg.feePayer, sign * shares.0);
        UpdateAndSetBalance(msg.sender, sign * shares.1);
      } else {
        OneStep(TableSeen(), ParentState(), transactionIndex, Recording(), ds[0]);
        UpdateAndSetBalance(msg.feePayer, sign * fee);
      }
    }

    /** In range, the value goes from one account to the other, and nothing else changes. */
    method MoveValue(transfer: Transfer)
      requires multiVersionStore.Valid() && ReadsOnce()
      modifies this`readset, this`writeset, this`aborted
      ensures Recording() == SessionSteps(TableSeen(), ParentState(), transactionIndex, old(Recording()),
                                          TransferDebits(transfer))
      ensures var v := transfer.value;
              v <= old(Sees(BalanceKey(transfer.from))) &&
              old(Sees(BalanceKey(transfer.to))) - When(transfer.to == transfer.from, v) + v < TWO_256 ==>
              forall a: nat ::
                Sees(BalanceKey(a)) == old(Sees(BalanceKey(a))) -
                                       When(a == transfer.from, v) + When(a == transfer.to, v)
      ensures forall key: StorageKey :: key.slot != BALANCE_SLOT ==> Sees(key) == old(Sees(key))
      ensures ReadsOnce()
    {
      ghost var ds := TransferDebits(transfer);
      TwoSteps(TableSeen(), ParentState(), transactionIndex, Recording(), ds[0], ds[1]);
      UpdateAndSetBalance(transfer.from, transfer.value);
      UpdateAndSetBalance(transfer.to, 0 - transfer.value);
    }

    /** The whole fee is charged up front, then the nonce and the value of the transaction move. In range,
        the payer and the sender lose their shares of the fee, and the value goes from `from` to `to`; the
        nonce of the sender goes up by one, unless the sender has code and creates nothing. */
    method CaptureStart(msg: Message, gasPrice: nat, initial: Transfer)
      requires multiVersionStore.Valid() && ReadsOnce()
      modifies this`readset, this`writeset, this`aborted
      ensures Recording() == SessionSteps(TableSeen(), ParentState(), transactionIndex, old(Recording()),
                                          StartSteps(msg, gasPrice, initial))
      ensures var fee, v := msg.gas * gasPrice, initial.value;
              var p := if msg.split.None? then fee else msg.split.value(fee).0;
              var q := if msg.split.None? then 0 else msg.split.value(fee).1;
              p <= old(Sees(BalanceKey(msg.feePayer))) &&
              When(msg.sender == msg.feePayer, p) + q <= old(Sees(BalanceKey(msg.sender))) &&
              When(initial.from == msg.feePayer, p) + When(initial.from == msg.sender, q) + v <=
              old(Sees(BalanceKey(initial.from))) &&
              old(Sees(BalanceKey(initial.to))) - When(initial.to == msg.feePayer, p) -
              When(initial.to == msg.sender, q) - When(initial.to == initial.from, v) + v < TWO_256 ==>
              forall a: nat ::
                Sees(BalanceKey(a)) == old(Sees(BalanceKey(a))) -
                                       When(a == msg.feePayer, p) - When(a == msg.sender, q) -
                                       When(a == initial.from, v) + When(a == initial.to, v)
      ensures var nonce := old(Sees(NonceKey(msg.sender))) as int;
              Sees(NonceKey(msg.sender)) ==
              if msg.senderHasCode && !msg.create then nonce else if nonce + 1 == TWO_256 then 0 else nonce + 1
      ensures forall key: StorageKey :: key.slot != BALANCE_SLOT && key != NonceKey(msg.sender) ==>
              Sees(key) == old(Sees(key))
      ensures ReadsOnce()
    {
      hide SessionSteps, FeeDebits, TransferDebits, NonceSteps, BigToHash, Seen;
      ghost var fee, nonce := FeeDebits(msg, Price(msg.gas, gasPrice), 1), NonceSteps(msg);
      HandleFee(msg, Price(msg.gas, gasPrice), 1);
      RaiseNonce(msg);
      MoveValue(initial);
      StepsCompose(TableSeen(), ParentState(), transactionIndex, old(Recording()), fee, nonce);
      StepsCompose(TableSeen(), ParentState(), transactionIndex, old(Recording()), fee + nonce,
                   TransferDebits(initial));
    }

    /** The nonce of the sender goes up by one, unless the sender has code and creates nothing. */
    method RaiseNonce(msg: Message)
      requires multiVersionStore.Valid() && ReadsOnce()
      modifies this`readset, this`writeset, this`aborted
      ensures Recording() == SessionSteps(TableSeen(), ParentState(), transactionIndex, old(Recording()),
                                          NonceSteps(msg))
      ensures var nonce := old(Sees(NonceKey(msg.sender))) as int;
              Sees(NonceKey(msg.sender)) ==
              if msg.senderHasCode && !msg.create then nonce else if nonce + 1 == TWO_256 then 0 else nonce + 1
      ensures forall key :: key != NonceKey(msg.sender) ==> Sees(key) == old(Sees(key))
      ensures ReadsOnce()
    {
      ghost var before := Recording();
      if msg.senderHasCode {
        if msg.create {
          UpdateAndSetNonce(msg.sender);
        }
      } else {
        UpdateAndSetNonce(msg.sender);
      }
      OneStep(TableSeen(), ParentState(), transactionIndex, before, BumpNonce(msg.sender));
    }

    /** A message call moves value only if there is some and the accounts differ. */
    method CaptureCall(call: Transfer)
      requires multiVersionStore.Valid() && ReadsOnce()
      modifies this`readset, this`writeset, this`aborted
      ensures Recording() == SessionSteps(TableSeen(), ParentState(), transactionIndex, old(Recording()),
                                          CallDebits([call]))
      ensures call.value <= old(Sees(BalanceKey(call.from))) &&
              old(Sees(BalanceKey(call.to))) + call.value < TWO_256 ==>
              forall a: nat ::
                Sees(BalanceKey(a)) == old(Sees(BalanceKey(a))) -
                                       When(a == call.from, call.value) + When(a == call.to, call.value)
      ensures call.value == 0 || call.from == call.to ==> Recording() == old(Recording())
      ensures forall key: StorageKey :: key.slot != BALANCE_SLOT ==> Sees(key) == old(Sees(key))
      ensures ReadsOnce()
    {
      OneCall(call);
      if call.value > 0 && call.from != call.to {
        MoveValue(call);
      }
    }

    /** The price of the gas that is left goes back. */
    method CaptureTxEnd(msg: Message, gasPrice: nat, restGas: nat)
      requires multiVersionStore.Valid() && ReadsOnce()
      modifies this`readset, this`writeset, this`aborted
      ensures Recording() == SessionSteps(TableSeen(), ParentState(), transactionIndex, old(Recording()),
                                          EndSteps(msg, gasPrice, restGas))
      ensures var rest := restGas * gasPrice;
              var p := if msg.split.None? then rest else msg.split.value(rest).0;
              var q := if msg.split.None? then 0 else msg.split.value(rest).1;
              old(Sees(BalanceKey(msg.feePayer))) + p < TWO_256 &&
              old(Sees(BalanceKey(msg.sender))) + When(msg.sender == msg.feePayer, p) + q < TWO_256 ==>
              forall a: nat ::
                Sees(BalanceKey(a)) == old(Sees(BalanceKey(a))) +
                                       When(a == msg.feePayer, p) + When(a == msg.sender, q)
      ensures forall key: StorageKey :: key.slot != BALANCE_SLOT ==> Sees(key) == old(Sees(key))
      ensures ReadsOnce()
    {
      HandleFee(msg, Price(restGas, gasPrice), -1);
    }

    /** A transaction that only moves value: start, calls, end. Over all of it the tracked balances lose
        exactly the price of the gas used. */
    method CaptureTransaction(msg: Message, gasPrice: nat, initial: Transfer, calls: seq<Transfer>, restGas: nat,
                              ghost accounts: seq<nat>)
      requires multiVersionStore.Valid() && ReadsOnce() && SplitsAddUp(msg) && Distinct(accounts)
      requires Tracked(TransactionSteps(msg, gasPrice, initial, calls, restGas), accounts)
      requires NoWrap(TableSeen(), ParentState(), transactionIndex, Recording(),
                      TransactionSteps(msg, gasPrice, initial, calls, restGas))
      modifies this`readset, this`writeset, this`aborted
      ensures Total(ParentState(), Recording(), accounts) ==
              Total(ParentState(), old(Recording()), accounts) - (msg.gas - restGas) * gasPrice
      ensures var fee, rest := msg.gas * gasPrice, restGas * gasPrice;
              var p := if msg.split.None? then fee else msg.split.value(fee).0;
              var q := if msg.split.None? then 0 else msg.split.value(fee).1;
              var p' := if msg.split.None? then rest else msg.split.value(rest).0;
              var q' := if msg.split.None? then 0 else msg.split.value(rest).1;
              forall a: nat ::
                Sees(BalanceKey(a)) ==
                old(Sees(BalanceKey(a))) - When(a == msg.feePayer, p - p') - When(a == msg.sender, q - q') -
                When(a == initial.from, initial.value) + When(a == initial.to, initial.value) +
                Net(calls, a)
      ensures var nonce := old(Sees(NonceKey(msg.sender))) as int;
              Sees(NonceKey(msg.sender)) ==
              if msg.senderHasCode && !msg.create then nonce else if nonce + 1 == TWO_256 then 0 else nonce + 1
    {
      hide SessionSteps, StartSteps, EndSteps, CallDebits, Seen, Total, NoWrap, SplitsAddUp, Net;
      ghost var s, steps := Recording(), StartSteps(msg, gasPrice, initial);
      CaptureStart(msg, gasPrice, initial);
      ghost var started := Recording();
      ghost var nonce := Sees(NonceKey(msg.sender));
      NoCall(TableSeen(), ParentState(), transactionIndex, started, calls);
      for n := 0 to |calls|
        invariant multiVersionStore.Valid() && ReadsOnce()
        invariant Recording() == SessionSteps(TableSeen(), ParentState(), transactionIndex, started,
                                              CallDebits(calls[..n]))
        invariant Sees(NonceKey(msg.sender)) == nonce
      {
        CaptureCall(calls[n]);
        CallsGrow(calls, n);
        StepsCompose(TableSeen(), ParentState(), transactionIndex, started, CallDebits(calls[..n]),
                     CallDebits([calls[n]]));
      }
      assert calls[..|calls|] == calls;
      CaptureTxEnd(msg, gasPrice, restGas);
      StepsCompose(TableSeen(), ParentState(), transactionIndex, s, steps, CallDebits(calls));
      StepsCompose(TableSeen(), ParentState(), transactionIndex, s, steps + CallDebits(calls),
                   EndSteps(msg, gasPrice, restGas));
      BalancesLoseExactlyTheFee(TableSeen(), ParentState(), transactionIndex, s, msg, gasPrice, initial, calls,
                                restGas, accounts);
      forall a: nat {
        EachBalanceAfter(TableSeen(), ParentState(), transactionIndex, s, msg, gasPrice, initial, calls, restGas, a);
      }
    }
  }

  /** A transaction that does nothing but read one balance, and its tracer. */
  method ReadBalance(address: nat, balance: Hash) returns (tracer: AccessListTracer)
    ensures fresh(tracer) && tracer.multiVersionStore.Valid() && tracer.transactionIndex == 0
    ensures tracer.readset == map[BalanceKey(address) := [balance]]
    ensures At(tracer.TableSeen(), 0).readset == Some(tracer.readset)
    ensures tracer.ParentState() == map[BalanceKey(address) := balance] && tracer.ParentStorage() == map[]
  {
    var parent := new StateDB(map[BalanceKey(address) := balance], map[]);
    var store := new Store(parent);
    tracer := new AccessListTracer(store, 0, 0);
    var value := tracer.Get(BalanceKey(address));
    tracer.WriteToMultiVersionStore();
  }

  /** A balance is no ordinary read. */
  lemma NoOrdinaryRead(t: Table, address: nat, balance: Hash)
    requires balance != ZERO
    ensures !OrdinaryReads(t, map[BalanceKey(address) := balance], map[], 0, map[BalanceKey(address) := [balance]])
  {
    assert Scan(t, 0, BalanceKey(address)).None?;
    assert BalanceKey(address) in map[BalanceKey(address) := [balance]];
  }

  /** The two validators do not agree on balances: of a transaction that did nothing but read one, the
      store finds the readset valid, and the tracer's own validation panics. */
  method BalanceReadPanics(address: nat, balance: Hash) returns (verdict: Verdict, valid: bool)
    requires balance != ZERO
    ensures verdict.Panics? && valid
  {
    var tracer := ReadBalance(address, balance);
    var conflicts;
    valid, conflicts := tracer.multiVersionStore.CheckReadsetAtIndex(0);
    ghost var culprit;
    verdict, culprit := tracer.ValidateReadset();
    NoOrdinaryRead(tracer.TableSeen(), address, balance);
  }
}
