/** The balance bookkeeping of one transaction (CaptureStart, CaptureState for calls, CaptureTxEnd in
    multiversion/tracer.go): fees, value transfers and the refund, as debits of balance keys. */
module Fees {
  import opened Storage
  import opened Programs
  import opened Table
  import opened Sessions

  function BalanceKey(address: nat): StorageKey {
    StorageKey(address, BALANCE_SLOT)
  }

  function NonceKey(address: nat): StorageKey {
    StorageKey(address, NONCE_SLOT)
  }

  /** common.BigToHash: the magnitude of the number, cropped to its low 256 bits. */
  function BigToHash(x: int): Hash {
    var magnitude := if x < 0 then -x else x;
    if magnitude < TWO_256 then magnitude else magnitude % TWO_256
  }

  /** BigToHash knows nothing but the magnitude, up to multiples of 2^256. */
  lemma BigToHashIsMagnitude(x: int, n: nat)
    ensures 0 <= x < TWO_256 ==> BigToHash(x) == x && BigToHash(-x) == x && BigToHash(x + n * TWO_256) == x
  {
    if 0 <= x < TWO_256 && n > 0 {
      assert x + n * TWO_256 >= TWO_256;
      RemainderIs(x, n);
    }
  }

  lemma RemainderIs(x: int, n: nat)
    requires 0 <= x < TWO_256
    ensures (x + n * TWO_256) % TWO_256 == x
  {
    if n > 0 {
      RemainderIs(x, n - 1);
      assert x + n * TWO_256 == x + (n - 1) * TWO_256 + TWO_256;
    }
  }

  lemma BigToHashIsExactIffInRange(x: int)
    ensures BigToHash(x) == x <==> 0 <= x < TWO_256
  {
  }

  function When(condition: bool, amount: int): int {
    if condition then amount else 0
  }

  /** One bookkeeping step: taking `amount` from a balance, where a negative amount is a credit, or
      raising a nonce by one. */
  datatype Step = Debit(address: nat, amount: int) | BumpNonce(address: nat)

  function StepKey(d: Step): StorageKey {
    if d.Debit? then BalanceKey(d.address) else NonceKey(d.address)
  }

  function StepAmount(d: Step): int {
    if d.Debit? then d.amount else 0
  }

  /** Every step is a get and a set of one key. */
  function SessionStep(t: Table, parent: State, i: nat, s: Session, d: Step): Session {
    var k := StepKey(d);
    var before := Seen(parent, s.readset, s.writeset, k);
    SessionWrite(SessionRead(t, parent, i, s, k), k,
                 BigToHash(if d.Debit? then before - d.amount else before as int + 1))
  }

  function SessionSteps(t: Table, parent: State, i: nat, s: Session, ds: seq<Step>): Session {
    if ds == [] then s
    else SessionStep(t, parent, i, SessionSteps(t, parent, i, s, ds[..|ds| - 1]), ds[|ds| - 1])
  }

  lemma OneStep(t: Table, parent: State, i: nat, s: Session, d: Step)
    ensures SessionSteps(t, parent, i, s, [d]) == SessionStep(t, parent, i, s, d)
  {
    assert [d][..|[d]| - 1] == [];
  }

  lemma TwoSteps(t: Table, parent: State, i: nat, s: Session, d: Step, e: Step)
    ensures SessionSteps(t, parent, i, s, [d, e]) == SessionStep(t, parent, i, SessionStep(t, parent, i, s, d), e)
  {
    var ds := [d, e];
    assert ds[..|ds| - 1] == [d];
    OneStep(t, parent, i, s, d);
  }

  lemma {:induction false} StepsCompose(t: Table, parent: State, i: nat, s: Session, a: seq<Step>, b: seq<Step>)
    ensures SessionSteps(t, parent, i, SessionSteps(t, parent, i, s, a), b) == SessionSteps(t, parent, i, s, a + b)
  {
    if b == [] {
      assert a + b == a;
    } else {
      assert (a + b)[..|a + b| - 1] == a + b[..|b| - 1];
      StepsCompose(t, parent, i, s, a, b[..|b| - 1]);
    }
  }

  function Balance(parent: State, s: Session, address: nat): Hash {
    Seen(parent, s.readset, s.writeset, BalanceKey(address))
  }

  /** No debit of the list takes a balance out of [0, 2^256). */
  ghost predicate NoWrap(t: Table, parent: State, i: nat, s: Session, ds: seq<Step>) {
    forall n :: 0 <= n < |ds| && ds[n].Debit? ==>
      0 <= Balance(parent, SessionSteps(t, parent, i, s, ds[..n]), ds[n].address) - ds[n].amount < TWO_256
  }

  /** The accounts whose balances are summed up: no address twice. */
  ghost predicate Distinct(accounts: seq<nat>) {
    forall p, q :: 0 <= p < q < |accounts| ==> accounts[p] != accounts[q]
  }

  ghost function Total(parent: State, s: Session, accounts: seq<nat>): int {
    if accounts == [] then 0
    else Total(parent, s, accounts[..|accounts| - 1]) + Balance(parent, s, accounts[|accounts| - 1])
  }

  function Amounts(ds: seq<Step>): int {
    if ds == [] then 0 else Amounts(ds[..|ds| - 1]) + StepAmount(ds[|ds| - 1])
  }

  ghost predicate Tracked(ds: seq<Step>, accounts: seq<nat>) {
    forall n :: 0 <= n < |ds| && ds[n].Debit? ==> ds[n].address in accounts
  }

  /** A debit sets the one balance, and leaves every other as it was. */
  lemma DebitChangesOne(t: Table, parent: State, i: nat, s: Session, d: Step, a: nat)
    ensures Balance(parent, SessionStep(t, parent, i, s, d), a) ==
            if d.Debit? && a == d.address then BigToHash(Balance(parent, s, a) - d.amount) else Balance(parent, s, a)
  {
  }

  lemma {:induction false} TotalAfterDebit(t: Table, parent: State, i: nat, s: Session, d: Step, accounts: seq<nat>)
    requires Distinct(accounts)
    ensures Total(parent, SessionStep(t, parent, i, s, d), accounts) ==
            Total(parent, s, accounts) +
            (if d.Debit? && d.address in accounts
             then BigToHash(Balance(parent, s, d.address) - d.amount) - Balance(parent, s, d.address) else 0)
  {
    if accounts != [] {
      var last := accounts[|accounts| - 1];
      var front := accounts[..|accounts| - 1];
      assert accounts == front + [last];
      TotalAfterDebit(t, parent, i, s, d, front);
      DebitChangesOne(t, parent, i, s, d, last);
    }
  }

  /** One debit takes exactly its amount out of the total if and only if the balance stays in [0, 2^256). */
  lemma DebitIsExactIffInRange(t: Table, parent: State, i: nat, s: Session, d: Step, accounts: seq<nat>)
    requires Distinct(accounts) && d.Debit? && d.address in accounts
    ensures Total(parent, SessionStep(t, parent, i, s, d), accounts) == Total(parent, s, accounts) - d.amount <==>
            0 <= Balance(parent, s, d.address) - d.amount < TWO_256
  {
    TotalAfterDebit(t, parent, i, s, d, accounts);
    BigToHashIsExactIffInRange(Balance(parent, s, d.address) - d.amount);
  }

  /** No debit of the list takes a balance out of (-2^256, 2^256). */
  ghost predicate Mild(t: Table, parent: State, i: nat, s: Session, ds: seq<Step>) {
    forall n :: 0 <= n < |ds| && ds[n].Debit? ==>
      -TWO_256 < Balance(parent, SessionSteps(t, parent, i, s, ds[..n]), ds[n].address) - ds[n].amount < TWO_256
  }

  lemma PrefixesOfFront(t: Table, parent: State, i: nat, s: Session, ds: seq<Step>)
    requires ds != []
    ensures var n := |ds| - 1;
            (Mild(t, parent, i, s, ds) ==> Mild(t, parent, i, s, ds[..n])) &&
            (NoWrap(t, parent, i, s, ds) <==>
               NoWrap(t, parent, i, s, ds[..n]) &&
               (ds[n].Debit? ==>
                  0 <= Balance(parent, SessionSteps(t, parent, i, s, ds[..n]), ds[n].address) - ds[n].amount < TWO_256))
  {
    var n := |ds| - 1;
    assert forall m :: 0 <= m <= n ==> ds[..n][..m] == ds[..m];
  }

  /** While no balance leaves (-2^256, 2^256), the total never falls by more than the debits say, and by
      exactly that if and only if no balance leaves [0, 2^256). */
  lemma {:induction false} TotalIsExactIffNoWrap(t: Table, parent: State, i: nat, s: Session, ds: seq<Step>,
                                                 accounts: seq<nat>)
    requires Distinct(accounts) && Tracked(ds, accounts) && Mild(t, parent, i, s, ds)
    ensures var after := Total(parent, SessionSteps(t, parent, i, s, ds), accounts);
            after >= Total(parent, s, accounts) - Amounts(ds) &&
            (after == Total(parent, s, accounts) - Amounts(ds) <==> NoWrap(t, parent, i, s, ds))
  {
    if ds != [] {
      var n := |ds| - 1;
      PrefixesOfFront(t, parent, i, s, ds);
      TotalIsExactIffNoWrap(t, parent, i, s, ds[..n], accounts);
      TotalAfterDebit(t, parent, i, SessionSteps(t, parent, i, s, ds[..n]), ds[n], accounts);
    }
  }

  /** The parts of a message that the bookkeeping reads. `split`, when present, is the fee ratio: what
      it makes the payer and the sender pay of a fee. */
  datatype Message = Message(feePayer: nat, sender: nat, senderHasCode: bool, create: bool, gas: nat,
                             split: Option<nat -> (nat, nat)>)

  /** A message call inside the transaction, with the value it carries. */
  datatype Transfer = Transfer(from: nat, to: nat, value: nat)

  function Price(gas: nat, gasPrice: nat): nat {
    assert gas * gasPrice >= 0;
    gas * gasPrice
  }

  function FeeDebits(msg: Message, fee: nat, sign: int): seq<Step> {
    if msg.split.Some?
    then [Debit(msg.feePayer, sign * msg.split.value(fee).0), Debit(msg.sender, sign * msg.split.value(fee).1)]
    else [Debit(msg.feePayer, sign * fee)]
  }

  function TransferDebits(transfer: Transfer): seq<Step> {
    [Debit(transfer.from, transfer.value), Debit(transfer.to, 0 - transfer.value)]
  }

  /** Calls move value only when there is some, and only between different accounts. */
  function CallDebits(calls: seq<Transfer>): seq<Step> {
    if calls == [] then []
    else
      var call := calls[|calls| - 1];
      CallDebits(calls[..|calls| - 1]) +
      if call.value > 0 && call.from != call.to then TransferDebits(call) else []
  }

  lemma OneCall(call: Transfer)
    ensures CallDebits([call]) == if call.value > 0 && call.from != call.to then TransferDebits(call) else []
  {
    var calls := [call];
    assert calls[..|calls| - 1] == [];
    assert CallDebits([]) + TransferDebits(call) == TransferDebits(call);
  }

  lemma NoCall(t: Table, parent: State, i: nat, s: Session, calls: seq<Transfer>)
    ensures SessionSteps(t, parent, i, s, CallDebits(calls[..0])) == s
  {
  }

  lemma CallsGrow(calls: seq<Transfer>, n: nat)
    requires n < |calls|
    ensures CallDebits(calls[..n + 1]) == CallDebits(calls[..n]) + CallDebits([calls[n]])
  {
    var more := calls[..n + 1];
    assert more[..|more| - 1] == calls[..n];
    OneCall(calls[n]);
  }

  /** The sender's nonce goes up, except when a contract is the sender and creates nothing. */
  function NonceSteps(msg: Message): seq<Step> {
    if msg.senderHasCode && !msg.create then [] else [BumpNonce(msg.sender)]
  }

  function StartSteps(msg: Message, gasPrice: nat, initial: Transfer): seq<Step> {
    FeeDebits(msg, Price(msg.gas, gasPrice), 1) + NonceSteps(msg) + TransferDebits(initial)
  }

  function EndSteps(msg: Message, gasPrice: nat, restGas: nat): seq<Step> {
    FeeDebits(msg, Price(restGas, gasPrice), -1)
  }

  /** All bookkeeping of a transaction, from CaptureStart over its calls to CaptureTxEnd. */
  function TransactionSteps(msg: Message, gasPrice: nat, initial: Transfer, calls: seq<Transfer>,
                            restGas: nat): seq<Step> {
    StartSteps(msg, gasPrice, initial) + CallDebits(calls) + EndSteps(msg, gasPrice, restGas)
  }

  lemma {:induction false} AmountsOfConcat(a: seq<Step>, b: seq<Step>)
    ensures Amounts(a + b) == Amounts(a) + Amounts(b)
  {
    if b == [] {
      assert a + b == a;
    } else {
      assert (a + b)[..|a + b| - 1] == a + b[..|b| - 1];
      AmountsOfConcat(a, b[..|b| - 1]);
    }
  }

  lemma TwoAmounts(d: Step, e: Step)
    ensures Amounts([d, e]) == StepAmount(d) + StepAmount(e)
  {
    var ds := [d, e];
    assert ds[..|ds| - 1] == [d];
    assert Amounts([d]) == Amounts([d][..0]) + StepAmount(d);
    assert [d][..0] == [];
  }

  lemma TransferIsNeutral(transfer: Transfer)
    ensures Amounts(TransferDebits(transfer)) == 0
  {
    TwoAmounts(Debit(transfer.from, transfer.value), Debit(transfer.to, 0 - transfer.value));
  }

  lemma {:induction false} CallsAreNeutral(calls: seq<Transfer>)
    ensures Amounts(CallDebits(calls)) == 0
  {
    if calls != [] {
      var call := calls[|calls| - 1];
      CallsAreNeutral(calls[..|calls| - 1]);
      TransferIsNeutral(call);
      AmountsOfConcat(CallDebits(calls[..|calls| - 1]), TransferDebits(call));
      AmountsOfConcat(CallDebits(calls[..|calls| - 1]), []);
    }
  }

  ghost predicate SplitsAddUp(msg: Message) {
    msg.split.Some? ==> forall fee: nat :: msg.split.value(fee).0 + msg.split.value(fee).1 == fee
  }

  lemma FeeAmounts(msg: Message, fee: nat, sign: int)
    requires SplitsAddUp(msg)
    ensures Amounts(FeeDebits(msg, fee, sign)) == sign * fee
  {
    var ds := FeeDebits(msg, fee, sign);
    if msg.split.Some? {
      TwoAmounts(ds[0], ds[1]);
      assert sign * msg.split.value(fee).0 + sign * msg.split.value(fee).1 == sign * fee;
    } else {
      assert ds[..0] == [];
    }
  }

  lemma TransactionAmounts(msg: Message, gasPrice: nat, initial: Transfer, calls: seq<Transfer>, restGas: nat)
    requires SplitsAddUp(msg)
    ensures Amounts(TransactionSteps(msg, gasPrice, initial, calls, restGas)) == (msg.gas - restGas) * gasPrice
  {
    var fee, nonce := FeeDebits(msg, Price(msg.gas, gasPrice), 1), NonceSteps(msg);
    AmountsOfConcat(fee, nonce);
    AmountsOfConcat(fee + nonce, TransferDebits(initial));
    AmountsOfConcat(StartSteps(msg, gasPrice, initial), CallDebits(calls));
    AmountsOfConcat(StartSteps(msg, gasPrice, initial) + CallDebits(calls), EndSteps(msg, gasPrice, restGas));
    if nonce != [] {
      assert nonce[..|nonce| - 1] == [];
    }
    FeeAmounts(msg, Price(msg.gas, gasPrice), 1);
    FeeAmounts(msg, Price(restGas, gasPrice), -1);
    TransferIsNeutral(initial);
    CallsAreNeutral(calls);
    Distribute(msg.gas, restGas, gasPrice);
  }

  lemma Distribute(a: int, b: int, c: int)
    ensures a * c - b * c == (a - b) * c
  {
  }

  /** The same, with the exact condition: while no balance leaves (-2^256, 2^256), the tracked balances lose
      exactly the price of the gas used if and only if no balance leaves [0, 2^256), and less otherwise. */
  lemma FeeIsExactIffNoWrap(t: Table, parent: State, i: nat, s: Session, msg: Message, gasPrice: nat,
                            initial: Transfer, calls: seq<Transfer>, restGas: nat, accounts: seq<nat>)
    requires SplitsAddUp(msg) && Distinct(accounts)
    requires Tracked(TransactionSteps(msg, gasPrice, initial, calls, restGas), accounts)
    requires Mild(t, parent, i, s, TransactionSteps(msg, gasPrice, initial, calls, restGas))
    ensures var steps := TransactionSteps(msg, gasPrice, initial, calls, restGas);
            var after := Total(parent, SessionSteps(t, parent, i, s, steps), accounts);
            after >= Total(parent, s, accounts) - (msg.gas - restGas) * gasPrice &&
            (after == Total(parent, s, accounts) - (msg.gas - restGas) * gasPrice <==> NoWrap(t, parent, i, s, steps))
  {
    TotalIsExactIffNoWrap(t, parent, i, s, TransactionSteps(msg, gasPrice, initial, calls, restGas), accounts);
    TransactionAmounts(msg, gasPrice, initial, calls, restGas);
  }

  /** Conservation: whoever pays, sends and receives, equal or not, the tracked balances lose exactly the
      price of the gas that was used, as long as no balance leaves [0, 2^256) on the way. */
  lemma BalancesLoseExactlyTheFee(t: Table, parent: State, i: nat, s: Session, msg: Message, gasPrice: nat,
                                  initial: Transfer, calls: seq<Transfer>, restGas: nat, accounts: seq<nat>)
    requires SplitsAddUp(msg) && Distinct(accounts)
    requires Tracked(TransactionSteps(msg, gasPrice, initial, calls, restGas), accounts)
    requires NoWrap(t, parent, i, s, TransactionSteps(msg, gasPrice, initial, calls, restGas))
    ensures Total(parent, SessionSteps(t, parent, i, s, TransactionSteps(msg, gasPrice, initial, calls, restGas)),
                  accounts) ==
            Total(parent, s, accounts) - (msg.gas - restGas) * gasPrice
  {
    FeeIsExactIffNoWrap(t, parent, i, s, msg, gasPrice, initial, calls, restGas, accounts);
  }

  /* Each account by itself. */

  function AmountFor(ds: seq<Step>, a: nat): int {
    if ds == [] then 0
    else
      var d := ds[|ds| - 1];
      AmountFor(ds[..|ds| - 1], a) + if d.Debit? && d.address == a then d.amount else 0
  }

  lemma {:induction false} AmountForConcat(x: seq<Step>, y: seq<Step>, a: nat)
    ensures AmountFor(x + y, a) == AmountFor(x, a) + AmountFor(y, a)
  {
    if y == [] {
      assert x + y == x;
    } else {
      assert (x + y)[..|x + y| - 1] == x + y[..|y| - 1];
      AmountForConcat(x, y[..|y| - 1], a);
    }
  }

  lemma AmountForTwo(d: Step, e: Step, a: nat)
    ensures AmountFor([d], a) == if d.Debit? && d.address == a then d.amount else 0
    ensures AmountFor([d, e], a) == AmountFor([d], a) + AmountFor([e], a)
  {
    assert [d][..0] == [] && [e][..0] == [];
    assert [d, e] == [d] + [e];
    AmountForConcat([d], [e], a);
  }

  lemma {:induction false} BalanceAfterSteps(t: Table, parent: State, i: nat, s: Session, ds: seq<Step>, a: nat)
    requires NoWrap(t, parent, i, s, ds)
    ensures Balance(parent, SessionSteps(t, parent, i, s, ds), a) == Balance(parent, s, a) - AmountFor(ds, a)
  {
    if ds != [] {
      var n := |ds| - 1;
      PrefixesOfFront(t, parent, i, s, ds);
      BalanceAfterSteps(t, parent, i, s, ds[..n], a);
      DebitChangesOne(t, parent, i, SessionSteps(t, parent, i, s, ds[..n]), ds[n], a);
    }
  }

  /** What the calls bring to an account, less what they take from it. */
  function Net(calls: seq<Transfer>, a: nat): int {
    if calls == [] then 0
    else
      var call := calls[|calls| - 1];
      Net(calls[..|calls| - 1], a) +
          When(call.to == a, call.value) - When(call.from == a, call.value)
  }

  lemma AmountForTransfer(transfer: Transfer, a: nat)
    ensures AmountFor(TransferDebits(transfer), a) ==
            When(transfer.from == a, transfer.value) - When(transfer.to == a, transfer.value)
  {
    AmountForTwo(Debit(transfer.from, transfer.value), Debit(transfer.to, 0 - transfer.value), a);
    AmountForTwo(Debit(transfer.to, 0 - transfer.value), Debit(transfer.to, 0 - transfer.value), a);
  }

  lemma {:induction false} AmountForCalls(calls: seq<Transfer>, a: nat)
    ensures AmountFor(CallDebits(calls), a) == -Net(calls, a)
  {
    if calls != [] {
      var front, call := calls[..|calls| - 1], calls[|calls| - 1];
      AmountForCalls(front, a);
      AmountForTransfer(call, a);
      AmountForConcat(CallDebits(front), TransferDebits(call), a);
      AmountForConcat(CallDebits(front), [], a);
    }
  }

  lemma AmountForFee(msg: Message, fee: nat, sign: int, a: nat)
    ensures var p := if msg.split.None? then fee else msg.split.value(fee).0;
            var q := if msg.split.None? then 0 else msg.split.value(fee).1;
            AmountFor(FeeDebits(msg, fee, sign), a) ==
            When(a == msg.feePayer, sign * p) + When(a == msg.sender, sign * q)
  {
    var ds := FeeDebits(msg, fee, sign);
    AmountForTwo(ds[0], ds[|ds| - 1], a);
    AmountForTwo(ds[|ds| - 1], ds[0], a);
  }

  lemma AmountForNonce(msg: Message, a: nat)
    ensures AmountFor(NonceSteps(msg), a) == 0
  {
    AmountForTwo(BumpNonce(msg.sender), BumpNonce(msg.sender), a);
  }

  /** Over a whole transaction, whatever accounts coincide: an account that pays loses its share of the price
      of all gas and gets back its share of the price of the gas that is left, and the values of the
      transaction and of its calls go from the one account to the other. */
  lemma EachBalanceAfter(t: Table, parent: State, i: nat, s: Session, msg: Message, gasPrice: nat, initial: Transfer,
                         calls: seq<Transfer>, restGas: nat, a: nat)
    requires NoWrap(t, parent, i, s, TransactionSteps(msg, gasPrice, initial, calls, restGas))
    ensures var fee, rest := msg.gas * gasPrice, restGas * gasPrice;
            var p := if msg.split.None? then fee else msg.split.value(fee).0;
            var q := if msg.split.None? then 0 else msg.split.value(fee).1;
            var p' := if msg.split.None? then rest else msg.split.value(rest).0;
            var q' := if msg.split.None? then 0 else msg.split.value(rest).1;
            Balance(parent, SessionSteps(t, parent, i, s, TransactionSteps(msg, gasPrice, initial, calls, restGas)),
                    a) ==
            Balance(parent, s, a) - When(a == msg.feePayer, p - p') - When(a == msg.sender, q - q') -
            When(a == initial.from, initial.value) + When(a == initial.to, initial.value) +
            Net(calls, a)
  {
    var fee, nonce := FeeDebits(msg, Price(msg.gas, gasPrice), 1), NonceSteps(msg);
    var end := EndSteps(msg, gasPrice, restGas);
    BalanceAfterSteps(t, parent, i, s, TransactionSteps(msg, gasPrice, initial, calls, restGas), a);
    AmountForConcat(StartSteps(msg, gasPrice, initial) + CallDebits(calls), end, a);
    AmountForConcat(StartSteps(msg, gasPrice, initial), CallDebits(calls), a);
    AmountForConcat(fee + nonce, TransferDebits(initial), a);
    AmountForConcat(fee, nonce, a);
    AmountForFee(msg, Price(msg.gas, gasPrice), 1, a);
    AmountForNonce(msg, a);
    AmountForTransfer(initial, a);
    AmountForCalls(calls, a);
    AmountForFee(msg, Price(restGas, gasPrice), -1, a);
  }
}
