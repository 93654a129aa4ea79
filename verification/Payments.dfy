/** The lists beside the books of payments: those debited and not yet settled, those recorded, and the
    lock (storage/redis.go). Whoever resolves payments that failed goes by the first of them. */
module Payments {
  import opened Wrappers
  import opened FiniteSums
  import opened Text
  import opened Books

  /** The ZSETs `payments:pending`, `payments:all` and `payments:<login>`, and the key `payments:lock`. */
  datatype PaymentLists = PaymentLists(
    pending: map<string, int>,
    all: map<string, int>,
    byLogin: map<string, map<string, int>>,
    lock: Option<string>)

  const NO_PAYMENTS := PaymentLists(map[], map[], map[], None)

  function Member(login: string, amount: int): string { Join([login, FormatInt(amount)]) }

  /** ZADD: a payment that is listed already only gets a new time. */
  function Listed(p: PaymentLists, login: string, amount: int, ts: int): PaymentLists {
    p.(pending := p.pending[Member(login, amount) := ts])
  }

  function Delisted(p: PaymentLists, login: string, amount: int): PaymentLists {
    p.(pending := p.pending - {Member(login, amount)})
  }

  function Recorded(p: PaymentLists, login: string, txHash: string, amount: int, ts: int): PaymentLists {
    var own := if login in p.byLogin then p.byLogin[login] else map[];
    PaymentLists(p.pending - {Member(login, amount)},
                 p.all[Join([txHash, login, FormatInt(amount)]) := ts],
                 p.byLogin[login := own[Join([txHash, FormatInt(amount)]) := ts]],
                 None)
  }

  /** A payment has left the list of the pending ones and is on the two lists of payments made, with its
      hash in front and its time; nothing else has changed on the three, and the lock is free. */
  predicate IsRecorded(before: PaymentLists, after: PaymentLists, login: string, txHash: string, amount: string,
                       ts: int) {
    var own := if login in before.byLogin then before.byLogin[login] else map[];
    && after.pending == before.pending - {login + ":" + amount}
    && after.all == before.all[txHash + ":" + (login + ":" + amount) := ts]
    && after.byLogin == before.byLogin[login := own[txHash + ":" + amount := ts]]
    && after.lock == None
  }

  lemma RecordingRecords(p: PaymentLists, login: string, txHash: string, amount: int, ts: int)
    ensures IsRecorded(p, Recorded(p, login, txHash, amount, ts), login, txHash, FormatInt(amount), ts)
  {
    ColonsBetween(txHash, login, FormatInt(amount));
    ColonsBetween(login, FormatInt(amount), "");
    ColonsBetween(txHash, FormatInt(amount), "");
  }

  /** Login and amount of a pending payment, as `GetPendingPayments` reads them. */
  function LoginOf(member: string): string { Split(member)[0] }

  function AmountOf(member: string): int {
    if |Split(member)| >= 2 then ParseInt64(Split(member)[1]) else 0
  }

  datatype PendingPayment = PendingPayment(timestamp: int, amount: int, address: string)

  function ReadRow(member: string, ts: int): PendingPayment { PendingPayment(ts, AmountOf(member), LoginOf(member)) }

  lemma MemberReads(login: string, amount: int)
    requires ColonFree(login) && IsInt64(amount)
    ensures LoginOf(Member(login, amount)) == login && AmountOf(Member(login, amount)) == amount
  {
    ParseFormatInt(amount);
    SplitJoin([login, FormatInt(amount)]);
  }

  /** What the pending payments of one miner add up to. */
  ghost function Awaiting(pending: map<string, int>, login: string): int {
    Sum(map m | m in pending && LoginOf(m) == login :: AmountOf(m))
  }

  /** Every miner's pending amount is what its listed payments add up to. */
  ghost predicate Agree(b: Books, pending: map<string, int>) {
    forall login: string :: AgreeFor(b, pending, login)
  }

  ghost predicate AgreeFor(b: Books, pending: map<string, int>, login: string) {
    Get(b.pending, login) == Awaiting(pending, login)
  }

  lemma NothingAwaited(login: string)
    ensures Awaiting(map[], login) == 0
  {
    var nothing: map<string, int> := map[];
    assert (map m | m in nothing && LoginOf(m) == login :: AmountOf(m)) == map[];
  }

  lemma AwaitingAfterListing(pending: map<string, int>, member: string, ts: int, login: string)
    ensures Awaiting(pending[member := ts], login)
         == Awaiting(pending, login) + if LoginOf(member) == login && member !in pending then AmountOf(member) else 0
  {
    var before := map m | m in pending && LoginOf(m) == login :: AmountOf(m);
    var after := map m | m in pending[member := ts] && LoginOf(m) == login :: AmountOf(m);
    if LoginOf(member) == login {
      SumPut(before, member, AmountOf(member));
      assert after == before[member := AmountOf(member)];
    } else {
      assert after == before;
    }
  }

  lemma AwaitingAfterDelisting(pending: map<string, int>, member: string, login: string)
    ensures Awaiting(pending - {member}, login)
         == Awaiting(pending, login) - if LoginOf(member) == login && member in pending then AmountOf(member) else 0
  {
    var before := map m | m in pending && LoginOf(m) == login :: AmountOf(m);
    SumDrop(before, member);
    assert (map m | m in pending - {member} && LoginOf(m) == login :: AmountOf(m)) == before - {member};
  }

  /** The member prints a payment. */
  predicate IsPayment(member: string) {
    ColonFree(LoginOf(member)) && IsInt64(AmountOf(member)) && member == Member(LoginOf(member), AmountOf(member))
  }

  lemma MembersArePayments(login: string, amount: int)
    requires ColonFree(login) && IsInt64(amount)
    ensures IsPayment(Member(login, amount))
  {
    MemberReads(login, amount);
  }

  // ---------- one operation ----------

  /** A debit keeps the pending amounts equal to the listed payments exactly if the same payment is not
      pending already: a second one of the same amount is not listed again. */
  lemma DebitAgreesIff(b: Books, p: PaymentLists, login: string, amount: int, ts: int)
    requires Agree(b, p.pending) && ColonFree(login) && IsInt64(amount)
    ensures Agree(Debit(b, login, amount), Listed(p, login, amount, ts).pending)
      <==> Member(login, amount) !in p.pending || amount == 0
  {
    var member, b', list := Member(login, amount), Debit(b, login, amount), Listed(p, login, amount, ts).pending;
    MemberReads(login, amount);
    forall l: string
      ensures AgreeFor(b', list, l) <==> l != login || member !in p.pending || amount == 0
    {
      assert AgreeFor(b, p.pending, l);
      AwaitingAfterListing(p.pending, member, ts, l);
    }
    assert AgreeFor(b', list, login) <==> member !in p.pending || amount == 0;
  }

  lemma SettlingAgreesIff(b: Books, pending: map<string, int>, login: string, amount: int, b': Books)
    requires Agree(b, pending) && ColonFree(login) && IsInt64(amount)
    requires b'.pending == IncrBy(b.pending, login, -amount)
    ensures Agree(b', pending - {Member(login, amount)}) <==> Member(login, amount) in pending || amount == 0
  {
    var member, left := Member(login, amount), pending - {Member(login, amount)};
    MemberReads(login, amount);
    forall l: string
      ensures AgreeFor(b', left, l) <==> l != login || member in pending || amount == 0
    {
      assert AgreeFor(b, pending, l);
      AwaitingAfterDelisting(pending, member, l);
    }
    assert AgreeFor(b', left, login) <==> member in pending || amount == 0;
  }

  /** Rolling back or recording a payment keeps them equal exactly if the payment was listed. */
  lemma RollbackAgreesIff(b: Books, p: PaymentLists, login: string, amount: int)
    requires Agree(b, p.pending) && ColonFree(login) && IsInt64(amount)
    ensures Agree(Rollback(b, login, amount), Delisted(p, login, amount).pending)
      <==> Member(login, amount) in p.pending || amount == 0
  {
    SettlingAgreesIff(b, p.pending, login, amount, Rollback(b, login, amount));
  }

  lemma PayAgreesIff(b: Books, p: PaymentLists, login: string, txHash: string, amount: int, ts: int)
    requires Agree(b, p.pending) && ColonFree(login) && IsInt64(amount)
    ensures Agree(Pay(b, login, amount), Recorded(p, login, txHash, amount, ts).pending)
      <==> Member(login, amount) in p.pending || amount == 0
  {
    SettlingAgreesIff(b, p.pending, login, amount, Pay(b, login, amount));
  }

  // ---------- histories of payments ----------

  datatype Operation =
    | DebitOne(login: string, amount: int, ts: int)
    | RollbackOne(login: string, amount: int)
    | PayOne(login: string, txHash: string, amount: int, ts: int)

  function BooksAfter(ops: seq<Operation>): Books {
    if ops == [] then EMPTY_BOOKS
    else
      var b := BooksAfter(ops[..|ops| - 1]);
      match ops[|ops| - 1]
      case DebitOne(login, amount, _) => Debit(b, login, amount)
      case RollbackOne(login, amount) => Rollback(b, login, amount)
      case PayOne(login, _, amount, _) => Pay(b, login, amount)
  }

  function ListsAfter(ops: seq<Operation>): PaymentLists {
    if ops == [] then NO_PAYMENTS
    else
      var p := ListsAfter(ops[..|ops| - 1]);
      match ops[|ops| - 1]
      case DebitOne(login, amount, ts) => Listed(p, login, amount, ts)
      case RollbackOne(login, amount) => Delisted(p, login, amount)
      case PayOne(login, txHash, amount, ts) => Recorded(p, login, txHash, amount, ts)
  }

  /** The payment is not pending before a debit of it, and pending before it is settled. */
  predicate InTurn(p: PaymentLists, op: Operation) {
    && ColonFree(op.login) && IsInt64(op.amount)
    && (Member(op.login, op.amount) in p.pending <==> !op.DebitOne?)
  }

  predicate AllInTurn(ops: seq<Operation>) {
    forall i :: 0 <= i < |ops| ==> InTurn(ListsAfter(ops[..i]), ops[i])
  }

  lemma TurnsOfFewer(ops: seq<Operation>)
    requires AllInTurn(ops) && ops != []
    ensures var n := |ops| - 1; AllInTurn(ops[..n]) && InTurn(ListsAfter(ops[..n]), ops[n])
  {
    var front := ops[..|ops| - 1];
    forall i | 0 <= i < |front| ensures InTurn(ListsAfter(front[..i]), front[i]) {
      assert front[..i] == ops[..i];
    }
  }

  /** In any history in which a payment is debited only while it is not pending, and settled only while it
      is, amounts and list agree, and the list holds payments only. */
  lemma {:induction false} HistoriesAgree(ops: seq<Operation>)
    requires AllInTurn(ops)
    ensures Agree(BooksAfter(ops), ListsAfter(ops).pending)
    ensures forall m <- ListsAfter(ops).pending :: IsPayment(m)
  {
    if ops == [] {
      forall login: string ensures AgreeFor(EMPTY_BOOKS, map[], login) {
        NothingAwaited(login);
      }
    } else {
      var n := |ops| - 1;
      TurnsOfFewer(ops);
      HistoriesAgree(ops[..n]);
      var b, p := BooksAfter(ops[..n]), ListsAfter(ops[..n]);
      match ops[n]
      case DebitOne(login, amount, ts) =>
        MembersArePayments(login, amount);
        DebitAgreesIff(b, p, login, amount, ts);
      case RollbackOne(login, amount) => RollbackAgreesIff(b, p, login, amount);
      case PayOne(login, txHash, amount, ts) => PayAgreesIff(b, p, login, txHash, amount, ts);
    }
  }

  // ---------- the lists of payments made ----------

  /** The entry of a payment on the list of all, and on its miner's. */
  function EntryOf(op: Operation): string
    requires op.PayOne?
  {
    op.txHash + ":" + (op.login + ":" + FormatInt(op.amount))
  }

  function OwnEntryOf(op: Operation): string
    requires op.PayOne?
  {
    op.txHash + ":" + FormatInt(op.amount)
  }

  predicate OnList(p: PaymentLists, login: string, entry: string) {
    login in p.byLogin && entry in p.byLogin[login]
  }

  lemma RecordedEntries(p: PaymentLists, op: Operation, login: string, entry: string)
    requires op.PayOne?
    ensures var q := Recorded(p, op.login, op.txHash, op.amount, op.ts);
      && (entry in q.all <==> entry in p.all || entry == EntryOf(op))
      && (OnList(q, login, entry) <==> OnList(p, login, entry) || (login == op.login && entry == OwnEntryOf(op)))
      && q.lock == None
  {
    RecordingRecords(p, op.login, op.txHash, op.amount, op.ts);
  }

  predicate MakesEntry(op: Operation, entry: string) { op.PayOne? && EntryOf(op) == entry }

  predicate MakesOwnEntry(op: Operation, login: string, entry: string) {
    op.PayOne? && op.login == login && OwnEntryOf(op) == entry
  }

  predicate SomeMakes(ops: seq<Operation>, makes: Operation -> bool) { exists i :: 0 <= i < |ops| && makes(ops[i]) }

  lemma LastOrEarlier(ops: seq<Operation>, makes: Operation -> bool)
    requires ops != []
    ensures var n := |ops| - 1; SomeMakes(ops, makes) <==> SomeMakes(ops[..n], makes) || makes(ops[n])
  {
    var front := ops[..|ops| - 1];
    if i :| 0 <= i < |front| && makes(front[i]) {
      assert makes(ops[i]);
    }
    if i :| 0 <= i < |front| && makes(ops[i]) {
      assert makes(front[i]);
    }
  }

  /** Over any history of operations, in turn or not, an entry is on the list of all payments exactly if some
      payment made it. */
  lemma {:induction false} AllHoldsPayments(ops: seq<Operation>, entry: string)
    ensures entry in ListsAfter(ops).all <==> SomeMakes(ops, op => MakesEntry(op, entry))
    ensures ListsAfter(ops).lock == None
  {
    if ops != [] {
      var n := |ops| - 1;
      AllHoldsPayments(ops[..n], entry);
      LastOrEarlier(ops, op => MakesEntry(op, entry));
      if ops[n].PayOne? {
        RecordedEntries(ListsAfter(ops[..n]), ops[n], "", entry);
      }
    }
  }

  /** And on a miner's list exactly if some payment to that miner did. */
  lemma {:induction false} OwnListHoldsPayments(ops: seq<Operation>, login: string, entry: string)
    ensures OnList(ListsAfter(ops), login, entry) <==> SomeMakes(ops, op => MakesOwnEntry(op, login, entry))
  {
    if ops != [] {
      var n := |ops| - 1;
      OwnListHoldsPayments(ops[..n], login, entry);
      LastOrEarlier(ops, op => MakesOwnEntry(op, login, entry));
      if ops[n].PayOne? {
        RecordedEntries(ListsAfter(ops[..n]), ops[n], login, entry);
      }
    }
  }

  // ---------- resolving what is pending ----------

  function RollbackAll(b: Books, members: seq<string>): Books {
    if members == [] then b
    else
      var last := members[|members| - 1];
      Rollback(RollbackAll(b, members[..|members| - 1]), LoginOf(last), AmountOf(last))
  }

  /** The members are all rows of the list, each once. */
  ghost predicate Lists(members: seq<string>, pending: map<string, int>) {
    && (forall m :: m in members <==> m in pending)
    && (forall i, j :: 0 <= i < j < |members| ==> members[i] != members[j])
  }

  /** The members are rows of the list, each named once, and each prints a payment. */
  ghost predicate Names(members: seq<string>, pending: map<string, int>) {
    && (forall m <- members :: m in pending && IsPayment(m))
    && (forall i, j :: 0 <= i < j < |members| ==> members[i] != members[j])
  }

  function Those(members: seq<string>): set<string> { set m <- members }

  function Remaining(pending: map<string, int>, members: seq<string>): map<string, int> {
    pending - Those(members)
  }

  lemma RemainingWithoutLast(pending: map<string, int>, members: seq<string>)
    requires members != []
    ensures var n := |members| - 1; Remaining(pending, members) == Remaining(pending, members[..n]) - {members[n]}
  {
    var n := |members| - 1;
    assert forall m :: m in members <==> m in members[..n] || m == members[n];
    assert Those(members) == Those(members[..n]) + {members[n]};
  }

  lemma NamesWithoutLast(pending: map<string, int>, members: seq<string>)
    requires Names(members, pending) && members != []
    ensures var n := |members| - 1;
      Names(members[..n], pending) && IsPayment(members[n]) && members[n] in Remaining(pending, members[..n])
  {
    assert members[|members| - 1] in members;
  }

  lemma {:induction false} RollbacksAgree(b: Books, pending: map<string, int>, members: seq<string>)
    requires Agree(b, pending) && Names(members, pending)
    ensures Agree(RollbackAll(b, members), Remaining(pending, members))
  {
    if members == [] {
      assert Remaining(pending, members) == pending;
    } else {
      var n := |members| - 1;
      NamesWithoutLast(pending, members);
      RemainingWithoutLast(pending, members);
      RollbacksAgree(b, pending, members[..n]);
      var p := NO_PAYMENTS.(pending := Remaining(pending, members[..n]));
      RollbackAgreesIff(RollbackAll(b, members[..n]), p, LoginOf(members[n]), AmountOf(members[n]));
    }
  }

  lemma {:induction false} RollbacksKeepMoney(b: Books, members: seq<string>, login: string)
    ensures var b' := RollbackAll(b, members);
      Get(b'.balance, login) + Get(b'.pending, login) == Get(b.balance, login) + Get(b.pending, login)
  {
    if members != [] {
      RollbacksKeepMoney(b, members[..|members| - 1], login);
    }
  }

  /** Where amounts and list agree, rolling back all that is listed, in any order, leaves nothing pending
      and gives every miner back exactly what was. */
  lemma ResolvingRestores(b: Books, pending: map<string, int>, members: seq<string>, login: string)
    requires Agree(b, pending) && Lists(members, pending) && forall m <- pending :: IsPayment(m)
    ensures Remaining(pending, members) == map[]
    ensures Get(RollbackAll(b, members).pending, login) == 0
    ensures Get(RollbackAll(b, members).balance, login) == Get(b.balance, login) + Get(b.pending, login)
  {
    RollbacksAgree(b, pending, members);
    RollbacksKeepMoney(b, members, login);
    NothingAwaited(login);
    assert AgreeFor(RollbackAll(b, members), Remaining(pending, members), login);
  }

  /** Two payments of one amount to one miner, pending at once: the list names one, and resolving it
      leaves the other amount pending. */
  lemma TwinPaymentIsLost(login: string, amount: int, ts: int, ts': int)
    requires ColonFree(login) && IsInt64(amount)
    ensures var b, p := Debit(EMPTY_BOOKS, login, amount), Listed(NO_PAYMENTS, login, amount, ts);
      var b', p' := Debit(b, login, amount), Listed(p, login, amount, ts');
      && p'.pending == map[Member(login, amount) := ts']
      && Get(RollbackAll(b', [Member(login, amount)]).pending, login) == amount
  {
    var member := Member(login, amount);
    MemberReads(login, amount);
    assert [member][..0] == [];
    var b' := Debit(Debit(EMPTY_BOOKS, login, amount), login, amount);
    assert RollbackAll(b', []) == b';
  }
}
