/** The money side of the Redis schema: the `miners:<login>` hashes, the `finances` hash and the
    credit logs, with one function per MULTI/EXEC that moves amounts (storage/redis.go). */
module Books {
  import opened FiniteSums

  /** `credits:immature:<height>:<hash>` and `credits:<height>:<hash>`. */
  datatype CreditKey = CreditKey(height: int, hash: string)

  type Log = map<string, int>

  datatype Finances = Finances(immature: int, balance: int, pending: int, paid: int, totalMined: int)

  datatype Books = Books(
    immature: Log, balance: Log, pending: Log, paid: Log,
    finances: Finances,
    open: map<CreditKey, Log>,     // provisional credits of immature blocks
    closed: map<CreditKey, Log>,   // credits of matured blocks
    lost: Log)                     // history: credits whose log was deleted without being read

  const EMPTY_BOOKS := Books(map[], map[], map[], map[], Finances(0, 0, 0, 0, 0), map[], map[], map[])

  function Lookup(logs: map<CreditKey, Log>, key: CreditKey): Log {
    if key in logs then logs[key] else map[]
  }

  /** A run of HSETNX on one log: fields already there keep their value, and an empty hash does not exist. */
  function LogOnce(logs: map<CreditKey, Log>, key: CreditKey, entries: Log): map<CreditKey, Log> {
    var log := entries + Lookup(logs, key);
    if log == map[] then logs else logs[key := log]
  }

  ghost function CreditImmature(b: Books, key: CreditKey, rewards: Log): Books {
    b.(immature := AddAll(b.immature, rewards),
       finances := b.finances.(immature := b.finances.immature + Sum(rewards)),
       open := LogOnce(b.open, key, rewards))
  }

  /** What HGETALL returns for a log: its error is dropped, and the log then reads as empty. */
  function ReadLog(b: Books, key: CreditKey, logRead: bool): Log {
    if logRead then Lookup(b.open, key) else map[]
  }

  /** Undoes the provisional credit. `read` is what HGETALL returned for the log before the EXEC. */
  ghost function RevertImmature(b: Books, key: CreditKey, read: Log): Books {
    b.(immature := SubAll(b.immature, read),
       finances := b.finances.(immature := b.finances.immature - Sum(read)),
       open := b.open - {key},
       lost := AddAll(b.lost, SubAll(Lookup(b.open, key), read)))
  }

  ghost function CreditMatured(b: Books, key: CreditKey, rewards: Log, mined: int): Books {
    b.(balance := AddAll(b.balance, rewards),
       finances := b.finances.(balance := b.finances.balance + Sum(rewards),
                               totalMined := b.finances.totalMined + mined),
       closed := LogOnce(b.closed, key, rewards))
  }

  /** `UpdateBalance`: debit a miner's balance for a payment. */
  function Debit(b: Books, login: string, amount: int): Books {
    b.(balance := IncrBy(b.balance, login, -amount), pending := IncrBy(b.pending, login, amount),
       finances := b.finances.(balance := b.finances.balance - amount, pending := b.finances.pending + amount))
  }

  function Rollback(b: Books, login: string, amount: int): Books {
    b.(balance := IncrBy(b.balance, login, amount), pending := IncrBy(b.pending, login, -amount),
       finances := b.finances.(balance := b.finances.balance + amount, pending := b.finances.pending - amount))
  }

  /** `WritePayment`: a pending amount has been paid. */
  function Pay(b: Books, login: string, amount: int): Books {
    b.(pending := IncrBy(b.pending, login, -amount), paid := IncrBy(b.paid, login, amount),
       finances := b.finances.(pending := b.finances.pending - amount, paid := b.finances.paid + amount))
  }

  /** One miner's field has changed by an amount, and no other field. */
  ghost predicate Moved(before: Log, after: Log, login: string, amount: int) {
    forall l: string :: Get(after, l) == Get(before, l) + if l == login then amount else 0
  }

  /** What the open or closed logs hold for one miner. */
  ghost function Logged(logs: map<CreditKey, Log>, login: string): int {
    Sum(map key | key in logs :: Get(logs[key], login))
  }

  /** What the logs hold for all miners together. */
  ghost function LoggedTotal(logs: map<CreditKey, Log>): int {
    Sum(map key | key in logs :: Sum(logs[key]))
  }

  /** Pool totals agree with the miners, and every miner agrees with the logs, open and lost. */
  ghost predicate Balanced(b: Books) {
    && PoolAgrees(b)
    && (forall login: string :: Get(b.immature, login) == Logged(b.open, login) + Get(b.lost, login))
    && (forall login: string :: Held(b, login) == Logged(b.closed, login))
    && b.finances.balance + b.finances.pending + b.finances.paid == LoggedTotal(b.closed)
  }

  ghost predicate PoolAgrees(b: Books) {
    && b.finances.immature == Sum(b.immature)
    && b.finances.balance == Sum(b.balance)
    && b.finances.pending == Sum(b.pending)
    && b.finances.paid == Sum(b.paid)
  }

  /** Everything a miner was ever credited for good, in whatever form it is now. */
  function Held(b: Books, login: string): int {
    Get(b.balance, login) + Get(b.pending, login) + Get(b.paid, login)
  }

  lemma NothingLogged(logs: map<CreditKey, Log>, login: string)
    ensures logs == map[] ==> Logged(logs, login) == 0 && LoggedTotal(logs) == 0
  {
    var amounts, totals := map key | key in logs :: Get(logs[key], login), map key | key in logs :: Sum(logs[key]);
    assert amounts.Keys == logs.Keys && totals.Keys == logs.Keys;
  }

  /** HSETNX adds to a miner's logged amount only where the log had no entry for the miner. */
  lemma LoggedAfterLog(logs: map<CreditKey, Log>, key: CreditKey, entries: Log, login: string)
    ensures Logged(LogOnce(logs, key, entries), login)
         == Logged(logs, login) + if login in Lookup(logs, key) then 0 else Get(entries, login)
  {
    var before := map k | k in logs :: Get(logs[k], login);
    var log := entries + Lookup(logs, key);
    if log != map[] {
      SumPut(before, key, Get(log, login));
      var logs' := logs[key := log];
      assert (map k | k in logs' :: Get(logs'[k], login)) == before[key := Get(log, login)];
    } else {
      assert entries.Keys <= log.Keys;
    }
  }

  lemma LoggedTotalAfterFresh(logs: map<CreditKey, Log>, key: CreditKey, entries: Log)
    requires key !in logs
    ensures LoggedTotal(LogOnce(logs, key, entries)) == LoggedTotal(logs) + Sum(entries)
  {
    var before := map k | k in logs :: Sum(logs[k]);
    assert entries + map[] == entries;
    if entries != map[] {
      SumPut(before, key, Sum(entries));
      var logs' := logs[key := entries];
      assert (map k | k in logs' :: Sum(logs'[k])) == before[key := Sum(entries)];
    }
  }

  lemma LoggedAfterDelete(logs: map<CreditKey, Log>, key: CreditKey, login: string)
    ensures Logged(logs - {key}, login) == Logged(logs, login) - Get(Lookup(logs, key), login)
  {
    var before := map k | k in logs :: Get(logs[k], login);
    SumDrop(before, key);
    var logs' := logs - {key};
    assert (map k | k in logs' :: Get(logs'[k], login)) == before - {key};
  }

  lemma CreditImmatureKeepsBalance(b: Books, key: CreditKey, rewards: Log)
    requires Balanced(b) && key !in b.open
    ensures Balanced(CreditImmature(b, key, rewards))
  {
    SumAddAll(b.immature, rewards);
    forall login: string
      ensures Get(AddAll(b.immature, rewards), login)
        == Logged(LogOnce(b.open, key, rewards), login) + Get(b.lost, login)
    {
      LoggedAfterLog(b.open, key, rewards, login);
    }
    var b' := CreditImmature(b, key, rewards);
    assert forall login: string :: Held(b', login) == Held(b, login);
  }

  lemma RevertAgrees(b: Books, key: CreditKey, read: Log, login: string)
    requires Get(b.immature, login) == Logged(b.open, login) + Get(b.lost, login)
    ensures var b' := RevertImmature(b, key, read);
      Get(b'.immature, login) == Logged(b'.open, login) + Get(b'.lost, login)
  {
    LoggedAfterDelete(b.open, key, login);
    GetSubAll(b.immature, read, login);
    GetSubAll(Lookup(b.open, key), read, login);
    GetAddAll(b.lost, SubAll(Lookup(b.open, key), read), login);
  }

  lemma RevertLoses(b: Books, key: CreditKey, logRead: bool, login: string)
    ensures Get(RevertImmature(b, key, ReadLog(b, key, logRead)).lost, login)
      == Get(b.lost, login) + if logRead then 0 else Get(Lookup(b.open, key), login)
  {
    var log, read := Lookup(b.open, key), ReadLog(b, key, logRead);
    GetSubAll(log, read, login);
    GetAddAll(b.lost, SubAll(log, read), login);
  }

  /** Reverting, whatever was read of the log, keeps the agreement: what was not read is lost. */
  lemma RevertImmatureKeepsBalance(b: Books, key: CreditKey, read: Log)
    requires Balanced(b)
    ensures Balanced(RevertImmature(b, key, read))
  {
    SumSubAll(b.immature, read);
    var b' := RevertImmature(b, key, read);
    forall login: string ensures Get(b'.immature, login) == Logged(b'.open, login) + Get(b'.lost, login) {
      RevertAgrees(b, key, read, login);
    }
    forall login: string ensures Held(b', login) == Logged(b'.closed, login) {
      assert Held(b', login) == Held(b, login);
    }
  }

  lemma CreditMaturedHolds(b: Books, key: CreditKey, rewards: Log, mined: int, login: string)
    requires Held(b, login) == Logged(b.closed, login) && key !in b.closed
    ensures var b' := CreditMatured(b, key, rewards, mined);
      Held(b', login) == Logged(b'.closed, login)
  {
    LoggedAfterLog(b.closed, key, rewards, login);
  }

  lemma CreditMaturedKeepsBalance(b: Books, key: CreditKey, rewards: Log, mined: int)
    requires Balanced(b) && key !in b.closed
    ensures Balanced(CreditMatured(b, key, rewards, mined))
  {
    SumAddAll(b.balance, rewards);
    LoggedTotalAfterFresh(b.closed, key, rewards);
    var b' := CreditMatured(b, key, rewards, mined);
    forall login: string ensures Held(b', login) == Logged(b'.closed, login) {
      CreditMaturedHolds(b, key, rewards, mined, login);
    }
  }

  /** A movement that leaves the logs, the immature amounts and what each miner holds as they are. */
  lemma HoldingKeepsBalance(b: Books, b': Books)
    requires Balanced(b) && PoolAgrees(b')
    requires b'.immature == b.immature && b'.open == b.open && b'.closed == b.closed && b'.lost == b.lost
    requires forall l: string :: Held(b', l) == Held(b, l)
    requires b'.finances.balance + b'.finances.pending + b'.finances.paid
          == b.finances.balance + b.finances.pending + b.finances.paid
    ensures Balanced(b')
  {
    forall l: string ensures Held(b', l) == Logged(b'.closed, l) {
      assert Held(b', l) == Held(b, l);
    }
  }

  lemma MovesKeepHeld(b: Books, login: string, amount: int, l: string)
    ensures Held(Debit(b, login, amount), l) == Held(b, l)
    ensures Held(Rollback(b, login, amount), l) == Held(b, l)
    ensures Held(Pay(b, login, amount), l) == Held(b, l)
  {
  }

  lemma DebitKeepsPool(b: Books, login: string, amount: int)
    requires PoolAgrees(b)
    ensures PoolAgrees(Debit(b, login, amount))
  {
    SumPut(b.balance, login, Get(b.balance, login) - amount);
    SumPut(b.pending, login, Get(b.pending, login) + amount);
  }

  /** Payments only move a miner's money between balance, pending and paid. */
  lemma DebitKeepsBalance(b: Books, login: string, amount: int)
    requires Balanced(b)
    ensures Balanced(Debit(b, login, amount))
  {
    DebitKeepsPool(b, login, amount);
    forall l: string ensures Held(Debit(b, login, amount), l) == Held(b, l) {
      MovesKeepHeld(b, login, amount, l);
    }
    HoldingKeepsBalance(b, Debit(b, login, amount));
  }

  lemma RollbackKeepsPool(b: Books, login: string, amount: int)
    requires PoolAgrees(b)
    ensures PoolAgrees(Rollback(b, login, amount))
  {
    SumPut(b.balance, login, Get(b.balance, login) + amount);
    SumPut(b.pending, login, Get(b.pending, login) - amount);
  }

  lemma RollbackKeepsBalance(b: Books, login: string, amount: int)
    requires Balanced(b)
    ensures Balanced(Rollback(b, login, amount))
  {
    RollbackKeepsPool(b, login, amount);
    forall l: string ensures Held(Rollback(b, login, amount), l) == Held(b, l) {
      MovesKeepHeld(b, login, amount, l);
    }
    HoldingKeepsBalance(b, Rollback(b, login, amount));
  }

  lemma PayKeepsPool(b: Books, login: string, amount: int)
    requires PoolAgrees(b)
    ensures PoolAgrees(Pay(b, login, amount))
  {
    SumPut(b.pending, login, Get(b.pending, login) - amount);
    SumPut(b.paid, login, Get(b.paid, login) + amount);
  }

  lemma PayKeepsBalance(b: Books, login: string, amount: int)
    requires Balanced(b)
    ensures Balanced(Pay(b, login, amount))
  {
    PayKeepsPool(b, login, amount);
    forall l: string ensures Held(Pay(b, login, amount), l) == Held(b, l) {
      MovesKeepHeld(b, login, amount, l);
    }
    HoldingKeepsBalance(b, Pay(b, login, amount));
  }

  /** A provisional credit keeps the miners' immature amounts equal to the logs exactly when no
      miner it credits with a nonzero amount has an entry in the key's log already. */
  lemma CreditImmatureIff(b: Books, key: CreditKey, rewards: Log)
    requires forall login: string :: Get(b.immature, login) == Logged(b.open, login) + Get(b.lost, login)
    ensures var b' := CreditImmature(b, key, rewards);
      (forall login: string :: Get(b'.immature, login) == Logged(b'.open, login) + Get(b'.lost, login)) <==>
      (forall login <- rewards :: login in Lookup(b.open, key) ==> rewards[login] == 0)
  {
    var b' := CreditImmature(b, key, rewards);
    forall login: string
      ensures Get(b'.immature, login) == Logged(b'.open, login) + Get(b'.lost, login) <==>
              (login in rewards && login in Lookup(b.open, key) ==> rewards[login] == 0)
    {
      LoggedAfterLog(b.open, key, rewards, login);
    }
  }

  lemma RevertAgreesIff(b: Books, key: CreditKey, read: Log, login: string)
    requires Get(b.immature, login) == Logged(b.open, login)
    ensures var b' := RevertImmature(b, key, read);
      Get(b'.immature, login) == Logged(b'.open, login) <==>
      Get(read, login) == Get(Lookup(b.open, key), login)
  {
    LoggedAfterDelete(b.open, key, login);
  }

  /** The read of the log before the EXEC drops its error and then reads as empty. Reverting keeps
      the miners' immature amounts equal to the logs exactly when every amount was read. */
  lemma RevertImmatureIff(b: Books, key: CreditKey, read: Log)
    requires forall login: string :: Get(b.immature, login) == Logged(b.open, login)
    ensures var b' := RevertImmature(b, key, read);
      (forall login: string :: Get(b'.immature, login) == Logged(b'.open, login)) <==>
      (forall login: string :: Get(read, login) == Get(Lookup(b.open, key), login))
  {
    var b' := RevertImmature(b, key, read);
    forall login: string
      ensures Get(b'.immature, login) == Logged(b'.open, login) <==>
              Get(read, login) == Get(Lookup(b.open, key), login)
    {
      RevertAgreesIff(b, key, read, login);
    }
  }

  lemma CreditedLog(b: Books, key: CreditKey, rewards: Log)
    requires key !in b.open && rewards != map[]
    ensures CreditImmature(b, key, rewards).open == b.open[key := rewards]
  {
    assert rewards + map[] == rewards;
  }

  lemma ClosedLog(b: Books, key: CreditKey, rewards: Log, mined: int)
    requires key !in b.closed && rewards != map[]
    ensures CreditMatured(b, key, rewards, mined).closed == b.closed[key := rewards]
  {
    assert rewards + map[] == rewards;
  }

  lemma SubUndoesAdd(m: Log, d: Log, k: string)
    ensures Get(SubAll(AddAll(m, d), d), k) == Get(m, k)
  {
  }

  /** Reverting a provisional credit restores every miner's immature amount, the pool's and the logs. */
  lemma RevertUndoesCredit(b: Books, key: CreditKey, rewards: Log)
    requires key !in b.open && rewards != map[]
    ensures var credited := CreditImmature(b, key, rewards);
      var b' := RevertImmature(credited, key, Lookup(credited.open, key));
      && (forall login: string :: Get(b'.immature, login) == Get(b.immature, login))
      && b'.open == b.open && b'.finances == b.finances
  {
    CreditedLog(b, key, rewards);
    forall login: string ensures Get(SubAll(AddAll(b.immature, rewards), rewards), login) == Get(b.immature, login) {
      SubUndoesAdd(b.immature, rewards, login);
    }
    assert b.open[key := rewards] - {key} == b.open;
  }

  /** Rolling a debit back restores what the miner and the pool had. */
  lemma RollbackUndoesDebit(b: Books, login: string, amount: int)
    ensures var b' := Rollback(Debit(b, login, amount), login, amount);
      && (forall l: string :: Get(b'.balance, l) == Get(b.balance, l) && Get(b'.pending, l) == Get(b.pending, l))
      && b'.finances == b.finances
  {
  }
}
