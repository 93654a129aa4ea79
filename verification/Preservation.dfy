/** Each kind of write keeps the invariants; one lemma per part of the state it touches. */
module Preservation {
  import opened Rewards
  import opened Rows
  import opened Books
  import opened Ledger
  import opened Lifecycle
  import opened Invariants

  // ---------- credit logs ----------

  lemma FoundKeepsLogs(b: Books, rounds: map<RoundKey, Log>, stage: map<string, Stage>, credits: CreditRule,
                       nonceOf: string -> string,
                       n: string, s: Stage, round: Log)
    requires LogsMatch(b, rounds, stage, credits, nonceOf) && n !in stage && s.Frozen?
    ensures LogsMatch(b, rounds[RoundKey(s.height, n) := round], stage[n := s], credits, nonceOf)
  {
  }

  lemma EarlyMoveKeepsLogs(b: Books, rounds: map<RoundKey, Log>, stage: map<string, Stage>, credits: CreditRule,
                           nonceOf: string -> string,
                           n: string, s: Stage)
    requires LogsMatch(b, rounds, stage, credits, nonceOf) && n in stage && Rank(stage[n]) <= 1
    requires s.Candidate? || (s.Immature? && s.row.orphan && s.row.hash == "0x0")
    ensures LogsMatch(b, rounds, stage[n := s], credits, nonceOf)
  {
  }

  /** A block that is not credited yet has no log under any hash the chain can give it. */
  lemma NoLogYet(b: Books, rounds: map<RoundKey, Log>, stage: map<string, Stage>, credits: CreditRule,
                 nonceOf: string -> string, key: CreditKey)
    requires LogsMatch(b, rounds, stage, credits, nonceOf) && nonceOf(key.hash) in stage
    ensures Rank(stage[nonceOf(key.hash)]) <= 1 ==> key !in b.open
    ensures Rank(stage[nonceOf(key.hash)]) <= 2 ==> key !in b.closed
  {
  }

  lemma CreditKeepsOthersLogged(open: map<CreditKey, Log>, rounds: map<RoundKey, Log>, stage: map<string, Stage>,
                                credits: CreditRule, nonceOf: string -> string,
                                n: string, s: Stage)
    requires ImmatureLogged(open, rounds, stage, credits, nonceOf)
    requires s.Immature? && !s.row.orphan && nonceOf(s.row.hash) == n && RoundKey(s.height, n) in rounds
    requires CreditKey(s.height, s.row.hash) !in open
    ensures ImmatureLogged(open[CreditKey(s.height, s.row.hash) := credits(s.row, rounds[RoundKey(s.height, n)])],
                           rounds, stage[n := s], credits, nonceOf)
  {
  }

  lemma CreditKeepsLogsKnown(open: set<CreditKey>, closed: set<CreditKey>, stage: map<string, Stage>,
                             nonceOf: string -> string, n: string, s: Stage)
    requires LogsKnown(open, closed, stage, nonceOf) && n in stage && stage[n].Candidate?
    requires s.Immature? && nonceOf(s.row.hash) == n && |s.row.hash| >= 10
    ensures LogsKnown(open + {CreditKey(s.height, s.row.hash)}, closed, stage[n := s], nonceOf)
  {
  }

  lemma CreditKeepsLogs(b: Books, rounds: map<RoundKey, Log>, stage: map<string, Stage>, credits: CreditRule,
                        nonceOf: string -> string,
                        n: string, s: Stage, rewards: Log)
    requires LogsMatch(b, rounds, stage, credits, nonceOf) && n in stage && stage[n].Candidate?
    requires s.Immature? && !s.row.orphan && nonceOf(s.row.hash) == n && |s.row.hash| >= 10
    requires RoundKey(s.height, n) in rounds && rewards == credits(s.row, rounds[RoundKey(s.height, n)])
    requires rewards != map[]
    ensures LogsMatch(CreditImmature(b, CreditKey(s.height, s.row.hash), rewards), rounds, stage[n := s], credits,
                      nonceOf)
  {
    var key := CreditKey(s.height, s.row.hash);
    NoLogYet(b, rounds, stage, credits, nonceOf, key);
    CreditKeepsOthersLogged(b.open, rounds, stage, credits, nonceOf, n, s);
    assert LogOnce(b.open, key, rewards) == b.open[key := rewards] by {
      assert rewards + map[] == rewards;
    }
    CreditKeepsLogsKnown(b.open.Keys, b.closed.Keys, stage, nonceOf, n, s);
    assert b.open[key := rewards].Keys == b.open.Keys + {key};
  }

  /** Maturing or orphaning consumes only logs of the block itself. */
  lemma RevertKeepsOthersLogged(open: map<CreditKey, Log>, rounds: map<RoundKey, Log>, stage: map<string, Stage>,
                                credits: CreditRule, nonceOf: string -> string,
                                n: string, s: Stage, key: CreditKey)
    requires ImmatureLogged(open, rounds, stage, credits, nonceOf) && n in stage && s.Matured?
    requires key in open ==> nonceOf(key.hash) == n
    ensures ImmatureLogged(open - {key}, rounds - {RoundKey(stage[n].height, n)}, stage[n := s], credits, nonceOf)
  {
  }

  lemma RevertKeepsLogs(b: Books, rounds: map<RoundKey, Log>, stage: map<string, Stage>, credits: CreditRule,
                        nonceOf: string -> string,
                        n: string, s: Stage, key: CreditKey, read: Log)
    requires LogsMatch(b, rounds, stage, credits, nonceOf) && n in stage && stage[n].Immature? && s.Matured?
    requires key.hash == "0x0" || nonceOf(key.hash) == n
    ensures LogsMatch(RevertImmature(b, key, read), rounds - {RoundKey(stage[n].height, n)}, stage[n := s], credits,
                      nonceOf)
  {
    RevertKeepsOthersLogged(b.open, rounds, stage, credits, nonceOf, n, s, key);
  }

  lemma MatureKeepsLogs(b: Books, rounds: map<RoundKey, Log>, stage: map<string, Stage>, credits: CreditRule,
                        nonceOf: string -> string,
                        n: string, key: CreditKey, rewards: Log, mined: int)
    requires LogsMatch(b, rounds, stage, credits, nonceOf) && n in stage && stage[n].Matured? && nonceOf(key.hash) == n
    ensures LogsMatch(CreditMatured(b, key, rewards, mined), rounds, stage, credits, nonceOf)
  {
  }

  // ---------- the work of a running pass ----------

  lemma WorkSurvives(work: Work, stage: map<string, Stage>, fees: FeeConfig, nonceOf: string -> string, n: string,
                     s: Stage)
    requires WorkMatches(work, stage, fees, nonceOf)
    requires n !in stage || stage[n].Frozen?
    ensures WorkMatches(work, stage[n := s], fees, nonceOf)
  {
  }

  lemma TailApart<K>(items: seq<Item<K>>)
    requires items != [] && Distinct(items)
    ensures Distinct(items[1..])
    ensures forall item <- items[1..] :: item in items && item.block.nonce != items[0].block.nonce
  {
  }

  lemma CreditingGoesOn(confirmed: seq<Item<CandidateRow>>, stage: map<string, Stage>, fees: FeeConfig,
                        nonceOf: string -> string, s: Stage)
    requires confirmed != [] && WorkMatches(Crediting(confirmed), stage, fees, nonceOf)
    ensures WorkMatches(Crediting(confirmed[1..]), stage[confirmed[0].block.nonce := s], fees, nonceOf)
  {
    TailApart(confirmed);
  }

  lemma OrphaningGoesOn(lost: seq<Item<BlockRow>>, ripe: seq<Item<BlockRow>>, stage: map<string, Stage>,
                        fees: FeeConfig, nonceOf: string -> string, s: Stage)
    requires lost != [] && WorkMatches(MatureLoaded(lost, ripe), stage, fees, nonceOf)
    ensures WorkMatches(MatureLoaded(lost[1..], ripe), stage[lost[0].block.nonce := s], fees, nonceOf)
  {
    TailApart(lost);
    assert forall item <- ripe :: item.block.nonce != lost[0].block.nonce;
  }

  lemma MaturingGoesOn(ripe: seq<Item<BlockRow>>, stage: map<string, Stage>, fees: FeeConfig, nonceOf: string -> string,
                       s: Stage)
    requires ripe != [] && WorkMatches(MatureLoaded([], ripe), stage, fees, nonceOf)
    ensures WorkMatches(MatureLoaded([], ripe[1..]), stage[ripe[0].block.nonce := s], fees, nonceOf)
  {
    TailApart(ripe);
  }
}
