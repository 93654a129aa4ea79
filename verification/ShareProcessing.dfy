/** What becomes of a submitted share: the checks of its parameters (proxy/handlers.go), the verdict
    on its work and what is written for it (proxy/miner.go). */
module ShareProcessing {
  import opened Wrappers
  import opened FiniteSums
  import opened Wire
  import opened Text
  import opened Rows
  import opened Ledger
  import opened Lifecycle
  import opened Runs
  import opened Payouts
  import opened ScriptNumbers
  import opened Coinbase
  import opened Difficulty
  import opened BlockAssembly
  import opened Templates
  import Policy
  import PolicySpec
  import Books
  import PowHistory
  import Redis = RedisClient

  /** A miner's share: `params` are worker, job id, second extranonce, time and nonce. */
  datatype Submission = Submission(login: string, extraNonce1: string, shareDiff: nat, params: seq<string>)

  function JobId(s: Submission): string requires |s.params| == 5 { s.params[1] }

  /** The share against a difficulty. */
  function AsBlock(s: Submission, t: Template, job: Job, difficulty: nat): Block
    requires |s.params| == 5
  {
    Block(difficulty, job.coinBase1, job.coinBase2, s.extraNonce1, s.params[2], job.merkleBranch,
          t.version, t.prevHash, s.params[3], t.nBits, s.params[4])
  }

  /** The key under which a share counts once. */
  function PowParams(s: Submission): seq<string>
    requires |s.params| == 5
  {
    [s.params[4], s.extraNonce1, s.params[2]]
  }

  datatype Verdict = Stale | Rejected | ShareOnly | Unbuildable | BlockFound(raw: RawBlock)

  /** A share must name a job of the template and meet the share difficulty; if it also meets the
      template's it is a block, to be built from the job's transactions. */
  function Judge(lib: Library, s: Submission, t: Template, jobs: map<string, Job>,
                 details: map<string, string>): Verdict
    requires |s.params| == 5
  {
    if JobId(s) !in jobs then Stale
    else
      var job := jobs[JobId(s)];
      if !MeetsDifficulty(lib, AsBlock(s, t, job, s.shareDiff)) then Rejected
      else if !MeetsDifficulty(lib, AsBlock(s, t, job, t.difficulty)) then ShareOnly
      else
        var b := AsBlock(s, t, job, t.difficulty);
        var txs := Unpacked(lib, job.txIds, details);
        if txs.None? then Unbuildable else BlockFound(RawBlock(HeaderOf(lib, b).value,
                                                               [CoinbaseOf(b).value] + txs.value))
  }

  /** The library ids of transactions. */
  function Ids(lib: Library, txs: seq<Transaction>): seq<string> {
    if txs == [] then [] else Ids(lib, txs[..|txs| - 1]) + [lib.txId(txs[|txs| - 1])]
  }

  /** The node's data for a transaction id is that transaction. */
  ghost predicate DataIsRight(lib: Library, details: map<string, string>) {
    forall id :: id in details && lib.unpack(details[id]).Some? ==> lib.txId(lib.unpack(details[id]).value) == id
  }

  lemma {:induction false} UnpackedIds(lib: Library, txIds: seq<string>, details: map<string, string>)
    requires DataIsRight(lib, details) && Unpacked(lib, txIds, details).Some?
    ensures Ids(lib, Unpacked(lib, txIds, details).value) == txIds
  {
    if txIds != [] {
      var n := |txIds| - 1;
      UnpackedIds(lib, txIds[..n], details);
      var txs := Unpacked(lib, txIds, details).value;
      assert txs[..|txs| - 1] == Unpacked(lib, txIds[..n], details).value;
      assert txIds == txIds[..n] + [txIds[n]];
    }
  }

  lemma {:induction false} IdsOfOneMore(lib: Library, first: Transaction, txs: seq<Transaction>)
    ensures Ids(lib, [first] + txs) == [lib.txId(first)] + Ids(lib, txs)
  {
    if txs == [] {
      assert [first] + txs == [first] && [first][..0] == [];
    } else {
      var n := |txs| - 1;
      IdsOfOneMore(lib, first, txs[..n]);
      assert ([first] + txs)[..|[first] + txs| - 1] == [first] + txs[..n];
    }
  }

  /** What a share that is a block is made of: the job its second parameter names, checked against the
      template's difficulty, with the job's transactions after its coinbase. */
  lemma FoundIsBuilt(lib: Library, s: Submission, t: Template, jobs: map<string, Job>, details: map<string, string>)
    requires |s.params| == 5 && Judge(lib, s, t, jobs, details).BlockFound?
    ensures s.params[1] in jobs
    ensures var job, raw := jobs[s.params[1]], Judge(lib, s, t, jobs, details).raw;
      var b, txs := AsBlock(s, t, job, t.difficulty), Unpacked(lib, job.txIds, details);
      && MeetsDifficulty(lib, b) && HeaderOf(lib, b) == Some(raw.header)
      && CoinbaseOf(b).Some? && txs.Some? && raw.vtx == [CoinbaseOf(b).value] + txs.value
  {
  }

  lemma MeetsNetworkTarget(lib: Library, b: Block, target: nat)
    requires target > 0 && b.difficulty == Quotient(POW256, target) && MeetsDifficulty(lib, b)
    ensures HashOf(lib, HeaderOf(lib, b).value).value < target
  {
    var hash := HashOf(lib, HeaderOf(lib, b).value).value;
    BelowThreshold(target, hash);
  }

  lemma BelowThreshold(target: nat, hash: nat)
    requires target > 0 && 0 < hash <= Threshold(Quotient(POW256, target))
    ensures hash < target
  {
    AcceptsIff(Quotient(POW256, target), hash);
    BlockTestAgainstTarget(target, hash);
  }

  /** The header that is checked for a share: on the template's block, with its version and bits, at the
      time and with the nonce the miner sent. */
  lemma HeaderIsSubmitted(lib: Library, s: Submission, t: Template, job: Job, difficulty: nat)
    requires |s.params| == 5 && HeaderOf(lib, AsBlock(s, t, job, difficulty)).Some?
    ensures var h := HeaderOf(lib, AsBlock(s, t, job, difficulty)).value;
      && h.prevHash == t.prevHash && h.bits == t.nBits
      && HexNumber(s.params[3]) == Some(h.time) && HexNumber(s.params[4]) == Some(h.nonce)
      && h.time < 0x1_0000_0000 && h.nonce < 0x1_0000_0000
      && (h.version == t.version || h.version == t.version - 0x1_0000_0000)
      && (t.version < 0x1_0000_0000 ==> -0x8000_0000 <= h.version < 0x8000_0000)
  {
    SignedVersion(t.version);
  }

  /** A block that is submitted is one the hash of the checked header is good for: its header is on
      the template's block, hashes below the network's target and commits to exactly the
      transactions the block carries. */
  lemma SubmittedBlocksAreGood(lib: Library, h: Merkle.Combine, s: Submission, t: Template, jobs: map<string, Job>,
                               details: map<string, string>, target: nat)
    requires |s.params| == 5 && Judge(lib, s, t, jobs, details).BlockFound?
    requires DataIsRight(lib, details) && FoldsBranches(lib, h)
    requires s.params[1] in jobs ==> jobs[s.params[1]].merkleBranch == Merkle.Branch(h, jobs[s.params[1]].txIds)
    requires target > 0 && t.difficulty == Quotient(POW256, target)
    ensures var raw, txIds := Judge(lib, s, t, jobs, details).raw, jobs[s.params[1]].txIds;
      && HashOf(lib, raw.header).Some? && HexNumber(lib.hashHex(raw.header)).value < target
      && raw.header.prevHash == t.prevHash && raw.header.bits == t.nBits && raw.vtx != []
      && HexNumber(s.params[3]) == Some(raw.header.time) && HexNumber(s.params[4]) == Some(raw.header.nonce)
      && raw.header.merkleRoot == Merkle.Root(h, [lib.txId(raw.vtx[0])] + txIds)
      && Ids(lib, raw.vtx) == [lib.txId(raw.vtx[0])] + txIds
  {
    FoundIsBuilt(lib, s, t, jobs, details);
    var job := jobs[s.params[1]];
    var b := AsBlock(s, t, job, t.difficulty);
    MeetsNetworkTarget(lib, b, target);
    HeaderIsSubmitted(lib, s, t, job, t.difficulty);
    HeaderCommitsToBlock(lib, h, b, job.txIds);
    UnpackedIds(lib, job.txIds, details);
    IdsOfOneMore(lib, CoinbaseOf(b).value, Unpacked(lib, job.txIds, details).value);
  }

  /** The answers a template's maps were filled from: each has the right data for each of its ids. */
  ghost predicate AnswersAreRight(lib: Library, answers: seq<Templates.Reply>) {
    forall k, i :: 0 <= k < |answers| && 0 <= i < |answers[k].transactions| ==>
      var tx := answers[k].transactions[i];
      lib.unpack(tx.data).Some? ==> lib.txId(lib.unpack(tx.data).value) == tx.txId
  }

  /** The data of a stored template is as right as the answers it came with. */
  lemma StoredDataIsRight(lib: Library, rule: JobRule, t: Template)
    requires Sound(rule, t) && AnswersAreRight(lib, t.maps.answers)
    ensures DataIsRight(lib, t.maps.details)
  {
    var details, answers := t.maps.details, t.maps.answers;
    forall id | id in details && lib.unpack(details[id]).Some?
      ensures lib.txId(lib.unpack(details[id]).value) == id
    {
      assert SomeGave(answers, id, details[id]);
      var k :| 0 <= k < |answers| && Gave(answers[k].transactions, id, details[id]);
      var i :| 0 <= i < |answers[k].transactions| && answers[k].transactions[i].txId == id
        && answers[k].transactions[i].data == details[id];
    }
  }

  /** The transaction spends nothing, with a script of a height, some flags and a time, the extranonces
      and the extra data, and pays a job's value to the wallet and carries its commitment. */
  predicate IsCoinbaseOf(tx: Transaction, cfg: Setup, job: Job, height: nat, flags: Bytes, now: nat, e1: Bytes,
                         e2: Bytes) {
    && |PackedDigits(height)| < 256 && |PackedDigits(now)| < 256 && DecodeHex(job.commitment).Some?
    && tx.version == 2 && tx.lockTime == 0 && |tx.vin| == 1
    && |tx.vin[0].prevHash| == 32 && (forall i :: 0 <= i < 32 ==> tx.vin[0].prevHash[i] == 0)
    && tx.vin[0].prevIndex == 0xffff_ffff && tx.vin[0].sequence == 0
    && tx.vin[0].script == ScriptOf(height, flags, now, e1, e2, cfg.extras)
    && tx.vout == [TxOut(job.coinBaseValue, cfg.wallet)]
       + (if DecodeHex(job.commitment).value == [] then [] else [TxOut(0, DecodeHex(job.commitment).value)])
  }

  lemma JobsCoinbase(cfg: Setup, id: string, job: Job, height: nat, b: Block)
    requires SoundJob(cfg, id, job, height) && b.coinBase1 == job.coinBase1 && b.coinBase2 == job.coinBase2
    requires HasExtranonces(b.extraNonce1, b.extraNonce2)
    ensures CoinbaseOf(b).Some?
    ensures exists flags: Bytes, now: nat ::
      IsCoinbaseOf(CoinbaseOf(b).value, cfg, job, height, flags, now, DecodeHex(b.extraNonce1).value,
                   DecodeHex(b.extraNonce2).value)
  {
    var flags: Bytes, now: nat :| HalvesFor(job, height, cfg.wallet, cfg.extras, flags, now);
    JobsCompleteExactly(job, height, cfg.wallet, cfg.extras, flags, now, b.extraNonce1, b.extraNonce2, b);
    assert IsCoinbaseOf(CoinbaseOf(b).value, cfg, job, height, flags, now, DecodeHex(b.extraNonce1).value,
                        DecodeHex(b.extraNonce2).value);
  }

  /** Two extranonces of four bytes each. */
  predicate HasExtranonces(e1: string, e2: string) {
    DecodeHex(e1).Some? && DecodeHex(e2).Some? && |DecodeHex(e1).value| == 4 && |DecodeHex(e2).value| == 4
  }

  /** The library makes the branches that its folding takes. */
  ghost predicate MakesBranches(cfg: Setup, h: Merkle.Combine) {
    forall txIds :: cfg.branchOf(txIds).Some? ==> cfg.branchOf(txIds) == Some(Merkle.Branch(h, txIds))
  }

  /** And for a stored template nothing of that has to be taken for granted but the answers and the
      libraries: what is submitted is the job's transactions behind a coinbase for the template's height
      with the miner's extranonces in it, which pays the job's value to the pool. */
  lemma StoredBlocksAreGood(lib: Library, h: Merkle.Combine, cfg: Setup, s: Submission, t: Template, target: nat)
    requires |s.params| == 5 && Judge(lib, s, t, t.maps.jobs, t.maps.details).BlockFound?
    requires Sound(RuleOf(cfg), t) && AnswersAreRight(lib, t.maps.answers)
    requires FoldsBranches(lib, h) && MakesBranches(cfg, h) && HasExtranonces(s.extraNonce1, s.params[2])
    requires target > 0 && t.difficulty == Quotient(POW256, target)
    ensures s.params[1] in t.maps.jobs
    ensures var raw, job := Judge(lib, s, t, t.maps.jobs, t.maps.details).raw, t.maps.jobs[s.params[1]];
      && HexNumber(lib.hashHex(raw.header)).Some? && HexNumber(lib.hashHex(raw.header)).value < target
      && raw.header.prevHash == t.prevHash && raw.header.bits == t.nBits && raw.vtx != []
      && HexNumber(s.params[3]) == Some(raw.header.time) && HexNumber(s.params[4]) == Some(raw.header.nonce)
      && raw.header.merkleRoot == Merkle.Root(h, Ids(lib, raw.vtx))
      && Ids(lib, raw.vtx) == [lib.txId(raw.vtx[0])] + job.txIds
      && exists flags: Bytes, now: nat ::
           IsCoinbaseOf(raw.vtx[0], cfg, job, t.height, flags, now, DecodeHex(s.extraNonce1).value,
                        DecodeHex(s.params[2]).value)
  {
    var jobs, details := t.maps.jobs, t.maps.details;
    FoundIsBuilt(lib, s, t, jobs, details);
    var id := s.params[1];
    assert RuleOf(cfg)(id, jobs[id], t.height);
    StoredDataIsRight(lib, RuleOf(cfg), t);
    SubmittedBlocksAreGood(lib, h, s, t, jobs, details, target);
    JobsCoinbase(cfg, id, jobs[id], t.height, AsBlock(s, t, jobs[id], t.difficulty));
  }

  /** With a share difficulty up to the template's, checking the share first costs no block. */
  lemma NoBlockIsRejected(lib: Library, s: Submission, t: Template, jobs: map<string, Job>,
                          details: map<string, string>)
    requires |s.params| == 5 && JobId(s) in jobs && s.shareDiff <= t.difficulty
    requires MeetsDifficulty(lib, AsBlock(s, t, jobs[JobId(s)], t.difficulty))
    ensures Judge(lib, s, t, jobs, details).Unbuildable? || Judge(lib, s, t, jobs, details).BlockFound?
  {
    ShareTestDropsNoBlock(s.shareDiff, t.difficulty);
  }

  /** The hash of a header, as the number its digits spell, meets a difficulty. */
  predicate HashMeets(lib: Library, h: Option<Header>, difficulty: nat) {
    && h.Some? && HexNumber(lib.hashHex(h.value)).Some? && HexNumber(lib.hashHex(h.value)).value > 0
    && WithinTarget(HexNumber(lib.hashHex(h.value)).value, difficulty)
  }

  lemma SameHeader(lib: Library, s: Submission, t: Template, job: Job, difficulty: nat)
    requires |s.params| == 5
    ensures HeaderOf(lib, AsBlock(s, t, job, difficulty)) == HeaderOf(lib, AsBlock(s, t, job, 0))
    ensures MeetsDifficulty(lib, AsBlock(s, t, job, difficulty))
      <==> HashMeets(lib, HeaderOf(lib, AsBlock(s, t, job, 0)), difficulty)
  {
    MeetsIffHardEnough(lib, AsBlock(s, t, job, difficulty));
  }

  /** A share on no job of the template is stale. One whose header does not meet the share's difficulty
      is rejected; one that meets it is a share, and a block if the same header meets the template's. */
  lemma VerdictsMean(lib: Library, s: Submission, t: Template, jobs: map<string, Job>, details: map<string, string>)
    requires |s.params| == 5
    ensures var v := Judge(lib, s, t, jobs, details);
      (v.Stale? <==> s.params[1] !in jobs)
      && (s.params[1] in jobs ==>
            var h := HeaderOf(lib, AsBlock(s, t, jobs[s.params[1]], 0));
            var share, block := HashMeets(lib, h, s.shareDiff), HashMeets(lib, h, t.difficulty);
            && (v.Rejected? <==> !share) && (v.ShareOnly? <==> share && !block)
            && (v.Unbuildable? || v.BlockFound? <==> share && block))
  {
    if s.params[1] in jobs {
      SameHeader(lib, s, t, jobs[s.params[1]], s.shareDiff);
      SameHeader(lib, s, t, jobs[s.params[1]], t.difficulty);
    }
  }

  // ---------- what is written ----------

  /** What the node, the clock and the backend do during one submission. */
  datatype Surroundings = Surroundings(submitFails: bool, ts: int, check: Redis.Check, outcome: Outcome,
                                       listed: Outcome)

  /** `big.Int.Int64`: the low 64 bits. */
  function LowInt64(n: nat): int { ToSigned(n % TWO64, TWO64) }

  lemma LowBitsOnly(n: nat)
    ensures IsInt64(LowInt64(n)) && exists k: nat :: n - LowInt64(n) == k * 0x1_0000_0000_0000_0000
  {
    var k := if n % TWO64 < TWO64 / 2 then n / TWO64 else n / TWO64 + 1;
    assert n - LowInt64(n) == k * 0x1_0000_0000_0000_0000;
  }

  /** The candidate row of a block found on a job. */
  ghost function RowFor(s: Submission, t: Template, job: Job, ts: int, shares: Shares): CandidateRow
    requires |s.params| == 5
  {
    CandidateRow(s.params[4], s.extraNonce1, s.params[2], ts, LowInt64(t.difficulty),
                 Sum(ClosingRound(shares, s.login, s.shareDiff)), job.coinBaseValue, job.txsFeeTotal)
  }

  /** Whether a verdict is one for which the backend is asked about duplicates. */
  predicate Records(v: Verdict, env: Surroundings) { v.ShareOnly? || (v.BlockFound? && !env.submitFails) }

  /** The key that counts a share once. */
  function KeyOf(s: Submission): string
    requires |s.params| == 5
  {
    Join(PowParams(s))
  }

  /** Two shares have one key exactly if nonce and both extranonces are the same. */
  lemma SameKeyIff(s1: Submission, s2: Submission)
    requires |s1.params| == 5 && ColonFree(s1.extraNonce1) && ColonFree(s1.params[2]) && ColonFree(s1.params[4])
    requires |s2.params| == 5 && ColonFree(s2.extraNonce1) && ColonFree(s2.params[2]) && ColonFree(s2.params[4])
    ensures KeyOf(s1) == KeyOf(s2) <==>
      s1.params[4] == s2.params[4] && s1.extraNonce1 == s2.extraNonce1 && s1.params[2] == s2.params[2]
  {
    var key1, key2 := [s1.params[4], s1.extraNonce1, s1.params[2]], [s2.params[4], s2.extraNonce1, s2.params[2]];
    SplitJoin(key1);
    SplitJoin(key2);
    assert key1 == key2 ==> key1[0] == key2[0] && key1[1] == key2[1] && key1[2] == key2[2];
  }

  /** A submission is reported as a duplicate if its check goes through and finds its key. */
  predicate IsDuplicate(pow: map<string, nat>, s: Submission, t: Template, env: Surroundings)
    requires |s.params| == 5
  {
    env.check.added == Applied && Redis.IsDuplicate(pow, KeyOf(s), t.height, env.check)
  }

  /** The share keys after a verdict. */
  function PowAfterShare(pow: map<string, nat>, s: Submission, t: Template, v: Verdict,
                         env: Surroundings): map<string, nat>
    requires |s.params| == 5
  {
    if Records(v, env) then Redis.PowAfter(pow, KeyOf(s), t.height, env.check) else pow
  }

  /** The ledger after a verdict that is recorded, unless the share is a duplicate or cannot be checked. */
  ghost function LedgerOf(l: Ledger, s: Submission, t: Template, job: Job, v: Verdict, exist: bool,
                          env: Surroundings): Ledger
    requires |s.params| == 5
  {
    var stopped := exist || env.check.added != Applied;
    if v.ShareOnly? then
      if stopped || env.outcome == Refused then l else l.(shares := AcceptShare(l.shares, s.login, s.shareDiff))
    else
      Redis.BlockWritten(l, s.login, s.shareDiff, t.height, RowFor(s, t, job, env.ts, l.shares), stopped, env.outcome,
                         env.listed)
  }

  /** Numbers and texts of the share fit a candidate row. */
  ghost predicate FitsRow(s: Submission, t: Template, job: Job, env: Surroundings, shares: Shares)
    requires |s.params| == 5
  {
    CandidateFits(RowFor(s, t, job, env.ts, shares))
  }

  ghost predicate CanRecord(s: Submission, t: Template, jobs: map<string, Job>, env: Surroundings, shares: Shares)
    requires |s.params| == 5
  {
    JobId(s) in jobs ==> FitsRow(s, t, jobs[JobId(s)], env, shares)
  }

  ghost function LedgerAfterShare(l: Ledger, s: Submission, t: Template, jobs: map<string, Job>, v: Verdict,
                                  exist: bool, env: Surroundings): Ledger
    requires |s.params| == 5
  {
    if JobId(s) in jobs && Records(v, env) then LedgerOf(l, s, t, jobs[JobId(s)], v, exist, env) else l
  }

  /** Every job has the data of all its transactions. */
  ghost predicate Complete(jobs: map<string, Job>, details: map<string, string>) {
    forall id, txId :: id in jobs && txId in jobs[id].txIds ==> txId in details
  }

  lemma SoundTemplatesAreComplete(rule: JobRule, t: Template)
    requires Sound(rule, t)
    ensures Complete(t.maps.jobs, t.maps.details)
  {
    forall id, txId | id in t.maps.jobs && txId in t.maps.jobs[id].txIds ensures txId in t.maps.details {
      assert HasData(t.maps.jobs[id], t.maps.details.Keys);
    }
  }

  /** No header hashes to zero. */
  ghost predicate NeverZero(lib: Library) { forall h :: HashOf(lib, h).Some? }

  /** The first half of `processShare`, up to the block sent to the node. No job of a stored template
      lacks a transaction's data, so block construction never comes out empty without an error. */
  method JudgeShare(lib: Library, s: Submission, t: Template) returns (v: Verdict)
    requires |s.params| == 5 && Complete(t.maps.jobs, t.maps.details)
    requires NeverZero(lib)
    ensures v == Judge(lib, s, t, t.maps.jobs, t.maps.details)
  {
    if JobId(s) !in t.maps.jobs {
      return Stale;
    }
    var h := t.maps.jobs[JobId(s)];
    var share, block := AsBlock(s, t, h, s.shareDiff), AsBlock(s, t, h, t.difficulty);
    var shareOk := DoubleSha256HashVerify(lib, share);
    if !shareOk {
      return Rejected;
    }
    var blockOk := DoubleSha256HashVerify(lib, block);
    if !blockOk {
      return ShareOnly;
    }
    var construction := ConstructRawBlock(lib, block, h.txIds, t.maps.details);
    if construction.Failed? {
      return Unbuildable;
    }
    return BlockFound(construction.block);
  }

  /** The candidate row of an accepted block. */
  method RecordBlock(backend: Redis.RedisClient, s: Submission, t: Template, job: Job, env: Surroundings)
    returns (exist: bool)
    requires |s.params| == 5 && backend.Valid() && FitsRow(s, t, job, env, backend.ShareState())
    modifies backend`pow, backend`roundCurrent, backend`roundShares, backend`rounds, backend.candidates
    ensures backend.Valid() && exist == IsDuplicate(old(backend.pow), s, t, env)
    ensures backend.pow == Redis.PowAfter(old(backend.pow), KeyOf(s), t.height, env.check)
    ensures var row := RowFor(s, t, job, env.ts, old(backend.ShareState()));
      backend.Contents() == Redis.BlockWritten(old(backend.Contents()), s.login, s.shareDiff, t.height, row,
                                               exist || env.check.added != Applied, env.outcome, env.listed)
  {
    var ok;
    exist, ok := backend.WriteBlock(s.login, PowParams(s), s.shareDiff, LowInt64(t.difficulty), t.height,
                                    job.coinBaseValue, job.txsFeeTotal, env.ts, env.check, env.outcome, env.listed);
  }

  /** What `processShare` writes for a verdict. */
  method Record(backend: Redis.RedisClient, s: Submission, t: Template, job: Job, v: Verdict, env: Surroundings)
    returns (exist: bool)
    requires |s.params| == 5 && backend.Valid() && FitsRow(s, t, job, env, backend.ShareState()) && Records(v, env)
    modifies backend`pow, backend`roundCurrent, backend`roundShares, backend`rounds, backend.candidates
    ensures backend.Valid() && exist == IsDuplicate(old(backend.pow), s, t, env)
    ensures backend.pow == Redis.PowAfter(old(backend.pow), KeyOf(s), t.height, env.check)
    ensures backend.Contents() == LedgerOf(old(backend.Contents()), s, t, job, v, exist, env)
  {
    if v.ShareOnly? {
      var ok;
      exist, ok := backend.WriteShare(s.login, PowParams(s), s.shareDiff, t.height, env.check, env.outcome);
    } else {
      exist := RecordBlock(backend, s, t, job, env);
    }
  }

  lemma RecordedJobExists(lib: Library, s: Submission, t: Template, jobs: map<string, Job>,
                          details: map<string, string>, env: Surroundings)
    requires |s.params| == 5
    ensures Records(Judge(lib, s, t, jobs, details), env) ==> JobId(s) in jobs
  {
  }

  /** The second half of `processShare`: what the backend gets to see of a verdict on a share for `jobs`. */
  method Conclude(backend: Redis.RedisClient, s: Submission, t: Template, jobs: map<string, Job>, v: Verdict,
                  env: Surroundings)
    returns (exist: bool, valid: bool)
    requires |s.params| == 5 && backend.Valid() && (Records(v, env) ==> JobId(s) in jobs)
    requires CanRecord(s, t, jobs, env, backend.ShareState())
    modifies backend`pow, backend`roundCurrent, backend`roundShares, backend`rounds, backend.candidates
    ensures backend.Valid()
    ensures exist == (Records(v, env) && IsDuplicate(old(backend.pow), s, t, env))
    ensures backend.pow == PowAfterShare(old(backend.pow), s, t, v, env)
    ensures valid == ((v.ShareOnly? || v.BlockFound?) && !exist)
    ensures backend.Contents() == LedgerAfterShare(old(backend.Contents()), s, t, jobs, v, exist, env)
  {
    if !Records(v, env) {
      return false, v.BlockFound?;
    }
    exist := Record(backend, s, t, jobs[JobId(s)], v, env);
    valid := !exist;
  }

  // ---------- what is credited ----------

  /** A share answered as valid is credited, by exactly its difficulty, if and only if it is no block
      the node refused, its duplicate check went through and its transaction was not refused. */
  lemma ValidIsCreditedIff(l: Ledger, s: Submission, t: Template, jobs: map<string, Job>, v: Verdict, env: Surroundings)
    requires |s.params| == 5 && s.shareDiff >= 1 && (v.ShareOnly? || v.BlockFound?) && JobId(s) in jobs
    requires RoundKey(t.height, s.params[4]) !in l.shares.rounds
    ensures Accounted(LedgerAfterShare(l, s, t, jobs, v, false, env)) == Accounted(l) + s.shareDiff
      <==> (v.ShareOnly? || !env.submitFails) && env.check.added == Applied && env.outcome != Refused
    ensures Accounted(LedgerAfterShare(l, s, t, jobs, v, false, env)) in {Accounted(l), Accounted(l) + s.shareDiff}
  {
    ShareAccounts(l.shares, s.login, s.shareDiff);
    FreezeAccounts(l.shares, s.login, s.shareDiff, RoundKey(t.height, s.params[4]));
  }

  /** A submission is credited to its own login and no other: a share counts in the current round, a block
      closes it with its share in it, under the template's height and the submitted nonce. */
  ghost predicate CreditsLogin(before: Shares, after: Shares, s: Submission, height: nat, v: Verdict, exist: bool,
                               env: Surroundings)
    requires |s.params| == 5
  {
    if exist || env.check.added != Applied || env.outcome == Refused then after == before
    else if v.ShareOnly? then ShareCounted(before, after, s.login, s.shareDiff)
    else if v.BlockFound? && !env.submitFails then
      RoundClosed(before, after, s.login, s.shareDiff, height, s.params[4])
    else after == before
  }

  lemma SubmissionCreditsLogin(l: Ledger, s: Submission, t: Template, jobs: map<string, Job>, v: Verdict, exist: bool,
                               env: Surroundings)
    requires |s.params| == 5 && (Records(v, env) ==> s.params[1] in jobs)
    ensures CreditsLogin(l.shares, LedgerAfterShare(l, s, t, jobs, v, exist, env).shares, s, t.height, v, exist, env)
  {
    AcceptCounts(l.shares, s.login, s.shareDiff);
    FreezeCloses(l.shares, s.login, s.shareDiff, t.height, s.params[4]);
  }

  /** A candidate row has the nonces of a submission, the job's amounts, the template's difficulty as far
      as 64 bits hold it, and the count of a round. */
  ghost predicate RowSays(row: CandidateRow, s: Submission, t: Template, job: Job, ts: int, round: Books.Log)
    requires |s.params| == 5
  {
    && row.nonce == s.params[4] && row.eNonce1 == s.extraNonce1 && row.eNonce2 == s.params[2]
    && row.timestamp == ts && row.coinBaseValue == job.coinBaseValue && row.blkTotalFee == job.txsFeeTotal
    && row.totalShares == Sum(round) && IsInt64(row.difficulty)
    && (t.difficulty < 0x8000_0000_0000_0000 ==> row.difficulty == t.difficulty)
  }

  /** A block that is recorded in full leaves one new row among the candidates, scored with its height; a
      submission that is not leaves none. */
  lemma SubmissionListsBlock(l: Ledger, s: Submission, t: Template, jobs: map<string, Job>, v: Verdict, exist: bool,
                             env: Surroundings) returns (row: CandidateRow)
    requires |s.params| == 5 && (Records(v, env) ==> s.params[1] in jobs)
    ensures var after := LedgerAfterShare(l, s, t, jobs, v, exist, env);
      var key := RoundKey(t.height, s.params[4]);
      if v.BlockFound? && !env.submitFails && !exist && env.check.added == Applied && env.outcome == Applied
         && env.listed != Refused
      then && key in after.shares.rounds && RowSays(row, s, t, jobs[s.params[1]], env.ts, after.shares.rounds[key])
           && after.queues == l.queues.(candidates := l.queues.candidates[row := t.height])
      else after.queues == l.queues
    ensures LedgerAfterShare(l, s, t, jobs, v, exist, env).books == l.books
  {
    row := if s.params[1] in jobs then RowFor(s, t, jobs[s.params[1]], env.ts, l.shares)
           else CandidateRow("", "", "", 0, 0, 0, 0, 0);
    LowBitsOnly(t.difficulty);
  }

  /** Once its key is stored a share can only be submitted again after a pruning past its height,
      whether it was credited or not. */
  lemma ResubmissionIsDuplicateIff(pow: map<string, nat>, s: Submission, t: Template, v: Verdict, env: Surroundings,
                                   t': Template, env': Surroundings)
    requires |s.params| == 5 && Records(v, env) && env.check.added != Refused && env'.check.added == Applied
    ensures IsDuplicate(PowAfterShare(pow, s, t, v, env), s, t', env')
      <==> !env'.check.pruned || PowHistory.Cutoff(t'.height) <= t.height
  {
  }

  /** One submission of a history, with the verdict on it. */
  datatype Request = Request(s: Submission, t: Template, v: Verdict, env: Surroundings)

  predicate Proper(reqs: seq<Request>) { forall r <- reqs :: |r.s.params| == 5 }

  /** The share keys after a history of submissions. */
  function PowAfterAll(pow: map<string, nat>, reqs: seq<Request>): map<string, nat>
    requires Proper(reqs)
  {
    if reqs == [] then pow
    else
      var r := reqs[|reqs| - 1];
      PowAfterShare(PowAfterAll(pow, reqs[..|reqs| - 1]), r.s, r.t, r.v, r.env)
  }

  /** A submission stores its key. */
  predicate Stores(r: Request) { Records(r.v, r.env) && r.env.check.added != Refused }

  /** A submission prunes the keys. */
  predicate Prunes(r: Request) { Records(r.v, r.env) && r.env.check.pruned }

  /** A submission of a history is credited. */
  predicate IsCredited(pow: map<string, nat>, reqs: seq<Request>, i: nat)
    requires Proper(reqs) && i < |reqs|
  {
    var r := reqs[i];
    && Records(r.v, r.env) && r.env.check.added == Applied && r.env.outcome != Refused
    && !IsDuplicate(PowAfterAll(pow, reqs[..i]), r.s, r.t, r.env)
  }

  ghost predicate ForgottenBy(reqs: seq<Request>, m: nat, k: nat)
    requires m < |reqs| && k < |reqs|
  {
    m < k && Prunes(reqs[k]) && PowHistory.Cutoff(reqs[k].t.height) > reqs[m].t.height
  }

  /** A stored key is remembered at the height of its latest submission, until a pruning past that height. */
  lemma {:induction false} KeyIsRemembered(pow: map<string, nat>, reqs: seq<Request>, i: nat, n: nat) returns (m: nat)
    requires Proper(reqs) && i < n <= |reqs| && Stores(reqs[i])
    ensures i <= m < n && Stores(reqs[m]) && KeyOf(reqs[m].s) == KeyOf(reqs[i].s)
    ensures var key, now := KeyOf(reqs[i].s), PowAfterAll(pow, reqs[..n]);
      (key in now && now[key] == reqs[m].t.height) || exists k: nat :: k < n && ForgottenBy(reqs, m, k)
    decreases n
  {
    var r := reqs[n - 1];
    assert reqs[..n][..n - 1] == reqs[..n - 1] && reqs[..n][n - 1] == r;
    if Stores(r) && KeyOf(r.s) == KeyOf(reqs[i].s) {
      m := n - 1;
    } else {
      m := KeyIsRemembered(pow, reqs, i, n - 1);
      if forall k: nat :: k < n ==> !ForgottenBy(reqs, m, k) {
        assert !ForgottenBy(reqs, m, n - 1);
      }
    }
  }

  /** In any history of submissions a key is credited a second time only if, after the latest storing
      of it before that, a submission pruned past its height: at most once per window. */
  lemma CreditedOncePerWindow(pow: map<string, nat>, reqs: seq<Request>, i: nat, j: nat) returns (m: nat, k: nat)
    requires Proper(reqs) && i < j < |reqs| && KeyOf(reqs[i].s) == KeyOf(reqs[j].s)
    requires IsCredited(pow, reqs, i) && IsCredited(pow, reqs, j)
    ensures i <= m < k <= j && Stores(reqs[m]) && KeyOf(reqs[m].s) == KeyOf(reqs[i].s)
    ensures ForgottenBy(reqs, m, k)
  {
    m := KeyIsRemembered(pow, reqs, i, j);
    if k' :| 0 <= k' < j && ForgottenBy(reqs, m, k') {
      k := k';
    } else {
      k := j;
    }
  }

  // ---------- submissions are steps of the pool ----------

  lemma BlockIsSteps(here: System, login: string, diff: int, height: int, row: CandidateRow, outcome: Outcome,
                     listed: Outcome,
                     cfg: UnlockerConfig, nonceOf: string -> string) returns (steps: seq<Step>)
    requires diff >= 1 && IsNonce(row.nonce) && row.nonce !in here.stage
      && row.totalShares == Sum(ClosingRound(here.ledger.shares, login, diff))
    ensures var r := Reached(here, steps, cfg, nonceOf);
      r.Some? && r.value.ledger == Redis.BlockWritten(here.ledger, login, diff, height, row, false, outcome, listed)
  {
    steps := [];
    if outcome != Refused {
      var found := Found(login, diff, height, row);
      OneStep(here, found, cfg, nonceOf);
      steps := [found];
      if outcome != Unacknowledged && listed != Refused {
        var mid := Apply(here, found, cfg, nonceOf);
        ReachedNext(here, steps, mid, ListCandidate(row.nonce), cfg, nonceOf);
        steps := steps + [ListCandidate(row.nonce)];
      }
    }
  }

  /** Whatever a submission writes, it is steps of the pool that write it: the theorems about runs
      hold of every history of submissions whose blocks bring new nonces. */
  lemma SubmissionIsRun(here: System, s: Submission, t: Template, jobs: map<string, Job>, v: Verdict, exist: bool,
                        env: Surroundings,
                        cfg: UnlockerConfig, nonceOf: string -> string) returns (steps: seq<Step>)
    requires |s.params| == 5 && s.shareDiff >= 1
    requires v.BlockFound? && !exist && env.check.added == Applied ==>
      IsNonce(s.params[4]) && s.params[4] !in here.stage
    ensures var r := Reached(here, steps, cfg, nonceOf);
      r.Some? && r.value.ledger == LedgerAfterShare(here.ledger, s, t, jobs, v, exist, env)
  {
    steps := [];
    if JobId(s) in jobs && Records(v, env) && !exist && env.check.added == Applied {
      if v.ShareOnly? {
        if env.outcome != Refused {
          OneStep(here, Share(s.login, s.shareDiff), cfg, nonceOf);
          steps := [Share(s.login, s.shareDiff)];
        }
      } else {
        steps := BlockIsSteps(here, s.login, s.shareDiff, t.height,
                              RowFor(s, t, jobs[JobId(s)], env.ts, here.ledger.shares),
                              env.outcome, env.listed, cfg, nonceOf);
      }
    }
  }

  // ---------- the request ----------

  datatype Reply = Answer(accepted: bool) | Error(code: int, message: string)

  /** Five parameters, the last three of which are eight hexadecimal digits each. */
  predicate WellFormed(params: seq<string>) {
    |params| == 5 && IsNonce(params[2]) && IsNonce(params[3]) && IsNonce(params[4])
  }

  predicate IsEightDigits(s: string) { |s| == 8 && forall i :: 0 <= i < 8 ==> s[i] in "0123456789abcdef" }

  lemma NoncesAreDigits(s: string)
    ensures IsNonce(s) <==> IsEightDigits(s)
  {
    if IsNonce(s) {
      forall i | 0 <= i < 8 ensures s[i] in "0123456789abcdef" {
        assert IsHexDigit(s[i]);
        var d := if s[i] <= '9' then s[i] as int - '0' as int else s[i] as int - 'a' as int + 10;
        assert "0123456789abcdef"[d] == s[i];
      }
    }
  }

  /** The reply to a share: duplicates and too many invalid shares are errors, which end the connection. */
  function ReplyFor(exist: bool, valid: bool, ok: bool): Reply {
    if exist then Error(22, "Duplicate share")
    else if !valid then (if ok then Answer(false) else Error(23, "Invalid share"))
    else if ok then Answer(true) else Error(-1, "High rate of invalid shares")
  }

  /** What a miner works at: the address it is paid under, where it connects from, its extranonce and target. */
  datatype Miner = Miner(login: string, ip: string, extraNonce1: string, target: string)

  /** The reply to a share, and what the policy makes of it. The ledger has no part in that. */
  method ReplyTo(policy: Policy.PolicyServer, ip: string, exist: bool, valid: bool, now: int,
                 ghost backend: Redis.RedisClient) returns (reply: Reply)
    requires policy.Valid() && backend.Valid() && !(exist && valid)
    modifies policy`stats, policy`records, policy.records
    ensures policy.Valid()
    ensures backend.Valid() && backend.Contents() == old(backend.Contents()) && backend.pow == old(backend.pow)
    ensures var call := PolicySpec.Call(PolicySpec.Share(valid), now, ip in policy.whitelist);
      && policy.Contents() == Policy.After(policy.config, old(policy.Contents()), ip, call)
      && reply == ReplyFor(exist, valid, Policy.AnswerTo(policy.config, old(policy.Contents()), ip, call))
    ensures var call := PolicySpec.Call(PolicySpec.Share(valid), now, ip in policy.whitelist);
      var ok := Policy.AnswerTo(policy.config, old(policy.Contents()), ip, call);
      && (exist ==> reply == Error(22, "Duplicate share"))
      && (valid ==> reply == if ok then Answer(true) else Error(-1, "High rate of invalid shares"))
      && (!exist && !valid ==> reply == if ok then Answer(false) else Error(23, "Invalid share"))
  {
    var ok := policy.ApplySharePolicy(ip, !exist && valid, now);
    if exist {
      return Error(22, "Duplicate share");
    }
    if !valid {
      if !ok {
        return Error(23, "Invalid share");
      }
      return Answer(false);
    }
    if !ok {
      return Error(-1, "High rate of invalid shares");
    }
    return Answer(true);
  }

  /** What `handleSubmitRPC` does about a verdict. */
  method Settle(backend: Redis.RedisClient, policy: Policy.PolicyServer, s: Submission, ip: string, t: Template,
                jobs: map<string, Job>,
                v: Verdict, env: Surroundings, now: int)
    returns (reply: Reply, exist: bool, valid: bool)
    requires |s.params| == 5 && backend.Valid() && policy.Valid() && (Records(v, env) ==> JobId(s) in jobs)
    requires CanRecord(s, t, jobs, env, backend.ShareState())
    modifies backend`pow, backend`roundCurrent, backend`roundShares, backend`rounds, backend.candidates
    modifies policy`stats, policy`records, policy.records
    ensures backend.Valid() && policy.Valid()
    ensures exist == (Records(v, env) && IsDuplicate(old(backend.pow), s, t, env))
    ensures backend.pow == PowAfterShare(old(backend.pow), s, t, v, env)
    ensures valid == ((v.ShareOnly? || v.BlockFound?) && !exist)
    ensures backend.Contents() == LedgerAfterShare(old(backend.Contents()), s, t, jobs, v, exist, env)
    ensures var call := PolicySpec.Call(PolicySpec.Share(valid), now, ip in policy.whitelist);
      && policy.Contents() == Policy.After(policy.config, old(policy.Contents()), ip, call)
      && reply == ReplyFor(exist, valid, Policy.AnswerTo(policy.config, old(policy.Contents()), ip, call))
  {
    ghost var peers := policy.Contents();
    exist, valid := Conclude(backend, s, t, jobs, v, env);
    assert policy.Contents() == peers;
    reply := ReplyTo(policy, ip, exist, valid, now, backend);
  }

  /** The judgement; what is recorded after it is a share on one of the template's jobs. */
  method JudgeToRecord(lib: Library, s: Submission, t: Template, env: Surroundings) returns (v: Verdict)
    requires |s.params| == 5 && Complete(t.maps.jobs, t.maps.details) && NeverZero(lib)
    ensures v == Judge(lib, s, t, t.maps.jobs, t.maps.details)
    ensures Records(v, env) ==> JobId(s) in t.maps.jobs
  {
    v := JudgeShare(lib, s, t);
    RecordedJobExists(lib, s, t, t.maps.jobs, t.maps.details, env);
  }

  /** `handleSubmitRPC` once the parameters have been checked. */
  method HandleShare(lib: Library, backend: Redis.RedisClient, policy: Policy.PolicyServer, s: Submission, ip: string,
                     t: Template, env: Surroundings, now: int)
    returns (reply: Reply, exist: bool, valid: bool, v: Verdict)
    requires |s.params| == 5 && backend.Valid() && policy.Valid() && Complete(t.maps.jobs, t.maps.details)
      && NeverZero(lib)
    requires CanRecord(s, t, t.maps.jobs, env, backend.ShareState())
    modifies backend`pow, backend`roundCurrent, backend`roundShares, backend`rounds, backend.candidates
    modifies policy`stats, policy`records, policy.records
    ensures backend.Valid() && policy.Valid()
    ensures v == Judge(lib, s, t, t.maps.jobs, t.maps.details)
    ensures exist == (Records(v, env) && IsDuplicate(old(backend.pow), s, t, env))
    ensures backend.pow == PowAfterShare(old(backend.pow), s, t, v, env)
    ensures valid == ((v.ShareOnly? || v.BlockFound?) && !exist)
    ensures backend.Contents() == LedgerAfterShare(old(backend.Contents()), s, t, t.maps.jobs, v, exist, env)
    ensures var call := PolicySpec.Call(PolicySpec.Share(valid), now, ip in policy.whitelist);
      && policy.Contents() == Policy.After(policy.config, old(policy.Contents()), ip, call)
      && reply == ReplyFor(exist, valid, Policy.AnswerTo(policy.config, old(policy.Contents()), ip, call))
  {
    v := JudgeToRecord(lib, s, t, env);
    reply, exist, valid := Settle(backend, policy, s, ip, t, t.maps.jobs, v, env, now);
  }

  /** The refusal of malformed parameters. */
  method RefuseMalformed(policy: Policy.PolicyServer, ip: string, params: seq<string>, now: int) returns (reply: Reply)
    requires policy.Valid() && !WellFormed(params)
    modifies policy`stats, policy`records, policy.records
    ensures policy.Valid()
    ensures reply == Error(-1, if |params| == 5 then "Malformed PoW result" else "Invalid params")
    ensures policy.Contents() == Policy.After(policy.config, old(policy.Contents()), ip,
                                              PolicySpec.Call(PolicySpec.MalformedRequest, now, ip in policy.whitelist))
  {
    var _ := policy.ApplyMalformedPolicy(ip, now);
    return if |params| != 5 then Error(-1, "Invalid params") else Error(-1, "Malformed PoW result");
  }

  /** `handleSubmitRPC`. With the target of a configured difficulty, that difficulty is what the share
      is checked against and credited with. */
  method HandleSubmit(lib: Library, backend: Redis.RedisClient, policy: Policy.PolicyServer, miner: Miner,
                      params: seq<string>,
                      t: Template, env: Surroundings, now: int, ghost difficulty: nat)
    returns (reply: Reply, exist: bool, valid: bool, v: Verdict)
    requires backend.Valid() && policy.Valid() && Complete(t.maps.jobs, t.maps.details) && NeverZero(lib)
    requires 0 < difficulty < 0x8000_0000_0000_0000 && miner.target == GetTargetHex(difficulty)
    requires |params| == 5 ==>
      CanRecord(Submission(miner.login, miner.extraNonce1, difficulty, params), t, t.maps.jobs, env,
                backend.ShareState())
    modifies backend`pow, backend`roundCurrent, backend`roundShares, backend`rounds, backend.candidates
    modifies policy`stats, policy`records, policy.records
    ensures backend.Valid() && policy.Valid()
    ensures !WellFormed(params) ==>
      && reply.Error? && !exist && !valid && v == Stale && backend.Contents() == old(backend.Contents())
        && backend.pow == old(backend.pow)
      && policy.Contents() == Policy.After(policy.config, old(policy.Contents()), miner.ip,
                                           PolicySpec.Call(PolicySpec.MalformedRequest, now,
                                                           miner.ip in policy.whitelist))
    ensures WellFormed(params) ==>
      var s, call := Submission(miner.login, miner.extraNonce1, difficulty, params),
        PolicySpec.Call(PolicySpec.Share(valid), now, miner.ip in policy.whitelist);
      && v == Judge(lib, s, t, t.maps.jobs, t.maps.details)
      && exist == (Records(v, env) && IsDuplicate(old(backend.pow), s, t, env))
      && backend.pow == PowAfterShare(old(backend.pow), s, t, v, env)
      && valid == ((v.ShareOnly? || v.BlockFound?) && !exist)
      && backend.Contents() == LedgerAfterShare(old(backend.Contents()), s, t, t.maps.jobs, v, exist, env)
      && CreditsLogin(old(backend.ShareState()), backend.ShareState(), s, t.height, v, exist, env)
      && policy.Contents() == Policy.After(policy.config, old(policy.Contents()), miner.ip, call)
      && reply == ReplyFor(exist, valid, Policy.AnswerTo(policy.config, old(policy.Contents()), miner.ip, call))
  {
    if |params| != 5 || !IsNonce(params[2]) || !IsNonce(params[3]) || !IsNonce(params[4]) {
      reply := RefuseMalformed(policy, miner.ip, params, now);
      return reply, false, false, Stale;
    }
    DifficultyRoundTrip(difficulty);
    var shareDiff := TargetHexToDiff(miner.target).value;
    var s := Submission(miner.login, miner.extraNonce1, shareDiff, params);
    ghost var before := backend.Contents();
    reply, exist, valid, v := HandleShare(lib, backend, policy, s, miner.ip, t, env, now);
    RecordedJobExists(lib, s, t, t.maps.jobs, t.maps.details, env);
    SubmissionCreditsLogin(before, s, t, t.maps.jobs, v, exist, env);
  }
}
