/** Block templates and their jobs (proxy/blocks.go). Templates for one block share their maps of
    jobs and transactions, which grow in place, also under templates replaced long ago. */
module Templates {
  import opened Wrappers
  import opened Wire
  import opened ScriptNumbers
  import opened Coinbase
  import opened Difficulty
  import opened BlockAssembly

  // ---------- data ----------

  datatype Tx = Tx(txId: string, data: string, fee: int)

  /** The node's answer to a request for a block template. */
  datatype Reply = Reply(version: nat, previousBlockHash: string, bits: string, target: string, height: nat,
                         curTime: nat,
                         transactions: seq<Tx>, coinBaseValue: int, flags: string, commitment: string)

  datatype Job = Job(jobId: string, time: nat, txIds: seq<string>, merkleBranch: seq<string>, coinBase1: string,
                     coinBase2: string,
                     coinBaseValue: int, txsFeeTotal: int, commitment: string)

  // ---------- jobs ----------

  function TxIds(txs: seq<Tx>): seq<string> {
    if txs == [] then [] else TxIds(txs[..|txs| - 1]) + [txs[|txs| - 1].txId]
  }

  function FeeTotal(txs: seq<Tx>): int {
    if txs == [] then 0 else FeeTotal(txs[..|txs| - 1]) + txs[|txs| - 1].fee
  }

  lemma {:induction false} TxIdsInOrder(txs: seq<Tx>)
    ensures |TxIds(txs)| == |txs| && forall i :: 0 <= i < |txs| ==> TxIds(txs)[i] == txs[i].txId
  {
    if txs != [] {
      TxIdsInOrder(txs[..|txs| - 1]);
    }
  }

  lemma {:induction false} FeesAdd(a: seq<Tx>, b: seq<Tx>)
    ensures FeeTotal(a + b) == FeeTotal(a) + FeeTotal(b)
    ensures |a| == 1 ==> FeeTotal(a) == a[0].fee
  {
    if b == [] {
      assert a + b == a;
    } else {
      FeesAdd(a, b[..|b| - 1]);
      assert (a + b)[..|a + b| - 1] == a + b[..|b| - 1];
    }
    if |a| == 1 {
      assert a[..0] == [];
    }
  }

  function WithDetails(details: map<string, string>, txs: seq<Tx>): map<string, string> {
    if txs == [] then details else WithDetails(details, txs[..|txs| - 1])[txs[|txs| - 1].txId := txs[|txs| - 1].data]
  }

  /** The i-th transaction is the last with its id. */
  predicate IsLast(txs: seq<Tx>, i: nat)
    requires i < |txs|
  {
    forall j :: i < j < |txs| ==> txs[j].txId != txs[i].txId
  }

  predicate Names(txs: seq<Tx>, id: string) { exists i :: 0 <= i < |txs| && txs[i].txId == id }

  /** Every id of the transactions has the data of the last of them with that id, and every other id
      what it had before. */
  ghost predicate DataOf(details: map<string, string>, before: map<string, string>, txs: seq<Tx>) {
    && (forall i: nat :: i < |txs| && IsLast(txs, i) ==> txs[i].txId in details && details[txs[i].txId] == txs[i].data)
    && (forall id :: !Names(txs, id) ==> (id in details <==> id in before))
    && (forall id :: id in details && !Names(txs, id) ==> details[id] == before[id])
  }

  lemma {:induction false} LastDataIsStored(before: map<string, string>, txs: seq<Tx>, i: nat)
    requires i < |txs| && IsLast(txs, i)
    ensures var details := WithDetails(before, txs);
      txs[i].txId in details && details[txs[i].txId] == txs[i].data
  {
    var n := |txs| - 1;
    if i < n {
      assert txs[n].txId != txs[i].txId && IsLast(txs[..n], i);
      LastDataIsStored(before, txs[..n], i);
    }
  }

  lemma {:induction false} OthersAreKept(before: map<string, string>, txs: seq<Tx>, id: string)
    requires !Names(txs, id)
    ensures var details := WithDetails(before, txs);
      (id in details <==> id in before) && (id in before ==> details[id] == before[id])
  {
    if txs != [] {
      var n := |txs| - 1;
      assert txs[n].txId != id;
      assert !Names(txs[..n], id);
      OthersAreKept(before, txs[..n], id);
    }
  }

  lemma DetailsAreData(before: map<string, string>, txs: seq<Tx>)
    ensures DataOf(WithDetails(before, txs), before, txs)
  {
    var details := WithDetails(before, txs);
    forall i: nat | i < |txs| && IsLast(txs, i)
      ensures txs[i].txId in details && details[txs[i].txId] == txs[i].data
    {
      LastDataIsStored(before, txs, i);
    }
    forall id | !Names(txs, id)
      ensures (id in details <==> id in before) && (id in before ==> details[id] == before[id])
    {
      OthersAreKept(before, txs, id);
    }
  }

  // ---------- where data comes from ----------

  /** The answer has this data for this id. */
  predicate Gave(txs: seq<Tx>, id: string, data: string) {
    exists i :: 0 <= i < |txs| && txs[i].txId == id && txs[i].data == data
  }

  predicate SomeGave(answers: seq<Reply>, id: string, data: string) {
    exists k :: 0 <= k < |answers| && Gave(answers[k].transactions, id, data)
  }

  /** All data is data some answer for the block gave for its id. */
  ghost predicate FromAnswers(details: map<string, string>, answers: seq<Reply>, prevHash: string) {
    && (forall id <- details :: SomeGave(answers, id, details[id]))
    && (forall r <- answers :: r.previousBlockHash == prevHash)
  }

  lemma {:induction false} DetailComesFrom(before: map<string, string>, txs: seq<Tx>, id: string)
    requires id in WithDetails(before, txs)
    ensures Gave(txs, id, WithDetails(before, txs)[id]) || (id in before && WithDetails(before, txs)[id] == before[id])
  {
    if txs != [] {
      var n := |txs| - 1;
      if txs[n].txId == id {
        assert Gave(txs, id, txs[n].data);
      } else {
        DetailComesFrom(before, txs[..n], id);
        if Gave(txs[..n], id, WithDetails(before, txs)[id]) {
          var i :| 0 <= i < n && txs[..n][i].txId == id && txs[..n][i].data == WithDetails(before, txs)[id];
          assert txs[i] == txs[..n][i];
        }
      }
    }
  }

  lemma GivenStaysGiven(answers: seq<Reply>, r: Reply, id: string, data: string)
    requires SomeGave(answers, id, data) || Gave(r.transactions, id, data)
    ensures SomeGave(answers + [r], id, data)
  {
    var more := answers + [r];
    if SomeGave(answers, id, data) {
      var k :| 0 <= k < |answers| && Gave(answers[k].transactions, id, data);
      assert Gave(more[k].transactions, id, data);
    } else {
      assert Gave(more[|answers|].transactions, id, data);
    }
  }

  lemma AnswersGrow(details: map<string, string>, answers: seq<Reply>, r: Reply, prevHash: string)
    requires FromAnswers(details, answers, prevHash) && r.previousBlockHash == prevHash
    ensures FromAnswers(WithDetails(details, r.transactions), answers + [r], prevHash)
  {
    var now := WithDetails(details, r.transactions);
    forall id <- now ensures SomeGave(answers + [r], id, now[id]) {
      DetailComesFrom(details, r.transactions, id);
      GivenStaysGiven(answers, r, id, now[id]);
    }
  }

  lemma {:induction false} DetailsCover(details: map<string, string>, txs: seq<Tx>)
    ensures forall id :: id in WithDetails(details, txs) <==> id in details || id in TxIds(txs)
  {
    if txs != [] {
      DetailsCover(details, txs[..|txs| - 1]);
    }
  }

  /** `strconv.ParseInt(s, 16, 32)` and the conversion to uint32. */
  function ParseBits(s: string): Option<nat> {
    var negative := |s| > 0 && s[0] == '-';
    var digits := if |s| > 0 && s[0] in {'-', '+'} then s[1..] else s;
    if digits == "" || HexNumber(digits).None? then None
    else
      var n := HexNumber(digits).value;
      if negative then (if n > 0x8000_0000 then None else Some(if n == 0 then 0 else 0x1_0000_0000 - n))
      else if n >= 0x8000_0000 then None else Some(n)
  }

  /** The bits of a block are the number its text spells, as 32 bits: what is below zero wraps around,
      and what does not fit the signed range is no bits. */
  lemma BitsRead(digits: string)
    requires digits != "" && HexNumber(digits).Some? && digits[0] !in {'-', '+'}
    ensures var n: int := HexNumber(digits).value;
      && ParseBits(digits) == ParseBits("+" + digits)
      && (ParseBits(digits).Some? <==> n < 0x8000_0000) && (n < 0x8000_0000 ==> ParseBits(digits) == Some(n))
      && (ParseBits("-" + digits).Some? <==> n <= 0x8000_0000)
      && (n <= 0x8000_0000 ==> 0 <= ParseBits("-" + digits).value < 0x1_0000_0000
                               && ParseBits("-" + digits).value in {0 - n, 0x1_0000_0000 - n})
  {
    assert ("-" + digits)[1..] == digits && ("+" + digits)[1..] == digits;
  }

  /** A job's halves are those of a coinbase for a height, with some flags and a time, paying the
      job's value to the wallet. */
  predicate HalvesFor(job: Job, height: nat, wallet: Bytes, extras: Bytes, flags: Bytes, now: nat) {
    && |PackedDigits(height)| < 256 && |PackedDigits(now)| < 256
    && IsAmount(job.coinBaseValue) && DecodeHex(job.commitment).Some?
    && |VinScript1(height, flags, now)| + |WithLength(extras)| + 8 < TWO64
    && |wallet| < TWO64 && |DecodeHex(job.commitment).value| < TWO64
    && job.coinBase1 == EncodeHex(FirstHalf(VinScript1(height, flags, now), WithLength(extras)))
    && job.coinBase2 == EncodeHex(SecondHalf(WithLength(extras), job.coinBaseValue, wallet,
                                             DecodeHex(job.commitment).value))
  }

  ghost predicate BuiltFor(job: Job, height: nat, wallet: Bytes, extras: Bytes) {
    exists flags: Bytes, now: nat :: HalvesFor(job, height, wallet, extras, flags, now)
  }

  /** The coinbase script: height, flags, time, the extranonces and the extra data, each but the flags
      behind its length. */
  function ScriptOf(height: nat, flags: Bytes, now: nat, a1: Bytes, a2: Bytes, extras: Bytes): Bytes
    requires |PackedDigits(height)| < 256 && |PackedDigits(now)| < 256
  {
    [|PackedDigits(height)|] + PackedDigits(height) + flags + [|PackedDigits(now)|] + PackedDigits(now)
    + [8] + a1 + a2 + CompactSize(|extras|) + extras
  }

  lemma ScriptInParts(height: nat, flags: Bytes, now: nat, a1: Bytes, a2: Bytes, extras: Bytes)
    requires |PackedDigits(height)| < 256 && |PackedDigits(now)| < 256
    ensures VinScript1(height, flags, now) + a1 + a2 + WithLength(extras)
      == ScriptOf(height, flags, now, a1, a2, extras)
  {
    var h, d := [|PackedDigits(height)|] + PackedDigits(height) + flags, PackedDigits(now);
    assert h + ([|d|] + d) == h + [|d|] + d;
    var front := h + [|d|] + d + [8] + a1 + a2;
    assert front + (CompactSize(|extras|) + extras) == front + CompactSize(|extras|) + extras;
  }

  /** Whatever a miner puts between the halves of a job, the coinbase is one transaction: one input that
      spends nothing, with the script of the height, the flags and the time the job was made for; and
      outputs that pay the job's value to the wallet and carry its commitment. */
  lemma JobsCompleteExactly(job: Job, height: nat, wallet: Bytes, extras: Bytes, flags: Bytes, now: nat, e1: string,
                            e2: string, b: Block)
    requires HalvesFor(job, height, wallet, extras, flags, now)
    requires DecodeHex(e1).Some? && DecodeHex(e2).Some?
    requires |DecodeHex(e1).value| == EXTRANONCE1_SIZE && |DecodeHex(e2).value| == EXTRANONCE2_SIZE
    requires b.coinBase1 == job.coinBase1 && b.coinBase2 == job.coinBase2 && b.extraNonce1 == e1 && b.extraNonce2 == e2
    ensures var commitment := DecodeHex(job.commitment).value;
      var script := ScriptOf(height, flags, now, DecodeHex(e1).value, DecodeHex(e2).value, extras);
      CoinbaseOf(b) == Some(Transaction(2, [TxIn(seq(32, i => 0), 0xffff_ffff, script, 0)],
        [TxOut(job.coinBaseValue, wallet)] + (if commitment == [] then [] else [TxOut(0, commitment)]), 0))
  {
    var script1, script2, commitment := VinScript1(height, flags, now), WithLength(extras),
      DecodeHex(job.commitment).value;
    DecodeEncodeHex(FirstHalf(script1, script2));
    DecodeEncodeHex(SecondHalf(script2, job.coinBaseValue, wallet, commitment));
    var a1, a2 := DecodeHex(e1).value, DecodeHex(e2).value;
    HalvesMakeOneTransaction(script1, script2, job.coinBaseValue, wallet, commitment, a1, a2);
    ScriptInParts(height, flags, now, a1, a2, extras);
  }

  /** In particular its script starts with the height and its first output is the job's reward. */
  lemma JobsComplete(job: Job, height: nat, wallet: Bytes, extras: Bytes, e1: string, e2: string, b: Block)
    requires BuiltFor(job, height, wallet, extras)
    requires DecodeHex(e1).Some? && DecodeHex(e2).Some?
    requires |DecodeHex(e1).value| == EXTRANONCE1_SIZE && |DecodeHex(e2).value| == EXTRANONCE2_SIZE
    requires b.coinBase1 == job.coinBase1 && b.coinBase2 == job.coinBase2 && b.extraNonce1 == e1 && b.extraNonce2 == e2
    ensures CoinbaseOf(b).Some?
    ensures var tx, push := CoinbaseOf(b).value, [|PackedDigits(height)|] + PackedDigits(height);
      |tx.vin| == 1 && push <= tx.vin[0].script && |tx.vout| > 0 && tx.vout[0] == TxOut(job.coinBaseValue, wallet)
  {
    var flags: Bytes, now: nat :| HalvesFor(job, height, wallet, extras, flags, now);
    JobsCompleteExactly(job, height, wallet, extras, flags, now, e1, e2, b);
    HeightComesFirst(height, flags, now, DecodeHex(e1).value, DecodeHex(e2).value, WithLength(extras));
    ScriptInParts(height, flags, now, DecodeHex(e1).value, DecodeHex(e2).value, extras);
  }

  lemma HeightComesFirst(height: nat, flags: Bytes, now: nat, a1: Bytes, a2: Bytes, script2: Bytes)
    requires |PackedDigits(height)| < 256 && |PackedDigits(now)| < 256
    ensures [|PackedDigits(height)|] + PackedDigits(height) <= VinScript1(height, flags, now) + a1 + a2 + script2
  {
  }

  // ---------- templates ----------

  /** The pool's address as a script, its extra data, how job ids come from a first half, and how the
      library builds Merkle branches. */
  datatype Setup = Setup(wallet: Bytes, extras: Bytes, jobIdOf: Bytes -> string,
                         branchOf: seq<string> -> Option<seq<string>>)

  /** A job under its own id, built for a height. */
  ghost predicate SoundJob(cfg: Setup, id: string, job: Job, height: nat) {
    && job.jobId == id && DecodeHex(job.coinBase1).Some? && id == cfg.jobIdOf(DecodeHex(job.coinBase1).value)
    && BuiltFor(job, height, cfg.wallet, cfg.extras) && job.coinBaseValue > 0
    && cfg.branchOf(job.txIds) == Some(job.merkleBranch)
  }

  /** What makes a job sound under an id and for a height. */
  type JobRule = (string, Job, nat) -> bool

  ghost function RuleOf(cfg: Setup): JobRule {
    (id: string, job: Job, height: nat) => SoundJob(cfg, id, job, height)
  }

  /** Whether a job has the halves for an answer, a height and a second. */
  type MakingRule = (Job, Reply, nat, nat) -> bool

  ghost function MakingOf(cfg: Setup): MakingRule {
    (job: Job, reply: Reply, height: nat, now: nat) =>
      DecodeHex(reply.flags).Some? && HalvesFor(job, height, cfg.wallet, cfg.extras, DecodeHex(reply.flags).value, now)
  }

  /** All jobs are sound and all their transactions have data. */
  ghost predicate SoundJobs(rule: JobRule, jobs: map<string, Job>, height: nat, details: set<string>) {
    forall id :: id in jobs ==> rule(id, jobs[id], height) && HasData(jobs[id], details)
  }

  predicate HasData(job: Job, details: set<string>) { forall txId <- job.txIds :: txId in details }

  lemma SameFirstHalfSameHeight(h1: nat, flags1: Bytes, now1: nat, h2: nat, flags2: Bytes, now2: nat, script2: Bytes)
    requires |PackedDigits(h1)| < 256 && |PackedDigits(now1)| < 256 && |PackedDigits(h2)| < 256
      && |PackedDigits(now2)| < 256
    requires |VinScript1(h1, flags1, now1)| + |script2| + 8 < TWO64
      && |VinScript1(h2, flags2, now2)| + |script2| + 8 < TWO64
    requires FirstHalf(VinScript1(h1, flags1, now1), script2) == FirstHalf(VinScript1(h2, flags2, now2), script2)
    ensures h1 == h2
  {
    var e := ToLE(0, 4);
    var s1, s2 := VinScript1(h1, flags1, now1), VinScript1(h2, flags2, now2);
    HalvesMakeOneTransaction(s1, script2, 0, [], [], e, e);
    HalvesMakeOneTransaction(s2, script2, 0, [], [], e, e);
    var c1, c2 := Completed(s1, script2, 0, [], [], e, e), Completed(s2, script2, 0, [], [], e, e);
    assert c1.vin[0].script == c2.vin[0].script;
    SameStart(h1, flags1, now1, h2, flags2, now2, e, e, script2);
  }

  lemma SameStart(h1: nat, flags1: Bytes, now1: nat, h2: nat, flags2: Bytes, now2: nat, e1: Bytes, e2: Bytes,
                  script2: Bytes)
    requires |PackedDigits(h1)| < 256 && |PackedDigits(now1)| < 256 && |PackedDigits(h2)| < 256
      && |PackedDigits(now2)| < 256
    requires VinScript1(h1, flags1, now1) + e1 + e2 + script2 == VinScript1(h2, flags2, now2) + e1 + e2 + script2
    ensures h1 == h2
  {
    HeightComesFirst(h1, flags1, now1, e1, e2, script2);
    HeightComesFirst(h2, flags2, now2, e1, e2, script2);
    SamePush(PackedDigits(h1), PackedDigits(h2), VinScript1(h1, flags1, now1) + e1 + e2 + script2);
    PackedDecodes(h1);
    PackedDecodes(h2);
  }

  /** A script starts with one push only. */
  lemma SamePush(a: Bytes, b: Bytes, script: Bytes)
    requires |a| < 256 && |b| < 256 && [|a|] + a <= script && [|b|] + b <= script
    ensures a == b
  {
    assert script[0] == |a| == |b|;
    assert script[1..1 + |a|] == a && script[1..1 + |b|] == b;
  }

  /** The first half of a job's coinbase, from which its id comes. */
  function FirstHalfOf(job: Job): Bytes {
    if DecodeHex(job.coinBase1).Some? then DecodeHex(job.coinBase1).value else []
  }

  /** The ids of these jobs tell different first halves apart. */
  ghost predicate NoCollisions(cfg: Setup, jobs1: map<string, Job>, jobs2: map<string, Job>) {
    forall id1, id2 ::
      id1 in jobs1 && id2 in jobs2 && cfg.jobIdOf(FirstHalfOf(jobs1[id1])) == cfg.jobIdOf(FirstHalfOf(jobs2[id2])) ==>
      FirstHalfOf(jobs1[id1]) == FirstHalfOf(jobs2[id2])
  }

  /** Jobs with one first half are for one height. */
  lemma FirstHalfTellsHeight(cfg: Setup, id1: string, job1: Job, h1: nat, id2: string, job2: Job, h2: nat)
    requires SoundJob(cfg, id1, job1, h1) && SoundJob(cfg, id2, job2, h2) && FirstHalfOf(job1) == FirstHalfOf(job2)
    ensures h1 == h2
  {
    var flags1: Bytes, now1: nat :| HalvesFor(job1, h1, cfg.wallet, cfg.extras, flags1, now1);
    var flags2: Bytes, now2: nat :| HalvesFor(job2, h2, cfg.wallet, cfg.extras, flags2, now2);
    var script2 := WithLength(cfg.extras);
    DecodeEncodeHex(FirstHalf(VinScript1(h1, flags1, now1), script2));
    DecodeEncodeHex(FirstHalf(VinScript1(h2, flags2, now2), script2));
    SameFirstHalfSameHeight(h1, flags1, now1, h2, flags2, now2, script2);
  }

  /** Sound jobs for different heights have different ids, unless ids collide. */
  lemma HeightsShareNoJobs(cfg: Setup, jobs1: map<string, Job>, h1: nat, details1: set<string>, jobs2: map<string, Job>,
                           h2: nat, details2: set<string>)
    requires SoundJobs(RuleOf(cfg), jobs1, h1, details1) && SoundJobs(RuleOf(cfg), jobs2, h2, details2) && h1 != h2
    requires NoCollisions(cfg, jobs1, jobs2)
    ensures jobs1.Keys !! jobs2.Keys
  {
    forall id | id in jobs1 && id in jobs2 ensures false {
      FirstHalfTellsHeight(cfg, id, jobs1[id], h1, id, jobs2[id], h2);
    }
  }

  /** Nothing but height, flags, second and extra data goes into an id: jobs that agree on those have
      one id, whatever their transactions and value. */
  lemma SameSecondSameId(cfg: Setup, id1: string, job1: Job, id2: string, job2: Job, height: nat, flags: Bytes,
                         now: nat)
    requires SoundJob(cfg, id1, job1, height) && HalvesFor(job1, height, cfg.wallet, cfg.extras, flags, now)
    requires SoundJob(cfg, id2, job2, height) && HalvesFor(job2, height, cfg.wallet, cfg.extras, flags, now)
    ensures id1 == id2
  {
  }

  /** Putting a job into the map leaves every id with its job exactly if the id is new or the job is
      the one it names already. */
  lemma IdsKeepJobsIff(jobs: map<string, Job>, id: string, job: Job)
    ensures (forall k :: k in jobs ==> jobs[id := job][k] == jobs[k]) <==> id !in jobs || jobs[id] == job
  {
    assert id in jobs ==> jobs[id := job][id] == job;
  }

  lemma OneMoreJob(rule: JobRule, jobs: map<string, Job>, height: nat, details: set<string>, job: Job,
                   more: set<string>)
    requires SoundJobs(rule, jobs, height, details) && details <= more && rule(job.jobId, job, height)
      && HasData(job, more)
    ensures SoundJobs(rule, jobs[job.jobId := job], height, more)
  {
  }

  /** The job that belongs to a node's answer, for a height. */
  ghost predicate IsJobFor(rule: JobRule, job: Job, reply: Reply, height: nat) {
    && job.txIds == TxIds(reply.transactions) && job.txsFeeTotal == FeeTotal(reply.transactions)
    && job.coinBaseValue == reply.coinBaseValue && job.time == reply.curTime && job.commitment == reply.commitment
    && rule(job.jobId, job, height)
  }

  /** `BlockTplJobMap` and `TxDetailMap`: made together for a block, and handed on together. */
  class TemplateMaps {
    var jobs: map<string, Job>
    var details: map<string, string>
    /** The answers whose jobs and data the maps hold. */
    ghost var answers: seq<Reply>
    /** The block the maps are for. */
    ghost const height: nat
    ghost const prevHash: string

    constructor (ghost height: nat, ghost prevHash: string)
      ensures jobs == map[] && details == map[] && answers == []
      ensures this.height == height && this.prevHash == prevHash
    {
      jobs, details, answers := map[], map[], [];
      this.height, this.prevHash := height, prevHash;
    }

    ghost predicate Sound(rule: JobRule)
      reads this
    {
      SoundJobs(rule, jobs, height, details.Keys) && FromAnswers(details, answers, prevHash)
    }

    method AddDetails(transactions: seq<Tx>)
      modifies `details
      ensures details == WithDetails(old(details), transactions)
    {
      for i := 0 to |transactions|
        invariant details == WithDetails(old(details), transactions[..i])
      {
        assert transactions[..i + 1][..i] == transactions[..i];
        details := details[transactions[i].txId := transactions[i].data];
      }
      assert transactions[..|transactions|] == transactions;
    }

    /** The new job and the data of its transactions, under all templates that share the maps. */
    method AddJob(ghost rule: JobRule, job: Job, reply: Reply)
      requires Sound(rule) && IsJobFor(rule, job, reply, height) && reply.previousBlockHash == prevHash
      modifies this
      ensures Sound(rule) && answers == old(answers) + [reply]
      ensures jobs == old(jobs)[job.jobId := job] && details == WithDetails(old(details), reply.transactions)
      ensures DataOf(details, old(details), reply.transactions)
    {
      DetailsCover(details, reply.transactions);
      DetailsAreData(details, reply.transactions);
      AnswersGrow(details, answers, reply, prevHash);
      answers := answers + [reply];
      OneMoreJob(rule, jobs, height, details.Keys, job, WithDetails(details, reply.transactions).Keys);
      jobs := jobs[job.jobId := job];
      AddDetails(reply.transactions);
    }
  }

  /** A template never changes once it is stored, except for what is in its maps. */
  datatype Template = Template(version: nat, height: nat, prevHash: string, nBits: nat, target: string, difficulty: nat,
                               maps: TemplateMaps, updateTime: int, newBlkTpl: bool, lastBlkTplId: string)

  /** What every stored template keeps: its maps are for its block, its last job is there, and every
      job is for its height and has the data of all its transactions. */
  ghost predicate Sound(rule: JobRule, t: Template)
    reads t.maps
  {
    t.maps.height == t.height && t.maps.prevHash == t.prevHash && t.lastBlkTplId in t.maps.jobs && t.maps.Sound(rule)
  }

  class TemplateServer {
    const setup: Setup
    const interval: int
    ghost const rule: JobRule
    ghost const making: MakingRule
    var blockTemplate: Option<Template>
    /** Every template ever stored, in order. */
    ghost var history: seq<Template>

    ghost predicate Valid()
      reads this, set t <- history :: t.maps
    {
      && blockTemplate == (if history == [] then None else Some(history[|history| - 1]))
      && forall t <- history :: Sound(rule, t)
    }

    /** The rules are those of the server's setup. */
    ghost predicate Configured() { rule == RuleOf(setup) && making == MakingOf(setup) }

    constructor (setup: Setup, interval: int)
      ensures Valid() && Configured() && history == [] && this.setup == setup && this.interval == interval
    {
      this.setup, this.interval, this.rule, this.making := setup, interval, RuleOf(setup), MakingOf(setup);
      blockTemplate, history := None, [];
    }

    method CollectTxIds(txs: seq<Tx>) returns (txIds: seq<string>)
      ensures txIds == TxIds(txs)
    {
      txIds := [];
      for i := 0 to |txs|
        invariant txIds == TxIds(txs[..i])
      {
        assert txs[..i + 1][..i] == txs[..i];
        txIds := txIds + [txs[i].txId];
      }
      assert txs[..|txs|] == txs;
    }

    method TotalFees(txs: seq<Tx>) returns (total: int)
      ensures total == FeeTotal(txs)
    {
      total := 0;
      for i := 0 to |txs|
        invariant total == FeeTotal(txs[..i])
      {
        assert txs[..i + 1][..i] == txs[..i];
        total := total + txs[i].fee;
      }
      assert txs[..|txs|] == txs;
    }

    /** The halves of the coinbase for a node's answer. */
    method MakeHalves(reply: Reply, height: nat, now: nat) returns (r: Option<(Bytes, Bytes)>)
      requires Sized(reply, height, now)
      ensures r.Some? <==> Coinbaseable(reply)
      ensures r.Some? ==> MakesHalves(r.value, reply, height, DecodeHex(reply.flags).value, now)
    {
      var coinBaseTx := new CoinBaseTransaction();
      var result := coinBaseTx.Initialize(Ok(setup.wallet), reply.curTime, height, reply.coinBaseValue, reply.flags,
                                          setup.extras, reply.commitment, now);
      if result.Err? {
        return None;
      }
      return Some((coinBaseTx.coinBaseTx1, coinBaseTx.coinBaseTx2));
    }

    predicate Sized(reply: Reply, height: nat, now: nat) {
      && height < UINT32_LIMIT && now < 0x8000_0000_0000_0000 && IsAmount(reply.coinBaseValue)
      && |reply.flags| < 0x4000_0000_0000_0000 && |setup.extras| < 0x4000_0000_0000_0000 && |setup.wallet| < TWO64
    }

    predicate Coinbaseable(reply: Reply) {
      DecodeHex(reply.flags).Some? && DecodeHex(reply.commitment).Some?
        && |DecodeHex(reply.commitment).value| in {0, 38}
    }

    predicate MakesHalves(halves: (Bytes, Bytes), reply: Reply, height: nat, flags: Bytes, now: nat)
      requires Coinbaseable(reply)
    {
      && |PackedDigits(height)| < 256 && |PackedDigits(now)| < 256 && IsAmount(reply.coinBaseValue)
      && |VinScript1(height, flags, now)| + |WithLength(setup.extras)| + 8 < TWO64 && |setup.wallet| < TWO64
      && halves.0 == FirstHalf(VinScript1(height, flags, now), WithLength(setup.extras))
      && halves.1 == SecondHalf(WithLength(setup.extras), reply.coinBaseValue, setup.wallet,
                                DecodeHex(reply.commitment).value)
    }

    function JobOf(reply: Reply, halves: (Bytes, Bytes), merkleBranch: seq<string>): Job {
      Job(setup.jobIdOf(halves.0), reply.curTime, TxIds(reply.transactions), merkleBranch, EncodeHex(halves.0),
          EncodeHex(halves.1),
          reply.coinBaseValue, FeeTotal(reply.transactions), reply.commitment)
    }

    lemma JobIsSound(reply: Reply, height: nat, now: nat, halves: (Bytes, Bytes), merkleBranch: seq<string>)
      requires Coinbaseable(reply) && MakesHalves(halves, reply, height, DecodeHex(reply.flags).value, now)
      requires reply.coinBaseValue > 0 && setup.branchOf(TxIds(reply.transactions)) == Some(merkleBranch)
      requires Configured()
      ensures IsJobFor(rule, JobOf(reply, halves, merkleBranch), reply, height)
      ensures HalvesFor(JobOf(reply, halves, merkleBranch), height, setup.wallet, setup.extras,
                        DecodeHex(reply.flags).value, now)
    {
      var job := JobOf(reply, halves, merkleBranch);
      DecodeEncodeHex(halves.0);
      CommitmentFits(reply);
      assert HalvesFor(job, height, setup.wallet, setup.extras, DecodeHex(reply.flags).value, now);
    }

    lemma CommitmentFits(reply: Reply)
      requires Coinbaseable(reply)
      ensures |DecodeHex(reply.commitment).value| < TWO64
    {
    }

    /** The job for a node's answer; None stands for the errors on the way. */
    method MakeJob(reply: Reply, height: nat, now: nat) returns (r: Option<Job>)
      requires Sized(reply, height, now) && Configured()
      ensures r.Some? <==>
        reply.coinBaseValue > 0 && setup.branchOf(TxIds(reply.transactions)).Some? && Coinbaseable(reply)
      ensures r.Some? ==> IsJobFor(rule, r.value, reply, height)
      ensures r.Some? ==> HalvesFor(r.value, height, setup.wallet, setup.extras, DecodeHex(reply.flags).value, now)
      ensures r.Some? ==> making(r.value, reply, height, now)
    {
      var txIds := CollectTxIds(reply.transactions);
      var merkleBranch := setup.branchOf(txIds);
      if merkleBranch.None? {
        return None;
      }
      if reply.coinBaseValue <= 0 {
        return None;
      }
      var halves := MakeHalves(reply, height, now);
      if halves.None? {
        return None;
      }
      var total := TotalFees(reply.transactions);
      var first, second := halves.value.0, halves.value.1;
      JobIsSound(reply, height, now, halves.value, merkleBranch.value);
      return Some(Job(setup.jobIdOf(first), reply.curTime, txIds, merkleBranch.value, EncodeHex(first),
                      EncodeHex(second),
                      reply.coinBaseValue, total, reply.commitment));
    }

    /** The template for a node's answer, still without its job: for a new block with maps of its own,
        for the block of the template it is based on with that template's maps. */
    method MakeTemplate(base: Option<Template>, reply: Reply, nowSeconds: int) returns (r: Option<Template>)
      requires TargetHexToDiff(reply.target).Some?
      ensures r.None? <==> (base.None? || base.value.prevHash != reply.previousBlockHash) && ParseBits(reply.bits).None?
      ensures r.Some? ==> r.value.newBlkTpl == (base.None? || base.value.prevHash != reply.previousBlockHash)
      ensures r.Some? ==>
        r.value.prevHash == reply.previousBlockHash && r.value.difficulty == TargetHexToDiff(reply.target).value
      ensures r.Some? && r.value.newBlkTpl ==>
        fresh(r.value.maps) && r.value.maps.jobs == map[] && r.value.maps.details == map[] && r.value.maps.answers == []
      ensures r.Some? && r.value.newBlkTpl ==>
        r.value.height == reply.height == r.value.maps.height && r.value.maps.prevHash == r.value.prevHash
      ensures r.Some? && r.value.newBlkTpl ==>
        r.value.version == reply.version && Some(r.value.nBits) == ParseBits(reply.bits)
        && r.value.target == reply.target
      ensures r.Some? && !r.value.newBlkTpl ==> r.value.maps == base.value.maps && r.value.height == base.value.height
      ensures r.Some? && !r.value.newBlkTpl ==>
        r.value.version == base.value.version && r.value.nBits == base.value.nBits
        && r.value.target == base.value.target
      ensures r.Some? ==> r.value.updateTime == nowSeconds
      ensures r.Some? && HexNumber(PlainDigits(reply.target)).Some? ==>
        GoesInto(HexNumber(PlainDigits(reply.target)).value, r.value.difficulty)
    {
      var difficulty := TargetHexToDiff(reply.target).value;
      if HexNumber(PlainDigits(reply.target)).Some? {
        TargetTextRead(reply.target);
      }
      if base.None? || base.value.prevHash != reply.previousBlockHash {
        var nBits := ParseBits(reply.bits);
        if nBits.None? {
          return None;
        }
        var maps := new TemplateMaps(reply.height, reply.previousBlockHash);
        return Some(Template(reply.version, reply.height, reply.previousBlockHash, nBits.value, reply.target,
                             difficulty, maps, nowSeconds, true, ""));
      }
      var t := base.value;
      return Some(Template(t.version, t.height, t.prevHash, t.nBits, t.target, difficulty, t.maps, nowSeconds, false,
                           ""));
    }

    /** Adds the new job to the maps and makes the template current. */
    method StoreTemplate(t: Template, job: Job, reply: Reply)
      requires Valid() && IsJobFor(rule, job, reply, t.height) && t.lastBlkTplId == job.jobId
      requires t.maps.height == t.height && t.maps.prevHash == t.prevHash && t.maps.Sound(rule)
      requires reply.previousBlockHash == t.prevHash
      modifies `blockTemplate, `history, t.maps
      ensures Valid() && history == old(history) + [t]
      ensures DataOf(t.maps.details, old(t.maps.details), reply.transactions)
      ensures t.maps.answers == old(t.maps.answers) + [reply]
      ensures t.maps.jobs == old(t.maps.jobs)[job.jobId := job]
      ensures t.maps.details == WithDetails(old(t.maps.details), reply.transactions)
    {
      t.maps.AddJob(rule, job, reply);
      forall u <- history ensures Sound(rule, u) {
        assert old(Sound(rule, u));
      }
      blockTemplate := Some(t);
      history := history + [t];
    }

    function HeightFor(base: Option<Template>, reply: Reply): nat {
      if base.None? || base.value.prevHash != reply.previousBlockHash then reply.height else base.value.height
    }

    /** An answer from which a job can be made. */
    predicate Usable(base: Option<Template>, reply: Reply) {
      && ((base.None? || base.value.prevHash != reply.previousBlockHash) ==> ParseBits(reply.bits).Some?)
      && reply.coinBaseValue > 0 && setup.branchOf(TxIds(reply.transactions)).Some? && Coinbaseable(reply)
    }

    /** The jobs and the data a template for the answer starts from. */
    ghost function StartingJobs(base: Option<Template>, reply: Reply): (map<string, Job>, map<string, string>)
      reads if base.Some? then {base.value.maps} else {}
    {
      if base.None? || base.value.prevHash != reply.previousBlockHash then (map[], map[])
        else (base.value.maps.jobs, base.value.maps.details)
    }

    /** Version, bits and target text of a template: the answer's for a new block, otherwise the base's. */
    predicate HeaderFieldsFor(t: Template, base: Option<Template>, reply: Reply) {
      if base.None? || base.value.prevHash != reply.previousBlockHash then
        t.version == reply.version && Some(t.nBits) == ParseBits(reply.bits) && t.target == reply.target
      else t.version == base.value.version && t.nBits == base.value.nBits && t.target == base.value.target
    }

    /** The template that follows from an answer: it announces a new block exactly if it is not for the
        base's block, and its jobs are those it started from with the new job under its id, which may
        have named another job before. */
    ghost predicate Follows(t: Template, base: Option<Template>, reply: Reply,
                            start: (map<string, Job>, map<string, string>), nowSeconds: int, now: nat)
      reads t.maps
    {
      && t.newBlkTpl == (base.None? || base.value.prevHash != reply.previousBlockHash)
      && t.prevHash == reply.previousBlockHash && t.height == HeightFor(base, reply)
        && t.difficulty == (if TargetHexToDiff(reply.target).Some? then TargetHexToDiff(reply.target).value else 0)
      && HeaderFieldsFor(t, base, reply) && t.updateTime == nowSeconds
      && t.lastBlkTplId in t.maps.jobs && IsJobFor(rule, t.maps.jobs[t.lastBlkTplId], reply, t.height)
      && making(t.maps.jobs[t.lastBlkTplId], reply, t.height, now)
      && t.maps.jobs == start.0[t.lastBlkTplId := t.maps.jobs[t.lastBlkTplId]]
      && t.maps.details == WithDetails(start.1, reply.transactions)
      && DataOf(t.maps.details, start.1, reply.transactions)
    }

    /** A template for an answer, with its job, before the job is in the maps. */
    ghost predicate Fits(t: Template, job: Job, base: Option<Template>, reply: Reply, nowSeconds: int, now: nat) {
      && t.newBlkTpl == (base.None? || base.value.prevHash != reply.previousBlockHash)
      && t.prevHash == reply.previousBlockHash && t.height == HeightFor(base, reply)
      && t.difficulty == (if TargetHexToDiff(reply.target).Some? then TargetHexToDiff(reply.target).value else 0)
      && HeaderFieldsFor(t, base, reply) && t.updateTime == nowSeconds
      && t.lastBlkTplId == job.jobId && IsJobFor(rule, job, reply, t.height) && making(job, reply, t.height, now)
    }

    /** What `fetchBlockTemplate` makes of an answer before it touches anything shared. */
    method Prepare(base: Option<Template>, reply: Reply, nowSeconds: int, now: nat) returns (r: Option<(Template, Job)>)
      requires Configured() && Sized(reply, HeightFor(base, reply), now) && TargetHexToDiff(reply.target).Some?
      requires base.Some? ==> Sound(rule, base.value)
      ensures r.Some? <==> Usable(base, reply)
      ensures r.Some? ==> Fits(r.value.0, r.value.1, base, reply, nowSeconds, now)
      ensures r.Some? ==> var m := r.value.0.maps;
        m.height == r.value.0.height && m.prevHash == r.value.0.prevHash && m.Sound(rule)
      ensures r.Some? ==> var m := r.value.0.maps;
        if r.value.0.newBlkTpl then fresh(m) && m.jobs == map[] && m.details == map[] && m.answers == []
        else m == base.value.maps
    {
      var newTpl := MakeTemplate(base, reply, nowSeconds);
      if newTpl.None? {
        return None;
      }
      var newTplJob := MakeJob(reply, newTpl.value.height, now);
      if newTplJob.None? {
        return None;
      }
      return Some((newTpl.value.(lastBlkTplId := newTplJob.value.jobId), newTplJob.value));
    }

    /** The last part of `fetchBlockTemplate`, which changes what is shared. */
    method StorePrepared(t: Template, job: Job, base: Option<Template>, reply: Reply, ghost nowSeconds: int,
                         ghost now: nat)
      requires Valid() && Fits(t, job, base, reply, nowSeconds, now)
      requires t.maps.height == t.height && t.maps.prevHash == t.prevHash && t.maps.Sound(rule)
      requires (t.maps.jobs, t.maps.details) == StartingJobs(base, reply)
      modifies `blockTemplate, `history, t.maps
      ensures Valid() && history == old(history) + [t] && blockTemplate == Some(t)
      ensures Follows(t, base, reply, old((t.maps.jobs, t.maps.details)), nowSeconds, now)
      ensures t.maps.answers == old(t.maps.answers) + [reply]
    {
      StoreTemplate(t, job, reply);
    }

    /** The rest of `fetchBlockTemplate` once the node has answered. `base` is the template that was
        current when the fetch began; another fetch may have replaced it since. */
    method FinishFetch(base: Option<Template>, reply: Reply, nowSeconds: int, now: nat) returns (stored: bool)
      requires Valid() && Configured() && (base.Some? ==> base.value in history)
      requires Sized(reply, HeightFor(base, reply), now) && TargetHexToDiff(reply.target).Some?
      modifies `blockTemplate, `history, if base.Some? then {base.value.maps} else {}
      ensures Valid()
      ensures stored <==> Usable(base, reply)
      ensures !stored ==> blockTemplate == old(blockTemplate) && history == old(history)
      ensures stored ==> blockTemplate.Some? && history == old(history) + [blockTemplate.value]
      ensures stored ==>
        Follows(blockTemplate.value, base, reply, old(StartingJobs(base, reply)), nowSeconds, now)
      ensures stored && blockTemplate.value.newBlkTpl ==> blockTemplate.value.maps.answers == [reply]
      ensures stored && !blockTemplate.value.newBlkTpl ==>
        base.value.maps.answers == old(base.value.maps.answers) + [reply]
      ensures stored && blockTemplate.value.newBlkTpl ==> fresh(blockTemplate.value.maps)
      ensures stored && !blockTemplate.value.newBlkTpl ==> blockTemplate.value.maps == base.value.maps
      ensures base.Some? && (!stored || blockTemplate.value.newBlkTpl) ==> unchanged(base.value.maps)
    {
      assert base.Some? ==> Sound(rule, base.value);
      var prepared := Prepare(base, reply, nowSeconds, now);
      if prepared.None? {
        return false;
      }
      var t, job := prepared.value.0, prepared.value.1;
      StorePrepared(t, job, base, reply, nowSeconds, now);
      return true;
    }

    /** Which ids a template names: those it started from keep their jobs exactly if the new id is not
        among them or names an equal job. */
    lemma AnnouncedIdsKeepJobsIff(t: Template, base: Option<Template>, reply: Reply,
                                  start: (map<string, Job>, map<string, string>), nowSeconds: int, now: nat)
      requires Follows(t, base, reply, start, nowSeconds, now)
      ensures (forall id :: id in start.0 ==> id in t.maps.jobs && t.maps.jobs[id] == start.0[id])
        <==> t.lastBlkTplId !in start.0 || start.0[t.lastBlkTplId] == t.maps.jobs[t.lastBlkTplId]
    {
      IdsKeepJobsIff(start.0, t.lastBlkTplId, t.maps.jobs[t.lastBlkTplId]);
    }

    /** A fetch that finishes for the block of its base: the new template is for the base's height, on the
        base's maps, with the new job under its id. */
    method FinishSameBlock(base: Template, reply: Reply, nowSeconds: int, now: nat) returns (stored: bool)
      requires Valid() && Configured() && base in history
      requires reply.previousBlockHash == base.prevHash
      requires Sized(reply, base.height, now) && TargetHexToDiff(reply.target).Some?
      modifies `blockTemplate, `history, base.maps
      ensures Valid() && (stored <==> Usable(Some(base), reply)) && blockTemplate.Some?
      ensures stored ==> history == old(history) + [blockTemplate.value]
      ensures !stored ==> history == old(history) && blockTemplate == old(blockTemplate)
      ensures stored ==> var t := blockTemplate.value;
        && !t.newBlkTpl && t.maps == base.maps && t.height == base.height && t.prevHash == base.prevHash
        && t.maps.jobs.Keys == old(base.maps.jobs.Keys) + {t.lastBlkTplId}
    {
      stored := FinishFetch(Some(base), reply, nowSeconds, now);
    }

    /** Templates stored for the height of a template share its maps: no block was replaced by another of
        its height, and no two overlapping fetches announced the same one. */
    ghost predicate OneBlockPerHeight(base: Template)
      reads this
    {
      forall u <- history :: u.height == base.height ==> u.maps == base.maps
    }

    /** A fetch may be overtaken by others. When it finishes on any base ever stored, without announcing
        a block, the jobs of the template in use are all kept if and only if the base's maps hold all of
        them but the new one. With the base's own maps they are kept; for another height none is; and
        where a height has one set of maps, its height alone decides. */
    method FinishOvertaken(base: Template, reply: Reply, nowSeconds: int, now: nat)
      returns (stored: bool, ghost was: Template, ghost before: map<string, Job>, ghost start: map<string, Job>)
      requires Valid() && Configured() && base in history
      requires reply.previousBlockHash == base.prevHash
      requires Sized(reply, base.height, now) && TargetHexToDiff(reply.target).Some?
      modifies `blockTemplate, `history, base.maps
      ensures Valid() && (stored <==> Usable(Some(base), reply)) && blockTemplate.Some?
      ensures Some(was) == old(blockTemplate) && before == old(was.maps.jobs) && start == old(base.maps.jobs)
      ensures stored ==> !blockTemplate.value.newBlkTpl && history == old(history) + [blockTemplate.value]
      ensures var after := blockTemplate.value.maps.jobs;
        stored ==> (before.Keys <= after.Keys <==> before.Keys <= start.Keys + {blockTemplate.value.lastBlkTplId})
      ensures stored && was.maps == base.maps ==> before.Keys <= blockTemplate.value.maps.jobs.Keys
      ensures var after := blockTemplate.value.maps.jobs;
        stored && was.height != base.height && NoCollisions(setup, before, after) ==> before.Keys !! after.Keys
      ensures var after := blockTemplate.value.maps.jobs;
        stored && old(OneBlockPerHeight(base)) && NoCollisions(setup, before, after) ==>
          (before.Keys <= after.Keys <==> was.height == base.height)
    {
      was := blockTemplate.value;
      assert was in history && Sound(rule, was);
      before, start := was.maps.jobs, base.maps.jobs;
      ghost var details := was.maps.details.Keys;
      assert was.lastBlkTplId in before;
      stored := FinishSameBlock(base, reply, nowSeconds, now);
      if stored {
        ghost var t := blockTemplate.value;
        assert Sound(rule, t) by { assert t in history; }
        if was.height != base.height && NoCollisions(setup, before, t.maps.jobs) {
          HeightsShareNoJobs(setup, before, was.height, details, t.maps.jobs, t.height, t.maps.details.Keys);
        }
      }
    }

    /** `fetchBlockTemplate` with no other fetch under way. From one template to the next, a job can
        only disappear if the new template announces a new block. */
    method FetchBlockTemplate(prevBlockHash: Option<string>, answer: Option<Reply>, nowSeconds: int, now: nat)
      returns (stored: bool)
      requires Valid() && Configured()
      requires answer.Some? ==>
        Sized(answer.value, HeightFor(blockTemplate, answer.value), now) && TargetHexToDiff(answer.value.target).Some?
      modifies `blockTemplate, `history, if blockTemplate.Some? then {blockTemplate.value.maps} else {}
      ensures Valid()
      ensures var t := old(blockTemplate);
        stored <==>
        prevBlockHash.Some? && answer.Some? && Usable(t, answer.value)
        && (t.None? || t.value.prevHash != prevBlockHash.value || nowSeconds - t.value.updateTime >= interval)
      ensures !stored ==> blockTemplate == old(blockTemplate) && history == old(history)
      ensures stored ==> blockTemplate.Some? && history == old(history) + [blockTemplate.value]
      ensures stored ==>
        Follows(blockTemplate.value, old(blockTemplate), answer.value, old(StartingJobs(blockTemplate, answer.value)),
                nowSeconds, now)
      ensures old(blockTemplate).Some? && !blockTemplate.value.newBlkTpl ==>
        old(blockTemplate.value.maps.jobs.Keys) <= blockTemplate.value.maps.jobs.Keys
    {
      if prevBlockHash.None? {
        return false;
      }
      var t := blockTemplate;
      if t.Some? && t.value.prevHash == prevBlockHash.value && nowSeconds - t.value.updateTime < interval {
        return false;
      }
      if answer.None? {
        return false;
      }
      stored := FinishFetch(t, answer.value, nowSeconds, now);
    }
  }

  /** A fetch that overlapped another: with a late answer about the old block, which is stored without
      announcing one, every job for the new block is gone. */
  method OverlappingFetches(server: TemplateServer, first: Reply, late: Reply, nowSeconds: int, now: nat)
    returns (ghost middle: Template)
    requires server.Valid() && server.Configured() && server.blockTemplate.Some?
    requires var base := server.blockTemplate;
      && first.previousBlockHash != base.value.prevHash == late.previousBlockHash && first.height != base.value.height
      && server.Usable(base, first) && server.Usable(base, late)
      && server.Sized(first, server.HeightFor(base, first), now)
        && server.Sized(late, server.HeightFor(base, late), now)
    requires TargetHexToDiff(first.target).Some? && TargetHexToDiff(late.target).Some?
    modifies server, server.blockTemplate.value.maps
    ensures server.Valid() && server.blockTemplate.Some? && !server.blockTemplate.value.newBlkTpl
    ensures |server.history| == old(|server.history|) + 2 && middle == server.history[|server.history| - 2]
      && middle.newBlkTpl
    ensures middle.maps.jobs != map[]
    ensures NoCollisions(server.setup, middle.maps.jobs, server.blockTemplate.value.maps.jobs) ==>
      middle.maps.jobs.Keys !! server.blockTemplate.value.maps.jobs.Keys
  {
    var base := server.blockTemplate;
    var _ := server.FinishFetch(base, first, nowSeconds, now);
    middle := server.blockTemplate.value;
    assert middle in server.history;
    var _ := server.FinishFetch(base, late, nowSeconds, now);
    ghost var t := server.blockTemplate.value;
    assert Sound(server.rule, middle) && Sound(server.rule, t);
    if NoCollisions(server.setup, middle.maps.jobs, t.maps.jobs) {
      HeightsShareNoJobs(server.setup, middle.maps.jobs, middle.height, middle.maps.details.Keys, t.maps.jobs, t.height,
                         t.maps.details.Keys);
    }
  }

  /** A fetch for a block that is not the base's announces it, with maps of its own and one job. */
  method Announce(server: TemplateServer, base: Option<Template>, reply: Reply, nowSeconds: int, now: nat)
    returns (t: Template)
    requires server.Valid() && server.Configured() && base.Some? && base.value in server.history
    requires reply.previousBlockHash != base.value.prevHash && server.Usable(base, reply)
    requires server.Sized(reply, reply.height, now) && TargetHexToDiff(reply.target).Some?
    modifies server`blockTemplate, server`history, base.value.maps
    ensures server.Valid() && server.history == old(server.history) + [t] && unchanged(base.value.maps)
    ensures t.newBlkTpl && t.prevHash == reply.previousBlockHash && t.height == reply.height
    ensures fresh(t.maps) && t.maps.jobs.Keys == {t.lastBlkTplId}
  {
    var _ := server.FinishFetch(base, reply, nowSeconds, now);
    t := server.blockTemplate.value;
  }

  /** Two overlapping fetches that both announce one new block, each with its own maps. */
  method AnnounceBoth(server: TemplateServer, a: Reply, b: Reply, nowSeconds: int, now: nat)
    returns (first: Template, second: Template)
    requires server.Valid() && server.Configured() && server.blockTemplate.Some?
    requires a.previousBlockHash == b.previousBlockHash != server.blockTemplate.value.prevHash && a.height == b.height
    requires server.Usable(server.blockTemplate, a) && server.Usable(server.blockTemplate, b)
    requires server.Sized(a, a.height, now) && server.Sized(b, a.height, now)
    requires TargetHexToDiff(a.target).Some? && TargetHexToDiff(b.target).Some?
    modifies server`blockTemplate, server`history, server.blockTemplate.value.maps
    ensures server.Valid() && server.history == old(server.history) + [first] + [second]
    ensures first.newBlkTpl && first.prevHash == a.previousBlockHash && first.height == a.height
    ensures second.newBlkTpl && second.prevHash == a.previousBlockHash && second.height == a.height
    ensures first.maps != second.maps && fresh(first.maps) && fresh(second.maps)
    ensures first.maps.jobs.Keys == {first.lastBlkTplId} && second.maps.jobs.Keys == {second.lastBlkTplId}
  {
    var base := server.blockTemplate;
    first := Announce(server, base, a, nowSeconds, now);
    second := Announce(server, base, b, nowSeconds, now);
  }

  /** And a third that began on the template of the first: it announces nothing and is for the height in
      use, and yet the one job of the template in use is gone unless ids coincide. */
  method AnnouncedTwice(server: TemplateServer, a: Reply, b: Reply, c: Reply, nowSeconds: int, now: nat)
    returns (first: Template, second: Template)
    requires server.Valid() && server.Configured() && server.blockTemplate.Some?
    requires a.previousBlockHash == b.previousBlockHash != server.blockTemplate.value.prevHash && a.height == b.height
    requires server.Usable(server.blockTemplate, a) && server.Usable(server.blockTemplate, b)
    requires server.Sized(a, a.height, now) && server.Sized(b, a.height, now)
    requires TargetHexToDiff(a.target).Some? && TargetHexToDiff(b.target).Some?
    requires c.previousBlockHash == a.previousBlockHash && server.Usable(server.blockTemplate, c)
    requires server.Sized(c, a.height, now) && TargetHexToDiff(c.target).Some?
    modifies server, server.blockTemplate.value.maps
    ensures server.Valid() && server.blockTemplate.Some?
    ensures var t := server.blockTemplate.value;
      && server.history == old(server.history) + [first] + [second] + [t]
      && first.newBlkTpl && second.newBlkTpl && !t.newBlkTpl
      && t.height == first.height == second.height && t.prevHash == first.prevHash == second.prevHash
      && second.maps.jobs.Keys == {second.lastBlkTplId}
      && t.maps.jobs.Keys == {first.lastBlkTplId, t.lastBlkTplId}
  {
    first, second := AnnounceBoth(server, a, b, nowSeconds, now);
    var _ := server.FinishSameBlock(first, c, nowSeconds, now);
  }
}
