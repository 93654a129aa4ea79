/** The rows of the three block ZSETs, as text and as records (storage/redis.go). */
module Rows {
  import opened Wrappers
  import opened Text

  /** "nonce:eNonce1:eNonce2:timestamp:diff:totalShares:coinBaseValue:blkTotalFee" */
  datatype CandidateRow = CandidateRow(
    nonce: string, eNonce1: string, eNonce2: string, timestamp: int, difficulty: int,
    totalShares: int, coinBaseValue: int, blkTotalFee: int)

  /** "uncleHeight:orphan:nonce:blockHash:timestamp:diff:totalShares:coinBaseValue:blkTotalFee:reward" */
  datatype BlockRow = BlockRow(
    orphan: bool, nonce: string, hash: string, timestamp: int, difficulty: int,
    totalShares: int, coinBaseValue: int, blkTotalFee: int, reward: string)

  /** `BlockData`. The uncle fields are always zero here, and the raw member a block was read
      from (`candidateKey`, `immatureKey`) travels beside it in `Item.key`. */
  datatype BlockData = BlockData(
    height: int, roundHeight: int, timestamp: int, difficulty: int, totalShares: int,
    orphan: bool, hash: string, nonce: string, eNonce1: string, eNonce2: string,
    coinBaseValue: int, blkTotalFee: int, reward: Option<int>, extraReward: Option<int>, rewardString: string)

  /** A block taken from a ZSET together with the member it was read from. */
  datatype Item<+K> = Item(key: K, block: BlockData)

  function SerializeHash(hash: string): string {
    if |hash| > 0 then hash else "0x0"
  }

  /** `join` prints a nil `*big.Int` as "0". */
  function FormatBig(n: Option<int>): string {
    match n
    case None => "0"
    case Some(v) => FormatInt(v)
  }

  function PrintCandidate(r: CandidateRow): string {
    var hashHex := Join([r.nonce, r.eNonce1, r.eNonce2]);
    Join([hashHex, FormatInt(r.timestamp), FormatInt(r.difficulty), FormatInt(r.totalShares),
          FormatInt(r.coinBaseValue), FormatInt(r.blkTotalFee)])
  }

  /** None stands for the index panic on a row with fewer than eight fields. */
  function ParseCandidate(s: string): Option<CandidateRow> {
    var f := Split(s);
    if |f| < 8 then None
    else Some(CandidateRow(f[0], f[1], f[2], ParseInt64(f[3]), ParseInt64(f[4]),
                           ParseInt64(f[5]), ParseInt64(f[6]), ParseInt64(f[7])))
  }

  function BlockFields(r: BlockRow): seq<string> {
    [FormatInt(0), FormatBool(r.orphan), r.nonce, r.hash, FormatInt(r.timestamp), FormatInt(r.difficulty),
     FormatInt(r.totalShares), FormatInt(r.coinBaseValue), FormatInt(r.blkTotalFee), r.reward]
  }

  function PrintBlock(r: BlockRow): string {
    Join(BlockFields(r))
  }

  /** None stands for the index panic on a short row, and for the nil amounts that a malformed big
      integer leaves behind. */
  function ParseBlock(s: string): Option<BlockRow> {
    var f := Split(s);
    if |f| < 10 then None
    else
      var coinBaseValue, blkTotalFee := ParseBig(f[7]), ParseBig(f[8]);
      if coinBaseValue.None? || blkTotalFee.None? then None
      else Some(BlockRow(ParseBool(f[1]), f[2], f[3], ParseInt64(f[4]), ParseInt64(f[5]), ParseInt64(f[6]),
                         coinBaseValue.value, blkTotalFee.value, f[9]))
  }

  /** The row `key()` prints for a block. */
  function RowOf(b: BlockData): BlockRow {
    BlockRow(b.orphan, b.nonce, SerializeHash(b.hash), b.timestamp, b.difficulty, b.totalShares,
             b.coinBaseValue, b.blkTotalFee, FormatBig(b.reward))
  }

  /** What `convertCandidateResults` builds from one row. */
  function FromCandidate(r: CandidateRow, height: int): BlockData {
    BlockData(height, height, r.timestamp, r.difficulty, r.totalShares, false, "", r.nonce, r.eNonce1, r.eNonce2,
              r.coinBaseValue, r.blkTotalFee, None, None, "")
  }

  /** What `convertBlockResults` builds from one row: the reward comes back as text only. */
  function FromBlock(r: BlockRow, height: int): BlockData {
    BlockData(height, height, r.timestamp, r.difficulty, r.totalShares, r.orphan, r.hash, r.nonce, "", "",
              r.coinBaseValue, r.blkTotalFee, None, None, r.reward)
  }

  /** A record has what a candidate row says, each field in its place, and nothing else. */
  predicate ReadsCandidate(b: BlockData, r: CandidateRow, height: int) {
    && b.height == height && b.roundHeight == height
    && b.nonce == r.nonce && b.eNonce1 == r.eNonce1 && b.eNonce2 == r.eNonce2
    && b.timestamp == r.timestamp && b.difficulty == r.difficulty && b.totalShares == r.totalShares
    && b.coinBaseValue == r.coinBaseValue && b.blkTotalFee == r.blkTotalFee
    && !b.orphan && b.hash == "" && b.reward.None? && b.extraReward.None? && b.rewardString == ""
  }

  /** And a record what a block row says. */
  predicate ReadsBlock(b: BlockData, r: BlockRow, height: int) {
    && b.height == height && b.roundHeight == height
    && b.orphan == r.orphan && b.nonce == r.nonce && b.hash == r.hash
    && b.timestamp == r.timestamp && b.difficulty == r.difficulty && b.totalShares == r.totalShares
    && b.coinBaseValue == r.coinBaseValue && b.blkTotalFee == r.blkTotalFee
    && b.eNonce1 == "" && b.eNonce2 == "" && b.reward.None? && b.extraReward.None? && b.rewardString == r.reward
  }

  predicate CandidateFits(r: CandidateRow) {
    && ColonFree(r.nonce) && ColonFree(r.eNonce1) && ColonFree(r.eNonce2)
    && IsInt64(r.timestamp) && IsInt64(r.difficulty) && IsInt64(r.totalShares)
    && IsInt64(r.coinBaseValue) && IsInt64(r.blkTotalFee)
  }

  predicate BlockFits(r: BlockRow) {
    && ColonFree(r.nonce) && ColonFree(r.hash) && ColonFree(r.reward)
    && IsInt64(r.timestamp) && IsInt64(r.difficulty) && IsInt64(r.totalShares)
  }

  lemma ThreeInFront(a: string, b: string, c: string, rest: seq<string>)
    requires rest != []
    ensures Join([a, b, c] + rest) == a + ":" + (b + ":" + (c + ":" + Join(rest)))
  {
    assert Join([c] + rest) == c + ":" + Join(rest) by { assert ([c] + rest)[1..] == rest; }
    assert Join([b, c] + rest) == b + ":" + (c + ":" + Join(rest)) by { assert ([b, c] + rest)[1..] == [c] + rest; }
    assert ([a, b, c] + rest)[1..] == [b, c] + rest;
  }

  /** Joining a joined prefix with more fields is joining them all. */
  lemma JoinNested(a: string, b: string, c: string, rest: seq<string>)
    requires rest != []
    ensures Join([Join([a, b, c])] + rest) == Join([a, b, c] + rest)
  {
    ThreeInFront(a, b, c, rest);
    ColonsBetween(a, b, c);
    var joined := Join([a, b, c]);
    assert ([joined] + rest)[1..] == rest;
    assert Join([joined] + rest) == joined + ":" + Join(rest);
  }

  function CandidateFields(r: CandidateRow): seq<string> {
    [r.nonce, r.eNonce1, r.eNonce2] + CandidateNumbers(r)
  }

  function CandidateNumbers(r: CandidateRow): seq<string> {
    [FormatInt(r.timestamp), FormatInt(r.difficulty), FormatInt(r.totalShares),
     FormatInt(r.coinBaseValue), FormatInt(r.blkTotalFee)]
  }

  /** Candidate rows keep all eight fields. */
  lemma CandidateRoundTrip(r: CandidateRow)
    requires CandidateFits(r)
    ensures ParseCandidate(PrintCandidate(r)) == Some(r)
  {
    JoinNested(r.nonce, r.eNonce1, r.eNonce2, CandidateNumbers(r));
    assert [Join([r.nonce, r.eNonce1, r.eNonce2])] + CandidateNumbers(r)
        == [Join([r.nonce, r.eNonce1, r.eNonce2]), FormatInt(r.timestamp), FormatInt(r.difficulty),
            FormatInt(r.totalShares), FormatInt(r.coinBaseValue), FormatInt(r.blkTotalFee)];
    ParseFormatInt(r.timestamp);
    ParseFormatInt(r.difficulty);
    ParseFormatInt(r.totalShares);
    ParseFormatInt(r.coinBaseValue);
    ParseFormatInt(r.blkTotalFee);
    SplitJoin(CandidateFields(r));
  }

  /** The text of a candidate row: its eight fields in their order, with colons between. */
  lemma CandidateText(r: CandidateRow)
    ensures PrintCandidate(r)
      == r.nonce + ":" + (r.eNonce1 + ":" + (r.eNonce2 + ":" + (FormatInt(r.timestamp) + ":"
         + (FormatInt(r.difficulty) + ":" + (FormatInt(r.totalShares) + ":"
         + (FormatInt(r.coinBaseValue) + ":" + FormatInt(r.blkTotalFee)))))))
  {
    var numbers := CandidateNumbers(r);
    JoinNested(r.nonce, r.eNonce1, r.eNonce2, numbers);
    assert [Join([r.nonce, r.eNonce1, r.eNonce2])] + numbers
        == [Join([r.nonce, r.eNonce1, r.eNonce2]), FormatInt(r.timestamp), FormatInt(r.difficulty),
            FormatInt(r.totalShares), FormatInt(r.coinBaseValue), FormatInt(r.blkTotalFee)];
    ThreeInFront(r.nonce, r.eNonce1, r.eNonce2, numbers);
    NumbersText(numbers);
  }

  lemma NumbersText(f: seq<string>)
    requires |f| == 5
    ensures Join(f) == f[0] + ":" + (f[1] + ":" + (f[2] + ":" + (f[3] + ":" + f[4])))
  {
    assert f == [f[0], f[1], f[2]] + f[3..] && f[3..][1..] == [f[4]];
    ThreeInFront(f[0], f[1], f[2], f[3..]);
  }

  /** The text of a block row: a zero where uncles would have a height, and its nine fields. */
  lemma BlockText(r: BlockRow)
    ensures PrintBlock(r)
      == "0" + ":" + ((if r.orphan then "1" else "0") + ":" + (r.nonce + ":" + (r.hash + ":"
         + (FormatInt(r.timestamp) + ":" + (FormatInt(r.difficulty) + ":" + (FormatInt(r.totalShares) + ":"
         + (FormatInt(r.coinBaseValue) + ":" + (FormatInt(r.blkTotalFee) + ":" + r.reward))))))))
  {
    assert FormatInt(0) == "0" by { DecimalDigits(0); }
    var amounts := [FormatInt(r.difficulty), FormatInt(r.totalShares), FormatInt(r.coinBaseValue),
                    FormatInt(r.blkTotalFee), r.reward];
    var middle := [r.hash, FormatInt(r.timestamp)] + amounts;
    NumbersText(amounts);
    assert middle[1..] == [FormatInt(r.timestamp)] + amounts && middle[1..][1..] == amounts;
    assert Join(middle) == r.hash + ":" + (FormatInt(r.timestamp) + ":" + Join(amounts));
    ThreeInFront(FormatInt(0), FormatBool(r.orphan), r.nonce, middle);
    assert BlockFields(r) == [FormatInt(0), FormatBool(r.orphan), r.nonce] + middle;
  }

  lemma FlagRoundTrip(b: bool)
    ensures ColonFree(FormatBool(b)) && ParseBool(FormatBool(b)) == b
  {
  }

  lemma BlockFieldsSplit(r: BlockRow)
    requires BlockFits(r)
    ensures Split(PrintBlock(r)) == BlockFields(r)
  {
    ParseFormatInt(0);
    ParseFormatInt(r.timestamp);
    ParseFormatInt(r.difficulty);
    ParseFormatInt(r.totalShares);
    ParseFormatInt(r.coinBaseValue);
    ParseFormatInt(r.blkTotalFee);
    FlagRoundTrip(r.orphan);
    SplitJoin(BlockFields(r));
  }

  /** Block rows keep every field, the reward as its decimal text. */
  lemma BlockRoundTrip(r: BlockRow)
    requires BlockFits(r)
    ensures ParseBlock(PrintBlock(r)) == Some(r)
  {
    BlockFieldsSplit(r);
    FlagRoundTrip(r.orphan);
    ParseFormatInt(r.timestamp);
    ParseFormatInt(r.difficulty);
    ParseFormatInt(r.totalShares);
    ParseFormatInt(r.coinBaseValue);
    ParseFormatInt(r.blkTotalFee);
  }

  /** Whatever is read from a row can be printed: parsing never yields a record that does not fit. */
  lemma ParsedRowsFit(s: string)
    ensures ParseCandidate(s).Some? ==> CandidateFits(ParseCandidate(s).value)
    ensures ParseBlock(s).Some? ==> BlockFits(ParseBlock(s).value)
  {
    JoinSplit(s);
  }

  /** A block written as immature reads back with everything but the pieces the row does not hold:
      the extranonces are gone and the reward is text. */
  lemma WrittenBlockReadsBack(b: BlockData)
    requires BlockFits(RowOf(b)) && b.roundHeight == b.height
    ensures ParseBlock(PrintBlock(RowOf(b))).Some?
    ensures FromBlock(ParseBlock(PrintBlock(RowOf(b))).value, b.height)
         == b.(hash := SerializeHash(b.hash), eNonce1 := "", eNonce2 := "",
               reward := None, extraReward := None, rewardString := FormatBig(b.reward))
  {
    BlockRoundTrip(RowOf(b));
  }
}
