/** Putting a submitted share together: the header whose hash is checked (proxy/miner.go) and the
    block that is sent to the node (proxy/blocks.go). */
module BlockAssembly {
  import opened Wrappers
  import opened Wire
  import opened Coinbase
  import opened Difficulty
  import Merkle

  datatype Header = Header(version: int, prevHash: string, merkleRoot: string, time: nat, bits: nat, nonce: nat)

  datatype RawBlock = RawBlock(header: Header, vtx: seq<Transaction>)

  /** What the libraries compute: transaction ids, the Merkle root for a coinbase and a branch,
      whether text is a 256-bit hash, a header's double SHA-256 as text, and transactions from text. */
  datatype Library = Library(
    txId: Transaction -> string,
    merkleRoot: (string, seq<string>) -> Option<string>,
    isHash: string -> bool,
    hashHex: Header -> string,
    unpack: string -> Option<Transaction>)

  /** What a miner submits, on the job it belongs to, against a difficulty. */
  datatype Block = Block(difficulty: nat, coinBase1: string, coinBase2: string, extraNonce1: string,
                         extraNonce2: string,
                         merkleBranch: seq<string>, nVersion: nat, prevHash: string, sTime: string, nBits: nat,
                           sNonce: string)

  /** `strconv.ParseUint(s, 16, 32)` */
  function ParseUint32(s: string): Option<nat> {
    if s == "" || HexNumber(s).None? || HexNumber(s).value >= 0x1_0000_0000 then None else HexNumber(s)
  }

  lemma {:induction false} DigitsBoundNumber(s: string)
    requires HexNumber(s).Some? && |s| <= 8
    ensures |s| == 0 ==> HexNumber(s).value == 0
    ensures |s| == 8 ==> HexNumber(s).value < 0x1_0000_0000
    ensures |s| == 7 ==> HexNumber(s).value < 0x1000_0000
    ensures |s| == 6 ==> HexNumber(s).value < 0x100_0000
    ensures |s| == 5 ==> HexNumber(s).value < 0x10_0000
    ensures |s| == 4 ==> HexNumber(s).value < 0x1_0000
    ensures |s| == 3 ==> HexNumber(s).value < 0x1000
    ensures |s| == 2 ==> HexNumber(s).value < 0x100
    ensures |s| == 1 ==> HexNumber(s).value < 0x10
  {
    if s != "" {
      DigitsBoundNumber(s[..|s| - 1]);
    }
  }

  /** Up to eight hexadecimal digits are a 32-bit number, the one they spell; longer text is one if it
      spells one. */
  lemma Uint32Read(s: string)
    ensures ParseUint32(s).Some? ==> ParseUint32(s) == HexNumber(s) && ParseUint32(s).value < 0x1_0000_0000
    ensures s != "" && HexNumber(s).Some? && (|s| <= 8 || HexNumber(s).value < 0x1_0000_0000) ==> ParseUint32(s).Some?
  {
    if HexNumber(s).Some? && |s| <= 8 {
      DigitsBoundNumber(s);
    }
  }

  /** `int32` of a 32-bit unsigned value. */
  function ToInt32(n: nat): int { if n < 0x8000_0000 then n else n - 0x1_0000_0000 }

  lemma SignedVersion(n: nat)
    ensures ToInt32(n) == n || ToInt32(n) == n - 0x1_0000_0000
    ensures n < 0x1_0000_0000 ==> -0x8000_0000 <= ToInt32(n) < 0x8000_0000
  {
  }

  /** The coinbase a share is about: the job's halves around the extranonces. */
  function CoinbaseOf(b: Block): Option<Transaction> {
    var c1, e1, e2, c2 := DecodeHex(b.coinBase1), DecodeHex(b.extraNonce1), DecodeHex(b.extraNonce2),
      DecodeHex(b.coinBase2);
    if c1.None? || e1.None? || e2.None? || c2.None? then None
    else
      var tx := TakeTransaction(c1.value + e1.value + e2.value + c2.value);
      if tx.None? then None else Some(tx.value.0)
  }

  /** The header of the block a share would make. */
  function HeaderOf(lib: Library, b: Block): Option<Header> {
    var coinbase := CoinbaseOf(b);
    if coinbase.None? then None
    else
      var root := lib.merkleRoot(lib.txId(coinbase.value), b.merkleBranch);
      if root.None? || !lib.isHash(root.value) || !lib.isHash(b.prevHash) then None
      else
        var time, nonce := ParseUint32(b.sTime), ParseUint32(b.sNonce);
        if time.None? || nonce.None? then None
        else Some(Header(ToInt32(b.nVersion), b.prevHash, root.value, time.value, b.nBits, nonce.value))
  }

  /** A header's hash, read as a number from its digits; None is the zero hash, which the check cannot
      divide by, or text that is no number. */
  function HashOf(lib: Library, h: Header): Option<nat> {
    var hash := HexNumber(lib.hashHex(h));
    if hash == Some(0) then None else hash
  }

  /** Whether a share makes a header whose hash meets its difficulty. */
  predicate MeetsDifficulty(lib: Library, b: Block) {
    var h := HeaderOf(lib, b);
    h.Some? && HashOf(lib, h.value).Some? && HashOf(lib, h.value).value <= Threshold(b.difficulty)
  }

  /** The same in the digits of the hash, without division. */
  predicate IsHardEnough(lib: Library, b: Block) {
    var h := HeaderOf(lib, b);
    h.Some? && HashOf(lib, h.value).Some? && WithinTarget(HexNumber(lib.hashHex(h.value)).value, b.difficulty)
  }

  lemma MeetsIffHardEnough(lib: Library, b: Block)
    ensures MeetsDifficulty(lib, b) <==> IsHardEnough(lib, b)
  {
    var h := HeaderOf(lib, b);
    if h.Some? && HashOf(lib, h.value).Some? {
      HashTest(lib, h.value, b.difficulty);
    }
  }

  lemma HashTest(lib: Library, h: Header, difficulty: nat)
    requires HashOf(lib, h).Some?
    ensures TargetHexToDiff(lib.hashHex(h)).Some?
    ensures TargetHexToDiff(lib.hashHex(h)).value > difficulty <==> HashOf(lib, h).value <= Threshold(difficulty)
    ensures WithinTarget(HexNumber(lib.hashHex(h)).value, difficulty) <==> HashOf(lib, h).value <= Threshold(difficulty)
  {
    PlainHexReads(lib.hashHex(h));
    AcceptsIff(difficulty, HashOf(lib, h).value);
    WithinTargetIff(difficulty, HashOf(lib, h).value);
  }

  /** `DoubleSha256HashVerify`, for headers that do not hash to zero: a share passes if it makes a header
      whose hash, times the difficulty and one, is at most 2^256. */
  method DoubleSha256HashVerify(lib: Library, oBlock: Block) returns (ok: bool)
    requires HeaderOf(lib, oBlock).Some? ==> HashOf(lib, HeaderOf(lib, oBlock).value).Some?
    ensures ok <==> MeetsDifficulty(lib, oBlock)
    ensures ok <==> IsHardEnough(lib, oBlock)
  {
    var bytes1 := DecodeHex(oBlock.coinBase1);
    if bytes1.None? { return false; }
    var bytes2 := DecodeHex(oBlock.extraNonce1);
    if bytes2.None? { return false; }
    var bytes3 := DecodeHex(oBlock.extraNonce2);
    if bytes3.None? { return false; }
    var bytes4 := DecodeHex(oBlock.coinBase2);
    if bytes4.None? { return false; }
    var cbTrx := TakeTransaction(bytes1.value + bytes2.value + bytes3.value + bytes4.value);
    if cbTrx.None? { return false; }
    var merkleRootHex := lib.merkleRoot(lib.txId(cbTrx.value.0), oBlock.merkleBranch);
    if merkleRootHex.None? { return false; }
    if !lib.isHash(oBlock.prevHash) { return false; }
    if !lib.isHash(merkleRootHex.value) { return false; }
    var nTime := ParseUint32(oBlock.sTime);
    if nTime.None? { return false; }
    var nNonce := ParseUint32(oBlock.sNonce);
    if nNonce.None? { return false; }
    var blockHeader := Header(ToInt32(oBlock.nVersion), oBlock.prevHash, merkleRootHex.value, nTime.value, oBlock.nBits,
                              nNonce.value);
    assert HeaderOf(lib, oBlock) == Some(blockHeader);
    HashTest(lib, blockHeader, oBlock.difficulty);
    var hashDiff := TargetHexToDiff(lib.hashHex(blockHeader)).value;
    ok := hashDiff > oBlock.difficulty;
    MeetsIffHardEnough(lib, oBlock);
  }

  /** A block, or a reported failure, or, for a transaction without data, nothing and no error. */
  datatype Construction = Built(block: RawBlock) | Failed | NothingReported

  /** The transactions of a job, from their data; None if one has no data or no proper data. */
  function Unpacked(lib: Library, txIds: seq<string>, details: map<string, string>): Option<seq<Transaction>> {
    if txIds == [] then Some([])
    else
      var n := |txIds| - 1;
      var front := Unpacked(lib, txIds[..n], details);
      if front.None? || txIds[n] !in details || lib.unpack(details[txIds[n]]).None? then None
      else Some(front.value + [lib.unpack(details[txIds[n]]).value])
  }

  lemma {:induction false} UnpackedStops(lib: Library, txIds: seq<string>, details: map<string, string>, i: nat)
    requires i < |txIds| && (txIds[i] !in details || lib.unpack(details[txIds[i]]).None?)
    ensures Unpacked(lib, txIds, details).None?
  {
    var n := |txIds| - 1;
    if i < n {
      UnpackedStops(lib, txIds[..n], details, i);
    }
  }

  /** The loop of `ConstructRawBlockHex` over the job's transactions. */
  method AppendTransactions(lib: Library, start: RawBlock, txIds: seq<string>, details: map<string, string>)
    returns (r: Construction)
    ensures var txs := Unpacked(lib, txIds, details);
      && (r.Built? <==> txs.Some?)
      && (r.Built? ==> r.block == RawBlock(start.header, start.vtx + txs.value))
    ensures r.NothingReported? ==> exists txId <- txIds :: txId !in details
  {
    var rawBlock := start;
    for i := 0 to |txIds|
      invariant rawBlock.header == start.header
      invariant Unpacked(lib, txIds[..i], details).Some?
      invariant rawBlock.vtx == start.vtx + Unpacked(lib, txIds[..i], details).value
    {
      assert txIds[..i + 1][..i] == txIds[..i];
      if txIds[i] !in details {
        UnpackedStops(lib, txIds, details, i);
        return NothingReported;
      }
      var trx := lib.unpack(details[txIds[i]]);
      if trx.None? {
        UnpackedStops(lib, txIds, details, i);
        return Failed;
      }
      rawBlock := rawBlock.(vtx := rawBlock.vtx + [trx.value]);
    }
    assert txIds[..|txIds|] == txIds;
    return Built(rawBlock);
  }

  /** `ConstructRawBlockHex`, up to the text of the block. */
  method ConstructRawBlock(lib: Library, oBlock: Block, txIds: seq<string>, details: map<string, string>)
    returns (r: Construction)
    ensures var h, c, txs := HeaderOf(lib, oBlock), CoinbaseOf(oBlock), Unpacked(lib, txIds, details);
      && (r.Built? <==> h.Some? && txs.Some?)
      && (r.Built? ==> c.Some? && r.block == RawBlock(h.value, [c.value] + txs.value))
    ensures r.NothingReported? ==> exists txId <- txIds :: txId !in details
  {
    var bytes1 := DecodeHex(oBlock.coinBase1);
    if bytes1.None? { return Failed; }
    var bytes2 := DecodeHex(oBlock.extraNonce1);
    if bytes2.None? { return Failed; }
    var bytes3 := DecodeHex(oBlock.extraNonce2);
    if bytes3.None? { return Failed; }
    var bytes4 := DecodeHex(oBlock.coinBase2);
    if bytes4.None? { return Failed; }
    var cbTrx := TakeTransaction(bytes1.value + bytes2.value + bytes3.value + bytes4.value);
    if cbTrx.None? { return Failed; }
    var merkleRootHex := lib.merkleRoot(lib.txId(cbTrx.value.0), oBlock.merkleBranch);
    if merkleRootHex.None? { return Failed; }
    if !lib.isHash(oBlock.prevHash) { return Failed; }
    if !lib.isHash(merkleRootHex.value) { return Failed; }
    var nTime := ParseUint32(oBlock.sTime);
    if nTime.None? { return Failed; }
    var nNonce := ParseUint32(oBlock.sNonce);
    if nNonce.None? { return Failed; }
    var header := Header(ToInt32(oBlock.nVersion), oBlock.prevHash, merkleRootHex.value, nTime.value, oBlock.nBits,
                         nNonce.value);
    assert HeaderOf(lib, oBlock) == Some(header);
    r := AppendTransactions(lib, RawBlock(header, [cbTrx.value.0]), txIds, details);
  }

  /** The libraries build branches and fold them in the way of `Merkle`, for some way of combining hashes. */
  ghost predicate FoldsBranches(lib: Library, h: Merkle.Combine) {
    forall leaf, branch :: lib.merkleRoot(leaf, branch).Some? ==>
      lib.merkleRoot(leaf, branch) == Some(Merkle.Fold(h, leaf, branch))
  }

  /** If the branch is that of a job's transactions, the header of every share on the job commits to
      the coinbase followed by those transactions in their order. */
  lemma HeaderCommitsToBlock(lib: Library, h: Merkle.Combine, b: Block, txIds: seq<string>)
    requires FoldsBranches(lib, h) && b.merkleBranch == Merkle.Branch(h, txIds) && HeaderOf(lib, b).Some?
    ensures CoinbaseOf(b).Some?
    ensures HeaderOf(lib, b).value.merkleRoot == Merkle.Root(h, [lib.txId(CoinbaseOf(b).value)] + txIds)
  {
    Merkle.FoldOfBranchIsRoot(h, lib.txId(CoinbaseOf(b).value), txIds);
  }
}
