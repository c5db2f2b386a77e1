/** Shares, proof-of-work records, and the local proof-of-work check. */
module Shares {
  import opened Basics

  type ShareId = Hash256
  type MinerId = Hash256
  type Difficulty = U128

  datatype PayoutKeys = PayoutKeys(spend: Hash256, view: Hash256)

  datatype Share = Share(
    version: U8,
    parent: ShareId,
    height: U64,
    timestamp: U64,
    zanoHeight: U64,
    header: Hash256,
    nonce: U64,
    difficulty: Difficulty,
    networkDifficulty: Difficulty,
    miner: MinerId,
    payout: Option<PayoutKeys>)

  /** The all-zero identifier stands for "no parent". */
  const NO_SHARE: ShareId := 0

  predicate IsRoot(share: Share) { share.parent == NO_SHARE }

  predicate KeysRanged(keys: PayoutKeys) { keys.spend < TWO_256 && keys.view < TWO_256 }

  /** Every 32-byte field holds 32 bytes. */
  predicate Ranged(share: Share) {
    && share.parent < TWO_256 && share.header < TWO_256 && share.miner < TWO_256
    && (share.payout.Some? ==> KeysRanged(share.payout.value))
  }

  /** The shares that have a canonical encoding, hence an identifier. */
  predicate Encodable(share: Share, minerOf: PayoutKeys -> MinerId) {
    && Ranged(share)
    && (|| (share.version == 1 && share.payout.None?)
        || (share.version == 2 && share.payout.Some? && share.miner == minerOf(share.payout.value)))
  }

  // ---- Proof of work ---------------------------------------------------------------------------

  datatype Pow = Pow(finalHash: Hash256, mixHash: Hash256)
  datatype Classification = Invalid | ShareClass | BlockClass
  datatype Validation =
    Validation(pow: Pow, meetsShare: bool, meetsNetwork: bool, classification: Classification)

  function Target(difficulty: Difficulty): nat
    requires difficulty > 0
  {
    (TWO_256 - 1) / difficulty
  }

  predicate MeetsDifficulty(hash: Hash256, difficulty: Difficulty)
    requires difficulty > 0
  {
    hash <= Target(difficulty)
  }

  function ValidateCandidate(pow: Pow, share: Difficulty, network: Difficulty): Validation
    requires share > 0 && network > 0
  {
    var meetsShare := MeetsDifficulty(pow.finalHash, share);
    var meetsNetwork := MeetsDifficulty(pow.finalHash, network);
    Validation(pow, meetsShare, meetsNetwork,
               if meetsNetwork then BlockClass else if meetsShare then ShareClass else Invalid)
  }

  /** What may be stored as a finished validation. */
  predicate Consistent(v: Validation) {
    && v.meetsShare
    && match v.classification
       case ShareClass => !v.meetsNetwork
       case BlockClass => v.meetsNetwork
       case Invalid => false
  }

  /** A higher difficulty has a lower target, so its solutions solve every lower difficulty. */
  lemma TargetAntitone(hash: Hash256, low: Difficulty, high: Difficulty)
    requires 0 < low <= high
    ensures Target(high) <= Target(low)
    ensures MeetsDifficulty(hash, high) ==> MeetsDifficulty(hash, low)
  {
    DivisionAntitone(TWO_256 - 1, low, high);
  }

  lemma DivisionAntitone(n: nat, low: nat, high: nat)
    requires 0 < low <= high
    ensures n / high <= n / low
  {
    var q := n / high;
    assert high * q <= n;
    assert low * q <= high * q;
    QuotientAtLeast(n, low, q);
  }

  lemma QuotientAtLeast(n: nat, d: nat, q: nat)
    requires d > 0 && d * q <= n
    ensures q <= n / d
  {
    var k := n / d;
    assert n < d * k + d;
    assert d * (k - q) + d > 0;
    Positive(d, k - q + 1);
  }

  lemma Positive(d: nat, x: int)
    requires d * x > 0
    ensures x > 0
  {
  }

  /** The check that admits a share admits exactly the hashes whose record is consistent. */
  lemma AdmissionIsConsistency(pow: Pow, share: Difficulty, network: Difficulty)
    requires 0 < share <= network
    ensures var v := ValidateCandidate(pow, share, network);
      Consistent(v) <==> v.meetsShare && v.classification != Invalid
    ensures Consistent(ValidateCandidate(pow, share, network)) <==> MeetsDifficulty(pow.finalHash, share)
  {
    TargetAntitone(pow.finalHash, share, network);
  }

  /** A hash meets a difficulty exactly when their product fits 256 bits. */
  lemma MeetsIsProduct(hash: Hash256, difficulty: Difficulty)
    requires difficulty > 0
    ensures MeetsDifficulty(hash, difficulty) <==> hash * difficulty < TWO_256
  {
    var n := TWO_256 - 1;
    var q := n / difficulty;
    assert n == difficulty * q + n % difficulty;
    if hash <= q {
      ProductOrder(difficulty, hash, q);
    } else {
      ProductOrder(difficulty, q + 1, hash);
      assert difficulty * (q + 1) == difficulty * q + difficulty;
    }
  }

  lemma ProductOrder(d: nat, a: nat, b: nat)
    requires a <= b
    ensures a * d <= b * d && d * a == a * d && d * b == b * d
  {
  }

  /** The record of a candidate in numbers: which difficulties its hash meets and what that makes it. */
  lemma CandidateTable(pow: Pow, share: Difficulty, network: Difficulty)
    requires share > 0 && network > 0
    ensures var v := ValidateCandidate(pow, share, network);
      && v.pow == pow
      && (v.meetsShare <==> pow.finalHash * share < TWO_256)
      && (v.meetsNetwork <==> pow.finalHash * network < TWO_256)
      && (v.classification == BlockClass <==> pow.finalHash * network < TWO_256)
      && (v.classification == ShareClass <==>
            pow.finalHash * share < TWO_256 <= pow.finalHash * network)
  {
    MeetsIsProduct(pow.finalHash, share);
    MeetsIsProduct(pow.finalHash, network);
  }
}
