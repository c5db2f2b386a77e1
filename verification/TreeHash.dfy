/** The CryptoNote transaction tree hash: an in-place computation that equals a recursive Merkle tree. */
module TreeHash {
  import opened Basics
  import opened Words

  /** `hash_pair`; collisions are ruled out only where a lemma says so. */
  type PairHash = (Hash256, Hash256) -> Hash256

  // ---- The recursive definition ----------------------------------------------------------------

  /** The largest power of two below `m`. */
  function PowerBelow(m: nat): (n: nat)
    requires m >= 2
    ensures 1 <= n < m <= 2 * n
  {
    if m == 2 then 1 else 2 * PowerBelow((m + 1) / 2)
  }

  /** How many of `m` leaves lie in the right subtree: as many as fit below its root, but never so few
      that the left subtree would be deeper. */
  function RightSize(m: nat): (r: nat)
    requires m >= 2
    ensures 0 < r < m
  {
    var n := PowerBelow(m);
    if m == 2 then 1 else Min(n, m - n / 2)
  }

  ghost function Root(hash: PairHash, leaves: seq<Hash256>): Hash256
    requires leaves != []
    decreases |leaves|
  {
    var m := |leaves|;
    if m == 1 then leaves[0]
    else
      var left := m - RightSize(m);
      hash(Root(hash, leaves[..left]), Root(hash, leaves[left..]))
  }

  lemma RootSplit(hash: PairHash, a: seq<Hash256>, b: seq<Hash256>)
    requires a != [] && b != [] && |b| == RightSize(|a| + |b|)
    ensures Root(hash, a + b) == hash(Root(hash, a), Root(hash, b))
  {
    hide RightSize;
    assert (a + b)[..|a|] == a && (a + b)[|a|..] == b;
  }

  /** The pairs hashed on the way from the leaves to the root. */
  ghost function HashedPairs(hash: PairHash, leaves: seq<Hash256>): set<(Hash256, Hash256)>
    requires leaves != []
    decreases |leaves|
  {
    var m := |leaves|;
    if m == 1 then {}
    else
      var left := m - RightSize(m);
      {(Root(hash, leaves[..left]), Root(hash, leaves[left..]))}
      + HashedPairs(hash, leaves[..left]) + HashedPairs(hash, leaves[left..])
  }

  /** Different pairs, one from each set, with one hash. */
  ghost predicate PairsCollide(hash: PairHash, p: set<(Hash256, Hash256)>, q: set<(Hash256, Hash256)>) {
    exists x, y :: x in p && y in q && x != y && hash(x.0, x.1) == hash(y.0, y.1)
  }

  lemma HashedSplit(hash: PairHash, a: seq<Hash256>, b: seq<Hash256>)
    requires a != [] && b != [] && |b| == RightSize(|a| + |b|)
    ensures HashedPairs(hash, a + b) ==
      {(Root(hash, a), Root(hash, b))} + HashedPairs(hash, a) + HashedPairs(hash, b)
  {
    hide RightSize, Root;
    assert (a + b)[..|a|] == a && (a + b)[|a|..] == b;
  }

  lemma CollidesInside(
    hash: PairHash, p: set<(Hash256, Hash256)>, q: set<(Hash256, Hash256)>,
    p': set<(Hash256, Hash256)>, q': set<(Hash256, Hash256)>)
    requires PairsCollide(hash, p, q) && p <= p' && q <= q'
    ensures PairsCollide(hash, p', q')
  {
    var x, y :| x in p && y in q && x != y && hash(x.0, x.1) == hash(y.0, y.1);
    assert x in p' && y in q';
  }

  /** For a fixed number of leaves the root determines every leaf, unless two different pairs hashed
      inside the two trees collide. */
  lemma {:induction false} RootInjective(hash: PairHash, a: seq<Hash256>, b: seq<Hash256>)
    requires a != [] && |a| == |b| && Root(hash, a) == Root(hash, b)
    ensures a == b || PairsCollide(hash, HashedPairs(hash, a), HashedPairs(hash, b))
    decreases |a|, 1
  {
    hide Root, RightSize, HashedPairs, PairsCollide;
    if |a| == 1 {
      RootLeaf(hash, a);
      RootLeaf(hash, b);
    } else {
      var left := |a| - RightSize(|a|);
      var x, y, z, w := a[..left], a[left..], b[..left], b[left..];
      assert a == x + y && b == z + w;
      RootSplit(hash, x, y);
      RootSplit(hash, z, w);
      HashedSplit(hash, x, y);
      HashedSplit(hash, z, w);
      var p, q := (Root(hash, x), Root(hash, y)), (Root(hash, z), Root(hash, w));
      if p != q {
        TopCollides(hash, HashedPairs(hash, a), HashedPairs(hash, b), p, q);
      } else {
        HalvesDecide(hash, x, y, z, w, a, b);
      }
    }
  }

  lemma TopCollides(
    hash: PairHash, s: set<(Hash256, Hash256)>, t: set<(Hash256, Hash256)>,
    p: (Hash256, Hash256), q: (Hash256, Hash256))
    requires p in s && q in t && p != q && hash(p.0, p.1) == hash(q.0, q.1)
    ensures PairsCollide(hash, s, t)
  {
  }

  lemma {:induction false} HalvesDecide(
    hash: PairHash, x: seq<Hash256>, y: seq<Hash256>, z: seq<Hash256>, w: seq<Hash256>, a: seq<Hash256>, b: seq<Hash256>)
    requires x != [] && y != [] && |x| == |z| && |y| == |w| && a == x + y && b == z + w
    requires Root(hash, x) == Root(hash, z) && Root(hash, y) == Root(hash, w)
    requires HashedPairs(hash, x) + HashedPairs(hash, y) <= HashedPairs(hash, a)
    requires HashedPairs(hash, z) + HashedPairs(hash, w) <= HashedPairs(hash, b)
    ensures a == b || PairsCollide(hash, HashedPairs(hash, a), HashedPairs(hash, b))
    decreases |a|, 0
  {
    hide Root, RightSize, HashedPairs, PairsCollide;
    RootInjective(hash, x, z);
    RootInjective(hash, y, w);
    if x != z {
      CollidesInside(hash, HashedPairs(hash, x), HashedPairs(hash, z), HashedPairs(hash, a), HashedPairs(hash, b));
    } else if y != w {
      CollidesInside(hash, HashedPairs(hash, y), HashedPairs(hash, w), HashedPairs(hash, a), HashedPairs(hash, b));
    }
  }

  // ---- Complete levels -------------------------------------------------------------------------

  /** Hash neighbours. */
  ghost function Pairs(hash: PairHash, s: seq<Hash256>): (r: seq<Hash256>)
    requires |s| % 2 == 0
    ensures |r| == |s| / 2
    ensures forall i | 0 <= i < |r| :: r[i] == hash(s[2 * i], s[2 * i + 1])
  {
    seq(|s| / 2, i requires 0 <= i < |s| / 2 => hash(s[2 * i], s[2 * i + 1]))
  }

  lemma PairsConcat(hash: PairHash, a: seq<Hash256>, b: seq<Hash256>)
    requires |a| % 2 == 0 && |b| % 2 == 0
    ensures Pairs(hash, a + b) == Pairs(hash, a) + Pairs(hash, b)
  {
    var s, r := Pairs(hash, a + b), Pairs(hash, a) + Pairs(hash, b);
    assert |s| == |r|;
    forall i | 0 <= i < |s|
      ensures s[i] == r[i]
    {
      if 2 * i >= |a| {
        assert r[i] == Pairs(hash, b)[i - |a| / 2];
      }
    }
  }

  /** The root of a complete binary tree over a full level. */
  ghost function Perfect(hash: PairHash, s: seq<Hash256>, k: nat): Hash256
    requires |s| == Pow2(k)
    decreases k
  {
    if k == 0 then s[0]
    else hash(Perfect(hash, s[..Pow2(k - 1)], k - 1), Perfect(hash, s[Pow2(k - 1)..], k - 1))
  }

  lemma PerfectSplit(hash: PairHash, a: seq<Hash256>, b: seq<Hash256>, k: nat)
    requires |a| == |b| == Pow2(k)
    ensures Perfect(hash, a + b, k + 1) == hash(Perfect(hash, a, k), Perfect(hash, b, k))
  {
    assert (a + b)[..|a|] == a && (a + b)[|a|..] == b;
  }

  lemma PerfectLeaf(hash: PairHash, x: Hash256)
    ensures Perfect(hash, [x], 0) == x
  {
  }

  lemma Pow2Steps(k: nat)
    ensures Pow2(0) == 1 && Pow2(k + 1) == 2 * Pow2(k)
    ensures k > 0 ==> Pow2(k) == 2 * Pow2(k - 1)
  {
  }

  /** Collapsing one level does not change the root. */
  lemma {:induction false} PerfectPairs(hash: PairHash, s: seq<Hash256>, k: nat)
    requires |s| == Pow2(k + 1)
    ensures Perfect(hash, Pairs(hash, s), k) == Perfect(hash, s, k + 1)
    decreases k
  {
    Pow2Steps(k);
    hide Perfect, Pow2;
    if k == 0 {
      assert s == [s[0]] + [s[1]] && Pairs(hash, s) == [hash(s[0], s[1])];
      PerfectSplit(hash, [s[0]], [s[1]], 0);
      PerfectLeaf(hash, s[0]);
      PerfectLeaf(hash, s[1]);
      PerfectLeaf(hash, hash(s[0], s[1]));
    } else {
      var a, b := s[..Pow2(k)], s[Pow2(k)..];
      assert s == a + b;
      PairsConcat(hash, a, b);
      PerfectPairs(hash, a, k - 1);
      PerfectPairs(hash, b, k - 1);
      PerfectSplit(hash, a, b, k);
      PerfectSplit(hash, Pairs(hash, a), Pairs(hash, b), k - 1);
    }
  }

  /** The level below the root subtree: `2n - m` leaves as they are, the others in pairs. */
  ghost function Slots(hash: PairHash, leaves: seq<Hash256>, n: nat): (s: seq<Hash256>)
    requires n <= |leaves| <= 2 * n
    ensures |s| == n
  {
    var direct := 2 * n - |leaves|;
    leaves[..direct] + Pairs(hash, leaves[direct..])
  }

  lemma SlotsAt(hash: PairHash, leaves: seq<Hash256>, n: nat, i: nat)
    requires n <= |leaves| <= 2 * n && i < n
    ensures var direct := 2 * n - |leaves|;
      Slots(hash, leaves, n)[i] ==
      if i < direct then leaves[i] else hash(leaves[2 * i - direct], leaves[2 * i - direct + 1])
  {
  }

  lemma {:induction false} PowerIs(m: nat, k: nat)
    requires m >= 2 && Pow2(k) < m <= 2 * Pow2(k)
    ensures PowerBelow(m) == Pow2(k)
  {
    if k > 0 {
      PowerIs((m + 1) / 2, k - 1);
    }
  }

  /** Few leaves: the left half of the slots are leaves themselves. */
  lemma LeftLeaves(hash: PairHash, left: seq<Hash256>, right: seq<Hash256>)
    requires |left| <= |right| <= 2 * |left|
    ensures Slots(hash, left + right, 2 * |left|) == left + Slots(hash, right, |left|)
  {
    var half, leaves := |left|, left + right;
    var s, t := Slots(hash, leaves, 2 * half), left + Slots(hash, right, half);
    forall i | 0 <= i < 2 * half
      ensures s[i] == t[i]
    {
      SlotsAt(hash, leaves, 2 * half, i);
      if i >= half {
        SlotsAt(hash, right, half, i - half);
      }
    }
  }

  /** Many leaves: the right half of the slots are all pairs. */
  lemma RightPairs(hash: PairHash, left: seq<Hash256>, right: seq<Hash256>, half: nat)
    requires half <= |left| <= 2 * half == |right|
    ensures Slots(hash, left + right, 2 * half) == Slots(hash, left, half) + Pairs(hash, right)
  {
    var leaves := left + right;
    var s, t := Slots(hash, leaves, 2 * half), Slots(hash, left, half) + Pairs(hash, right);
    forall i | 0 <= i < 2 * half
      ensures s[i] == t[i]
    {
      SlotsAt(hash, leaves, 2 * half, i);
      if i < half {
        SlotsAt(hash, left, half, i);
      }
    }
  }

  /** A complete tree over `2^k` leaves is the recursive tree. */
  lemma {:induction false} RootOfFull(hash: PairHash, leaves: seq<Hash256>, k: nat)
    requires |leaves| == Pow2(k)
    ensures Root(hash, leaves) == Perfect(hash, leaves, k)
    decreases k
  {
    hide Root, Perfect, RightSize;
    Pow2Steps(k);
    if k == 0 {
      RootLeaf(hash, leaves);
      assert leaves == [leaves[0]];
      PerfectLeaf(hash, leaves[0]);
    } else {
      FullSize(k);
      hide Pow2;
      var a, b := leaves[..Pow2(k - 1)], leaves[Pow2(k - 1)..];
      assert leaves == a + b;
      RootOfFull(hash, a, k - 1);
      RootOfFull(hash, b, k - 1);
      RootSplit(hash, a, b);
      PerfectSplit(hash, a, b, k - 1);
    }
  }

  lemma RootLeaf(hash: PairHash, leaves: seq<Hash256>)
    requires |leaves| == 1
    ensures Root(hash, leaves) == leaves[0]
  {
  }

  lemma FullSize(k: nat)
    requires k > 0
    ensures RightSize(Pow2(k)) == Pow2(k - 1)
  {
    PowerIs(Pow2(k), k - 1);
    if k > 1 {
      assert Pow2(k - 1) == 2 * Pow2(k - 2);
    }
  }

  lemma RightSizeIs(m: nat, k: nat)
    requires k > 0 && Pow2(k) < m <= 2 * Pow2(k)
    ensures RightSize(m) == if m <= Pow2(k) + Pow2(k - 1) then m - Pow2(k - 1) else Pow2(k)
  {
    PowerIs(m, k);
  }

  /** The full level built from the leaves has the same root as the recursive tree. */
  lemma {:induction false} SlotsRoot(hash: PairHash, leaves: seq<Hash256>, k: nat)
    requires Pow2(k) < |leaves| <= 2 * Pow2(k)
    ensures Perfect(hash, Slots(hash, leaves, Pow2(k)), k) == Root(hash, leaves)
    decreases k
  {
    hide Root, Perfect, Slots, RightSize;
    Pow2Steps(k);
    hide Pow2;
    if k == 0 {
      SlotsOfTwo(hash, leaves);
      RootOfTwo(hash, leaves);
      PerfectLeaf(hash, hash(leaves[0], leaves[1]));
    } else {
      var m, n, half := |leaves|, Pow2(k), Pow2(k - 1);
      RightSizeIs(m, k);
      var left := m - RightSize(m);
      var a, b := leaves[..left], leaves[left..];
      assert leaves == a + b;
      RootSplit(hash, a, b);
      if m <= n + half {
        LeftLeaves(hash, a, b);
        RootOfFull(hash, a, k - 1);
        SlotsRoot(hash, b, k - 1);
        PerfectSplit(hash, a, Slots(hash, b, half), k - 1);
      } else {
        RightPairs(hash, a, b, half);
        SlotsRoot(hash, a, k - 1);
        PerfectPairs(hash, b, k - 1);
        RootOfFull(hash, b, k);
        PerfectSplit(hash, Slots(hash, a, half), Pairs(hash, b), k - 1);
      }
    }
  }

  lemma RootOfTwo(hash: PairHash, leaves: seq<Hash256>)
    requires |leaves| == 2
    ensures Root(hash, leaves) == hash(leaves[0], leaves[1])
  {
    hide Root;
    assert leaves == [leaves[0]] + [leaves[1]] && RightSize(2) == 1;
    RootSplit(hash, [leaves[0]], [leaves[1]]);
    RootLeaf(hash, [leaves[0]]);
    RootLeaf(hash, [leaves[1]]);
  }

  lemma SlotsOfTwo(hash: PairHash, leaves: seq<Hash256>)
    requires |leaves| == 2
    ensures Slots(hash, leaves, 1) == [hash(leaves[0], leaves[1])]
  {
    hide Slots;
    SlotsAt(hash, leaves, 1, 0);
  }

  // ---- The program -----------------------------------------------------------------------------

  /** One halving pass in place: slot `j` receives the hash of slots `2j` and `2j + 1`. */
  method HalveInPlace(hash: PairHash, slots: array<Hash256>, count: nat)
    requires 2 * count <= slots.Length
    modifies slots
    ensures slots[..count] == Pairs(hash, old(slots[..2 * count]))
  {
    for j := 0 to count
      invariant forall i | 0 <= i < j :: slots[i] == hash(old(slots[2 * i]), old(slots[2 * i + 1]))
      invariant forall i | j <= i < slots.Length :: slots[i] == old(slots[i])
    {
      slots[j] := hash(slots[2 * j], slots[2 * j + 1]);
    }
  }

  /** Copy the direct leaves and hash the others in pairs. */
  method FillSlots(hash: PairHash, leaves: seq<Hash256>, n: nat) returns (slots: array<Hash256>)
    requires 0 < n <= |leaves| <= 2 * n
    ensures fresh(slots) && slots.Length == n && slots[..] == Slots(hash, leaves, n)
  {
    hide Slots;
    slots := new Hash256[n](_ => 0);
    ghost var goal := Slots(hash, leaves, n);
    var direct := 2 * n - |leaves|;
    for i := 0 to direct
      invariant forall j | 0 <= j < i :: slots[j] == goal[j]
    {
      SlotsAt(hash, leaves, n, i);
      slots[i] := leaves[i];
    }
    var source := direct;
    for dest := direct to n
      invariant source == 2 * dest - direct
      invariant forall j | 0 <= j < dest :: slots[j] == goal[j]
    {
      SlotsAt(hash, leaves, n, dest);
      slots[dest] := hash(leaves[source], leaves[source + 1]);
      source := source + 2;
    }
  }

  /** One pass keeps the root of the level. */
  method HalveLevel(hash: PairHash, slots: array<Hash256>, count: nat, ghost level: nat)
    requires 2 * count == Pow2(level + 1) && count == Pow2(level) && 2 * count <= slots.Length
    modifies slots
    ensures Perfect(hash, slots[..count], level) == Perfect(hash, old(slots[..2 * count]), level + 1)
  {
    hide Perfect, Pow2;
    PerfectPairs(hash, slots[..2 * count], level);
    HalveInPlace(hash, slots, count);
  }

  /** Halve until two slots are left. */
  method Reduce(hash: PairHash, slots: array<Hash256>, ghost k: nat)
    requires slots.Length == Pow2(k) && k > 0
    modifies slots
    ensures slots.Length >= 2 && hash(slots[0], slots[1]) == Perfect(hash, old(slots[..]), k)
  {
    hide Perfect, Pow2;
    var cnt := slots.Length;
    ghost var level, root := k, Perfect(hash, slots[..], k);
    assert slots[..cnt] == slots[..];
    Pow2AtLeast(k);
    while cnt > 2
      invariant level > 0 && 2 <= cnt <= slots.Length && cnt == Pow2(level)
      invariant Perfect(hash, slots[..cnt], level) == root
      decreases cnt
    {
      LevelDown(cnt, level);
      cnt := cnt / 2;
      level := level - 1;
      HalveLevel(hash, slots, cnt, level);
    }
    LastPair(hash, slots[..cnt], level);
  }

  lemma Pow2AtLeast(k: nat)
    requires k > 0
    ensures Pow2(k) >= 2
  {
  }

  lemma LevelDown(count: nat, level: nat)
    requires count == Pow2(level) && count > 2
    ensures level > 1 && count == 2 * (count / 2) && count / 2 == Pow2(level - 1)
  {
  }

  method TransactionTreeHash(hash: PairHash, minerTx: Hash256, regular: seq<Hash256>) returns (root: Hash256)
    requires |regular| < U64_MAX
    ensures root == Root(hash, [minerTx] + regular)
  {
    var hashes := [minerTx] + regular;
    var count := |hashes|;
    hide Root, Slots, Perfect;
    if count == 1 {
      RootLeaf(hash, hashes);
      return hashes[0];
    }
    if count == 2 {
      RootOfTwo(hash, hashes);
      return hash(hashes[0], hashes[1]);
    }
    var cnt, k := TopPowerOfTwo(count - 1);
    SlotsRoot(hash, hashes, k);
    var intermediate := FillSlots(hash, hashes, cnt);
    Reduce(hash, intermediate, k);
    return hash(intermediate[0], intermediate[1]);
  }

  lemma Pow2Grows(k: nat)
    requires k > 1
    ensures Pow2(k) >= 4
  {
    assert Pow2(k) == 2 * Pow2(k - 1) && Pow2(k - 1) == 2 * Pow2(k - 2);
  }

  lemma LastPair(hash: PairHash, s: seq<Hash256>, k: nat)
    requires |s| == Pow2(k) && 0 < k && |s| <= 2
    ensures |s| == 2 && Perfect(hash, s, k) == hash(s[0], s[1])
  {
    hide Perfect;
    if k > 1 {
      Pow2Grows(k);
    }
    Pow2Steps(0);
    assert s == [s[0]] + [s[1]];
    PerfectSplit(hash, [s[0]], [s[1]], 0);
    PerfectLeaf(hash, s[0]);
    PerfectLeaf(hash, s[1]);
  }

  /** The smallest trees: two leaves are hashed as they come; with an odd number of leaves on a level the last two
      are paired one level further down. */
  lemma SmallRoots(hash: PairHash, a: Hash256, b: Hash256, c: Hash256, d: Hash256, e: Hash256)
    ensures Root(hash, [a]) == a && Root(hash, [a, b]) == hash(a, b)
    ensures Root(hash, [a, b, c]) == hash(a, hash(b, c))
    ensures Root(hash, [a, b, c, d]) == hash(hash(a, b), hash(c, d))
    ensures Root(hash, [a, b, c, d, e]) == hash(hash(a, b), hash(c, hash(d, e)))
  {
    RootSplit(hash, [a], [b]);
    RootSplit(hash, [b], [c]);
    RootSplit(hash, [c], [d]);
    RootSplit(hash, [d], [e]);
    assert [a] + [b] == [a, b] && [b] + [c] == [b, c] && [c] + [d] == [c, d] && [d] + [e] == [d, e];
    RootSplit(hash, [a], [b, c]);
    RootSplit(hash, [c], [d, e]);
    assert [a] + [b, c] == [a, b, c] && [c] + [d, e] == [c, d, e];
    RootSplit(hash, [a, b], [c, d]);
    RootSplit(hash, [a, b], [c, d, e]);
    assert [a, b] + [c, d] == [a, b, c, d] && [a, b] + [c, d, e] == [a, b, c, d, e];
  }
}
