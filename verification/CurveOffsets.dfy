/** Spreading parallel links of the attack graph: two counting passes over the link list. */
module CurveOffsets {
  import opened Sql
  import opened Tally

  /** A link's endpoints. */
  type Pair = (string, string)

  function Count(links: seq<Pair>, k: Pair): nat {
    if links == [] then 0
    else Count(links[..|links| - 1], k) + if links[|links| - 1] == k then 1 else 0
  }

  /** Position of link `i` among the earlier links with the same endpoints. */
  function Rank(links: seq<Pair>, i: nat): nat
    requires i < |links|
  {
    Count(links[..i], links[i])
  }

  function Offset(links: seq<Pair>, i: nat): real
    requires i < |links|
  {
    (Rank(links, i) as real - (Count(links, links[i]) - 1) as real / 2.0) * 20.0
  }

  /** First pass counts each pair, second pass numbers its members. */
  method AssignCurveOffsets(links: seq<Pair>) returns (offsets: seq<real>)
    ensures |offsets| == |links|
    ensures forall i | 0 <= i < |links| :: offsets[i] == Offset(links, i)
  {
    var pairCount: Entries<Pair> := [];
    for i := 0 to |links|
      invariant forall k :: Coalesce(Get(pairCount, k), 0) == Count(links[..i], k)
    {
      assert links[..i + 1][..i] == links[..i];
      forall k ensures Coalesce(Get(Bump(pairCount, links[i], 1), k), 0) == Count(links[..i + 1], k) {
        BumpGet(pairCount, links[i], 1, k);
      }
      pairCount := Bump(pairCount, links[i], 1);
    }
    assert links[..|links|] == links;
    var pairSeen: Entries<Pair> := [];
    offsets := [];
    for i := 0 to |links|
      invariant |offsets| == i
      invariant forall k :: Coalesce(Get(pairSeen, k), 0) == Count(links[..i], k)
      invariant forall j | 0 <= j < i :: offsets[j] == Offset(links, j)
    {
      var k := links[i];
      CountBounds(links, i);
      var total := Coalesce(Get(pairCount, k), 0);
      var idx := Coalesce(Get(pairSeen, k), 0);
      assert links[..i + 1][..i] == links[..i];
      forall j ensures Coalesce(Get(Bump(pairSeen, k, 1), j), 0) == Count(links[..i + 1], j) {
        BumpGet(pairSeen, k, 1, j);
      }
      pairSeen := Bump(pairSeen, k, 1);
      var offset := if total == 1 then 0.0 else (idx as real - (total - 1) as real / 2.0) * 20.0;
      offsets := offsets + [offset];
    }
  }

  lemma {:induction false} CountMonotone(links: seq<Pair>, k: Pair, i: nat, j: nat)
    requires i <= j <= |links|
    ensures Count(links[..i], k) <= Count(links[..j], k)
    decreases j - i
  {
    if i < j {
      CountMonotone(links, k, i, j - 1);
      assert links[..j][..j - 1] == links[..j - 1];
    }
  }

  lemma CountBounds(links: seq<Pair>, i: nat)
    requires i < |links|
    ensures Rank(links, i) < Count(links, links[i])
  {
    assert links[..i + 1][..i] == links[..i];
    assert links[..|links|] == links;
    CountMonotone(links, links[i], i + 1, |links|);
  }

  /** Parallel links never come closer than 20, and a lone link is straight. */
  lemma OffsetsSpread(links: seq<Pair>, i: nat, j: nat)
    requires i < j < |links| && links[i] == links[j]
    ensures Offset(links, j) - Offset(links, i) >= 20.0
  {
    assert links[..i + 1][..i] == links[..i];
    CountMonotone(links, links[i], i + 1, j);
    assert Rank(links, j) >= Rank(links, i) + 1;
  }

  lemma LoneIsStraight(links: seq<Pair>, i: nat)
    requires i < |links| && Count(links, links[i]) == 1
    ensures Offset(links, i) == 0.0
  {
    CountBounds(links, i);
  }

  /** Sum of the offsets of the first `n` links that join the pair `k`. */
  function GroupSum(links: seq<Pair>, k: Pair, n: nat): real
    requires n <= |links|
  {
    if n == 0 then 0.0
    else GroupSum(links, k, n - 1) + if links[n - 1] == k then Offset(links, n - 1) else 0.0
  }

  /** The same sum in units of half a spread: after m of t members it is m * (m - t). */
  lemma {:induction false} GroupSumSoFar(links: seq<Pair>, k: Pair, n: nat)
    requires n <= |links|
    ensures var m, t := Count(links[..n], k), Count(links, k);
      GroupSum(links, k, n) == (m * (m - t)) as real * 10.0
  {
    if n > 0 {
      GroupSumSoFar(links, k, n - 1);
      assert links[..n][..n - 1] == links[..n - 1];
      if links[n - 1] == k {
        NextTerm(links, n - 1);
      }
    }
  }

  lemma NextTerm(links: seq<Pair>, i: nat)
    requires i < |links|
    ensures var m, t := Rank(links, i), Count(links, links[i]);
      (m * (m - t)) as real * 10.0 + Offset(links, i) == ((m + 1) * (m + 1 - t)) as real * 10.0
  {
    Square(Rank(links, i), Count(links, links[i]));
    Halves(Rank(links, i), Count(links, links[i]));
  }

  lemma Square(m: int, t: int)
    ensures (m + 1) * (m + 1 - t) == m * (m - t) + (2 * m + 1 - t)
  {
  }

  lemma Halves(m: int, t: int)
    ensures (m as real - (t - 1) as real / 2.0) * 20.0 == (2 * m + 1 - t) as real * 10.0
  {
  }

  /** However the groups interleave, each one's offsets cancel out. */
  lemma OffsetsBalance(links: seq<Pair>, k: Pair)
    ensures GroupSum(links, k, |links|) == 0.0
  {
    GroupSumSoFar(links, k, |links|);
    assert links[..|links|] == links;
  }
}
