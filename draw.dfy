/** The pure part of the draw: picking a name, the values derived from the state, and the
    invariant that the draws keep. */
module Draw {
  import opened Types
  import opened Seqs
  import opened Constants
  import opened CandidateNames

  /** The name the grand prize always goes to. */
  const TARGET_GRAND_WINNER: string := "王泽巨"

  /** What `getRandomName` answers for an empty list. */
  const NO_NAME: string := "---"

  /** `Math.floor(rand * n)` for a value `rand` of `Math.random()`, which lies in [0, 1). */
  function RandomIndex(rand: real, n: nat): (k: nat)
    requires 0.0 <= rand < 1.0 && 0 < n
    ensures k < n
    ensures k as real <= rand * n as real < k as real + 1.0
  {
    assert 0.0 <= rand * n as real < n as real by {
      var m := n as real;
      assert 0.0 < 1.0 - rand && 0.0 < m;
      assert 0.0 < (1.0 - rand) * m;
      assert m - rand * m == (1.0 - rand) * m;
      assert 0.0 <= rand * m;
    }
    (rand * n as real).Floor
  }

  /** Every index can come out of the draw: `rand = k / n` lands on `k`. */
  lemma RandomIndexReaches(k: nat, n: nat)
    requires k < n
    ensures 0.0 <= k as real / n as real < 1.0
    ensures RandomIndex(k as real / n as real, n) == k
  {
    var rand := k as real / n as real;
    assert rand * n as real == k as real;
  }

  /** `getRandomName`: "---" for an empty list, otherwise the element at a random index. */
  function GetRandomName(candidates: seq<string>, rand: real): (name: string)
    requires 0.0 <= rand < 1.0
    ensures candidates == [] ==> name == NO_NAME
    ensures candidates != [] ==> name in candidates
  {
    if |candidates| == 0 then NO_NAME
    else candidates[RandomIndex(rand, |candidates|)]
  }

  /** Every element of a non-empty list can be the name drawn. */
  lemma GetRandomNameReaches(candidates: seq<string>, i: nat)
    requires i < |candidates|
    ensures 0.0 <= i as real / |candidates| as real < 1.0
    ensures GetRandomName(candidates, i as real / |candidates| as real) == candidates[i]
  {
    RandomIndexReaches(i, |candidates|);
  }

  /** `s.filter(n => n !== x)`: every occurrence of `x` dropped, everything else kept in order. */
  function Without(s: seq<string>, x: string): (r: seq<string>)
    ensures forall y :: y in r <==> y in s && y != x
    ensures multiset(r) == multiset(s)[x := 0]
    ensures IsSubsequence(r, s)
  {
    if s == [] then []
    else
      var init := Without(s[..|s| - 1], x);
      var last := s[|s| - 1];
      SplitLast(s);
      if last != x then
        assert (init + [last])[..|init|] == init;
        init + [last]
      else init
  }

  /** The name `stopRolling` draws at `level` from the pool: the reserved name for the grand
      prize; below it a random name other than the reserved one while there is one, and
      otherwise a random name of the whole pool. */
  function DrawName(level: PrizeLevel, pool: seq<string>, rand: real): (name: string)
    requires 0.0 <= rand < 1.0
    ensures level == Grand ==> name == TARGET_GRAND_WINNER
    ensures level != Grand && (exists y :: y in pool && y != TARGET_GRAND_WINNER) ==>
      name in pool && name != TARGET_GRAND_WINNER
    ensures level != Grand && pool != [] && (forall y :: y in pool ==> y == TARGET_GRAND_WINNER) ==>
      name == TARGET_GRAND_WINNER
    ensures level != Grand && pool == [] ==> name == NO_NAME
  {
    if level == Grand then TARGET_GRAND_WINNER
    else
      var others := Without(pool, TARGET_GRAND_WINNER);
      if |others| > 0 then GetRandomName(others, rand)
      else GetRandomName(pool, rand)
  }

  /** `winners.filter(w => w.level === level)`. */
  function WinnersAt(ws: seq<Winner>, level: PrizeLevel): (r: seq<Winner>)
    ensures forall w :: w in r <==> w in ws && w.level == level
    ensures |r| <= |ws|
  {
    if ws == [] then []
    else
      var init := WinnersAt(ws[..|ws| - 1], level);
      var last := ws[|ws| - 1];
      SplitLast(ws);
      if last.level == level then init + [last] else init
  }

  /** Appending a winner adds it to its own level's list and to no other. */
  lemma WinnersAtSnoc(ws: seq<Winner>, w: Winner, level: PrizeLevel)
    ensures WinnersAt(ws + [w], level) == WinnersAt(ws, level) + (if w.level == level then [w] else [])
  {
    assert (ws + [w])[..|ws|] == ws;
  }

  /** Every winner is counted at exactly one of the four levels. */
  lemma {:induction false} CountsSum(ws: seq<Winner>)
    ensures |ws| == |WinnersAt(ws, Third)| + |WinnersAt(ws, Second)| + |WinnersAt(ws, First)| +
      |WinnersAt(ws, Grand)|
  {
    if ws != [] {
      var init := ws[..|ws| - 1];
      CountsSum(init);
      SplitLast(ws);
      WinnersAtSnoc(init, ws[|ws| - 1], Third);
      WinnersAtSnoc(init, ws[|ws| - 1], Second);
      WinnersAtSnoc(init, ws[|ws| - 1], First);
      WinnersAtSnoc(init, ws[|ws| - 1], Grand);
    }
  }

  /** The names of the winners, in the order they won. */
  function Names(ws: seq<Winner>): (r: seq<string>)
    ensures |r| == |ws|
    ensures forall i :: 0 <= i < |ws| ==> r[i] == ws[i].name
  {
    if ws == [] then [] else Names(ws[..|ws| - 1]) + [ws[|ws| - 1].name]
  }

  /** Appending a winner appends its name. */
  lemma NamesSnoc(ws: seq<Winner>, w: Winner)
    ensures Names(ws + [w]) == Names(ws) + [w.name]
  {
    assert (ws + [w])[..|ws|] == ws;
  }

  /** `currentLevel`: the level at the index, and the grand prize when the index is past the end. */
  function LevelAt(idx: nat): PrizeLevel {
    if idx < |DRAW_ORDER| then DRAW_ORDER[idx] else Grand
  }

  /** `isAllComplete`. */
  predicate AllCompleteAt(idx: nat) {
    idx >= |DRAW_ORDER|
  }

  /** `isCurrentLevelFull`: the current level has as many winners as its quota, or more. */
  predicate LevelFull(ws: seq<Winner>, idx: nat) {
    |WinnersAt(ws, LevelAt(idx))| >= Quota(LevelAt(idx))
  }

  /** Reading the level at an index inside the order and finding that level's index are inverse;
      the grand prize is the level from index 3 on, and the draw is complete from index 4 on. */
  lemma LevelAtPositions()
    ensures forall level :: IndexOf(DRAW_ORDER, level) >= 0 && LevelAt(IndexOf(DRAW_ORDER, level) as nat) == level
    ensures forall idx: nat :: idx < 4 ==> IndexOf(DRAW_ORDER, LevelAt(idx)) == idx
    ensures forall idx: nat :: LevelAt(idx) == Grand <==> idx >= 3
    ensures forall idx: nat :: AllCompleteAt(idx) <==> idx >= 4
  {
    DrawOrderPositions();
  }

  /** What every reachable state keeps about the pool and the winners:
      - the pool and the winners' names together are exactly the candidates;
      - no level has more winners than its quota;
      - the reserved name is the grand prize winner and no other winner;
      - the reserved name is still in the pool exactly when the grand prize is not drawn. */
  ghost predicate DrawInvariant(pool: seq<string>, ws: seq<Winner>) {
    && multiset(pool) + multiset(Names(ws)) == multiset(CANDIDATES_LIST)
    && (forall level :: |WinnersAt(ws, level)| <= Quota(level))
    && (forall i :: 0 <= i < |ws| ==> (ws[i].name == TARGET_GRAND_WINNER <==> ws[i].level == Grand))
    && (TARGET_GRAND_WINNER in pool <==> |WinnersAt(ws, Grand)| == 0)
  }

  /** The reserved name is one of the shipped candidates, exactly once. */
  lemma ReservedNameOnce()
    ensures TARGET_GRAND_WINNER in CANDIDATES_LIST
    ensures multiset(CANDIDATES_LIST)[TARGET_GRAND_WINNER] == 1
  {
    assert TARGET_GRAND_WINNER in CANDIDATES_LIST by {
      assert SHIPPED_NAMES[18] == TARGET_GRAND_WINNER;
      ShippedCandidates();
    }
    assert NoDuplicates(CANDIDATES_LIST) by {
      CandidatesDistinct();
    }
    OccursOnce(CANDIDATES_LIST, TARGET_GRAND_WINNER);
  }

  /** The quotas below the grand prize (17) are fewer than the 28 candidates other than the
      reserved name, so a lower draw always finds someone else; all 18 prizes fit in the pool. */
  lemma ShippedQuotasFit()
    ensures Quota(Third) + Quota(Second) + Quota(First) < |CANDIDATES_LIST| - 1
    ensures Quota(Third) + Quota(Second) + Quota(First) + Quota(Grand) <= |CANDIDATES_LIST|
  {
    CandidatesDistinct();
    PrizeConfigIds();
  }

  /** The starting state keeps the invariant: every candidate in the pool, nobody has won. */
  lemma InitialDrawInvariant()
    ensures DrawInvariant(CANDIDATES_LIST, [])
  {
    ReservedNameOnce();
    assert Names([]) == [];
    forall level ensures |WinnersAt([], level)| <= Quota(level) {
      PrizeConfigIds();
    }
  }

  /** Under the invariant the pool holds no name twice, holds no winner's name, and with the
      winners makes up the 29 candidates; no name has won twice. */
  lemma {:induction false} NoNameWinsTwice(pool: seq<string>, ws: seq<Winner>)
    requires DrawInvariant(pool, ws)
    ensures NoDuplicates(pool)
    ensures NoDuplicates(Names(ws))
    ensures forall x :: x in pool ==> x !in Names(ws)
    ensures |pool| + |ws| == 29
  {
    CandidatesDistinct();
    DisjointParts(pool, Names(ws), CANDIDATES_LIST);
  }

  /** Under the invariant, a level that is not full has a draw in the pool: the reserved name for
      the grand prize, and someone other than the reserved name below it. */
  lemma {:induction false} DrawFindsName(pool: seq<string>, ws: seq<Winner>, level: PrizeLevel)
    requires DrawInvariant(pool, ws)
    requires |WinnersAt(ws, level)| < Quota(level)
    ensures level == Grand ==> TARGET_GRAND_WINNER in pool
    ensures level != Grand ==> exists y :: y in pool && y != TARGET_GRAND_WINNER
  {
    PrizeConfigIds();
    if level != Grand {
      NoNameWinsTwice(pool, ws);
      CountsSum(ws);
      ShippedQuotasFit();
      assert |pool| >= 12;
      if forall y :: y in pool ==> y == TARGET_GRAND_WINNER {
        forall i | 0 <= i < |pool| ensures pool[i] == TARGET_GRAND_WINNER {
          assert pool[i] in pool;
        }
        AllSameCount(pool, TARGET_GRAND_WINNER);
        NoDuplicatesMultiset(pool);
        assert false;
      }
    }
  }

  /** Moving a name of the pool into the winners keeps the pool and the winners' names together
      equal to the candidates. */
  lemma MoveToWinners(pool: seq<string>, ws: seq<Winner>, w: Winner)
    requires multiset(pool) + multiset(Names(ws)) == multiset(CANDIDATES_LIST)
    requires NoDuplicates(pool) && w.name in pool
    ensures multiset(Without(pool, w.name)) + multiset(Names(ws + [w])) == multiset(CANDIDATES_LIST)
  {
    MoveName(pool, Names(ws), w.name, multiset(CANDIDATES_LIST));
    NamesSnoc(ws, w);
  }

  /** Moving a name that occurs once from one part of a multiset to the other keeps the whole. */
  lemma MoveName(pool: seq<string>, names: seq<string>, x: string, all: multiset<string>)
    requires multiset(pool) + multiset(names) == all
    requires NoDuplicates(pool) && x in pool
    ensures multiset(Without(pool, x)) + multiset(names + [x]) == all
  {
    OccursOnce(pool, x);
    assert multiset(Without(pool, x)) + multiset{x} == multiset(pool);
  }

  /** Under the invariant, the name drawn for a level that is not full is in the pool, and it is
      the reserved name exactly for the grand prize. */
  lemma DrawnNameInPool(pool: seq<string>, ws: seq<Winner>, level: PrizeLevel, rand: real)
    requires DrawInvariant(pool, ws)
    requires |WinnersAt(ws, level)| < Quota(level)
    requires 0.0 <= rand < 1.0
    ensures DrawName(level, pool, rand) in pool
    ensures (DrawName(level, pool, rand) == TARGET_GRAND_WINNER) == (level == Grand)
  {
    DrawFindsName(pool, ws, level);
  }

  /** Recording a winner of a level that is not full keeps every level within its quota. */
  lemma RecordWithinQuota(ws: seq<Winner>, w: Winner)
    requires forall level :: |WinnersAt(ws, level)| <= Quota(level)
    requires |WinnersAt(ws, w.level)| < Quota(w.level)
    ensures forall level :: |WinnersAt(ws + [w], level)| <= Quota(level)
  {
    forall level ensures |WinnersAt(ws + [w], level)| <= Quota(level) {
      WinnersAtSnoc(ws, w, level);
    }
  }

  /** Recording the reserved name exactly as the grand prize keeps the reserved name tied to the
      grand prize, and keeps it in the pool exactly while the grand prize is undrawn. */
  lemma RecordReservedName(pool: seq<string>, ws: seq<Winner>, w: Winner)
    requires forall i :: 0 <= i < |ws| ==> (ws[i].name == TARGET_GRAND_WINNER <==> ws[i].level == Grand)
    requires TARGET_GRAND_WINNER in pool <==> |WinnersAt(ws, Grand)| == 0
    requires (w.name == TARGET_GRAND_WINNER) == (w.level == Grand)
    ensures forall i :: 0 <= i < |ws + [w]| ==>
      ((ws + [w])[i].name == TARGET_GRAND_WINNER <==> (ws + [w])[i].level == Grand)
    ensures TARGET_GRAND_WINNER in Without(pool, w.name) <==> |WinnersAt(ws + [w], Grand)| == 0
  {
    WinnersAtSnoc(ws, w, Grand);
  }

  /** One draw keeps the invariant. Starting from a state that keeps it, on a level that is not
      full, the name drawn is in the pool (so the "only the reserved name is left" branch and the
      "---" answer never happen), and after recording the winner and dropping the name from the
      pool the invariant holds again. */
  lemma DrawPreservesInvariant(pool: seq<string>, ws: seq<Winner>, level: PrizeLevel,
                               rand: real, now: int)
    requires DrawInvariant(pool, ws)
    requires |WinnersAt(ws, level)| < Quota(level)
    requires 0.0 <= rand < 1.0
    ensures DrawName(level, pool, rand) in pool
    ensures (DrawName(level, pool, rand) == TARGET_GRAND_WINNER) == (level == Grand)
    ensures DrawInvariant(Without(pool, DrawName(level, pool, rand)),
                          ws + [Winner(DrawName(level, pool, rand), level, now)])
  {
    var name := DrawName(level, pool, rand);
    var w := Winner(name, level, now);
    DrawnNameInPool(pool, ws, level, rand);
    NoNameWinsTwice(pool, ws);
    MoveToWinners(pool, ws, w);
    RecordWithinQuota(ws, w);
    RecordReservedName(pool, ws, w);
  }
}
