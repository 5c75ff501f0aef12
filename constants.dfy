/** The static configuration of the draw: the candidate pool, the prize levels and the order they
    are drawn in. */
module Constants {
  import opened Types
  import opened Seqs
  import opened JsString
  import opened CandidateNames

  /** `RAW_NAMES.split(';').filter(name => name.trim().length > 0)`. */
  const CANDIDATES_LIST: seq<string> := KeepNonBlank(Split(RAW_NAMES, ';'))

  /** The configuration of every prize level, keyed by the level. */
  const PRIZE_CONFIGS: map<PrizeLevel, PrizeConfig> := map[
    Third := PrizeConfig(Third, "三等奖 - 晶圆级封装奖", 10, "text-emerald-400", "cpu"),
    Second := PrizeConfig(Second, "二等奖 - 光刻先锋奖", 5, "text-cyan-400", "microchip"),
    First := PrizeConfig(First, "一等奖 - 架构宗师奖", 2, "text-purple-400", "zap"),
    Grand := PrizeConfig(Grand, "特等奖 - 摩尔定律突破奖", 1, "text-yellow-400", "award")
  ]

  /** The order the levels are drawn in: from the third prize up to the grand prize. */
  const DRAW_ORDER: seq<PrizeLevel> := [Third, Second, First, Grand]

  /** The number of winners a level takes: the `count` of its configuration, read off
      `PRIZE_CONFIGS` level by level (`PrizeConfigIds` proves the two agree). */
  function Quota(level: PrizeLevel): nat {
    match level
    case Third => 10
    case Second => 5
    case First => 2
    case Grand => 1
  }

  /** `names.filter(name => name.trim().length > 0)`: the entries with a character that is not
      white space, in their order. */
  function KeepNonBlank(names: seq<string>): (r: seq<string>)
    ensures forall x :: x in r <==> x in names && !IsBlank(x)
    ensures forall x :: multiset(r)[x] == if IsBlank(x) then 0 else multiset(names)[x]
    ensures IsSubsequence(r, names)
  {
    if names == [] then []
    else
      var init := KeepNonBlank(names[..|names| - 1]);
      var last := names[|names| - 1];
      TrimNonEmpty(last);
      SplitLast(names);
      assert multiset(names) == multiset(names[..|names| - 1]) + multiset{last};
      if |Trim(last)| > 0 then
        assert (init + [last])[..|init|] == init;
        assert multiset(init + [last]) == multiset(init) + multiset{last};
        init + [last]
      else init
  }

  /** The filter drops nothing from a list without blank entries. */
  lemma {:induction false} KeepNonBlankAll(names: seq<string>)
    requires forall i :: 0 <= i < |names| ==> !IsBlank(names[i])
    ensures KeepNonBlank(names) == names
  {
    if names != [] {
      var init, last := names[..|names| - 1], names[|names| - 1];
      assert |Trim(last)| > 0 by {
        TrimNonEmpty(last);
      }
      KeepNonBlankAll(init);
      SplitLast(names);
    }
  }

  /** The shipped string splits into the 29 names, none of them blank, so the filter keeps all. */
  lemma ShippedCandidates()
    ensures CANDIDATES_LIST == SHIPPED_NAMES
  {
    SplitShippedNames();
    ShippedNamesWellFormed();
    KeepNonBlankAll(SHIPPED_NAMES);
  }

  /** No name occurs twice in the shipped list. */
  lemma ShippedNamesDistinct()
    ensures NoDuplicates(SHIPPED_NAMES)
  {
    ShippedNamesBlocks();
    BlocksDistinct();
    BlocksDisjoint();
    NoDuplicatesConcat(NAMES_BLOCK_1, NAMES_BLOCK_2);
    NoDuplicatesConcat(NAMES_BLOCK_1 + NAMES_BLOCK_2, NAMES_BLOCK_3);
  }

  /** No block of the shipped list holds a name twice. */
  lemma BlocksDistinct()
    ensures NoDuplicates(NAMES_BLOCK_1) && NoDuplicates(NAMES_BLOCK_2) && NoDuplicates(NAMES_BLOCK_3)
  {
  }

  /** No name is in two blocks of the shipped list. */
  lemma BlocksDisjoint()
    ensures forall i, j :: 0 <= i < |NAMES_BLOCK_1| && 0 <= j < |NAMES_BLOCK_2| ==>
      NAMES_BLOCK_1[i] != NAMES_BLOCK_2[j]
    ensures forall i, j :: 0 <= i < |NAMES_BLOCK_1 + NAMES_BLOCK_2| && 0 <= j < |NAMES_BLOCK_3| ==>
      (NAMES_BLOCK_1 + NAMES_BLOCK_2)[i] != NAMES_BLOCK_3[j]
  {
  }

  /** There are 29 candidates, none of them blank or holding a `;`, and no name occurs twice. */
  lemma CandidatesDistinct()
    ensures |CANDIDATES_LIST| == 29
    ensures NoDuplicates(CANDIDATES_LIST)
    ensures forall i :: 0 <= i < |CANDIDATES_LIST| ==> !IsBlank(CANDIDATES_LIST[i]) && ';' !in CANDIDATES_LIST[i]
  {
    ShippedCandidates();
    ShippedNamesWellFormed();
    ShippedNamesDistinct();
  }

  /** Every level has a configuration whose `id` is the level itself and whose `count` is the
      level's quota; the quotas are 10, 5, 2 and 1 from the third prize up, 18 in all. */
  lemma PrizeConfigIds()
    ensures forall level :: level in PRIZE_CONFIGS && PRIZE_CONFIGS[level].id == level
    ensures forall level :: level in PRIZE_CONFIGS && PRIZE_CONFIGS[level].count == Quota(level)
    ensures Quota(Third) == 10 && Quota(Second) == 5 && Quota(First) == 2 && Quota(Grand) == 1
  {
    forall level
      ensures level in PRIZE_CONFIGS && PRIZE_CONFIGS[level].id == level
      ensures PRIZE_CONFIGS[level].count == Quota(level)
    {
      assert level == Third || level == Second || level == First || level == Grand;
    }
  }

  /** Every level occurs exactly once in the draw order, the grand prize last: finding a level's
      position and reading the order at a position are inverse to each other. */
  lemma DrawOrderPositions()
    ensures |DRAW_ORDER| == 4 && NoDuplicates(DRAW_ORDER) && DRAW_ORDER[3] == Grand
    ensures forall level :: 0 <= IndexOf(DRAW_ORDER, level) < 4 && DRAW_ORDER[IndexOf(DRAW_ORDER, level)] == level
    ensures forall i :: 0 <= i < 4 ==> IndexOf(DRAW_ORDER, DRAW_ORDER[i]) == i
  {
    assert IndexOf(DRAW_ORDER, Third) == 0;
    assert IndexOf(DRAW_ORDER, Second) == 1;
    assert IndexOf(DRAW_ORDER, First) == 2;
    assert IndexOf(DRAW_ORDER, Grand) == 3;
    forall level ensures 0 <= IndexOf(DRAW_ORDER, level) < 4 && DRAW_ORDER[IndexOf(DRAW_ORDER, level)] == level {
      assert level == Third || level == Second || level == First || level == Grand;
    }
  }
}
