/**
 * The rank tiers of app/page.tsx: `getRank` names the tier a point total
 * has reached and `getNextRankGoal` the tier above it with the points still
 * needed.  Both are checked against an independent reference: the tier
 * index is the number of tier thresholds the total reaches.
 */
module RankTiers {

  /** The tier names, lowest first. */
  const Tiers: seq<string> :=
    ["Fresh Snowflake", "Rookie Thrower", "Frosty Brawler", "Snowstorm Bringer", "Arctic Menace", "Blizzard Overlord"]

  /** `Thresholds[i]` is the least total of tier `i + 1` (inclusive). */
  const Thresholds: seq<int> := [10, 25, 60, 120, 200]

  /** `getRank`. */
  function GetRank(pts: int): (rank: string)
    ensures rank in Tiers
    ensures rank == Tiers[0] <==> pts < Thresholds[0]
    ensures rank == Tiers[|Tiers| - 1] <==> pts >= Thresholds[|Thresholds| - 1]
  {
    if pts >= 200 then "Blizzard Overlord"
    else if pts >= 120 then "Arctic Menace"
    else if pts >= 60 then "Snowstorm Bringer"
    else if pts >= 25 then "Frosty Brawler"
    else if pts >= 10 then "Rookie Thrower"
    else "Fresh Snowflake"
  }

  /** The `{label, needed, target}` record; `label` is a Dafny keyword. */
  datatype Goal = Goal(rankLabel: string, needed: int, target: int)

  /** `getNextRankGoal`. */
  function GetNextRankGoal(pts: int): (goal: Goal)
    ensures goal.needed >= 0
    ensures goal.needed == 0 <==> pts >= Thresholds[|Thresholds| - 1]
    ensures goal.rankLabel == "Max Rank" <==> pts >= Thresholds[|Thresholds| - 1]
  {
    if pts >= 200 then Goal("Max Rank", 0, 200)
    else if pts >= 120 then Goal("Blizzard Overlord", 200 - pts, 200)
    else if pts >= 60 then Goal("Arctic Menace", 120 - pts, 120)
    else if pts >= 25 then Goal("Snowstorm Bringer", 60 - pts, 60)
    else if pts >= 10 then Goal("Frosty Brawler", 25 - pts, 25)
    else Goal("Rookie Thrower", 10 - pts, 10)
  }

  /** How many of the thresholds `ts` the total `pts` reaches. */
  function Reached(ts: seq<int>, pts: int): (n: nat)
    ensures n <= |ts|
  {
    if ts == [] then 0 else (if ts[0] <= pts then 1 else 0) + Reached(ts[1..], pts)
  }

  /** The reference tier index of a total. */
  function TierIndex(pts: int): (k: nat)
    ensures k < |Tiers|
  {
    Reached(Thresholds, pts)
  }

  /** Reaching more points never reaches fewer thresholds. */
  lemma {:induction false} ReachedMonotone(ts: seq<int>, p: int, q: int)
    requires p <= q
    ensures Reached(ts, p) <= Reached(ts, q)
  {
    if ts != [] {
      ReachedMonotone(ts[1..], p, q);
    }
  }

  /** `getRank` names exactly the tier of the reference index. */
  lemma GetRankIsTier(pts: int)
    ensures GetRank(pts) == Tiers[TierIndex(pts)]
  {
    var t1, t2, t3, t4: seq<int> := [25, 60, 120, 200], [60, 120, 200], [120, 200], [200];
    assert Thresholds[1..] == t1 && t1[1..] == t2 && t2[1..] == t3 && t3[1..] == t4 && t4[1..] == [];
    assert Reached(t4, pts) == if pts >= 200 then 1 else 0;
    assert Reached(t3, pts) == (if pts >= 120 then 1 else 0) + Reached(t4, pts);
    assert Reached(t2, pts) == (if pts >= 60 then 1 else 0) + Reached(t3, pts);
    assert Reached(t1, pts) == (if pts >= 25 then 1 else 0) + Reached(t2, pts);
    assert TierIndex(pts) == (if pts >= 10 then 1 else 0) + Reached(t1, pts);
  }

  /** Each threshold is inclusive: exactly at it the tier is reached, one below it is not. */
  lemma ThresholdsInclusive(i: nat)
    requires i < |Thresholds|
    ensures GetRank(Thresholds[i]) == Tiers[i + 1]
    ensures GetRank(Thresholds[i] - 1) == Tiers[i]
  {
  }

  /** More points never give a lower tier. */
  lemma GetRankMonotone(p: int, q: int)
    requires p <= q
    ensures exists i, j :: 0 <= i <= j < |Tiers| && GetRank(p) == Tiers[i] && GetRank(q) == Tiers[j]
  {
    GetRankIsTier(p);
    GetRankIsTier(q);
    ReachedMonotone(Thresholds, p, q);
    assert GetRank(p) == Tiers[TierIndex(p)] && GetRank(q) == Tiers[TierIndex(q)];
  }

  /**
   * The goal is the tier directly above the current one, its target that
   * tier's threshold and `needed` the positive gap to it; past the last
   * threshold the goal is "Max Rank" with nothing needed and target 200.
   */
  lemma NextGoalIsTierAbove(pts: int)
    ensures var g, k := GetNextRankGoal(pts), TierIndex(pts);
            if k == |Tiers| - 1 then g == Goal("Max Rank", 0, 200)
            else && g.rankLabel == Tiers[k + 1] && g.target == Thresholds[k]
                 && g.needed == g.target - pts && g.needed > 0
  {
    GetRankIsTier(pts);
  }

  /** The goal's target is never 0, so the progress ratio is always defined. */
  lemma GoalTargetNonZero(pts: int)
    ensures GetNextRankGoal(pts).target != 0 && GetNextRankGoal(pts).target in Thresholds
  {
  }
}
