/**
 * app/api/leaderboard/route.ts: the top 20 of the `snowball:points` sorted
 * set with a streak badge per row, and the requested user's rank, score and
 * streak.  The sorted set is a map from member to score; the store's
 * descending order of it is the sequence `order`, in which members of equal
 * score may come in any order, as the store defines.
 */
module LeaderboardRoute {
  import opened Wrappers
  import opened Handles
  import opened SnowballStore
  import SnowballDb

  /** ZREVRANGE 0 19 asks for twenty rows. */
  const TopN := 20

  const MegaStreak := "\U{1F525} Mega Streak"
  const HotStreak := "\U{1F525} Hot Streak"

  datatype Entry = Entry(username: string, points: int, streak: int, badge: string)
  datatype UserInfo = UserInfo(username: string, rank: Option<int>, points: int, streak: int)
  datatype LeaderboardResponse = LeaderboardResponse(entries: seq<Entry>, user: Option<UserInfo>)

  /** `order` lists every member once with non-increasing scores; equal scores may come in any order. */
  predicate IsRanking(points: map<string, int>, order: seq<string>) {
    && (forall i :: 0 <= i < |order| ==> order[i] in points)
    && (forall m :: m in points ==> m in order)
    && (forall i, j :: 0 <= i < j < |order| ==> order[i] != order[j])
    && (forall i, j :: 0 <= i < j < |order| ==> points[order[i]] >= points[order[j]])
  }

  /** Every score map has a descending order, so `IsRanking` excludes no store state. */
  lemma RankingExists(points: map<string, int>)
    ensures exists order :: IsRanking(points, order)
    decreases |points|
  {
    if |points| == 0 {
      assert IsRanking(points, []);
    } else {
      var top := HighestMember(points);
      var rest := points - {top};
      RankingExists(rest);
      var order :| IsRanking(rest, order);
      assert IsRanking(points, [top] + order);
    }
  }

  /** A member of highest score. */
  lemma HighestMember(points: map<string, int>) returns (top: string)
    requires |points| > 0
    ensures top in points && forall m :: m in points ==> points[m] <= points[top]
    decreases |points|
  {
    var m :| m in points;
    var rest := points - {m};
    if |rest| == 0 {
      assert forall x :: x in points ==> x == m by {
        forall x | x in points ensures x == m {
          assert x != m ==> x in rest.Keys;
        }
      }
      top := m;
    } else {
      var best := HighestMember(rest);
      top := if points[m] >= points[best] then m else best;
      assert forall x :: x in points ==> x == m || x in rest;
    }
  }

  /** ZREVRANGE 0 (count - 1) WITHSCORES: the first `count` members of the order with their scores. */
  function RevRange(points: map<string, int>, order: seq<string>, count: nat): (rows: seq<(string, int)>)
    requires IsRanking(points, order)
    ensures |rows| == if |order| < count then |order| else count
    ensures forall i :: 0 <= i < |rows| ==> rows[i] == (order[i], points[order[i]])
  {
    var n := if |order| < count then |order| else count;
    seq(n, i requires 0 <= i < n => (order[i], points[order[i]]))
  }

  /** ZREVRANK: the 0-based position of a member in the order, null when it has no score. */
  function RevRank(order: seq<string>, member: string): (r: Option<nat>)
    ensures r.None? <==> member !in order
    ensures r.Some? ==> r.value < |order| && order[r.value] == member && member !in order[..r.value]
  {
    if order == [] then None
    else if order[0] == member then Some(0)
    else match RevRank(order[1..], member)
      case None => None
      case Some(k) => Some(k + 1)
  }

  /** The badge of a streak: "Mega" from 5, "Hot" from 3 to 4, none below 3. */
  function Badge(streak: int): (b: string)
    ensures b == MegaStreak <==> streak >= 5
    ensures b == HotStreak <==> 3 <= streak < 5
    ensures b == "" <==> streak < 3
  {
    if streak >= 5 then MegaStreak else if streak >= 3 then HotStreak else ""
  }

  /** The handler; it only reads the store. */
  method Get(db: SnowballDb.Db, order: seq<string>, userParam: Option<string>) returns (resp: LeaderboardResponse)
    requires IsRanking(db.points, order)
    ensures |resp.entries| <= TopN && |resp.entries| == if |order| < TopN then |order| else TopN
    ensures forall i :: 0 <= i < |resp.entries| ==>
              var e := resp.entries[i];
              && e.username == order[i] && e.points == db.points[order[i]]
              && e.streak == StreakCount(db.Snapshot(), order[i]) && e.badge == Badge(e.streak)
    ensures forall i, j :: 0 <= i < j < |resp.entries| ==> resp.entries[i].points >= resp.entries[j].points
    ensures resp.user.Some? <==> Truthy(userParam)
    ensures resp.user.Some? ==>
              var u, name := resp.user.value, Lower(userParam.value);
              && u.username == name
              && (u.rank.None? <==> name !in db.points)
              && (u.rank.Some? ==> 1 <= u.rank.value <= |order| && order[u.rank.value - 1] == name)
              && u.points == Score(db.Snapshot(), name)
              && u.streak == StreakCount(db.Snapshot(), name)
              && forall i :: 0 <= i < |resp.entries| && resp.entries[i].username == name ==> u.rank == Some(i + 1)
  {
    var user := if Truthy(userParam) then Some(Lower(userParam.value)) else None;

    // Top 20 holders
    var entries := TopEntries(db, order);

    // The requested user's rank, score and streak, even outside the top 20
    var userInfo: Option<UserInfo> := None;
    if user.Some? {
      var name := user.value;
      var rank := RevRank(order, name);
      var score := if name in db.points then Some(db.points[name]) else None;
      var streak := StreakCount(db.Snapshot(), name);
      userInfo := Some(UserInfo(name, if rank.Some? then Some(rank.value + 1) else None,
                                if score.Some? then score.value else 0, streak));
    }
    resp := LeaderboardResponse(entries, userInfo);
  }

  /** The loop over the ZREVRANGE reply: one row per member, with its stored streak and its badge. */
  method TopEntries(db: SnowballDb.Db, order: seq<string>) returns (entries: seq<Entry>)
    requires IsRanking(db.points, order)
    ensures |entries| == if |order| < TopN then |order| else TopN
    ensures forall i :: 0 <= i < |entries| ==>
              var e := entries[i];
              && e.username == order[i] && e.points == db.points[order[i]]
              && e.streak == StreakCount(db.Snapshot(), order[i]) && e.badge == Badge(e.streak)
  {
    var raw := RevRange(db.points, order, TopN);
    entries := [];
    var i := 0;
    while i < |raw|
      invariant 0 <= i <= |raw|
      invariant |entries| == i
      invariant forall k :: 0 <= k < i ==>
                  var e := entries[k];
                  && e.username == order[k] && e.points == db.points[order[k]]
                  && e.streak == StreakCount(db.Snapshot(), order[k]) && e.badge == Badge(e.streak)
    {
      var username := raw[i].0;
      var points := raw[i].1;
      var streak := StreakCount(db.Snapshot(), username);
      var badge := "";
      if streak >= 5 {
        badge := MegaStreak;
      } else if streak >= 3 {
        badge := HotStreak;
      }
      entries := entries + [Entry(username, points, streak, badge)];
      i := i + 1;
    }
  }
}
