/**
 * lib/db.ts as the source runs it: one store object whose seven key families
 * are fields the exported functions update in place.  `Snapshot` reads the
 * fields as a `Store` value, and every method is proved to change that value
 * exactly as the matching function of `SnowballStore` says.
 */
module SnowballDb {
  import opened Wrappers
  import opened Handles
  import S = SnowballStore

  class Db {
    var users: map<int, S.StoredUser>
    var usernameToFid: map<string, S.Cell>
    var streak: map<string, S.Cell>
    var lastAttack: map<string, S.Cell>
    var revenge: map<string, string>
    var firstHits: map<string, set<string>>
    var points: map<string, int>

    /** The store's contents as a value. */
    function Snapshot(): (s: S.Store)
      reads this
    {
      S.Store(users, usernameToFid, streak, lastAttack, revenge, firstHits, points)
    }

    /** A store that starts empty. */
    constructor ()
      ensures Snapshot() == S.Empty
    {
      users, usernameToFid, streak, lastAttack := map[], map[], map[], map[];
      revenge, firstHits, points := map[], map[], map[];
    }

    method SaveUserToken(fid: int, username: string, token: string, url: string)
      modifies this
      ensures Snapshot() == S.SaveUserToken(old(Snapshot()), fid, username, token, url)
    {
      var uname := Lower(username);
      users := users[fid := S.StoredUser(fid, uname, token, url)];
      usernameToFid := usernameToFid[S.HandleKey(uname) := S.Num(fid)];
      LowerIdempotent(username);
    }

    method AddPoints(username: string, delta: int) returns (total: int)
      modifies this
      ensures (Snapshot(), total) == S.AddPoints(old(Snapshot()), username, delta)
    {
      var uname := Lower(username);
      var current := if uname in points then points[uname] else 0;
      total := current + delta;
      points := points[uname := total];
    }

    method IncrementStreak(username: string) returns (count: Option<int>)
      modifies this
      ensures (Snapshot(), count) == S.IncrementStreak(old(Snapshot()), username)
    {
      var key := S.HandleKey(Lower(username));
      LowerIdempotent(username);
      if key !in streak {
        streak := streak[key := S.Num(1)];
        count := Some(1);
      } else if streak[key].NonNumeric? {
        count := None;
      } else {
        var n := streak[key].n + 1;
        streak := streak[key := S.Num(n)];
        count := Some(n);
      }
    }

    method ResetStreak(username: string)
      modifies this
      ensures Snapshot() == S.ResetStreak(old(Snapshot()), username)
    {
      LowerIdempotent(username);
      streak := streak[S.HandleKey(Lower(username)) := S.Num(0)];
    }

    /** Read the last hit, reset if it is older than the window, INCR, stamp `now`. */
    method RegisterHitAndGetStreak(username: string, decayHours: int, now: int) returns (count: Option<int>)
      modifies this
      ensures (Snapshot(), count) == S.RegisterHitAndGetStreak(old(Snapshot()), username, decayHours, now)
    {
      var uname := Lower(username);
      var decayMs := S.DecayMs(decayHours);
      var key := S.HandleKey(uname);
      LowerIdempotent(username);
      if key in lastAttack {
        var last := lastAttack[key];
        if last.Num? && now - last.n > decayMs {
          ResetStreak(uname);
        }
      }
      count := IncrementStreak(uname);
      if count.Some? {
        lastAttack := lastAttack[key := S.Num(now)];
      }
    }

    method RecordAttackPair(attacker: string, target: string)
      modifies this
      ensures Snapshot() == S.RecordAttackPair(old(Snapshot()), attacker, target)
    {
      var a := Lower(attacker);
      var t := Lower(target);
      LowerIdempotent(target);
      revenge := revenge[S.HandleKey(t) := a];
    }

    method RecordHit(attacker: string, target: string)
      modifies this
      ensures Snapshot() == S.RecordHit(old(Snapshot()), attacker, target)
    {
      var a := Lower(attacker);
      var t := Lower(target);
      var key := S.HandleKey(a);
      LowerIdempotent(attacker);
      var targets := if key in firstHits then firstHits[key] else {};
      firstHits := firstHits[key := targets + {t}];
    }
  }
}
