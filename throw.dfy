/**
 * app/api/throw/route.ts: validate the request, resolve the target, gate on
 * the notification, then score the hit and commit it.  `Throw` is the
 * handler's meaning on a store value; `Post` is the handler run against a
 * `Db` and is proved to have exactly that meaning.
 */
module ThrowRoute {
  import opened Wrappers
  import opened Handles
  import opened SnowballStore
  import SnowballDb

  /** Hitting this handle costs 10 points. */
  const AdminUsername := "nipples.base.eth"

  /** The streak window the handler asks for, in hours. */
  const StreakWindowHours := 24

  /** The two JSON fields the handler reads; an absent field is `None`. */
  datatype ThrowRequest = ThrowRequest(targetUsername: Option<string>, senderName: Option<string>)

  datatype ThrowResponse =
    | Hit(pointsAwarded: int, streak: int, totalPoints: int)
    | Refused(status: int, error: string)
    | StoreFailed  // a store call rejected its promise; the framework answers 500
  {
    function Status(): int {
      match this
      case Hit(_, _, _) => 200
      case Refused(status, _) => status
      case StoreFailed => 500
    }
  }

  /** `targetUsername.replace('@', '').trim()`. */
  function CleanTarget(raw: string): (clean: string)
    ensures |clean| <= |raw|
    ensures clean != [] ==> !IsSpace(clean[0]) && !IsSpace(clean[|clean| - 1])
    ensures '@' !in raw ==> clean == Trim(raw)
  {
    Trim(RemoveFirst(raw, '@'))
  }

  /** The case-insensitive comparison with the admin handle. */
  predicate IsAdmin(target: string) {
    Lower(target) == Lower(AdminUsername)
  }

  /** The target resolves to a non-zero fid whose record has a token and a url. */
  predicate Reachable(s: Store, target: string) {
    var fid := GetFidByUsername(s, target);
    fid.Some? && fid.value != 0 && GetUserToken(s, fid.value).Some?
  }

  function Max0(x: int): int {
    if x < 0 then 0 else x
  }

  /**
   * Step 4 of the handler, after the notification went out: streak, revenge
   * check, first-hit check and record, admin penalty, clamp, revenge record,
   * leaderboard commit, in the source's order.
   */
  function ScoreHit(s: Store, sender: string, target: string, now: int): (r: (ThrowResponse, Store))
    ensures r.0.Hit? || r.0.StoreFailed?
    ensures r.0.StoreFailed? <==> RegisterHitAndGetStreak(s, sender, StreakWindowHours, now).1.None?
    ensures r.0.StoreFailed? ==> r.1 == s
  {
    var registered := RegisterHitAndGetStreak(s, sender, StreakWindowHours, now);
    var s1, streak := registered.0, registered.1;
    if streak.None? then (StoreFailed, s1)
    else
      var revenge := WasRevengeHit(s1, sender, target);
      var firstHit := !HasHitBefore(s1, sender, target);
      var s2 := if firstHit then RecordHit(s1, sender, target) else s1;
      var award := Award(streak.value, revenge, firstHit, IsAdmin(target));
      var s3 := RecordAttackPair(s2, sender, target);
      var added := AddPoints(s3, sender, award);
      (Hit(award, streak.value, added.1), added.0)
  }

  /** The streak the registered hit yields, read off the store before the hit. */
  function StreakAfterHit(s: Store, sender: string, now: int): int {
    var a := Lower(sender);
    if Decayed(s, a, now, DecayMs(StreakWindowHours)) then 1 else StreakCount(s, a) + 1
  }

  /** `max(0, 1 + streak + 2·revenge + 5·firstHit − 10·admin)`. */
  function Award(streak: int, revenge: bool, firstHit: bool, admin: bool): (points: int)
    ensures points >= 0
    ensures !admin && streak >= 1 ==> points >= 2
    ensures !admin && streak >= 0 ==> points == 1 + streak + (if revenge then 2 else 0) + (if firstHit then 5 else 0)
  {
    Max0(1 + streak + (if revenge then 2 else 0) + (if firstHit then 5 else 0) - (if admin then 10 else 0))
  }

  /** `pointsAwarded` with every bonus read from the store before any write of this hit. */
  function AwardFormula(s: Store, sender: string, target: string, now: int): int {
    Award(StreakAfterHit(s, sender, now), WasRevengeHit(s, sender, target), !HasHitBefore(s, sender, target), IsAdmin(target))
  }

  /**
   * A scored hit returns the streak, the award of the formula and the old
   * score plus the award: the revenge and first-hit checks see the store as
   * it was before `recordHit` and `recordAttackPair` ran.
   */
  lemma ScoreHitResponse(s: Store, sender: string, target: string, now: int)
    requires RegisterHitAndGetStreak(s, sender, StreakWindowHours, now).1.Some?
    ensures ScoreHit(s, sender, target, now).0
         == Hit(AwardFormula(s, sender, target, now), StreakAfterHit(s, sender, now),
                Score(s, Lower(sender)) + AwardFormula(s, sender, target, now))
  {
  }

  /**
   * A scored hit changes exactly: the sender's streak and last-hit stamp, the
   * target's last attacker (now the sender), the sender's first-hit set (now
   * holding the target) and the sender's score.
   */
  lemma ScoreHitStore(s: Store, sender: string, target: string, now: int)
    requires RegisterHitAndGetStreak(s, sender, StreakWindowHours, now).1.Some?
    ensures var r := ScoreHit(s, sender, target, now);
            var a, t := Lower(sender), Lower(target);
            && r.1.users == s.users && r.1.usernameToFid == s.usernameToFid
            && r.1.streak == s.streak[a := Num(r.0.streak)]
            && r.1.lastAttack == s.lastAttack[a := Num(now)]
            && r.1.revenge == s.revenge[t := a]
            && r.1.firstHits == s.firstHits[a := HitSet(s, a) + {t}]
            && r.1.points == s.points[a := r.0.totalPoints]
  {
    var a, t := Lower(sender), Lower(target);
    var registered := RegisterHitAndGetStreak(s, sender, StreakWindowHours, now);
    var s1 := registered.0;
    assert s1.revenge == s.revenge && s1.firstHits == s.firstHits && s1.points == s.points;
    var firstHit := !HasHitBefore(s1, sender, target);
    var s2 := if firstHit then RecordHit(s1, sender, target) else s1;
    assert s2.firstHits == s.firstHits[a := HitSet(s, a) + {t}] by {
      if !firstHit {
        assert HitSet(s, a) + {t} == HitSet(s, a);
      }
    }
  }

  /** The handler on a store value: the response and the store it leaves. */
  function Throw(s: Store, req: ThrowRequest, delivered: bool, now: int): (r: (ThrowResponse, Store))
    ensures r.0.Status() in {200, 400, 404, 500}
    ensures r.0.Status() == 400 <==> !Truthy(req.targetUsername) || !Truthy(req.senderName)
    ensures !r.0.Hit? ==> r.1 == s
    ensures Truthy(req.targetUsername) && Truthy(req.senderName) ==>
              (r.0.Status() == 404 <==> !Reachable(s, CleanTarget(req.targetUsername.value)))
    ensures r.0.Hit? <==> && Truthy(req.targetUsername) && Truthy(req.senderName)
                          && Reachable(s, CleanTarget(req.targetUsername.value)) && delivered
                          && RegisterHitAndGetStreak(s, req.senderName.value, StreakWindowHours, now).1.Some?
    ensures r.0.Hit? ==> r == ScoreHit(s, req.senderName.value, CleanTarget(req.targetUsername.value), now)
    ensures r.0.Hit? <==> r.0.Status() == 200
    ensures Truthy(req.targetUsername) && Truthy(req.senderName)
            && Reachable(s, CleanTarget(req.targetUsername.value)) && !delivered
            ==> r.0 == Refused(500, "Notification failed")
    ensures Truthy(req.targetUsername) && Truthy(req.senderName)
            && Reachable(s, CleanTarget(req.targetUsername.value)) && delivered
            && RegisterHitAndGetStreak(s, req.senderName.value, StreakWindowHours, now).1.None?
            ==> r.0 == StoreFailed
  {
    if !Truthy(req.targetUsername) || !Truthy(req.senderName) then
      (Refused(400, "Missing target or sender"), s)
    else
      var sender := req.senderName.value;
      var cleanTarget := CleanTarget(req.targetUsername.value);
      var targetFid := GetFidByUsername(s, cleanTarget);
      if targetFid.None? || targetFid.value == 0 then
        (Refused(404, "User @" + cleanTarget + " not registered"), s)
      else
        var targetUser := GetUserToken(s, targetFid.value);
        if targetUser.None? || targetUser.value.token == "" || targetUser.value.url == "" then
          (Refused(404, "User @" + cleanTarget + " missing notification token"), s)
        else if !delivered then
          (Refused(500, "Notification failed"), s)
        else
          ScoreHit(s, sender, cleanTarget, now)
  }

  // ---------------------------------------------------------------------
  // Properties of the handler
  // ---------------------------------------------------------------------

  /** The award is never negative, and is at least 2 on any target but the admin. */
  lemma AwardBounds(s: Store, req: ThrowRequest, delivered: bool, now: int)
    requires StreaksNonNegative(s)
    ensures var r := Throw(s, req, delivered, now).0;
            r.Hit? ==> r.pointsAwarded >= 0
                       && (!IsAdmin(CleanTarget(req.targetUsername.value)) ==> r.pointsAwarded >= 2 && r.streak >= 1)
  {
    var r := Throw(s, req, delivered, now).0;
    if r.Hit? {
      var sender, target := req.senderName.value, CleanTarget(req.targetUsername.value);
      ScoreHitResponse(s, sender, target, now);
      RegisterHitStreakAtLeastOne(s, sender, StreakWindowHours, now);
    }
  }

  /** After a scored hit the target's last attacker is the sender and the pair is recorded as hit. */
  lemma HitRecordsRevengeAndFirstHit(s: Store, req: ThrowRequest, delivered: bool, now: int)
    requires Throw(s, req, delivered, now).0.Hit?
    ensures var s' := Throw(s, req, delivered, now).1;
            var sender, target := req.senderName.value, CleanTarget(req.targetUsername.value);
            && WasRevengeHit(s', target, sender)
            && HasHitBefore(s', sender, target)
            && Lower(target) in s'.revenge && s'.revenge[Lower(target)] == Lower(sender)
  {
    var sender, target := req.senderName.value, CleanTarget(req.targetUsername.value);
    ScoreHitStore(s, sender, target, now);
  }

  /** A scored hit keeps both store invariants. */
  lemma ThrowKeepsInvariants(s: Store, req: ThrowRequest, delivered: bool, now: int)
    requires DirectoryConsistent(s) && StreaksNonNegative(s)
    ensures var s' := Throw(s, req, delivered, now).1;
            DirectoryConsistent(s') && StreaksNonNegative(s')
  {
    var r := Throw(s, req, delivered, now);
    if r.0.Hit? {
      var sender, target := req.senderName.value, CleanTarget(req.targetUsername.value);
      ScoreHitStore(s, sender, target, now);
      ScoreHitResponse(s, sender, target, now);
      RegisterHitStreakAtLeastOne(s, sender, StreakWindowHours, now);
    }
  }

  /** A sender's first hit on a fresh target: 1 (base) + 1 (streak) + 5 (first hit). */
  predicate FreshPair(s: Store, target: string, sender: string) {
    && target != "" && sender != ""
    && Reachable(s, CleanTarget(target)) && !IsAdmin(CleanTarget(target))
    && Lower(sender) != Lower(CleanTarget(target))
    && Lower(sender) !in s.streak
    && !HasHitBefore(s, sender, CleanTarget(target)) && !WasRevengeHit(s, sender, CleanTarget(target))
  }

  /** A first hit on a reachable, non-admin target by a sender with no streak and no revenge awards 7. */
  lemma FirstHitAwardsSeven(s: Store, target: string, sender: string, now: int)
    requires FreshPair(s, target, sender)
    ensures Throw(s, ThrowRequest(Some(target), Some(sender)), true, now).0 == Hit(7, 1, Score(s, Lower(sender)) + 7)
  {
    var t := CleanTarget(target);
    assert StreakAfterHit(s, sender, now) == 1;
    ScoreHitResponse(s, sender, t, now);
  }

  /** After that first hit the sender's streak is 1, stamped `now`, and the pair is recorded but not as revenge. */
  lemma FirstHitState(s: Store, target: string, sender: string, now: int)
    requires FreshPair(s, target, sender)
    ensures var s1 := Throw(s, ThrowRequest(Some(target), Some(sender)), true, now).1;
            && Reachable(s1, CleanTarget(target))
            && s1.lastAttack[Lower(sender)] == Num(now) && s1.streak[Lower(sender)] == Num(1)
            && HasHitBefore(s1, sender, CleanTarget(target))
            && !WasRevengeHit(s1, sender, CleanTarget(target))
            && Score(s1, Lower(sender)) == Score(s, Lower(sender)) + 7
  {
    var t := CleanTarget(target);
    FirstHitAwardsSeven(s, target, sender, now);
    ScoreHitStore(s, sender, t, now);
    LowerIdempotent(t);
  }

  /**
   * The same throw again inside the window awards 1 + 2 = 3: the streak
   * grows to 2 and the first-hit bonus is not granted twice.
   */
  lemma FirstHitThenRepeat(s: Store, target: string, sender: string, now1: int, now2: int)
    requires FreshPair(s, target, sender)
    requires now2 - now1 <= DecayMs(StreakWindowHours)
    ensures var req := ThrowRequest(Some(target), Some(sender));
            var first := Throw(s, req, true, now1);
            Throw(first.1, req, true, now2).0 == Hit(3, 2, Score(s, Lower(sender)) + 10)
  {
    var req, t := ThrowRequest(Some(target), Some(sender)), CleanTarget(target);
    FirstHitState(s, target, sender, now1);
    var s1 := Throw(s, req, true, now1).1;
    assert !Decayed(s1, Lower(sender), now2, DecayMs(StreakWindowHours));
    assert StreakAfterHit(s1, sender, now2) == 2;
    assert RegisterHitAndGetStreak(s1, sender, StreakWindowHours, now2).1 == Some(2);
    ThrowScores(s1, req, now2);
    ScoreHitResponse(s1, sender, t, now2);
    assert AwardFormula(s1, sender, t, now2) == Award(2, false, false, false);
  }

  /** A valid throw at a reachable target whose notification went out is scored by `ScoreHit`. */
  lemma ThrowScores(s: Store, req: ThrowRequest, now: int)
    requires Truthy(req.targetUsername) && Truthy(req.senderName)
    requires Reachable(s, CleanTarget(req.targetUsername.value))
    requires RegisterHitAndGetStreak(s, req.senderName.value, StreakWindowHours, now).1.Some?
    ensures Throw(s, req, true, now) == ScoreHit(s, req.senderName.value, CleanTarget(req.targetUsername.value), now)
  {
  }

  /**
   * When `a` has hit `b`, `b` throwing back at `a` is a revenge hit: `b`'s
   * last attacker is `a`, so the return throw carries the +2 bonus.
   */
  lemma ReturnHitIsRevenge(s: Store, a: string, b: string, now1: int, now2: int)
    requires CleanTarget(a) == a && CleanTarget(b) == b
    requires Throw(s, ThrowRequest(Some(b), Some(a)), true, now1).0.Hit?
    requires Throw(Throw(s, ThrowRequest(Some(b), Some(a)), true, now1).1, ThrowRequest(Some(a), Some(b)), true, now2).0.Hit?
    ensures var s1 := Throw(s, ThrowRequest(Some(b), Some(a)), true, now1).1;
            var back := Throw(s1, ThrowRequest(Some(a), Some(b)), true, now2).0;
            && WasRevengeHit(s1, b, a)
            && back.pointsAwarded == Award(back.streak, true, !HasHitBefore(s1, b, a), IsAdmin(a))
  {
    var s1 := Throw(s, ThrowRequest(Some(b), Some(a)), true, now1).1;
    HitRecordsRevengeAndFirstHit(s, ThrowRequest(Some(b), Some(a)), true, now1);
    ScoreHitResponse(s1, b, a, now2);
  }

  /** The handler as the source runs it, step by step against the store object. */
  method Post(db: SnowballDb.Db, req: ThrowRequest, delivered: bool, now: int) returns (resp: ThrowResponse)
    modifies db
    ensures (resp, db.Snapshot()) == Throw(old(db.Snapshot()), req, delivered, now)
  {
    if !Truthy(req.targetUsername) || !Truthy(req.senderName) {
      return Refused(400, "Missing target or sender");
    }
    var senderName := req.senderName.value;
    var cleanTarget := CleanTarget(req.targetUsername.value);

    // 1. Resolve username -> fid
    var targetFid := GetFidByUsername(db.Snapshot(), cleanTarget);
    if targetFid.None? || targetFid.value == 0 {
      return Refused(404, "User @" + cleanTarget + " not registered");
    }

    // 2. Token and url for the notification
    var targetUser := GetUserToken(db.Snapshot(), targetFid.value);
    if targetUser.None? || targetUser.value.token == "" || targetUser.value.url == "" {
      return Refused(404, "User @" + cleanTarget + " missing notification token");
    }

    // 3. The notification's outcome
    if !delivered {
      return Refused(500, "Notification failed");
    }

    // 4. Scoring and commit
    resp := Commit(db, senderName, cleanTarget, now);
  }

  /** Step 4 of the handler against the store object: `pointsAwarded` is built up step by step. */
  method Commit(db: SnowballDb.Db, senderName: string, cleanTarget: string, now: int) returns (resp: ThrowResponse)
    modifies db
    ensures (resp, db.Snapshot()) == ScoreHit(old(db.Snapshot()), senderName, cleanTarget, now)
  {
    var pointsAwarded := 1;
    var streak := db.RegisterHitAndGetStreak(senderName, StreakWindowHours, now);
    if streak.None? {
      return StoreFailed;
    }
    pointsAwarded := pointsAwarded + streak.value;
    var revenge := WasRevengeHit(db.Snapshot(), senderName, cleanTarget);
    if revenge {
      pointsAwarded := pointsAwarded + 2;
    }
    var firstHit := !HasHitBefore(db.Snapshot(), senderName, cleanTarget);
    if firstHit {
      db.RecordHit(senderName, cleanTarget);
      pointsAwarded := pointsAwarded + 5;
    }
    if Lower(cleanTarget) == Lower(AdminUsername) {
      pointsAwarded := pointsAwarded - 10;
    }
    if pointsAwarded < 0 {
      pointsAwarded := 0;
    }
    assert pointsAwarded == Award(streak.value, revenge, firstHit, IsAdmin(cleanTarget));
    db.RecordAttackPair(senderName, cleanTarget);
    var totalPoints := db.AddPoints(senderName, pointsAwarded);
    resp := Hit(pointsAwarded, streak.value, totalPoints);
  }
}
