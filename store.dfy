/**
 * The key-value store behind lib/db.ts, as a value, and each exported
 * function of lib/db.ts as a function on that value.  Every key family of the
 * source (`snowball:user:<fid>`, `snowball:username:<h>`, `snowball:streak:<h>`,
 * `snowball:last_attack:<h>`, `snowball:revenge:<h>`, `snowball:first_hits:<h>`
 * and the sorted set `snowball:points`) is one map of `Store`; the key helpers
 * become `HandleKey`, which lower-cases the handle.
 */
module SnowballStore {
  import opened Wrappers
  import opened Handles

  /**
   * A stored string as `Number()` reads it: `Num(n)` is the decimal text of
   * the integer `n` (what `String(n)` writes); `NonNumeric` is the empty
   * string or any text that `Number()` turns into NaN (and INCR refuses).
   */
  datatype Cell = Num(n: int) | NonNumeric

  /** The `snowball:user:<fid>` hash; a field the hash lacks reads as "". */
  datatype StoredUser = StoredUser(fid: int, username: string, token: string, url: string)

  datatype Store = Store(
    users: map<int, StoredUser>,          // snowball:user:<fid>
    usernameToFid: map<string, Cell>,     // snowball:username:<handle>
    streak: map<string, Cell>,            // snowball:streak:<handle>
    lastAttack: map<string, Cell>,        // snowball:last_attack:<handle>, milliseconds
    revenge: map<string, string>,         // snowball:revenge:<victim> = last attacker
    firstHits: map<string, set<string>>,  // snowball:first_hits:<attacker> = targets hit
    points: map<string, int>)             // sorted set snowball:points, member -> score

  /** The store before anything was written. */
  const Empty := Store(map[], map[], map[], map[], map[], map[], map[])

  /** The handle part of every username-based key. */
  function HandleKey(handle: string): (k: string)
    ensures IsLower(k) && EqualIgnoringCase(k, handle)
  {
    LowerIsLower(handle);
    LowerEqualIffCaseVariant(Lower(handle), handle);
    LowerIdempotent(handle);
    Lower(handle)
  }

  // ---------------------------------------------------------------------
  // User storage
  // ---------------------------------------------------------------------

  /** `saveUserToken`: write the user hash, then the username -> fid mapping. */
  function SaveUserToken(s: Store, fid: int, username: string, token: string, url: string): (r: Store)
    ensures r.users == s.users[fid := StoredUser(fid, Lower(username), token, url)]
    ensures r.usernameToFid == s.usernameToFid[Lower(username) := Num(fid)]
    ensures r == s.(users := r.users, usernameToFid := r.usernameToFid)
  {
    var uname := Lower(username);
    var s1 := s.(users := s.users[fid := StoredUser(fid, uname, token, url)]);
    LowerIdempotent(username);
    s1.(usernameToFid := s1.usernameToFid[HandleKey(uname) := Num(fid)])
  }

  /** `getFidByUsername`: absent, empty or non-numeric mappings give null. */
  function GetFidByUsername(s: Store, username: string): (r: Option<int>)
    ensures r.Some? <==> Lower(username) in s.usernameToFid && s.usernameToFid[Lower(username)].Num?
    ensures r.Some? ==> r.value == s.usernameToFid[Lower(username)].n
  {
    LowerIdempotent(username);
    var key := HandleKey(Lower(username));
    if key !in s.usernameToFid then None
    else match s.usernameToFid[key]
      case NonNumeric => None
      case Num(n) => Some(n)
  }

  /** `getUserToken`: null unless the hash has a non-empty token and a non-empty url. */
  function GetUserToken(s: Store, fid: int): (r: Option<StoredUser>)
    ensures r.None? <==> fid !in s.users || s.users[fid].token == "" || s.users[fid].url == ""
    ensures r.Some? ==> r.value.fid == fid && r.value.token != "" && r.value.url != ""
    ensures r.Some? ==> r.value.username == s.users[fid].username
    ensures r.Some? ==> r.value.token == s.users[fid].token && r.value.url == s.users[fid].url
  {
    if fid !in s.users then None
    else
      var data := s.users[fid];
      if data.token == "" || data.url == "" then None
      else Some(StoredUser(fid, data.username, data.token, data.url))
  }

  // ---------------------------------------------------------------------
  // Points, streaks, revenge
  // ---------------------------------------------------------------------

  /** Score of a sorted-set member; ZINCRBY treats an absent member as 0. */
  function Score(s: Store, member: string): int {
    if member in s.points then s.points[member] else 0
  }

  /** `addPoints`: ZINCRBY on the lower-cased member; the new total is returned. */
  function AddPoints(s: Store, username: string, delta: int): (r: (Store, int))
    ensures r.1 == Score(s, Lower(username)) + delta
    ensures r.0 == s.(points := s.points[Lower(username) := r.1])
  {
    var uname := Lower(username);
    var total := Score(s, uname) + delta;
    (s.(points := s.points[uname := total]), total)
  }

  /** `incrementStreak`: INCR; an absent key counts from 0, a non-integer value is refused. */
  function IncrementStreak(s: Store, username: string): (r: (Store, Option<int>))
    ensures r.1.None? <==> Lower(username) in s.streak && s.streak[Lower(username)].NonNumeric?
    ensures r.1.None? ==> r.0 == s
    ensures r.1.Some? ==> r.1.value == StreakCount(s, Lower(username)) + 1
    ensures r.1.Some? ==> r.0 == s.(streak := s.streak[Lower(username) := Num(r.1.value)])
  {
    LowerIdempotent(username);
    var key := HandleKey(Lower(username));
    if key !in s.streak then (s.(streak := s.streak[key := Num(1)]), Some(1))
    else match s.streak[key]
      case NonNumeric => (s, None)
      case Num(n) => (s.(streak := s.streak[key := Num(n + 1)]), Some(n + 1))
  }

  /** The numeric value of a streak key, absent and non-numeric reading as 0. */
  function StreakCount(s: Store, key: string): int {
    if key in s.streak && s.streak[key].Num? then s.streak[key].n else 0
  }

  /** `resetStreak`: SET the streak key to "0". */
  function ResetStreak(s: Store, username: string): (r: Store)
    ensures r == s.(streak := s.streak[Lower(username) := Num(0)])
  {
    LowerIdempotent(username);
    s.(streak := s.streak[HandleKey(Lower(username)) := Num(0)])
  }

  /** Milliseconds in `hours` hours, as `decayHours * 60 * 60 * 1000`. */
  function DecayMs(hours: int): int {
    hours * 60 * 60 * 1000
  }

  /** The last hit of `key` is a number and lies more than `decayMs` before `now`. */
  predicate Decayed(s: Store, key: string, now: int, decayMs: int) {
    key in s.lastAttack && s.lastAttack[key].Num? && now - s.lastAttack[key].n > decayMs
  }

  /**
   * `registerHitAndGetStreak`: reset when the last hit is numeric and older
   * than the window (strictly), then INCR, then stamp `now`.  The INCR can
   * only be refused when no reset happened, so a refusal changes nothing.
   */
  function RegisterHitAndGetStreak(s: Store, username: string, decayHours: int, now: int): (r: (Store, Option<int>))
    ensures r.1.None? <==> !Decayed(s, Lower(username), now, DecayMs(decayHours))
                           && Lower(username) in s.streak && s.streak[Lower(username)].NonNumeric?
    ensures r.1.None? ==> r.0 == s
    ensures r.1.Some? ==> r.1.value == if Decayed(s, Lower(username), now, DecayMs(decayHours)) then 1
                                       else StreakCount(s, Lower(username)) + 1
    ensures r.1.Some? ==> r.0 == s.(streak := s.streak[Lower(username) := Num(r.1.value)],
                                    lastAttack := s.lastAttack[Lower(username) := Num(now)])
  {
    var uname := Lower(username);
    LowerIdempotent(username);
    var decayMs := DecayMs(decayHours);
    var key := HandleKey(uname);
    var s1 := if key in s.lastAttack && s.lastAttack[key].Num? && now - s.lastAttack[key].n > decayMs
              then ResetStreak(s, uname) else s;
    var (s2, streak) := IncrementStreak(s1, uname);
    if streak.None? then (s2, None)
    else (s2.(lastAttack := s2.lastAttack[key := Num(now)]), streak)
  }

  /** `recordAttackPair`: the target remembers its last attacker. */
  function RecordAttackPair(s: Store, attacker: string, target: string): (r: Store)
    ensures r == s.(revenge := s.revenge[Lower(target) := Lower(attacker)])
  {
    LowerIdempotent(target);
    s.(revenge := s.revenge[HandleKey(Lower(target)) := Lower(attacker)])
  }

  /** `wasRevengeHit`: the attacker's last attacker is exactly the lower-cased target. */
  function WasRevengeHit(s: Store, attacker: string, target: string): (r: bool)
    ensures r <==> Lower(attacker) in s.revenge && s.revenge[Lower(attacker)] == Lower(target)
  {
    LowerIdempotent(attacker);
    var key := HandleKey(Lower(attacker));
    key in s.revenge && s.revenge[key] == Lower(target)
  }

  /** The targets recorded for an attacker key, empty when none. */
  function HitSet(s: Store, key: string): set<string> {
    if key in s.firstHits then s.firstHits[key] else {}
  }

  /** `recordHit`: SADD the lower-cased target to the attacker's set. */
  function RecordHit(s: Store, attacker: string, target: string): (r: Store)
    ensures r == s.(firstHits := s.firstHits[Lower(attacker) := HitSet(s, Lower(attacker)) + {Lower(target)}])
  {
    LowerIdempotent(attacker);
    var key := HandleKey(Lower(attacker));
    s.(firstHits := s.firstHits[key := HitSet(s, key) + {Lower(target)}])
  }

  /** `hasHitBefore`: SISMEMBER of the lower-cased target. */
  function HasHitBefore(s: Store, attacker: string, target: string): (r: bool)
    ensures r <==> Lower(target) in HitSet(s, Lower(attacker))
  {
    LowerIdempotent(attacker);
    Lower(target) in HitSet(s, HandleKey(Lower(attacker)))
  }

  // ---------------------------------------------------------------------
  // Properties of the store operations
  // ---------------------------------------------------------------------

  /** After `saveUserToken`, every case variant of the username resolves to the fid. */
  lemma SaveThenResolve(s: Store, fid: int, username: string, token: string, url: string, variant: string)
    requires EqualIgnoringCase(variant, username)
    ensures GetFidByUsername(SaveUserToken(s, fid, username, token, url), variant) == Some(fid)
  {
    LowerEqualIffCaseVariant(variant, username);
  }

  /** After `saveUserToken`, the fid's record is the lower-cased username with the given token and url. */
  lemma SaveThenGetToken(s: Store, fid: int, username: string, token: string, url: string)
    ensures GetUserToken(SaveUserToken(s, fid, username, token, url), fid)
         == if token != "" && url != "" then Some(StoredUser(fid, Lower(username), token, url)) else None
  {
  }

  /** A second `saveUserToken` for the same fid replaces the record and the mapping of the new name. */
  lemma SaveOverwrites(s: Store, fid: int, u1: string, t1: string, r1: string, u2: string, t2: string, r2: string)
    ensures var s2 := SaveUserToken(SaveUserToken(s, fid, u1, t1, r1), fid, u2, t2, r2);
            s2.users[fid] == StoredUser(fid, Lower(u2), t2, r2) && GetFidByUsername(s2, u2) == Some(fid)
            && GetUserToken(s2, fid) == GetUserToken(SaveUserToken(s, fid, u2, t2, r2), fid)
  {
  }

  /** Saving the same registration twice leaves the same state as saving it once. */
  lemma SaveIdempotent(s: Store, fid: int, username: string, token: string, url: string)
    ensures var once := SaveUserToken(s, fid, username, token, url);
            SaveUserToken(once, fid, username, token, url) == once
  {
  }

  /** Every handle mapped to a numeric fid has a user hash for that fid. */
  predicate DirectoryConsistent(s: Store) {
    forall h :: h in s.usernameToFid && s.usernameToFid[h].Num? ==> s.usernameToFid[h].n in s.users
  }

  lemma SaveKeepsDirectoryConsistent(s: Store, fid: int, username: string, token: string, url: string)
    requires DirectoryConsistent(s)
    ensures DirectoryConsistent(SaveUserToken(s, fid, username, token, url))
  {
  }

  /** In a consistent directory a resolved fid always has a stored hash. */
  lemma ResolvedFidHasRecord(s: Store, username: string)
    requires DirectoryConsistent(s)
    ensures GetFidByUsername(s, username).Some? ==> GetFidByUsername(s, username).value in s.users
  {
  }

  /** Every numeric streak is non-negative: INCR from an absent key and SET "0" keep it so. */
  predicate StreaksNonNegative(s: Store) {
    forall k :: k in s.streak && s.streak[k].Num? ==> s.streak[k].n >= 0
  }

  /**
   * `registerHitAndGetStreak` stamps `now`, returns at least 1 and keeps
   * streaks non-negative; it returns 1 exactly on a reset or a fresh streak.
   */
  lemma RegisterHitStreakAtLeastOne(s: Store, username: string, decayHours: int, now: int)
    requires StreaksNonNegative(s)
    ensures var r := RegisterHitAndGetStreak(s, username, decayHours, now);
            StreaksNonNegative(r.0)
            && (r.1.Some? ==> r.1.value >= 1 && r.0.lastAttack[Lower(username)] == Num(now))
            && (r.1.Some? ==>
                  (r.1.value == 1 <==>
                   (Decayed(s, Lower(username), now, DecayMs(decayHours)) || StreakCount(s, Lower(username)) == 0)))
  {
  }

  /** A gap of exactly the decay window does not reset: the old streak grows by one. */
  lemma StreakBoundaryNotDecayed(s: Store, username: string, decayHours: int, now: int, count: int)
    requires Lower(username) in s.lastAttack && s.lastAttack[Lower(username)] == Num(now - DecayMs(decayHours))
    requires Lower(username) in s.streak && s.streak[Lower(username)] == Num(count)
    ensures RegisterHitAndGetStreak(s, username, decayHours, now).1 == Some(count + 1)
  {
  }

  /** One millisecond past the window, the streak restarts at 1 whatever it was. */
  lemma StreakPastBoundaryResets(s: Store, username: string, decayHours: int, now: int)
    requires Lower(username) in s.lastAttack && s.lastAttack[Lower(username)] == Num(now - DecayMs(decayHours) - 1)
    ensures RegisterHitAndGetStreak(s, username, decayHours, now).1 == Some(1)
  {
  }

  /** After `recordAttackPair(a, t)`, t hitting a (in any case) is a revenge hit. */
  lemma RecordAttackThenRevenge(s: Store, attacker: string, target: string, a': string, t': string)
    requires EqualIgnoringCase(a', attacker) && EqualIgnoringCase(t', target)
    ensures WasRevengeHit(RecordAttackPair(s, attacker, target), t', a')
  {
    LowerEqualIffCaseVariant(a', attacker);
    LowerEqualIffCaseVariant(t', target);
  }

  /** After `recordHit(a, t)`, `hasHitBefore` holds for every case variant of the pair. */
  lemma RecordHitThenHasHit(s: Store, attacker: string, target: string, a': string, t': string)
    requires EqualIgnoringCase(a', attacker) && EqualIgnoringCase(t', target)
    ensures HasHitBefore(RecordHit(s, attacker, target), a', t')
  {
    LowerEqualIffCaseVariant(a', attacker);
    LowerEqualIffCaseVariant(t', target);
  }

  /** `recordHit` is a set add: recording the same pair again changes nothing. */
  lemma RecordHitIdempotent(s: Store, attacker: string, target: string)
    ensures var once := RecordHit(s, attacker, target);
            RecordHit(once, attacker, target) == once
  {
    var key := Lower(attacker);
    var once := RecordHit(s, attacker, target);
    assert HitSet(once, key) + {Lower(target)} == HitSet(once, key);
  }

  /** Recording a different pair does not change `hasHitBefore` of this pair. */
  lemma RecordHitOtherPair(s: Store, attacker: string, target: string, a': string, t': string)
    requires !EqualIgnoringCase(a', attacker) || !EqualIgnoringCase(t', target)
    ensures HasHitBefore(RecordHit(s, a', t'), attacker, target) == HasHitBefore(s, attacker, target)
  {
    LowerEqualIffCaseVariant(a', attacker);
    LowerEqualIffCaseVariant(t', target);
  }

  /** A fresh store knows no handle, no score and no recorded hit. */
  lemma EmptyStoreKnowsNothing(username: string, fid: int, attacker: string, target: string)
    ensures GetFidByUsername(Empty, username) == None
    ensures GetUserToken(Empty, fid) == None
    ensures Score(Empty, Lower(username)) == 0
    ensures !HasHitBefore(Empty, attacker, target) && !WasRevengeHit(Empty, attacker, target)
    ensures DirectoryConsistent(Empty) && StreaksNonNegative(Empty)
  {
  }
}
