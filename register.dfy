/**
 * app/api/register/route.ts: reject a registration with any falsy field,
 * otherwise save it with `saveUserToken`.
 */
module RegisterRoute {
  import opened Wrappers
  import opened Handles
  import opened SnowballStore
  import SnowballDb

  /** The four JSON fields; an absent field is `None`. */
  datatype RegisterRequest = RegisterRequest(fid: Option<int>, username: Option<string>, token: Option<string>, url: Option<string>)

  datatype RegisterResponse = Registered | MissingData {
    function Status(): int {
      if Registered? then 200 else 400
    }
  }

  /** JavaScript truthiness: a fid of 0 and an empty string are falsy, like an absent field. */
  predicate Complete(req: RegisterRequest) {
    && req.fid.Some? && req.fid.value != 0
    && Truthy(req.username) && Truthy(req.token) && Truthy(req.url)
  }

  /** The handler on a store value: the response and the store it leaves. */
  function Register(s: Store, req: RegisterRequest): (r: (RegisterResponse, Store))
    ensures r.0 == MissingData <==> !Complete(req)
    ensures r.0 == MissingData ==> r.1 == s
    ensures r.0 == Registered ==>
              r.1 == SaveUserToken(s, req.fid.value, req.username.value, req.token.value, req.url.value)
  {
    if !Complete(req) then (MissingData, s)
    else (Registered, SaveUserToken(s, req.fid.value, req.username.value, req.token.value, req.url.value))
  }

  /** The handler against the store object. */
  method Post(db: SnowballDb.Db, req: RegisterRequest) returns (resp: RegisterResponse)
    modifies db
    ensures (resp, db.Snapshot()) == Register(old(db.Snapshot()), req)
  {
    if !Complete(req) {
      return MissingData;
    }
    db.SaveUserToken(req.fid.value, req.username.value, req.token.value, req.url.value);
    resp := Registered;
  }

  /**
   * After a successful registration the username resolves, in any case, to
   * the fid, and the fid's record holds the lower-cased name, the token and
   * the url.
   */
  lemma RegisteredUserResolves(s: Store, req: RegisterRequest, variant: string)
    requires Complete(req) && EqualIgnoringCase(variant, req.username.value)
    ensures var s' := Register(s, req).1;
            && GetFidByUsername(s', variant) == req.fid
            && GetUserToken(s', req.fid.value)
               == Some(StoredUser(req.fid.value, Lower(req.username.value), req.token.value, req.url.value))
  {
    SaveThenResolve(s, req.fid.value, req.username.value, req.token.value, req.url.value, variant);
  }

  /** Registering a fid again replaces its token and url with the new ones. */
  lemma ReRegisterReplaces(s: Store, first: RegisterRequest, again: RegisterRequest)
    requires Complete(first) && Complete(again) && first.fid == again.fid
    ensures var s' := Register(Register(s, first).1, again).1;
            GetUserToken(s', again.fid.value)
            == Some(StoredUser(again.fid.value, Lower(again.username.value), again.token.value, again.url.value))
  {
  }

  /** Registering the same data twice leaves the same store as registering it once. */
  lemma RegisterIdempotent(s: Store, req: RegisterRequest)
    ensures Register(Register(s, req).1, req) == Register(s, req)
  {
    if Complete(req) {
      SaveIdempotent(s, req.fid.value, req.username.value, req.token.value, req.url.value);
    }
  }

  /** A registration never stores the sentinel fid 0. */
  lemma RegisterNeverStoresFidZero(s: Store, req: RegisterRequest)
    requires 0 !in s.users
    ensures 0 !in Register(s, req).1.users
  {
  }
}
