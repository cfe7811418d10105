/**
 * app/api/webhook/route.ts: on a `miniapp_added` event carrying a token and
 * a url, store them under the placeholder fid 0 and username "unknown"; the
 * answer is `{success: true}` whatever the event.
 */
module WebhookRoute {
  import opened Wrappers
  import opened Handles
  import opened SnowballStore
  import SnowballDb
  import ThrowRoute

  const SentinelFid := 0
  const SentinelUsername := "unknown"

  datatype NotificationDetails = NotificationDetails(token: Option<string>, url: Option<string>)

  /** The two JSON fields the handler reads; an absent field is `None`. */
  datatype WebhookEvent = WebhookEvent(event: Option<string>, notificationDetails: Option<NotificationDetails>)

  datatype WebhookResponse = WebhookResponse(success: bool)

  /** The event adds the mini app and carries a non-empty token and url. */
  predicate Registers(ev: WebhookEvent) {
    && ev.event == Some("miniapp_added")
    && ev.notificationDetails.Some?
    && Truthy(ev.notificationDetails.value.token)
    && Truthy(ev.notificationDetails.value.url)
  }

  /** The store the handler leaves. */
  function Webhook(s: Store, ev: WebhookEvent): (s': Store)
    ensures !Registers(ev) ==> s' == s
    ensures Registers(ev) ==>
              var d := ev.notificationDetails.value;
              s' == SaveUserToken(s, SentinelFid, SentinelUsername, d.token.value, d.url.value)
  {
    if ev.event == Some("miniapp_added") then
      var details := ev.notificationDetails;
      if details.Some? && Truthy(details.value.token) && Truthy(details.value.url) then
        SaveUserToken(s, 0, "unknown", details.value.token.value, details.value.url.value)
      else s
    else s
  }

  /** The handler against the store object. */
  method Post(db: SnowballDb.Db, ev: WebhookEvent) returns (resp: WebhookResponse)
    modifies db
    ensures db.Snapshot() == Webhook(old(db.Snapshot()), ev)
    ensures resp.success
  {
    if ev.event == Some("miniapp_added") {
      var details := ev.notificationDetails;
      if details.Some? && Truthy(details.value.token) && Truthy(details.value.url) {
        db.SaveUserToken(0, "unknown", details.value.token.value, details.value.url.value);
      }
    }
    resp := WebhookResponse(true);
  }

  /** The placeholder registration maps "unknown" to fid 0 and stores the token and url under fid 0. */
  lemma SentinelRegistration(s: Store, ev: WebhookEvent)
    requires Registers(ev)
    ensures var s', d := Webhook(s, ev), ev.notificationDetails.value;
            && GetFidByUsername(s', SentinelUsername) == Some(0)
            && GetUserToken(s', 0) == Some(StoredUser(0, SentinelUsername, d.token.value, d.url.value))
  {
    var d := ev.notificationDetails.value;
    SaveThenResolve(s, 0, "unknown", d.token.value, d.url.value, "unknown");
    assert Lower("unknown") == "unknown";
  }

  /**
   * Throwing at "unknown" after the placeholder registration is refused with
   * 404 and changes nothing: fid 0 counts as unresolved.
   */
  lemma SentinelIsNotATarget(s: Store, ev: WebhookEvent, sender: string, delivered: bool, now: int)
    requires Registers(ev) && sender != ""
    ensures var s' := Webhook(s, ev);
            var r := ThrowRoute.Throw(s', ThrowRoute.ThrowRequest(Some(SentinelUsername), Some(sender)), delivered, now);
            r.0.Status() == 404 && r.1 == s'
  {
    var s' := Webhook(s, ev);
    SentinelRegistration(s, ev);
    CleanSentinel();
    assert !ThrowRoute.Reachable(s', ThrowRoute.CleanTarget(SentinelUsername));
  }

  /** The raw target "unknown" is already clean. */
  lemma CleanSentinel()
    ensures ThrowRoute.CleanTarget(SentinelUsername) == SentinelUsername
  {
    assert RemoveFirst(SentinelUsername, '@') == SentinelUsername;
    assert !IsSpace(SentinelUsername[0]) && !IsSpace(SentinelUsername[|SentinelUsername| - 1]);
  }
}
