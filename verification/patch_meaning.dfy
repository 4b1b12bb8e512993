/** What a PATCH does, request field by request field, when it is refused, and that every stored
    URL passed the validator. */
module PatchMeaning {
  import opened Models
  import opened Strings
  import opened Create
  import P = Passwords
  import opened Patch
  import opened Validation
  import S = StoreSpec

  // ---------- when a request is accepted ----------

  ghost predicate NamesAField(req: PatchRequest) {
    || req.url.Some? || req.expirationMins.Some? || req.tags.Some? || req.maxClicks.Some? || req.password.Some?
    || req.webhookUrl.Some? || req.rotateWebhook || req.destinations.Some?
  }

  /** The target, the deadline, the tags and the cap; a cap must exceed the clicks that were read. */
  ghost predicate TargetGood(req: PatchRequest, m: Row, env: Env) {
    && (req.url.Some? ==> req.url.value != "" && env.urlOk(req.url.value))
    && (req.expirationMins.Some? ==> req.expirationMins.value >= 0)
    && (req.tags.Some? ==> AcceptableTags(req.tags.value))
    && (req.maxClicks.Some? ==>
          req.maxClicks.value >= 0 && (req.maxClicks.value > 0 ==> req.maxClicks.value > m.clickCount))
  }

  ghost predicate AcceptableTags(raws: seq<string>) {
    (forall i :: 0 <= i < |raws| ==> ByteLen(TrimSpace(raws[i])) <= 32) && |Kept(raws)| <= 16
  }

  ghost predicate PasswordMade(req: PatchRequest, env: Env) {
    req.password.Some? && req.password.value != "" ==>
      env.salt.Some? && env.kdf(req.password.value, env.salt.value).Some?
  }

  ghost predicate WebhookGood(req: PatchRequest, env: Env) {
    req.webhookUrl.Some? && req.webhookUrl.value != "" ==> env.urlOk(req.webhookUrl.value)
  }

  /** A URL over a mapping without a secret, or with a rotation asked for, needs a new secret. */
  ghost predicate UrlNeedsSecret(req: PatchRequest, m: Row) {
    req.webhookUrl.Some? && req.webhookUrl.value != "" && (m.webhookSecret == [] || req.rotateWebhook)
  }

  ghost predicate PoolGood(req: PatchRequest, env: Env) {
    req.destinations.Some? ==> AcceptablePool(req.destinations.value, env.urlOk)
  }

  ghost predicate AcceptablePool(pool: seq<Destination>, urlOk: string -> bool) {
    |pool| <= 10 && forall i :: 0 <= i < |pool| ==> 1 <= pool[i].weight <= 100 && urlOk(pool[i].url)
  }

  ghost predicate PlainRotation(req: PatchRequest) {
    req.rotateWebhook && req.webhookUrl.None?
  }

  /** Accepted exactly if the request names a field, every named one is good, and the random source
      gave what was needed. */
  lemma AcceptedIff(req: PatchRequest, m: Row, env: Env)
    ensures Fault(req, m, env).None? <==>
      && NamesAField(req) && TargetGood(req, m, env) && PasswordMade(req, env) && WebhookGood(req, env)
      && (UrlNeedsSecret(req, m) ==> env.secret.Some?) && PoolGood(req, env)
      && (PlainRotation(req) ==> m.webhookUrl != "" && env.secret.Some?)
  {
    TargetFaultIs(req, m, env);
    WebhookFaultIs(req, m, env);
  }

  /** Otherwise 500 exactly if a failing random source was the first thing wrong, and 400 if not. */
  lemma RefusedWith(req: PatchRequest, m: Row, env: Env)
    requires Fault(req, m, env).Some?
    ensures Fault(req, m, env) == Some(400) || Fault(req, m, env) == Some(500)
    ensures Fault(req, m, env) == Some(500) <==>
      && NamesAField(req) && TargetGood(req, m, env)
      && (!PasswordMade(req, env)
          || (&& WebhookGood(req, env) && env.secret.None?
              && (UrlNeedsSecret(req, m) || (PoolGood(req, env) && PlainRotation(req) && m.webhookUrl != ""))))
  {
    TargetFaultIs(req, m, env);
    WebhookFaultIs(req, m, env);
  }

  lemma TargetFaultIs(req: PatchRequest, m: Row, env: Env)
    ensures TargetFault(req, m, env) ==
      if !NamesAField(req) || !TargetGood(req, m, env) then Some(400)
      else if !PasswordMade(req, env) then Some(500) else None
  {
    if req.tags.Some? {
      NormalizedIsGood(req.tags.value);
      TagsAcceptable(req.tags.value);
    }
  }

  lemma TagsAcceptable(raws: seq<string>)
    ensures Normalized(raws).Ok? <==> AcceptableTags(raws)
  {
    NormalizedIsGood(raws);
    assert forall i :: 0 <= i < |raws| ==> (TooLong(raws[i]) <==> ByteLen(TrimSpace(raws[i])) > 32);
  }

  lemma WebhookFaultIs(req: PatchRequest, m: Row, env: Env)
    ensures WebhookFault(req, m, env) ==
      if !WebhookGood(req, env) then Some(400)
      else if UrlNeedsSecret(req, m) && env.secret.None? then Some(500)
      else if !PoolGood(req, env) then Some(400)
      else if PlainRotation(req) && m.webhookUrl == "" then Some(400)
      else if PlainRotation(req) && env.secret.None? then Some(500) else None
  {
    if req.destinations.Some? {
      ValidatedPoolIsGood(req.destinations.value, env.urlOk);
    }
  }

  // ---------- what an accepted request leaves ----------

  /** The target group: replaced, cleared, or as it was when the request omits it. */
  lemma PatchedTarget(row: Row, req: PatchRequest, m: Row, env: Env)
    requires Fault(req, m, env).None?
    ensures var after := S.ApplyUpdate(row, Fields(req, m, env), env.now);
      && after.originalUrl == (if req.url.Some? then req.url.value else row.originalUrl)
      && (req.expirationMins.None? ==> after.expiresAt == row.expiresAt)
      && (req.expirationMins == Some(0) ==> after.expiresAt.None?)
      && (req.expirationMins.Some? && req.expirationMins.value > 0 ==>
            after.expiresAt == Some(env.now + 60_000_000_000 *
              (if req.expirationMins.value > env.maxExpirationMinutes then env.maxExpirationMinutes
               else req.expirationMins.value)))
      && after.maxClicks == (if req.maxClicks.Some? then req.maxClicks.value else row.maxClicks)
      && (req.maxClicks.Some? && after.maxClicks > 0 ==> after.maxClicks > m.clickCount)
  {
  }

  /** The tags are the caller's, trimmed, without blanks and repetitions. */
  lemma PatchedTags(row: Row, req: PatchRequest, m: Row, env: Env)
    requires Fault(req, m, env).None?
    ensures var after := S.ApplyUpdate(row, Fields(req, m, env), env.now);
      && (req.tags.None? ==> after.tags == row.tags)
      && (req.tags.Some? ==>
            && GoodTags(after.tags)
            && forall t :: t in after.tags <==>
                 t != "" && exists i :: 0 <= i < |req.tags.value| && TrimSpace(req.tags.value[i]) == t)
  {
    if req.tags.Some? {
      NormalizedIsGood(req.tags.value);
    }
  }

  /** The passphrase pair: opened by the new passphrase, none, or as it was. */
  lemma PatchedPassword(row: Row, req: PatchRequest, m: Row, env: Env)
    requires env.Valid() && Fault(req, m, env).None?
    ensures var after := S.ApplyUpdate(row, Fields(req, m, env), env.now);
      && (req.password.None? ==> after.passwordHash == row.passwordHash && after.passwordSalt == row.passwordSalt)
      && (req.password == Some("") ==> after.passwordHash == [] && after.passwordSalt == [])
      && (req.password.Some? && req.password.value != "" ==>
            && after.passwordHash != [] && after.passwordSalt == env.salt.value
            && env.kdf(req.password.value, after.passwordSalt) == Some(after.passwordHash)
            && P.VerifyPassword(req.password.value, after.passwordHash, after.passwordSalt, env.kdf))
  {
  }

  /** Webhook and pool. */
  lemma PatchedLinks(row: Row, req: PatchRequest, m: Row, env: Env)
    requires Fault(req, m, env).None?
    ensures var after := S.ApplyUpdate(row, Fields(req, m, env), env.now);
      && after.webhookUrl == (if req.webhookUrl.Some? then req.webhookUrl.value
                              else if req.rotateWebhook then m.webhookUrl else row.webhookUrl)
      && (req.webhookUrl == Some("") ==> after.webhookSecret == [])
      && (UrlNeedsSecret(req, m) || PlainRotation(req) ==> after.webhookSecret == env.secret.value)
      && (req.webhookUrl.Some? && req.webhookUrl.value != "" && !UrlNeedsSecret(req, m) ==>
            after.webhookSecret == m.webhookSecret)
      && (req.webhookUrl.None? && !req.rotateWebhook ==> after.webhookSecret == row.webhookSecret)
      && after.destinations == (if req.destinations.Some? then req.destinations.value else row.destinations)
  {
    if req.destinations.Some? {
      ValidatedPoolIsGood(req.destinations.value, env.urlOk);
    }
  }

  /** No request reaches anything else. */
  lemma PatchedNothingElse(row: Row, req: PatchRequest, m: Row, env: Env)
    requires Fault(req, m, env).None?
    ensures var after := S.ApplyUpdate(row, Fields(req, m, env), env.now);
      && after.id == row.id && after.createdAt == row.createdAt && after.clickCount == row.clickCount
      && after.lastAccessed == row.lastAccessed && after.ownerTokenHash == row.ownerTokenHash
      && after.apiKeyId == row.apiKeyId && after.previewTitle == row.previewTitle
      && after.previewImage == row.previewImage && after.previewDescription == row.previewDescription
      && after.previewFetchedAt == row.previewFetchedAt
  {
  }

  /** The secret in the response is the new one, when there is a new one. */
  lemma RevealedExactly(req: PatchRequest, m: Row, env: Env)
    requires Fault(req, m, env).None?
    ensures NewSecret(req, m, env) == if UrlNeedsSecret(req, m) || PlainRotation(req) then env.secret else None
  {
  }

  // ---------- every stored URL passed the validator ----------

  ghost predicate UrlsOk(row: Row, ok: string -> bool) {
    && ok(row.originalUrl)
    && (row.webhookUrl != "" ==> ok(row.webhookUrl))
    && forall i :: 0 <= i < |row.destinations| ==> ok(row.destinations[i].url)
  }

  /** One validator is in force for all requests of the run. */
  ghost predicate Under(a: Action, ok: string -> bool) {
    && (a.CommitPatch? ==> a.env.urlOk == ok)
    && (a.Create? ==> a.createEnv.urlOk == ok)
  }

  ghost predicate UrlsInv(sys: Sys, ok: string -> bool) {
    && (forall code :: code in sys.store.urls ==> UrlsOk(sys.store.urls[code], ok))
    && (forall id :: id in sys.patches ==> UrlsOk(sys.patches[id].snapshot, ok))
  }

  lemma PatchKeepsUrls(row: Row, req: PatchRequest, m: Row, env: Env)
    requires Fault(req, m, env).None? && UrlsOk(row, env.urlOk) && UrlsOk(m, env.urlOk)
    ensures UrlsOk(S.ApplyUpdate(row, Fields(req, m, env), env.now), env.urlOk)
  {
    AcceptedIff(req, m, env);
    PatchedTarget(row, req, m, env);
    PatchedLinks(row, req, m, env);
  }

  lemma CommitKeepsUrls(sys: Sys, a: Action, ok: string -> bool)
    requires UrlsInv(sys, ok) && a.CommitPatch? && Under(a, ok)
    ensures UrlsInv(Next(sys, a), ok)
  {
    if a.id in sys.patches {
      var p := sys.patches[a.id];
      if Fault(p.req, p.snapshot, a.env).None? && p.code in sys.store.urls {
        PatchKeepsUrls(sys.store.urls[p.code], p.req, p.snapshot, a.env);
      }
    }
  }

  lemma CreateKeepsUrls(sys: Sys, a: Action, ok: string -> bool)
    requires UrlsInv(sys, ok) && a.Create? && Under(a, ok)
    ensures UrlsInv(Next(sys, a), ok)
  {
    if CreateFault(a.create, a.createEnv).None? {
      ValidatedPoolIsGood(a.create.destinations, ok);
    }
  }

  lemma StepKeepsUrls(s: S.State, op: S.Op, code: string)
    requires !op.OpSet? && !op.OpUpdate? && code in S.Step(s, op).urls
    ensures code in s.urls
    ensures var was, row := s.urls[code], S.Step(s, op).urls[code];
      row.originalUrl == was.originalUrl && row.webhookUrl == was.webhookUrl && row.destinations == was.destinations
  {
  }

  lemma OtherKeepsUrls(sys: Sys, a: Action, ok: string -> bool)
    requires UrlsInv(sys, ok) && a.Other? && Enabled(a)
    ensures UrlsInv(Next(sys, a), ok)
  {
    hide S.Step;
    forall code | code in Next(sys, a).store.urls ensures UrlsOk(Next(sys, a).store.urls[code], ok) {
      StepKeepsUrls(sys.store, a.op, code);
    }
  }

  lemma NextKeepsUrls(sys: Sys, a: Action, ok: string -> bool)
    requires UrlsInv(sys, ok) && Enabled(a) && Under(a, ok)
    ensures UrlsInv(Next(sys, a), ok)
  {
    match a
    case BeginPatch(_, _, _, _) =>
    case CommitPatch(_, _) => CommitKeepsUrls(sys, a, ok);
    case Create(_, _, _, _, _) => CreateKeepsUrls(sys, a, ok);
    case Unfurl(_, _, _, _, _) =>
    case Other(_) => OtherKeepsUrls(sys, a, ok);
  }

  /** In every reachable state, however the handlers interleave: every stored target, webhook and
      pool URL passed the validator. */
  lemma {:induction false} EveryUrlValidated(actions: seq<Action>, ok: string -> bool)
    requires forall i :: 0 <= i < |actions| ==> Enabled(actions[i]) && Under(actions[i], ok)
    ensures UrlsInv(Run(actions), ok)
  {
    if actions != [] {
      EveryUrlValidated(actions[..|actions| - 1], ok);
      NextKeepsUrls(Run(actions[..|actions| - 1]), actions[|actions| - 1], ok);
    }
  }
}
