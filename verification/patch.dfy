/** PATCH: how a request and a snapshot become an update, and what every stored row
    satisfies while the handlers interleave on stale snapshots. */
module Patch {
  import opened Models
  import opened Create
  import opened Validation
  import S = StoreSpec
  import Sql = UpdateSql

  /** `None` is a field omitted from the JSON body. */
  datatype PatchRequest = PatchRequest(
    url: Option<string>,
    expirationMins: Option<int>,
    tags: Option<seq<string>>,
    maxClicks: Option<int>,
    password: Option<string>,
    webhookUrl: Option<string>,
    rotateWebhook: bool,
    destinations: Option<seq<Destination>>)

  /** A request that names no field. */
  const NOTHING := PatchRequest(None, None, None, None, None, None, false, None)

  // ---------- PATCH ----------

  // The checks in the handler's order; `Some` carries the status of the first that fails.

  function TargetFault(req: PatchRequest, m: Row, env: Env): Option<int> {
    if req == NOTHING then Some(400)
    else if req.url.Some? && (req.url.value == "" || !env.urlOk(req.url.value)) then Some(400)
    else if req.expirationMins.Some? && req.expirationMins.value < 0 then Some(400)
    else if req.tags.Some? && Normalized(req.tags.value).Err? then Some(400)
    else if req.maxClicks.Some? && (req.maxClicks.value < 0 || 0 < req.maxClicks.value <= m.clickCount) then Some(400)
    else if NewPassword(req) && env.hashed(req.password.value).None? then Some(500)
    else None
  }

  function WebhookFault(req: PatchRequest, m: Row, env: Env): Option<int> {
    if NewUrl(req) && !env.urlOk(req.webhookUrl.value) then Some(400)
    else if NewSecretForUrl(req, m) && env.secret.None? then Some(500)
    else if req.destinations.Some? && ValidatedPool(req.destinations.value, env.urlOk).Err? then Some(400)
    else if RotateOnly(req) && m.webhookUrl == "" then Some(400)
    else if RotateOnly(req) && env.secret.None? then Some(500)
    else None
  }

  function Fault(req: PatchRequest, m: Row, env: Env): Option<int> {
    if TargetFault(req, m, env).Some? then TargetFault(req, m, env) else WebhookFault(req, m, env)
  }

  predicate NewPassword(req: PatchRequest) {
    req.password.Some? && req.password.value != ""
  }

  predicate NewUrl(req: PatchRequest) {
    req.webhookUrl.Some? && req.webhookUrl.value != ""
  }

  predicate NewSecretForUrl(req: PatchRequest, m: Row) {
    NewUrl(req) && (m.webhookSecret == [] || req.rotateWebhook)
  }

  predicate RotateOnly(req: PatchRequest) {
    req.rotateWebhook && req.webhookUrl.None?
  }

  function TargetFields(req: PatchRequest, m: Row, env: Env): UpdateFields
    requires TargetFault(req, m, env).None?
  {
    UpdateFields(
      originalUrl := req.url,
      expiresAt := if req.expirationMins.Some? && req.expirationMins.value > 0
                   then Some(Deadline(req.expirationMins.value, env)) else None,
      clearExpiration := req.expirationMins == Some(0),
      tags := if req.tags.Some? then Some(Normalized(req.tags.value).value) else None,
      maxClicks := req.maxClicks,
      passwordHash := if NewPassword(req) then Some(env.hashed(req.password.value).value.0) else None,
      passwordSalt := if NewPassword(req) then env.hashed(req.password.value).value.1 else [],
      clearPassword := req.password == Some(""))
  }

  function WithWebhook(f: UpdateFields, req: PatchRequest, m: Row, env: Env): UpdateFields
    requires WebhookFault(req, m, env).None?
  {
    f.(webhookUrl := if NewUrl(req) then req.webhookUrl
                     else if RotateOnly(req) then Some(m.webhookUrl) else f.webhookUrl,
       webhookSecret := if NewSecretForUrl(req, m) || RotateOnly(req) then env.secret
                        else if NewUrl(req) then Some(m.webhookSecret) else f.webhookSecret,
       clearWebhook := f.clearWebhook || req.webhookUrl == Some(""),
       destinations := if req.destinations.Some? then Some(ValidatedPool(req.destinations.value, env.urlOk).value)
                       else f.destinations)
  }

  /** The update a faultless request asks for, given the snapshot it was decided on. */
  function Fields(req: PatchRequest, m: Row, env: Env): UpdateFields
    requires Fault(req, m, env).None?
  {
    WithWebhook(TargetFields(req, m, env), req, m, env)
  }

  /** The secret that the response reveals: one that was generated on this PATCH. */
  function NewSecret(req: PatchRequest, m: Row, env: Env): Option<Bytes> {
    if NewSecretForUrl(req, m) || RotateOnly(req) then env.secret else None
  }

  /** The handler from the decoded request to the call of `Update`; an error carries the
      response status. */
  method BuildFields(req: PatchRequest, m: Row, env: Env)
    returns (r: Result<UpdateFields, int>, newSecret: Option<Bytes>)
    ensures r == if Fault(req, m, env).Some? then Err(Fault(req, m, env).value) else Ok(Fields(req, m, env))
    ensures r.Ok? ==> newSecret == NewSecret(req, m, env)
  {
    newSecret := None;
    r := BuildTarget(req, m, env);
    if r.Ok? {
      r, newSecret := BuildWebhook(r.value, req, m, env);
    }
  }

  method BuildTarget(req: PatchRequest, m: Row, env: Env) returns (r: Result<UpdateFields, int>)
    ensures r == if TargetFault(req, m, env).Some? then Err(TargetFault(req, m, env).value)
                 else Ok(TargetFields(req, m, env))
  {
    if req == NOTHING {
      return Err(400);
    }
    if req.url.Some? {
      if req.url.value == "" {
        return Err(400);
      }
      if !env.urlOk(req.url.value) {
        return Err(400);
      }
    }
    var f := UpdateFields(originalUrl := req.url);
    if req.expirationMins.Some? {
      var mins := req.expirationMins.value;
      if mins < 0 {
        return Err(400);
      } else if mins == 0 {
        f := f.(clearExpiration := true);
      } else {
        if mins > env.maxExpirationMinutes {
          mins := env.maxExpirationMinutes;
        }
        f := f.(expiresAt := Some(env.now + mins * MINUTE));
      }
    }
    if req.tags.Some? {
      var normalized := NormalizeTags(req.tags.value);
      if normalized.Err? {
        return Err(400);
      }
      f := f.(tags := Some(normalized.value));
    }
    if req.maxClicks.Some? {
      var newCap := req.maxClicks.value;
      if newCap < 0 {
        return Err(400);
      }
      if newCap > 0 && newCap <= m.clickCount {
        return Err(400);
      }
      f := f.(maxClicks := Some(newCap));
    }
    if req.password.Some? {
      if req.password.value == "" {
        f := f.(clearPassword := true);
      } else {
        var hashed := env.hashed(req.password.value);
        if hashed.None? {
          return Err(500);
        }
        f := f.(passwordHash := Some(hashed.value.0), passwordSalt := hashed.value.1);
      }
    }
    return Ok(f);
  }

  method BuildWebhook(soFar: UpdateFields, req: PatchRequest, m: Row, env: Env)
    returns (r: Result<UpdateFields, int>, newSecret: Option<Bytes>)
    ensures r == if WebhookFault(req, m, env).Some? then Err(WebhookFault(req, m, env).value)
                 else Ok(WithWebhook(soFar, req, m, env))
    ensures r.Ok? ==> newSecret == NewSecret(req, m, env)
  {
    var f := soFar;
    newSecret := None;
    if req.webhookUrl.Some? {
      if req.webhookUrl.value == "" {
        f := f.(clearWebhook := true);
      } else {
        if !env.urlOk(req.webhookUrl.value) {
          return Err(400), None;
        }
        f := f.(webhookUrl := req.webhookUrl);
        if |m.webhookSecret| == 0 || req.rotateWebhook {
          if env.secret.None? {
            return Err(500), None;
          }
          f := f.(webhookSecret := env.secret);
          newSecret := env.secret;
        } else {
          f := f.(webhookSecret := Some(m.webhookSecret));
        }
      }
    }
    if req.destinations.Some? {
      var dests := ValidateDestinations(req.destinations.value, env.urlOk);
      if dests.Err? {
        return Err(400), None;
      }
      f := f.(destinations := Some(dests.value));
    }
    if req.rotateWebhook && req.webhookUrl.None? {
      if m.webhookUrl == "" {
        return Err(400), None;
      }
      if env.secret.None? {
        return Err(500), None;
      }
      f := f.(webhookUrl := Some(m.webhookUrl), webhookSecret := env.secret);
      newSecret := env.secret;
    }
    return Ok(f), newSecret;
  }

  // ---------- what a stored row satisfies ----------

  /** What every update that a handler submits satisfies. */
  ghost predicate FieldsInv(f: UpdateFields) {
    && (f.webhookUrl.Some? && !f.clearWebhook ==>
          f.webhookUrl.value != "" && f.webhookSecret.Some? && f.webhookSecret.value != [])
    && (f.passwordHash.Some? && !f.clearPassword ==> f.passwordHash.value != [] && f.passwordSalt != [])
    && (f.destinations.Some? ==> GoodPool(f.destinations.value))
    && (f.tags.Some? ==> GoodTags(f.tags.value))
    && f.apiKeyId.None?
  }

  /** PATCH always passes webhook URL and secret together, so the three backends do the
      same with it, and the update leaves every field pair and limit intact. */
  lemma PatchFieldsGood(req: PatchRequest, m: Row, env: Env)
    requires env.Valid() && Fault(req, m, env).None?
    ensures FieldsInv(Fields(req, m, env))
    ensures Sql.WebhookPaired(Fields(req, m, env))
  {
    if req.tags.Some? {
      NormalizedIsGood(req.tags.value);
    }
    if req.destinations.Some? {
      ValidatedPoolIsGood(req.destinations.value, env.urlOk);
    }
    assert NewPassword(req) ==> env.hashed(req.password.value).Some?;
  }

  /** A secret in the response is the one now stored, whatever the row was by then; without
      one, a stored secret stays, goes with its webhook, or is the snapshot's. */
  lemma RevealedSecretIsStored(row: Row, req: PatchRequest, m: Row, env: Env)
    requires Fault(req, m, env).None?
    ensures var after := S.ApplyUpdate(row, Fields(req, m, env), env.now);
      match NewSecret(req, m, env)
      case Some(secret) => after.webhookSecret == secret && after.webhookUrl != ""
      case None =>
        after.webhookSecret == if req.webhookUrl.None? then row.webhookSecret
                               else if req.webhookUrl.value == "" then [] else m.webhookSecret
  {
  }

  /** Without a new secret, the secret stored by then survives the update if and only if the
      request leaves the webhook alone, clears one that has no secret, or read that very secret. */
  lemma SecretSurvivesIff(row: Row, req: PatchRequest, m: Row, env: Env)
    requires Fault(req, m, env).None? && NewSecret(req, m, env).None?
    ensures S.ApplyUpdate(row, Fields(req, m, env), env.now).webhookSecret == row.webhookSecret <==>
      || req.webhookUrl.None?
      || (if req.webhookUrl.value == "" then row.webhookSecret == [] else m.webhookSecret == row.webhookSecret)
  {
    RevealedSecretIsStored(row, req, m, env);
  }

  lemma UpdateKeepsRowInv(row: Row, f: UpdateFields, now: Time)
    requires RowInv(row) && FieldsInv(f)
    ensures RowInv(S.ApplyUpdate(row, f, now))
  {
  }

  /** So PATCH and the unfurler leave the same rows on all three backends. */
  lemma HandlersAgreeOnBackends(
      j: Sql.Codec, t: Sql.Table, code: string, req: PatchRequest, m: Row, env: Env,
      title: string, image: string, description: string)
    requires j.Valid() && env.Valid() && Fault(req, m, env).None?
    ensures SameOnBackends(j, t, code, Fields(req, m, env), env.now)
    ensures SameOnBackends(j, t, code, UnfurlFields(title, image, description), env.now)
  {
    PatchFieldsGood(req, m, env);
    Sql.BackendsAgree(j, t, code, Fields(req, m, env), env.now);
    Sql.BackendsAgree(j, t, code, UnfurlFields(title, image, description), env.now);
  }

  ghost predicate SameOnBackends(j: Sql.Codec, t: Sql.Table, code: string, f: UpdateFields, now: Time) {
    Sql.DecodeTable(j, Sql.UpdateTable(j, t, code, f, now))
      == S.Update(S.EMPTY.(urls := Sql.DecodeTable(j, t)), code, f, now).urls
  }

  function UnfurlFields(title: string, image: string, description: string): UpdateFields {
    UpdateFields(previewTitle := Some(title), previewImage := Some(image), previewDescription := Some(description),
                 setPreviewFetched := true)
  }

  // ---------- handlers interleaving ----------

  /** PATCH requests between their Get and their Update. */
  datatype Pending = Pending(code: string, req: PatchRequest, snapshot: Row)
  datatype Sys = Sys(store: S.State, patches: map<nat, Pending>)

  const START := Sys(S.EMPTY, map[])

  datatype Action =
    | BeginPatch(id: nat, code: string, req: PatchRequest, now: Time)
    | CommitPatch(id: nat, env: Env)
    | Create(newCode: string, create: ShortenRequest, apiKeyId: int, owner: Bytes, createEnv: Env)
    | Unfurl(target: string, title: string, image: string, description: string, at: Time)
    | Other(op: S.Op)

  /** Every other operation; rows come from Create, and updates from PATCH and Unfurl. */
  ghost predicate Enabled(a: Action) {
    match a
    case CommitPatch(_, env) => env.Valid()
    case Create(_, _, _, _, env) => env.Valid()
    case Other(op) => !op.OpSet? && !op.OpUpdate?
    case _ => true
  }

  function Next(sys: Sys, a: Action): Sys {
    match a
    case BeginPatch(id, code, req, now) =>
      var got := S.Get(sys.store, code, now);
      if got.Ok? then sys.(patches := sys.patches[id := Pending(code, req, got.value)]) else sys
    case CommitPatch(id, env) =>
      if id !in sys.patches then sys
      else
        var p := sys.patches[id];
        Sys(if Fault(p.req, p.snapshot, env).Some? then sys.store
            else S.Update(sys.store, p.code, Fields(p.req, p.snapshot, env), env.now),
            sys.patches - {id})
    case Create(code, req, key, owner, env) =>
      if CreateFault(req, env).Some? then sys
      else sys.(store := S.Set(sys.store, code, NewRow(code, req, key, owner, env)))
    case Unfurl(code, title, image, description, at) =>
      sys.(store := S.Update(sys.store, code, UnfurlFields(title, image, description), at))
    case Other(op) => sys.(store := S.Step(sys.store, op))
  }

  function Run(actions: seq<Action>): Sys {
    if actions == [] then START else Next(Run(actions[..|actions| - 1]), actions[|actions| - 1])
  }

  ghost predicate AllRowsGood(s: S.State) {
    forall code :: code in s.urls ==> RowInv(s.urls[code])
  }

  lemma OtherKeepsRow(s: S.State, op: S.Op, code: string)
    requires AllRowsGood(s) && !op.OpSet? && !op.OpUpdate? && code in S.Step(s, op).urls
    ensures RowInv(S.Step(s, op).urls[code])
  {
    assert code in s.urls && RowInv(s.urls[code]);
  }

  lemma NextKeepsRows(sys: Sys, a: Action)
    requires AllRowsGood(sys.store) && Enabled(a)
    ensures AllRowsGood(Next(sys, a).store)
  {
    match a
    case BeginPatch(_, _, _, _) =>
    case CommitPatch(id, env) =>
      if id in sys.patches {
        var p := sys.patches[id];
        if Fault(p.req, p.snapshot, env).None? && p.code in sys.store.urls {
          PatchFieldsGood(p.req, p.snapshot, env);
          UpdateKeepsRowInv(sys.store.urls[p.code], Fields(p.req, p.snapshot, env), env.now);
        }
      }
    case Create(code, req, key, owner, env) =>
      if CreateFault(req, env).None? {
        NewRowGood(code, req, key, owner, env);
      }
    case Unfurl(code, title, image, description, at) =>
      if code in sys.store.urls {
        UpdateKeepsRowInv(sys.store.urls[code], UnfurlFields(title, image, description), at);
      }
    case Other(op) =>
      forall code | code in S.Step(sys.store, op).urls ensures RowInv(S.Step(sys.store, op).urls[code]) {
        OtherKeepsRow(sys.store, op, code);
      }
  }

  /** In every reachable state, however the handlers interleave on stale snapshots, every
      stored row has its pairs together and its pool and tags within limits. */
  lemma {:induction false} EveryRowGood(actions: seq<Action>)
    requires forall i :: 0 <= i < |actions| ==> Enabled(actions[i])
    ensures AllRowsGood(Run(actions).store)
  {
    if actions != [] {
      EveryRowGood(actions[..|actions| - 1]);
      NextKeepsRows(Run(actions[..|actions| - 1]), actions[|actions| - 1]);
    }
  }

  /** The commit of a PATCH brings back the secret it read over one that was stored since. */
  ghost predicate Undoes(sys: Sys, id: nat, env: Env)
    requires id in sys.patches && sys.patches[id].code in sys.store.urls
    requires Fault(sys.patches[id].req, sys.patches[id].snapshot, env).None?
  {
    var p := sys.patches[id];
    && sys.store.urls[p.code].webhookSecret != p.snapshot.webhookSecret
    && Next(sys, CommitPatch(id, env)).store.urls[p.code].webhookSecret == p.snapshot.webhookSecret
  }

  /** In every run: a pending PATCH undoes a change of the secret if and only if there was one since
      it read, and the request either sets a webhook URL over a secret it read, without asking for
      a new one, or clears a webhook that had no secret when it read. */
  lemma UndoesRotationIff(actions: seq<Action>, id: nat, env: Env)
    requires id in Run(actions).patches && Run(actions).patches[id].code in Run(actions).store.urls
    requires Fault(Run(actions).patches[id].req, Run(actions).patches[id].snapshot, env).None?
    requires env.secret != Some(Run(actions).patches[id].snapshot.webhookSecret)
    ensures var sys := Run(actions);
      var p := sys.patches[id];
      Undoes(sys, id, env) <==>
        && sys.store.urls[p.code].webhookSecret != p.snapshot.webhookSecret
        && p.req.webhookUrl.Some?
        && if p.req.webhookUrl.value == "" then p.snapshot.webhookSecret == []
           else p.snapshot.webhookSecret != [] && !p.req.rotateWebhook
  {
    var sys := Run(actions);
    var p := sys.patches[id];
    RevealedSecretIsStored(sys.store.urls[p.code], p.req, p.snapshot, env);
  }

  /** Pairs survive stale snapshots, values do not: a PATCH of the webhook URL that read the
      mapping before a secret rotation writes the old secret back over the new one. */
  lemma StalePatchUndoesRotation(row: Row, url: string, env: Env, rotation: Env)
    requires row.webhookUrl != "" && row.webhookSecret != [] && RowInv(row)
    requires rotation.Valid() && rotation.secret.Some? && rotation.secret.value != row.webhookSecret
    requires env.urlOk(url) && url != "" && row.expiresAt.None?
    ensures
      var patch := PatchRequest(None, None, None, None, None, Some(url), false, None);
      var rotate := PatchRequest(None, None, None, None, None, None, true, None);
      var before := Sys(S.EMPTY.(urls := map["a" := row]), map[]);
      var read := Next(Next(before, BeginPatch(0, "a", patch, 0)), BeginPatch(1, "a", rotate, 0));
      var rotated := Next(read, CommitPatch(1, rotation));
      var done := Next(rotated, CommitPatch(0, env));
      && rotated.store.urls["a"].webhookSecret == rotation.secret.value
      && done.store.urls["a"].webhookSecret == row.webhookSecret
  {
    var patch := PatchRequest(None, None, None, None, None, Some(url), false, None);
    var rotate := PatchRequest(None, None, None, None, None, None, true, None);
    assert Fault(patch, row, env).None? && Fault(rotate, row, rotation).None?;
  }
}
