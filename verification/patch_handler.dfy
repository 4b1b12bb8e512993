/** PATCH end to end, on the real store. */
module PatchHandler {
  import opened Models
  import opened Create
  import opened Patch
  import Auth
  import Lifetime
  import Meaning = PatchMeaning
  import S = StoreSpec
  import M = MemoryStore

  /** `Lost` is the 500 after a failing re-read: the update has been made all the same. */
  datatype Response = Failed(status: int) | Patched(newSecret: Option<Bytes>, updated: Row) | Lost

  /** Why a request is refused, in the order of the checks. */
  ghost function Refusal(s: S.State, code: string, req: PatchRequest, bearer: Option<Bytes>, env: Env): Option<int> {
    if req == NOTHING then Some(400)
    else match S.Get(s, code, env.now)
      case Err(e) => Some(if e == S.NotFound then 404 else 410)
      case Ok(row) => if !Auth.Access(bearer, row, s) then Some(401) else Fault(req, row, env)
  }

  /** A lookup of the bearer's key may have touched that key, and nothing else. */
  ghost predicate MaybeLookedUp(before: S.State, after: S.State, bearer: Option<Bytes>, now: Time) {
    after == before || (bearer.Some? && Auth.LookedUp(before, after, bearer.value, now))
  }

  /** What is left after the update, and the new secret with the row it was decided on, or a status. */
  ghost predicate Updates(
      before: S.State, mid: S.State, code: string, req: PatchRequest, bearer: Option<Bytes>, env: Env,
      meanwhile: seq<S.Op>, after: S.State, r: Result<(Option<Bytes>, Row), int>)
  {
    var refusal := Refusal(before, code, req, bearer, env);
    if refusal.Some? then r == Err(refusal.value) && after == mid
    else
      var row, base := S.Get(before, code, env.now).value, S.Run(mid, meanwhile);
      && after == S.Update(base, code, Fields(req, row, env), env.now)
      && r == if code in base.urls then Ok((NewSecret(req, row, env), row)) else Err(404)
  }

  /** Up to the update: `mid` is the store after the authorization check, `meanwhile` what other
      requests do to it from then on. An authorized and faultless request makes the update it asks
      for, decided on the snapshot, or answers 404 if the code is gone by then; any other request
      changes nothing. */
  method UpdateRow(storage: M.MemoryStore, code: string, req: PatchRequest, bearer: Option<Bytes>, env: Env,
                   meanwhile: seq<S.Op>)
    returns (r: Result<(Option<Bytes>, M.URLMapping), int>, ghost mid: S.State)
    requires storage.Valid() && Auth.DistinctHashes(storage.Contents())
    modifies storage, storage.urls.Values
    ensures storage.Valid()
    ensures forall c :: c in storage.urls ==> storage.urls[c] in old(storage.urls.Values) || fresh(storage.urls[c])
    ensures MaybeLookedUp(old(storage.Contents()), mid, bearer, env.now)
    ensures Updates(old(storage.Contents()), mid, code, req, bearer, env, meanwhile, storage.Contents(),
                    if r.Ok? then Ok((r.value.0, r.value.1.View())) else Err(r.error))
  {
    hide M.URLMapping.View;
    var read;
    read, mid := Admit(storage, code, req, bearer, env.now);
    if read.Err? {
      return Err(read.error), mid;
    }
    var fields, newSecret := BuildFields(req, read.value.1, env);
    if fields.Err? {
      return Err(fields.error), mid;
    }
    var found := Commit(storage, code, fields.value, env.now, meanwhile, read.value.0);
    return if found then Ok((newSecret, read.value.0)) else Err(404), mid;
  }

  /** The update, after whatever came in between. */
  method Commit(storage: M.MemoryStore, code: string, fields: UpdateFields, now: Time, meanwhile: seq<S.Op>,
                ghost m: M.URLMapping)
    returns (found: bool)
    requires storage.Valid()
    modifies storage, storage.urls.Values
    ensures storage.Valid() && m.View() == old(m.View())
    ensures forall c :: c in storage.urls ==> storage.urls[c] in old(storage.urls.Values) || fresh(storage.urls[c])
    ensures storage.Contents() == S.Update(S.Run(old(storage.Contents()), meanwhile), code, fields, now)
    ensures found <==> code in S.Run(old(storage.Contents()), meanwhile).urls
  {
    hide M.URLMapping.View;
    M.Interfere(storage, meanwhile);
    storage.RowsKeys();
    var err := storage.Update(code, fields, now);
    M.ViewKept(m);
    found := err.None?;
  }

  /** The snapshot to decide on, for a caller who may. */
  method Admit(storage: M.MemoryStore, code: string, req: PatchRequest, bearer: Option<Bytes>, now: Time)
    returns (r: Result<(M.URLMapping, Row), int>, ghost mid: S.State)
    requires storage.Valid() && Auth.DistinctHashes(storage.Contents())
    modifies storage
    ensures storage.Valid() && mid == storage.Contents() && storage.urls == old(storage.urls)
    ensures MaybeLookedUp(old(storage.Contents()), mid, bearer, now)
    ensures var got := S.Get(old(storage.Contents()), code, now);
      if req == NOTHING then r == Err(400)
      else if got.Err? then r == Err(if got.error == S.NotFound then 404 else 410)
      else if !Auth.Access(bearer, got.value, old(storage.Contents())) then r == Err(401)
      else r.Ok? && r.value.1 == got.value && r.value.0.View() == got.value
  {
    hide M.URLMapping.View;
    mid := storage.Contents();
    if req == NOTHING {
      return Err(400), mid;
    }
    var got := storage.Get(code, now);
    if got.Err? {
      return Err(if got.error == S.NotFound then 404 else 410), mid;
    }
    var row := Follow(got.value);
    label read:
    var ok := Auth.AuthorizeAccess(storage, bearer, got.value, now);
    mid := storage.Contents();
    M.ViewKept@read(got.value);
    return if ok then Ok((got.value, row)) else Err(401), mid;
  }

  /** What the whole request answers, and the store it leaves. */
  ghost predicate Serves(
      before: S.State, mid: S.State, code: string, req: PatchRequest, bearer: Option<Bytes>, env: Env,
      meanwhile: seq<S.Op>, afterwards: seq<S.Op>, later: Time,
      r: Response, found: S.State, actor: Auth.Actor, left: S.State)
  {
    var refusal := Refusal(before, code, req, bearer, env);
    if refusal.Some? then r == Failed(refusal.value) && left == mid
    else
      var row, base := S.Get(before, code, env.now).value, S.Run(mid, meanwhile);
      if code !in base.urls then r == Failed(404) && left == base
      else
        var shown := S.Run(S.Update(base, code, Fields(req, row, env), env.now), afterwards);
        match S.Get(shown, code, later)
        case Err(_) => r == Lost && left == shown
        case Ok(after) =>
          && r == Patched(NewSecret(req, row, env), after)
          && Auth.Resolves(bearer, Some(row), shown, actor)
          && MaybeLookedUp(shown, found, bearer, later)
          && left == S.LogAudit(found, Auth.AuditOf(actor, "url.patch", code), later)
  }

  /** The whole handler: the update, the re-read for the response, and the audit event under the
      name that the bearer has by then. `meanwhile` runs before the update, `afterwards` before the
      re-read at `later`; `found` is the store after the second key lookup. */
  method ServeHTTP(
      storage: M.MemoryStore, code: string, req: PatchRequest, bearer: Option<Bytes>, env: Env,
      meanwhile: seq<S.Op>, afterwards: seq<S.Op>, later: Time)
    returns (r: Response, ghost mid: S.State, ghost found: S.State, ghost actor: Auth.Actor)
    requires storage.Valid() && Auth.DistinctHashes(storage.Contents())
    modifies storage, storage.urls.Values
    ensures storage.Valid()
    ensures MaybeLookedUp(old(storage.Contents()), mid, bearer, env.now)
    ensures Serves(old(storage.Contents()), mid, code, req, bearer, env, meanwhile, afterwards, later,
                   r, found, actor, storage.Contents())
  {
    hide M.URLMapping.View;
    found, actor := storage.Contents(), Auth.Anon;
    var done;
    done, mid := UpdateRow(storage, code, req, bearer, env, meanwhile);
    if done.Err? {
      return Failed(done.error), mid, found, actor;
    }
    var after;
    after, found, actor := Answer(storage, bearer, done.value.1, code, afterwards, later);
    return if after.Some? then Patched(done.value.0, after.value) else Lost, mid, found, actor;
  }

  /** From the update on: the re-read, and if it succeeds the audit event. */
  method Answer(storage: M.MemoryStore, bearer: Option<Bytes>, m: M.URLMapping, code: string,
                afterwards: seq<S.Op>, later: Time)
    returns (after: Option<Row>, ghost found: S.State, ghost actor: Auth.Actor)
    requires storage.Valid()
    modifies storage, storage.urls.Values
    ensures storage.Valid()
    ensures var shown := S.Run(old(storage.Contents()), afterwards);
      match S.Get(shown, code, later)
      case Err(_) => after.None? && storage.Contents() == shown
      case Ok(row) =>
        && after == Some(row)
        && Auth.Resolves(bearer, Some(old(m.View())), shown, actor)
        && MaybeLookedUp(shown, found, bearer, later)
        && storage.Contents() == S.LogAudit(found, Auth.AuditOf(actor, "url.patch", code), later)
  {
    hide M.URLMapping.View;
    M.Interfere(storage, afterwards);
    M.ViewKept(m);
    found, actor := storage.Contents(), Auth.Anon;
    var got := storage.Get(code, later);
    if got.Err? {
      return None, found, actor;
    }
    var row := Follow(got.value);
    found, actor := LogPatch(storage, bearer, m, code, later);
    return Some(row), found, actor;
  }

  /** The answer is lost, after any operations in between, exactly if they leave the code gone or with
      a deadline that passed; the update itself contributes the deadline it asked for. */
  lemma LostIff(base: S.State, code: string, req: PatchRequest, m: Row, env: Env, afterwards: seq<S.Op>, later: Time)
    requires code in base.urls && Fault(req, m, env).None?
    ensures S.Get(S.Run(S.Update(base, code, Fields(req, m, env), env.now), afterwards), code, later).Err? <==>
      var fate := Lifetime.FateOver(Lifetime.Until(DeadlineAfter(base.urls[code], req, env)), code, afterwards);
      fate.Gone? || Lifetime.Passed(fate.deadline, later)
  {
    UpdatedDeadline(base, code, req, m, env);
    Lifetime.UnreadableIff(S.Update(base, code, Fields(req, m, env), env.now), afterwards, code, later);
  }

  /** Where nobody else creates the code or moves its deadline meanwhile: exactly if it is deleted,
      or reaped or read after the deadline that the update left. */
  lemma LostWhereLeft(
      base: S.State, code: string, req: PatchRequest, m: Row, env: Env, afterwards: seq<S.Op>, later: Time)
    requires code in base.urls && Fault(req, m, env).None?
    requires forall i :: 0 <= i < |afterwards| ==> Lifetime.Leaves(afterwards[i], code)
    ensures S.Get(S.Run(S.Update(base, code, Fields(req, m, env), env.now), afterwards), code, later).Err? <==>
      var deadline := DeadlineAfter(base.urls[code], req, env);
      || (exists i :: 0 <= i < |afterwards| && Lifetime.Removes(afterwards[i], code, deadline))
      || Lifetime.Passed(deadline, later)
  {
    UpdatedDeadline(base, code, req, m, env);
    Lifetime.UnreadableWhereLeft(S.Update(base, code, Fields(req, m, env), env.now), afterwards, code, later);
  }

  /** A deadline is not needed: a request that clears it loses its answer to a deletion. */
  lemma DeletionLosesAnswer(base: S.State, code: string, req: PatchRequest, m: Row, env: Env, later: Time)
    requires code in base.urls && Fault(req, m, env).None? && req.expirationMins == Some(0)
    ensures DeadlineAfter(base.urls[code], req, env).None?
    ensures S.Get(S.Run(S.Update(base, code, Fields(req, m, env), env.now), [S.OpDelete(code)]), code, later)
      == Err(S.NotFound)
  {
    var updated := S.Update(base, code, Fields(req, m, env), env.now);
    assert [S.OpDelete(code)][..0] == [];
    assert S.Run(updated, [S.OpDelete(code)]) == S.Step(S.Run(updated, []), S.OpDelete(code));
  }

  /** The deadline of a mapping after the update. */
  function DeadlineAfter(row: Row, req: PatchRequest, env: Env): Option<Time> {
    match req.expirationMins
    case None => row.expiresAt
    case Some(mins) => if mins == 0 then None else Some(Deadline(mins, env))
  }

  lemma UpdatedDeadline(base: S.State, code: string, req: PatchRequest, m: Row, env: Env)
    requires code in base.urls && Fault(req, m, env).None?
    ensures var updated := S.Update(base, code, Fields(req, m, env), env.now);
      code in updated.urls && updated.urls[code].expiresAt == DeadlineAfter(base.urls[code], req, env)
  {
  }

  /** resolveActor, then the audit event. */
  method LogPatch(storage: M.MemoryStore, bearer: Option<Bytes>, m: M.URLMapping, code: string, now: Time)
    returns (ghost found: S.State, ghost actor: Auth.Actor)
    requires storage.Valid()
    modifies storage
    ensures storage.Valid()
    ensures Auth.Resolves(bearer, Some(old(m.View())), old(storage.Contents()), actor)
    ensures MaybeLookedUp(old(storage.Contents()), found, bearer, now)
    ensures storage.Contents() == S.LogAudit(found, Auth.AuditOf(actor, "url.patch", code), now)
  {
    hide M.URLMapping.View;
    var who := Auth.ResolveActor(storage, bearer, Some(m), now);
    found, actor := storage.Contents(), who;
    storage.LogAudit(Auth.AuditOf(who, "url.patch", code), now);
  }

  /** The snapshot's fields, slices and pointers followed. */
  method Follow(m: M.URLMapping) returns (row: Row)
    ensures row == m.View()
  {
    row := Row(m.id, m.originalUrl, m.createdAt, M.TimeAt(m.expiresAt), m.clickCount, M.TimeAt(m.lastAccessed),
               m.ownerTokenHash.v, m.tags.v, m.maxClicks, m.passwordHash.v, m.passwordSalt.v, m.webhookUrl,
               m.webhookSecret.v, m.apiKeyId, m.previewTitle, m.previewImage, m.previewDescription,
               M.TimeAt(m.previewFetchedAt), m.destinations.v);
  }

  /** Which refusal each request gets, the first reason deciding. */
  lemma RefusedWith(s: S.State, code: string, req: PatchRequest, bearer: Option<Bytes>, env: Env)
    ensures var refusal := Refusal(s, code, req, bearer, env);
      && (!Meaning.NamesAField(req) ==> refusal == Some(400))
      && (Meaning.NamesAField(req) && code !in s.urls ==> refusal == Some(404))
      && (Meaning.NamesAField(req) && code in s.urls ==>
            var row := s.urls[code];
            if row.expiresAt.Some? && env.now > row.expiresAt.value then refusal == Some(410)
            else if !Auth.Access(bearer, row, s) then refusal == Some(401)
            else refusal == Fault(req, row, env))
  {
  }

  /** A patched mapping is answered as it is stored, with one audit entry for it. */
  lemma PatchedMeans(
      before: S.State, mid: S.State, code: string, req: PatchRequest, bearer: Option<Bytes>, env: Env,
      meanwhile: seq<S.Op>, afterwards: seq<S.Op>, later: Time,
      r: Response, found: S.State, actor: Auth.Actor, left: S.State)
    requires Serves(before, mid, code, req, bearer, env, meanwhile, afterwards, later, r, found, actor, left)
    requires r.Patched?
    ensures code in left.urls && left.urls[code] == r.updated && left.audit != []
    ensures var entry := left.audit[|left.audit| - 1];
      && entry.action == "url.patch" && entry.target == code && entry.at == Some(later)
      && (entry.actorKind == "admin_token" <==>
            bearer.Some? && code in before.urls && before.urls[code].ownerTokenHash != []
            && bearer.value == before.urls[code].ownerTokenHash)
  {
    Auth.AuditTellsActors(actor, actor, "url.patch", code);
  }

  /** With nobody in between: an accepted request changes its own mapping by its own update and no
      other mapping, and a refused one changes no mapping. */
  lemma AloneMeans(
      before: S.State, mid: S.State, code: string, req: PatchRequest, bearer: Option<Bytes>, env: Env, later: Time,
      r: Response, found: S.State, actor: Auth.Actor, left: S.State)
    requires MaybeLookedUp(before, mid, bearer, env.now)
    requires Serves(before, mid, code, req, bearer, env, [], [], later, r, found, actor, left)
    ensures r.Failed? ==> left.urls == before.urls
    ensures !r.Failed? ==>
      && code in before.urls && Fault(req, before.urls[code], env).None?
      && left.urls == before.urls[code := S.ApplyUpdate(before.urls[code], Fields(req, before.urls[code], env), env.now)]
  {
    hide S.ApplyUpdate, Fields;
  }
}
