/** What a create stores, request field by request field, when it is refused, and that its link
    opens to its passphrase. */
module CreateMeaning {
  import opened Models
  import opened Strings
  import opened Create
  import opened Validation
  import S = StoreSpec
  import P = Passwords
  import R = Redirect
  import Auth
  import Meaning = PatchMeaning

  // ---------- when a request is accepted ----------

  ghost predicate PasswordMade(req: ShortenRequest, env: Env) {
    req.password != "" ==> env.salt.Some? && env.kdf(req.password, env.salt.value).Some?
  }

  /** Everything checked before the passphrase is hashed. */
  ghost predicate FieldsGood(req: ShortenRequest, env: Env) {
    && env.urlOk(req.url) && req.expirationMins >= 0 && Meaning.AcceptableTags(req.tags) && req.maxClicks >= 0
    && ByteLen(req.password) <= 256
  }

  ghost predicate LinksGood(req: ShortenRequest, env: Env) {
    Meaning.AcceptablePool(req.destinations, env.urlOk) && (req.webhookUrl != "" ==> env.urlOk(req.webhookUrl))
  }

  /** The row is accepted exactly if every field is good and the random source gave what was needed. */
  lemma AcceptedIff(req: ShortenRequest, env: Env)
    ensures CreateFault(req, env).None? <==>
      && FieldsGood(req, env) && PasswordMade(req, env) && LinksGood(req, env)
      && (req.webhookUrl != "" ==> env.secret.Some?)
  {
    Meaning.TagsAcceptable(req.tags);
    ValidatedPoolIsGood(req.destinations, env.urlOk);
  }

  /** Otherwise 500 exactly if a failing random source was the first thing wrong, and 400 if not. */
  lemma RefusedWith(req: ShortenRequest, env: Env)
    requires CreateFault(req, env).Some?
    ensures CreateFault(req, env) == Some(400) || CreateFault(req, env) == Some(500)
    ensures CreateFault(req, env) == Some(500) <==>
      FieldsGood(req, env) && (!PasswordMade(req, env) || (LinksGood(req, env) && env.secret.None?))
  {
    Meaning.TagsAcceptable(req.tags);
    ValidatedPoolIsGood(req.destinations, env.urlOk);
  }

  /** Around it: a custom code must be well-formed and free, a generated code and the owner token
      must have been made; the code comes first, the token last. */
  lemma ShortenRefusedWith(
      taken: set<string>, req: ShortenRequest, customCode: string, customOk: bool, random: Random, env: Env)
    ensures ShortenFault(taken, req, customCode, customOk, random, env).None? <==>
      && (customCode != "" ==> customOk && customCode !in taken)
      && CreateFault(req, env).None?
      && (customCode == "" ==> random.code.Some?) && random.owner.Some?
    ensures ShortenFault(taken, req, customCode, customOk, random, env) == Some(409) <==>
      customCode != "" && customOk && customCode in taken
    ensures ShortenFault(taken, req, customCode, customOk, random, env) == Some(400) <==>
      (customCode != "" && !customOk)
      || ((customCode != "" ==> customCode !in taken) && CreateFault(req, env) == Some(400))
  {
    if CreateFault(req, env).Some? {
      RefusedWith(req, env);
    }
  }

  // ---------- what is stored ----------

  /** The plain fields of the stored row. */
  lemma StoredFields(code: string, req: ShortenRequest, apiKeyId: int, owner: Bytes, env: Env)
    requires CreateFault(req, env).None?
    ensures var row := NewRow(code, req, apiKeyId, owner, env);
      && row.id == code && row.originalUrl == req.url && row.createdAt == env.now
      && row.clickCount == 0 && row.lastAccessed.None? && row.ownerTokenHash == owner
      && row.maxClicks == req.maxClicks && row.apiKeyId == apiKeyId
      && row.previewTitle == "" && row.previewImage == "" && row.previewDescription == ""
      && row.previewFetchedAt.None?
  {
  }

  /** A deadline if one was asked for, clamped to the server's longest; none for 0, nor where the
      longest is not positive. */
  lemma StoredDeadline(code: string, req: ShortenRequest, apiKeyId: int, owner: Bytes, env: Env)
    requires CreateFault(req, env).None?
    ensures var row := NewRow(code, req, apiKeyId, owner, env);
      && (row.expiresAt.Some? <==> req.expirationMins > 0 && env.maxExpirationMinutes > 0)
      && (row.expiresAt.Some? ==>
            && row.expiresAt.value <= env.now + 60_000_000_000 * env.maxExpirationMinutes
            && row.expiresAt.value <= env.now + 60_000_000_000 * req.expirationMins
            && (row.expiresAt.value == env.now + 60_000_000_000 * env.maxExpirationMinutes
                || row.expiresAt.value == env.now + 60_000_000_000 * req.expirationMins))
  {
  }

  /** Tags, pool, webhook and its secret. */
  lemma StoredLinks(code: string, req: ShortenRequest, apiKeyId: int, owner: Bytes, env: Env)
    requires CreateFault(req, env).None?
    ensures var row := NewRow(code, req, apiKeyId, owner, env);
      && GoodTags(row.tags)
      && (forall t :: t in row.tags <==> t != "" && exists i :: 0 <= i < |req.tags| && TrimSpace(req.tags[i]) == t)
      && row.destinations == req.destinations
      && row.webhookUrl == req.webhookUrl
      && (req.webhookUrl == "" ==> row.webhookSecret == [])
      && (req.webhookUrl != "" ==> Some(row.webhookSecret) == env.secret)
  {
    NormalizedIsGood(req.tags);
    ValidatedPoolIsGood(req.destinations, env.urlOk);
  }

  /** The passphrase pair, hash and salt in their places. */
  lemma StoredPassword(code: string, req: ShortenRequest, apiKeyId: int, owner: Bytes, env: Env)
    requires CreateFault(req, env).None?
    ensures var row := NewRow(code, req, apiKeyId, owner, env);
      && (req.password == "" ==> row.passwordHash == [] && row.passwordSalt == [])
      && (req.password != "" ==>
            Some(row.passwordSalt) == env.salt && env.kdf(req.password, row.passwordSalt) == Some(row.passwordHash))
  {
  }

  /** A created link is open to everyone if it has no passphrase; otherwise to its passphrase, and to
      another only if that derives the very same key. */
  lemma OpensToItsPassphrase(
      code: string, req: ShortenRequest, apiKeyId: int, owner: Bytes, env: Env, request: R.Request, redirect: R.Env)
    requires env.Valid() && CreateFault(req, env).None?
    requires redirect.request == request && redirect.kdf == env.kdf
    ensures var row := NewRow(code, req, apiKeyId, owner, env);
      && (req.password == "" ==> R.Unlocked(row, redirect))
      && (req.password != "" ==>
            (R.Unlocked(row, redirect) <==>
               && request.Post? && request.form.Some?
               && env.kdf(request.form.value, row.passwordSalt) == env.kdf(req.password, row.passwordSalt)))
      && (request == R.Post(Some(req.password)) ==> R.Unlocked(row, redirect))
  {
  }

  /** From create to redirect: a live, reachable link without a pool answers 302 to its URL if the
      passphrase is posted, whatever the store did to other codes, and 401 to one that derives
      another key. */
  lemma CreatedLinkRedirects(
      s: R.Visible, code: string, req: ShortenRequest, apiKeyId: int, owner: Bytes, env: Env,
      redirect: R.Env, meanwhile: seq<S.Op>, status: int, location: string, after: R.Visible)
    requires env.Valid() && CreateFault(req, env).None? && req.password != "" && req.destinations == []
    requires code in s.store.urls && s.store.urls[code] == NewRow(code, req, apiKeyId, owner, env)
    requires redirect.kdf == env.kdf && redirect.request.Post? && redirect.request.form.Some?
    requires R.Sound(s, code, redirect) && R.Live(s.store.urls[code], redirect.now) && R.Reachable(req.url, redirect)
    requires R.Answers(s, code, redirect, meanwhile, status, location, after)
    ensures redirect.request.form.value == req.password ==> status == 302 && location == req.url
    ensures
      var salt := s.store.urls[code].passwordSalt;
      redirect.kdf(redirect.request.form.value, salt) != redirect.kdf(req.password, salt) ==> status == 401
  {
    var row := s.store.urls[code];
    StoredFields(code, req, apiKeyId, owner, env);
    StoredLinks(code, req, apiKeyId, owner, env);
    StoredPassword(code, req, apiKeyId, owner, env);
    OpensToItsPassphrase(code, req, apiKeyId, owner, env, redirect.request, redirect);
    AcceptedIff(req, env);
    R.RedirectedIff(s, code, redirect, meanwhile, status, location, after);
    assert R.Unlocked(row, redirect) ==> R.Granted(s, code, redirect, req.url);
    if status != 302 {
      R.RefusedWith(s, code, redirect, meanwhile, status, location, after);
    }
  }

  /** The whole effect on the store: one row under a free code, and one audit event naming the key
      that created it, or nobody. */
  lemma CreatedStore(s: S.State, code: string, req: ShortenRequest, apiKeyId: int, owner: Bytes, env: Env)
    requires CreateFault(req, env).None? && code !in s.urls
    ensures var after := Created(s, code, req, apiKeyId, owner, env);
      && after.urls == s.urls[code := NewRow(code, req, apiKeyId, owner, env)]
      && after.events == s.events && after.apiKeys == s.apiKeys
      && after.audit != []
      && var entry := after.audit[|after.audit| - 1];
      && entry.id == s.nextAuditId + 1 && entry.at == Some(env.now) && entry.action == "url.create" && entry.target == code
      && (apiKeyId > 0 <==> entry.actorKind == "apikey") && (apiKeyId <= 0 <==> entry.actorKind == "anon")
      && (apiKeyId > 0 ==> ReadDecimal(entry.actorId) == apiKeyId)
  {
    var actor := if apiKeyId > 0 then Auth.ApiKey(apiKeyId) else Auth.Anon;
    Auth.AuditTellsActors(actor, actor, "url.create", code);
  }
}
