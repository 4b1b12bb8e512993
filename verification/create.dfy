/** Create: how a request becomes a row, and what a stored row satisfies. */
module Create {
  import opened Models
  import opened Strings
  import opened Validation
  import S = StoreSpec
  import M = MemoryStore
  import Auth
  import P = Passwords

  const MINUTE: Time := 60_000_000_000

  /** The clock, the URL validator and the random source; `None` is a failing random source. */
  datatype Env = Env(
    now: Time,
    maxExpirationMinutes: int,
    urlOk: string -> bool,
    secret: Option<Bytes>,
    salt: Option<Bytes>,
    kdf: P.Kdf)
  {
    function hashed(password: string): Option<(Bytes, Bytes)> {
      P.HashPassword(password, salt, kdf)
    }

    /** Generated secrets, hashes and salts are never empty. */
    ghost predicate Valid() {
      && (secret.Some? ==> secret.value != [])
      && (salt.Some? ==> salt.value != [])
      && P.Derives(kdf)
    }
  }

  function Clamped(mins: int, env: Env): int {
    if mins > env.maxExpirationMinutes then env.maxExpirationMinutes else mins
  }

  function Deadline(mins: int, env: Env): Time {
    env.now + Clamped(mins, env) * MINUTE
  }

  /** Paired fields are empty together; pools and tags are within their limits. */
  ghost predicate RowInv(row: Row) {
    && (row.webhookUrl == "" <==> row.webhookSecret == [])
    && (row.passwordHash == [] <==> row.passwordSalt == [])
    && GoodPool(row.destinations)
    && GoodTags(row.tags)
  }

  datatype ShortenRequest = ShortenRequest(
    url: string, expirationMins: int, tags: seq<string>, maxClicks: int, password: string, webhookUrl: string,
    destinations: seq<Destination>)

  function CreateFault(req: ShortenRequest, env: Env): Option<int> {
    if !env.urlOk(req.url) then Some(400)
    else if req.expirationMins < 0 then Some(400)
    else if Normalized(req.tags).Err? then Some(400)
    else if req.maxClicks < 0 then Some(400)
    else if req.password != "" && ByteLen(req.password) > 256 then Some(400)
    else if req.password != "" && env.hashed(req.password).None? then Some(500)
    else if ValidatedPool(req.destinations, env.urlOk).Err? then Some(400)
    else if req.webhookUrl != "" && !env.urlOk(req.webhookUrl) then Some(400)
    else if req.webhookUrl != "" && env.secret.None? then Some(500)
    else None
  }

  function NewRow(code: string, req: ShortenRequest, apiKeyId: int, owner: Bytes, env: Env): Row
    requires CreateFault(req, env).None?
  {
    Row(id := code, originalUrl := req.url, createdAt := env.now,
        expiresAt := if Clamped(req.expirationMins, env) > 0 then Some(Deadline(req.expirationMins, env)) else None,
        clickCount := 0, lastAccessed := None, ownerTokenHash := owner, tags := Normalized(req.tags).value,
        maxClicks := req.maxClicks,
        passwordHash := if req.password != "" then env.hashed(req.password).value.0 else [],
        passwordSalt := if req.password != "" then env.hashed(req.password).value.1 else [],
        webhookUrl := req.webhookUrl, webhookSecret := if req.webhookUrl != "" then env.secret.value else [],
        apiKeyId := apiKeyId, previewTitle := "", previewImage := "", previewDescription := "",
        previewFetchedAt := None, destinations := ValidatedPool(req.destinations, env.urlOk).value)
  }

  lemma NewRowGood(code: string, req: ShortenRequest, apiKeyId: int, owner: Bytes, env: Env)
    requires env.Valid() && CreateFault(req, env).None?
    ensures RowInv(NewRow(code, req, apiKeyId, owner, env))
  {
    NormalizedIsGood(req.tags);
    ValidatedPoolIsGood(req.destinations, env.urlOk);
    assert req.password != "" ==> env.hashed(req.password).Some?;
  }

  /** What the random sources give: a code that was free, and the owner token's hash. */
  datatype Random = Random(code: Option<string>, owner: Option<Bytes>)

  /** The status a create is refused with before it reaches the store, in the order of the checks. */
  function ShortenFault(
      taken: set<string>, req: ShortenRequest, customCode: string, customOk: bool, random: Random, env: Env): Option<int>
  {
    if customCode != "" && !customOk then Some(400)
    else if customCode != "" && customCode in taken then Some(409)
    else if CreateFault(req, env).Some? then CreateFault(req, env)
    else if customCode == "" && random.code.None? then Some(500)
    else if random.owner.None? then Some(500)
    else None
  }

  /** The store after a create: the row under its code, and the audit event. */
  function Created(
      s: S.State, code: string, req: ShortenRequest, apiKeyId: int, owner: Bytes, env: Env): S.State
    requires CreateFault(req, env).None?
  {
    var actor := if apiKeyId > 0 then Auth.ApiKey(apiKeyId) else Auth.Anon;
    S.LogAudit(S.Set(s, code, NewRow(code, req, apiKeyId, owner, env)),
               Auth.AuditOf(actor, "url.create", code), env.now)
  }

  /** The pipeline on the real store. `customOk` is the format check of a custom code, `meanwhile` what
      other requests do after the code was found free, `unfurl` the job handed to the unfurler. A code
      taken meanwhile is a conflict, and the row that took it stays. */
  method ShortenOne(storage: M.MemoryStore, req: ShortenRequest, customCode: string, customOk: bool,
                    random: Random, apiKeyId: int, env: Env, meanwhile: seq<S.Op>)
    returns (r: Result<string, int>, unfurl: Option<(string, string)>)
    requires storage.Valid()
    modifies storage, storage.urls.Values
    ensures storage.Valid()
    ensures var fault := ShortenFault(old(storage.urls).Keys, req, customCode, customOk, random, env);
      if fault.Some? then
        r == Err(fault.value) && unfurl.None? && storage.Contents() == old(storage.Contents())
      else
        var code := if customCode != "" then customCode else random.code.value;
        var base := S.Run(old(storage.Contents()), meanwhile);
        if code in base.urls then r == Err(409) && unfurl.None? && storage.Contents() == base
        else
          && r == Ok(code) && unfurl == Some((code, req.url))
          && storage.Contents() == Created(base, code, req, apiKeyId, random.owner.value, env)
  {
    hide M.URLMapping.View;
    var code := "";
    if customCode != "" {
      if !customOk {
        return Err(400), None;
      }
      if customCode in storage.urls {
        return Err(409), None;
      }
      code := customCode;
    }
    var row := BuildRow(req, apiKeyId, [], env);
    if row.Err? {
      return Err(row.error), None;
    }
    if code == "" {
      if random.code.None? {
        return Err(500), None;
      }
      code := random.code.value;
    }
    if random.owner.None? {
      return Err(500), None;
    }
    M.Interfere(storage, meanwhile);
    var err := StoreAndLog(storage, code, row.value.(id := code, ownerTokenHash := random.owner.value), apiKeyId, env.now);
    if err.Some? {
      return Err(409), None;
    }
    return Ok(code), Some((code, req.url));
  }

  /** Set, and after it the audit event. */
  method StoreAndLog(storage: M.MemoryStore, code: string, row: Row, apiKeyId: int, now: Time)
    returns (err: Option<S.StoreError>)
    requires storage.Valid()
    modifies storage
    ensures storage.Valid()
    ensures err == if code in old(storage.Contents()).urls then Some(S.CodeConflict) else None
    ensures storage.Contents() ==
      if err.Some? then old(storage.Contents())
      else S.LogAudit(S.Set(old(storage.Contents()), code, row),
                      Auth.AuditOf(if apiKeyId > 0 then Auth.ApiKey(apiKeyId) else Auth.Anon, "url.create", code), now)
  {
    hide M.URLMapping.View;
    storage.RowsKeys();
    var p := M.NewMapping(row);
    storage.AllKept();
    err := storage.Set(code, p);
    if err.None? {
      storage.LogAudit(Auth.AuditOf(if apiKeyId > 0 then Auth.ApiKey(apiKeyId) else Auth.Anon, "url.create", code), now);
    }
  }

  /** The validations in their order, and the row they admit (its ID is set later). */
  method BuildRow(req: ShortenRequest, apiKeyId: int, owner: Bytes, env: Env) returns (r: Result<Row, int>)
    ensures r == if CreateFault(req, env).Some? then Err(CreateFault(req, env).value)
                 else Ok(NewRow("", req, apiKeyId, owner, env))
  {
    if !env.urlOk(req.url) {
      return Err(400);
    }
    if req.expirationMins < 0 {
      return Err(400);
    }
    var mins := req.expirationMins;
    if mins > env.maxExpirationMinutes {
      mins := env.maxExpirationMinutes;
    }
    var tags := NormalizeTags(req.tags);
    if tags.Err? {
      return Err(400);
    }
    if req.maxClicks < 0 {
      return Err(400);
    }
    var pwHash, pwSalt: Bytes := [], [];
    if req.password != "" {
      if ByteLen(req.password) > 256 {
        return Err(400);
      }
      var hashed := env.hashed(req.password);
      if hashed.None? {
        return Err(500);
      }
      pwHash, pwSalt := hashed.value.0, hashed.value.1;
    }
    var dests := ValidateDestinations(req.destinations, env.urlOk);
    if dests.Err? {
      return Err(400);
    }
    var secret: Bytes := [];
    if req.webhookUrl != "" {
      if !env.urlOk(req.webhookUrl) {
        return Err(400);
      }
      if env.secret.None? {
        return Err(500);
      }
      secret := env.secret.value;
    }
    var expiresAt := if mins > 0 then Some(env.now + mins * MINUTE) else None;
    return Ok(Row("", req.url, env.now, expiresAt, 0, None, owner, tags.value, req.maxClicks, pwHash, pwSalt,
                  req.webhookUrl, secret, apiKeyId, "", "", "", None, dests.value));
  }
}
