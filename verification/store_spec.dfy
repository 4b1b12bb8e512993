/** What each operation of the store does to the store's contents, on values.
    The class in MemoryStore is proved equal to these functions; the protocol
    modules prove what holds over every run of them. */
module StoreSpec {
  import opened Models

  const CLICK_CAP := 1000
  const AUDIT_CAP := 1000
  const DEFAULT_LIMIT := 50

  datatype StoreError = NotFound | Expired | CodeConflict

  datatype State = State(
    urls: map<string, Row>,
    events: map<string, seq<ClickEvent>>,
    apiKeys: map<int, APIKey>,
    nextKeyId: int,
    audit: seq<AuditEvent>,
    nextAuditId: int)

  const EMPTY := State(map[], map[], map[], 0, [], 0)

  // ---------- reads ----------

  predicate RowExpired(row: Row, now: Time) {
    row.expiresAt.Some? && now > row.expiresAt.value
  }

  function Get(s: State, code: string, now: Time): Result<Row, StoreError> {
    if code !in s.urls then Err(NotFound)
    else if RowExpired(s.urls[code], now) then Err(Expired)
    else Ok(s.urls[code])
  }

  /** The list stored for a code; a missing key reads as the nil slice. */
  function EventsOf(s: State, code: string): seq<ClickEvent> {
    if code in s.events then s.events[code] else []
  }

  function Reverse<T>(s: seq<T>): seq<T> {
    seq(|s|, i requires 0 <= i < |s| => s[|s| - 1 - i])
  }

  /** The newest `n` elements. */
  function LastN<T>(s: seq<T>, n: nat): seq<T> {
    if |s| <= n then s else s[|s| - n..]
  }

  /** The newest `limit` clicks of a code, newest first. */
  function RecentClicks(s: State, code: string, limit: int): Result<seq<ClickEvent>, StoreError> {
    if code !in s.urls then Err(NotFound)
    else Ok(Reverse(LastN(EventsOf(s, code), if limit <= 0 then DEFAULT_LIMIT else limit)))
  }

  /** One page of the audit log, newest first. */
  function AuditPage(audit: seq<AuditEvent>, limit: int, offset: int): seq<AuditEvent> {
    var n := if limit <= 0 then DEFAULT_LIMIT else limit;
    var skip := if offset < 0 then 0 else offset;
    if skip >= |audit| then [] else Reverse(LastN(audit[..|audit| - skip], n))
  }

  // ---------- writes ----------

  function Restrict<V>(m: map<string, V>, keys: set<string>): map<string, V> {
    map c | c in m && c in keys :: m[c]
  }

  lemma RestrictToAll<V>(m: map<string, V>)
    ensures Restrict(m, m.Keys) == m
  {
  }

  function Set(s: State, code: string, row: Row): State {
    if code in s.urls then s else s.(urls := s.urls[code := row])
  }

  function Delete(s: State, code: string): State {
    if code !in s.urls then s
    else s.(urls := Restrict(s.urls, s.urls.Keys - {code}), events := s.events - {code})
  }

  function RotateToken(s: State, code: string, hash: Bytes): State {
    if code !in s.urls then s
    else s.(urls := s.urls[code := s.urls[code].(ownerTokenHash := hash)])
  }

  // What `Update` does to a row, one group of fields at a time.

  function ApplyTarget(row: Row, f: UpdateFields): Row {
    row.(originalUrl := f.originalUrl.GetOr(row.originalUrl),
         expiresAt := if f.clearExpiration then None else if f.expiresAt.Some? then f.expiresAt else row.expiresAt,
         tags := f.tags.GetOr(row.tags))
  }

  function ApplyGuards(row: Row, f: UpdateFields): Row {
    row.(maxClicks := f.maxClicks.GetOr(row.maxClicks),
         passwordHash := if f.clearPassword then [] else f.passwordHash.GetOr(row.passwordHash),
         passwordSalt := if f.clearPassword then []
                         else if f.passwordHash.Some? then f.passwordSalt else row.passwordSalt)
  }

  /** `unpaired` is the secret that a URL set without one ends up with: the backends differ in it. */
  function ApplyLinks(row: Row, f: UpdateFields, unpaired: Bytes): Row {
    row.(webhookUrl := if f.clearWebhook then "" else f.webhookUrl.GetOr(row.webhookUrl),
         webhookSecret := if f.clearWebhook then []
                          else if f.webhookUrl.Some? then f.webhookSecret.GetOr(unpaired) else row.webhookSecret,
         apiKeyId := f.apiKeyId.GetOr(row.apiKeyId))
  }

  function ApplyPreview(row: Row, f: UpdateFields): Row {
    row.(previewTitle := f.previewTitle.GetOr(row.previewTitle),
         previewImage := f.previewImage.GetOr(row.previewImage),
         previewDescription := f.previewDescription.GetOr(row.previewDescription))
  }

  function ApplyRest(row: Row, f: UpdateFields, now: Time): Row {
    row.(previewFetchedAt := if f.setPreviewFetched then Some(now) else row.previewFetchedAt,
         destinations := f.destinations.GetOr(row.destinations))
  }

  /** The row that `MemoryStore.Update` leaves. */
  function ApplyUpdate(row: Row, f: UpdateFields, now: Time): Row {
    ApplyRest(ApplyPreview(ApplyLinks(ApplyGuards(ApplyTarget(row, f), f), f, row.webhookSecret), f), f, now)
  }

  function Update(s: State, code: string, f: UpdateFields, now: Time): State {
    if code !in s.urls then s
    else s.(urls := s.urls[code := ApplyUpdate(s.urls[code], f, now)])
  }

  /** The bounded log after one append: the oldest entry leaves once the cap is reached. */
  function BoundedAppend<T>(log: seq<T>, x: T, cap: nat): seq<T> {
    if |log| >= cap && |log| > 0 then log[1..] + [x] else log + [x]
  }

  function Clicked(row: Row, ev: ClickEvent): Row {
    row.(clickCount := row.clickCount + 1, lastAccessed := Some(ev.at))
  }

  function RecordClick(s: State, code: string, ev: ClickEvent): State {
    if code !in s.urls then s
    else s.(urls := s.urls[code := Clicked(s.urls[code], ev)],
            events := s.events[code := BoundedAppend(EventsOf(s, code), ev, CLICK_CAP)])
  }

  function CreateAPIKey(s: State, keyLabel: string, hash: Bytes, now: Time): State {
    var id := s.nextKeyId + 1;
    s.(nextKeyId := id, apiKeys := s.apiKeys[id := APIKey(id, hash, keyLabel, now, None)])
  }

  function Unlink(row: Row, keyId: int): Row {
    if row.apiKeyId == keyId then row.(apiKeyId := 0) else row
  }

  function DeleteAPIKey(s: State, id: int): State {
    if id !in s.apiKeys then s
    else s.(apiKeys := s.apiKeys - {id}, urls := map c | c in s.urls :: Unlink(s.urls[c], id))
  }

  function TouchKey(s: State, id: int, now: Time): State {
    if id !in s.apiKeys then s
    else s.(apiKeys := s.apiKeys[id := s.apiKeys[id].(lastUsedAt := Some(now))])
  }

  function UpdateAPIKeyLabel(s: State, id: int, keyLabel: string): State {
    if id !in s.apiKeys then s
    else s.(apiKeys := s.apiKeys[id := s.apiKeys[id].(keyLabel := keyLabel)])
  }

  function StampAudit(ev: AuditEvent, id: int, now: Time): AuditEvent {
    ev.(id := id, at := if ev.at.None? then Some(now) else ev.at)
  }

  function LogAudit(s: State, ev: AuditEvent, now: Time): State {
    var id := s.nextAuditId + 1;
    s.(nextAuditId := id, audit := BoundedAppend(s.audit, StampAudit(ev, id, now), AUDIT_CAP))
  }

  function LiveCodes(s: State, now: Time): set<string> {
    set c | c in s.urls && !RowExpired(s.urls[c], now)
  }

  /** Reaping drops expired rows and leaves their click lists behind. */
  function CleanupExpired(s: State, now: Time): State {
    s.(urls := Restrict(s.urls, LiveCodes(s, now)))
  }

  // ---------- runs ----------

  datatype Op =
    | OpSet(code: string, row: Row)
    | OpDelete(code: string)
    | OpRotateToken(code: string, hash: Bytes)
    | OpUpdate(code: string, fields: UpdateFields, now: Time)
    | OpRecordClick(code: string, ev: ClickEvent)
    | OpCreateAPIKey(keyLabel: string, hash: Bytes, now: Time)
    | OpDeleteAPIKey(id: int)
    | OpTouchKey(id: int, now: Time)
    | OpUpdateAPIKeyLabel(id: int, keyLabel: string)
    | OpLogAudit(audit: AuditEvent, now: Time)
    | OpCleanup(now: Time)

  function Step(s: State, op: Op): State {
    match op
    case OpSet(code, row) => Set(s, code, row)
    case OpDelete(code) => Delete(s, code)
    case OpRotateToken(code, hash) => RotateToken(s, code, hash)
    case OpUpdate(code, f, now) => Update(s, code, f, now)
    case OpRecordClick(code, ev) => RecordClick(s, code, ev)
    case OpCreateAPIKey(keyLabel, hash, now) => CreateAPIKey(s, keyLabel, hash, now)
    case OpDeleteAPIKey(id) => DeleteAPIKey(s, id)
    case OpTouchKey(id, now) => TouchKey(s, id, now)
    case OpUpdateAPIKeyLabel(id, keyLabel) => UpdateAPIKeyLabel(s, id, keyLabel)
    case OpLogAudit(ev, now) => LogAudit(s, ev, now)
    case OpCleanup(now) => CleanupExpired(s, now)
  }

  function Run(s: State, ops: seq<Op>): State {
    if ops == [] then s else Step(Run(s, ops[..|ops| - 1]), ops[|ops| - 1])
  }

  /** What a store operation can do to the row of a code that it keeps: no
      operation rewrites the creation time or the identity, and only a recorded
      click moves the counter. */
  lemma StepKeepsIdentity(s: State, op: Op, code: string)
    requires code in s.urls && code in Step(s, op).urls
    ensures var before, after := s.urls[code], Step(s, op).urls[code];
      && after.id == before.id && after.createdAt == before.createdAt
      && after.clickCount == before.clickCount
           + (if op.OpRecordClick? && op.code == code then 1 else 0)
      && (after.ownerTokenHash != before.ownerTokenHash ==> op.OpRotateToken? && op.code == code)
  {
  }

  /** How many of the operations record a click on the code. */
  function ClicksOn(ops: seq<Op>, code: string): nat {
    if ops == [] then 0
    else
      var last := ops[|ops| - 1];
      ClicksOn(ops[..|ops| - 1], code) + if last.OpRecordClick? && last.code == code then 1 else 0
  }

  /** While a mapping stays stored, whatever is done to it: its identity and creation time do
      not move, its counter moves by the clicks recorded on it and nothing else, and its owner
      token only by a rotation. */
  lemma {:induction false} RunKeepsIdentity(s: State, ops: seq<Op>, code: string)
    requires forall i :: 0 <= i <= |ops| ==> code in Run(s, ops[..i]).urls
    ensures code in s.urls && code in Run(s, ops).urls
    ensures var before, after := s.urls[code], Run(s, ops).urls[code];
      && after.id == before.id && after.createdAt == before.createdAt
      && after.clickCount == before.clickCount + ClicksOn(ops, code)
      && (after.ownerTokenHash != before.ownerTokenHash ==>
            exists i :: 0 <= i < |ops| && ops[i].OpRotateToken? && ops[i].code == code)
  {
    assert ops[..|ops|] == ops && Run(s, ops[..0]) == s;
    if ops != [] {
      var init, last := ops[..|ops| - 1], ops[|ops| - 1];
      forall i | 0 <= i <= |init| ensures code in Run(s, init[..i]).urls {
        assert init[..i] == ops[..i];
      }
      RunKeepsIdentity(s, init, code);
      assert Run(s, ops) == Step(Run(s, init), last);
      StepKeepsIdentity(Run(s, init), last, code);
    }
  }

  /** Keys: a lookup stamps one key's last use, a relabelling changes one label, and neither touches
      any mapping; an audit event gets the next ID, and a time only if it came without one. */
  lemma KeyAndAuditEffects(s: State, id: int, other: int, now: Time, keyLabel: string, ev: AuditEvent)
    requires id in s.apiKeys && other in s.apiKeys && other != id
    ensures var touched, named := TouchKey(s, id, now), UpdateAPIKeyLabel(s, id, keyLabel);
      && touched.urls == s.urls && touched.apiKeys[id] == s.apiKeys[id].(lastUsedAt := Some(now))
      && named.urls == s.urls && named.apiKeys[id] == s.apiKeys[id].(keyLabel := keyLabel)
      && touched.apiKeys[other] == s.apiKeys[other] && named.apiKeys[other] == s.apiKeys[other]
    ensures var after := LogAudit(s, ev, now);
      && after.urls == s.urls && after.audit != []
      && var entry := after.audit[|after.audit| - 1];
      && entry.id == s.nextAuditId + 1 && (ev.at.Some? ==> entry.at == ev.at) && (ev.at.None? ==> entry.at == Some(now))
      && entry.actorKind == ev.actorKind && entry.actorId == ev.actorId && entry.action == ev.action && entry.target == ev.target
  {
  }

  /** A page without a positive limit has 50 events, and one from before the start starts there. */
  lemma PageDefaults(audit: seq<AuditEvent>, limit: int, offset: int)
    ensures limit <= 0 ==> AuditPage(audit, limit, offset) == AuditPage(audit, 50, offset)
    ensures offset < 0 ==> AuditPage(audit, limit, offset) == AuditPage(audit, limit, 0)
    ensures |AuditPage(audit, limit, offset)| <= if limit <= 0 then 50 else limit
  {
  }
}
