/** Credentials: a mapping's own admin token, or the API key it was created with. */
module Auth {
  import opened Models
  import S = StoreSpec
  import M = MemoryStore
  import Strings

  datatype Actor = Anon | AdminToken(code: string) | ApiKey(id: int)

  /** Token hashes are SHA-256 of random tokens: no two live keys share one. */
  ghost predicate DistinctHashes(s: S.State) {
    forall i, k :: i in s.apiKeys && k in s.apiKeys && s.apiKeys[i].tokenHash == s.apiKeys[k].tokenHash ==> i == k
  }

  ghost predicate Holds(s: S.State, hash: Bytes, id: int) {
    id in s.apiKeys && s.apiKeys[id].tokenHash == hash
  }

  predicate OwnerPath(hash: Bytes, m: Row) {
    m.ownerTokenHash != [] && hash == m.ownerTokenHash
  }

  ghost predicate KeyPath(hash: Bytes, m: Row, s: S.State) {
    m.apiKeyId != 0 && Holds(s, hash, m.apiKeyId)
  }

  /** Who may read or modify a mapping. */
  ghost predicate Access(bearer: Option<Bytes>, m: Row, s: S.State) {
    bearer.Some? && (OwnerPath(bearer.value, m) || KeyPath(bearer.value, m, s))
  }

  /** The actor that the audit log names. */
  ghost predicate Resolves(bearer: Option<Bytes>, m: Option<Row>, s: S.State, actor: Actor) {
    if bearer.None? then actor == Anon
    else if m.Some? && OwnerPath(bearer.value, m.value) then actor == AdminToken(m.value.id)
    else match actor
      case ApiKey(id) => Holds(s, bearer.value, id)
      case AdminToken(_) => false
      case Anon => forall id :: !Holds(s, bearer.value, id)
  }

  /** A lookup touches the key it finds, and nothing else. */
  ghost predicate LookedUp(before: S.State, after: S.State, hash: Bytes, now: Time) {
    || (after == before && forall id :: !Holds(before, hash, id))
    || (exists id :: Holds(before, hash, id) && after == S.TouchKey(before, id, now))
  }

  method DetectAPIKey(storage: M.MemoryStore, bearer: Option<Bytes>, now: Time) returns (id: int)
    requires storage.Valid()
    modifies storage
    ensures storage.Valid() && storage.urls == old(storage.urls)
    ensures Detects(old(storage.Contents()), bearer, id)
    ensures if bearer.None? then storage.Contents() == old(storage.Contents())
            else LookedUp(old(storage.Contents()), storage.Contents(), bearer.value, now)
  {
    if bearer.None? {
      return 0;
    }
    ghost var before := storage.Contents();
    var key := storage.LookupAPIKey(bearer.value, now);
    if key.Ok? {
      assert Holds(before, bearer.value, key.value.id);
      return key.value.id;
    }
    return 0;
  }

  method AuthorizeAccess(storage: M.MemoryStore, bearer: Option<Bytes>, m: M.URLMapping, now: Time)
    returns (ok: bool)
    requires storage.Valid() && DistinctHashes(storage.Contents())
    modifies storage
    ensures storage.Valid() && storage.urls == old(storage.urls)
    ensures ok <==> Access(bearer, old(m.View()), old(storage.Contents()))
    ensures if bearer.None? || OwnerPath(bearer.value, old(m.View())) || m.apiKeyId == 0
            then storage.Contents() == old(storage.Contents())
            else LookedUp(old(storage.Contents()), storage.Contents(), bearer.value, now)
  {
    if bearer.None? {
      return false;
    }
    var owner := M.BytesEqualConstTime(bearer.value, m.ownerTokenHash.v);
    if |m.ownerTokenHash.v| > 0 && owner {
      return true;
    }
    if m.apiKeyId == 0 {
      return false;
    }
    ghost var before := storage.Contents();
    var key := storage.LookupAPIKey(bearer.value, now);
    if key.Err? {
      return false;
    }
    assert Holds(before, bearer.value, key.value.id);
    return key.value.id == m.apiKeyId;
  }

  method ResolveActor(storage: M.MemoryStore, bearer: Option<Bytes>, m: Option<M.URLMapping>, now: Time)
    returns (actor: Actor)
    requires storage.Valid()
    modifies storage
    ensures storage.Valid() && storage.urls == old(storage.urls)
    ensures Resolves(bearer, if m.Some? then Some(old(m.value.View())) else None, old(storage.Contents()), actor)
    ensures if bearer.None? || actor.AdminToken? then storage.Contents() == old(storage.Contents())
            else LookedUp(old(storage.Contents()), storage.Contents(), bearer.value, now)
  {
    if bearer.None? {
      return Anon;
    }
    if m.Some? {
      var owner := M.BytesEqualConstTime(bearer.value, m.value.ownerTokenHash.v);
      if |m.value.ownerTokenHash.v| > 0 && owner {
        return AdminToken(m.value.id);
      }
    }
    ghost var before := storage.Contents();
    var key := storage.LookupAPIKey(bearer.value, now);
    if key.Err? {
      return Anon;
    }
    assert Holds(before, bearer.value, key.value.id);
    return ApiKey(key.value.id);
  }

  /** The event that a handler logs; the store gives it its ID and time. */
  function AuditOf(actor: Actor, action: string, code: string): AuditEvent {
    match actor
    case Anon => AuditEvent(0, None, "anon", "", action, code)
    case AdminToken(own) => AuditEvent(0, None, "admin_token", own, action, code)
    case ApiKey(id) => AuditEvent(0, None, "apikey", Strings.Decimal(id), action, code)
  }

  /** On one store state, whoever is let in has a name in the audit log. */
  lemma AuthorizedIsNamed(bearer: Option<Bytes>, m: Row, s: S.State, actor: Actor)
    requires Access(bearer, m, s) && Resolves(bearer, Some(m), s, actor)
    ensures actor != Anon
    ensures OwnerPath(bearer.value, m) ==> actor == AdminToken(m.id)
    ensures !OwnerPath(bearer.value, m) && DistinctHashes(s) ==> actor == ApiKey(m.apiKeyId)
  {
  }

  // ---------- creates, reads and key management interleaving ----------

  /** A create after it detected its key and before it stores its row. */
  datatype Creating = Creating(code: string, keyId: int, presented: Option<Bytes>)
  /** A handler holding a snapshot; `presented` is what the mapping's creator presented, `token` the
      owner token that was in force when it read. */
  datatype Reading = Reading(row: Row, presented: Option<Bytes>, token: Bytes)

  /** `issued`, `creator` and `token` are history: the hash of every key ever made, the credential
      with which each stored mapping was created, and the token hash last given to it, by its create
      or by a rotation since. */
  datatype Sys = Sys(
    store: S.State,
    creating: map<nat, Creating>,
    reading: map<nat, Reading>,
    issued: map<int, Bytes>,
    creator: map<string, Option<Bytes>>,
    token: map<string, Bytes>)

  const START := Sys(S.EMPTY, map[], map[], map[], map[], map[])

  datatype Action =
    | BeginCreate(id: nat, code: string, bearer: Option<Bytes>, keyId: int, now: Time)
    | CommitCreate(id: nat, row: Row)
    | Read(id: nat, code: string, now: Time)
    | NewKey(keyLabel: string, hash: Bytes, now: Time)
    | Other(op: S.Op)

  /** A bearer that matches no key is not an error; it detects 0. */
  ghost predicate Detects(s: S.State, bearer: Option<Bytes>, keyId: int) {
    if bearer.Some? && exists id :: Holds(s, bearer.value, id) then Holds(s, bearer.value, keyId) else keyId == 0
  }

  /** New keys come with new hashes; rows come only from creates; no update binds a key. */
  ghost predicate Enabled(sys: Sys, a: Action) {
    match a
    case BeginCreate(_, _, bearer, keyId, _) => Detects(sys.store, bearer, keyId)
    case NewKey(_, hash, _) => hash !in sys.issued.Values
    case Other(op) => !op.OpSet? && !op.OpCreateAPIKey? && (op.OpUpdate? ==> op.fields.apiKeyId.None?)
    case _ => true
  }

  function Next(sys: Sys, a: Action): Sys {
    match a
    case BeginCreate(id, code, bearer, keyId, now) =>
      sys.(store := S.TouchKey(sys.store, keyId, now), creating := sys.creating[id := Creating(code, keyId, bearer)])
    case CommitCreate(id, row) =>
      if id !in sys.creating then sys
      else
        var c := sys.creating[id];
        sys.(store := S.Set(sys.store, c.code, row.(apiKeyId := c.keyId)),
             creator := if c.code in sys.store.urls then sys.creator else sys.creator[c.code := c.presented],
             token := if c.code in sys.store.urls then sys.token else sys.token[c.code := row.ownerTokenHash],
             creating := sys.creating - {id})
    case Read(id, code, now) =>
      var got := S.Get(sys.store, code, now);
      if got.Err? || code !in sys.creator || code !in sys.token then sys
      else sys.(reading := sys.reading[id := Reading(got.value, sys.creator[code], sys.token[code])])
    case NewKey(keyLabel, hash, now) =>
      sys.(store := S.CreateAPIKey(sys.store, keyLabel, hash, now), issued := sys.issued[sys.store.nextKeyId + 1 := hash])
    case Other(op) =>
      sys.(store := S.Step(sys.store, op),
           token := if op.OpRotateToken? && op.code in sys.store.urls then sys.token[op.code := op.hash] else sys.token)
  }

  function Run(sys: Sys, actions: seq<Action>): Sys {
    if actions == [] then sys
    else Next(Run(sys, actions[..|actions| - 1]), actions[|actions| - 1])
  }

  ghost predicate Legal(sys: Sys, actions: seq<Action>) {
    forall i :: 0 <= i < |actions| ==> Enabled(Run(sys, actions[..i]), actions[i])
  }

  // ---------- invariants ----------

  ghost predicate KeysInv(s: S.State, issued: map<int, Bytes>) {
    && s.nextKeyId >= 0
    && (forall id :: id in issued ==> 1 <= id <= s.nextKeyId)
    && (forall id :: id in s.apiKeys ==> id in issued && s.apiKeys[id].id == id && s.apiKeys[id].tokenHash == issued[id])
    && (forall i, k :: i in issued && k in issued && issued[i] == issued[k] ==> i == k)
  }

  /** A key ID was obtained by presenting that key. */
  ghost predicate Traced(keyId: int, presented: Option<Bytes>, issued: map<int, Bytes>) {
    keyId != 0 ==> keyId in issued && presented == Some(issued[keyId])
  }

  ghost predicate RowsTraced(s: S.State, creator: map<string, Option<Bytes>>, issued: map<int, Bytes>) {
    forall code :: code in s.urls ==> code in creator && Traced(s.urls[code].apiKeyId, creator[code], issued)
  }

  ghost predicate Inv(sys: Sys) {
    && KeysInv(sys.store, sys.issued)
    && RowsTraced(sys.store, sys.creator, sys.issued)
    && (forall id :: id in sys.creating ==> Traced(sys.creating[id].keyId, sys.creating[id].presented, sys.issued))
    && (forall id :: id in sys.reading ==> Traced(sys.reading[id].row.apiKeyId, sys.reading[id].presented, sys.issued))
  }

  lemma OtherKeepsRows(s: S.State, op: S.Op, creator: map<string, Option<Bytes>>, issued: map<int, Bytes>)
    requires RowsTraced(s, creator, issued)
    requires !op.OpSet? && !op.OpCreateAPIKey? && (op.OpUpdate? ==> op.fields.apiKeyId.None?)
    ensures RowsTraced(S.Step(s, op), creator, issued)
  {
    var after := S.Step(s, op);
    forall code | code in after.urls
      ensures code in creator && Traced(after.urls[code].apiKeyId, creator[code], issued)
    {
      assert code in s.urls && (after.urls[code].apiKeyId == s.urls[code].apiKeyId || after.urls[code].apiKeyId == 0);
    }
  }

  lemma CommitKeepsInv(sys: Sys, a: Action)
    requires Inv(sys) && a.CommitCreate?
    ensures Inv(Next(sys, a))
  {
  }

  lemma NewKeyKeepsInv(sys: Sys, a: Action)
    requires Inv(sys) && a.NewKey? && Enabled(sys, a)
    ensures Inv(Next(sys, a))
  {
    var after := Next(sys, a);
    assert after.store.urls == sys.store.urls && after.creating == sys.creating && after.reading == sys.reading;
    assert forall keyId, who :: Traced(keyId, who, sys.issued) ==> Traced(keyId, who, after.issued);
  }

  lemma OtherKeepsKeys(s: S.State, op: S.Op, issued: map<int, Bytes>)
    requires KeysInv(s, issued) && !op.OpCreateAPIKey?
    ensures KeysInv(S.Step(s, op), issued) && S.Step(s, op).apiKeys.Keys <= s.apiKeys.Keys
  {
  }

  lemma NextKeepsInv(sys: Sys, a: Action)
    requires Inv(sys) && Enabled(sys, a)
    ensures Inv(Next(sys, a))
  {
    match a
    case BeginCreate(_, _, _, keyId, now) => OtherKeepsKeys(sys.store, S.OpTouchKey(keyId, now), sys.issued);
    case CommitCreate(_, _) => CommitKeepsInv(sys, a);
    case Read(_, _, _) =>
    case NewKey(_, _, _) => NewKeyKeepsInv(sys, a);
    case Other(op) =>
      OtherKeepsKeys(sys.store, op, sys.issued);
      OtherKeepsRows(sys.store, op, sys.creator, sys.issued);
  }

  /** An issued key is live after a step exactly if it was and the step does not revoke it. */
  lemma KeyAfterOne(sys: Sys, a: Action, id: int)
    requires KeysInv(sys.store, sys.issued) && Enabled(sys, a) && id in sys.issued
    ensures id in Next(sys, a).issued && Next(sys, a).issued[id] == sys.issued[id]
    ensures id in Next(sys, a).store.apiKeys <==> id in sys.store.apiKeys && a != Other(S.OpDeleteAPIKey(id))
  {
  }

  lemma LegalParts(sys: Sys, before: seq<Action>, a: Action)
    requires Legal(sys, before + [a])
    ensures Legal(sys, before) && Enabled(Run(sys, before), a)
    ensures Run(sys, before + [a]) == Next(Run(sys, before), a)
  {
    var all := before + [a];
    assert all[..|before|] == before && all[|before|] == a;
    forall i | 0 <= i < |before| ensures Enabled(Run(sys, before[..i]), before[i]) {
      assert before[..i] == all[..i] && before[i] == all[i];
    }
  }

  lemma {:induction false} RunKeepsInv(sys: Sys, actions: seq<Action>)
    requires Inv(sys) && Legal(sys, actions)
    ensures Inv(Run(sys, actions))
  {
    if actions != [] {
      var before, a := actions[..|actions| - 1], actions[|actions| - 1];
      assert actions == before + [a];
      LegalParts(sys, before, a);
      RunKeepsInv(sys, before);
      NextKeepsInv(Run(sys, before), a);
    }
  }

  ghost predicate Revoked(actions: seq<Action>, id: int) {
    exists i :: 0 <= i < |actions| && actions[i] == Other(S.OpDeleteAPIKey(id))
  }

  lemma RevokedSnoc(actions: seq<Action>, a: Action, id: int)
    ensures Revoked(actions + [a], id) <==> Revoked(actions, id) || a == Other(S.OpDeleteAPIKey(id))
  {
    var longer := actions + [a];
    assert longer[|actions|] == a && forall i :: 0 <= i < |actions| ==> longer[i] == actions[i];
  }

  /** Over every run an issued key keeps its hash, and is live at the end exactly if it was live
      at the start and was not revoked on the way: a dead key never comes back. */
  lemma {:induction false} LiveUnlessRevoked(sys: Sys, more: seq<Action>, id: int)
    requires Inv(sys) && Legal(sys, more) && id in sys.issued
    ensures id in Run(sys, more).issued && Run(sys, more).issued[id] == sys.issued[id]
    ensures id in Run(sys, more).store.apiKeys <==> id in sys.store.apiKeys && !Revoked(more, id)
  {
    if more != [] {
      var before, a := more[..|more| - 1], more[|more| - 1];
      assert more == before + [a];
      LegalParts(sys, before, a);
      LiveUnlessRevoked(sys, before, id);
      RunKeepsInv(sys, before);
      KeyAfterOne(Run(sys, before), a, id);
      RevokedSnoc(before, a, id);
    }
  }

  /** A stored mapping's key ID is 0, a live key's, or one that no later lookup returns. */
  lemma KeyIdFates(actions: seq<Action>, more: seq<Action>, code: string)
    requires Legal(START, actions) && code in Run(START, actions).store.urls
    requires Legal(Run(START, actions), more)
    ensures var keyId := Run(START, actions).store.urls[code].apiKeyId;
      || keyId == 0
      || keyId in Run(START, actions).store.apiKeys
      || (forall hash :: !Holds(Run(Run(START, actions), more).store, hash, keyId))
  {
    RunKeepsInv(START, actions);
    var sys := Run(START, actions);
    var keyId := sys.store.urls[code].apiKeyId;
    if keyId != 0 && keyId !in sys.store.apiKeys {
      LiveUnlessRevoked(sys, more, keyId);
    }
  }

  /** IDs only grow: a new key's ID exceeds every ID ever issued. */
  lemma NewKeyIsNew(actions: seq<Action>, keyLabel: string, hash: Bytes, now: Time)
    requires Legal(START, actions)
    ensures var s := Run(START, actions).store;
      S.CreateAPIKey(s, keyLabel, hash, now).apiKeys.Keys == s.apiKeys.Keys + {s.nextKeyId + 1}
    ensures forall earlier :: earlier in Run(START, actions).issued ==> earlier < Run(START, actions).store.nextKeyId + 1
  {
    RunKeepsInv(START, actions);
  }

  /** Whatever snapshot a handler holds, however old, the API-key path admits exactly the
      key that created the mapping, and only while that key is live. */
  lemma OnlyTheCreatingKey(actions: seq<Action>, id: nat, hash: Bytes)
    requires Legal(START, actions) && id in Run(START, actions).reading
    ensures var sys := Run(START, actions);
      var r := sys.reading[id];
      KeyPath(hash, r.row, sys.store) <==>
        r.row.apiKeyId != 0 && r.row.apiKeyId in sys.store.apiKeys && r.presented == Some(hash)
    ensures DistinctHashes(Run(START, actions).store)
  {
    RunKeepsInv(START, actions);
  }

  // ---------- from authorization to the audit log ----------

  /** The name can be lost: the key is revoked right after it let its holder in. */
  lemma DeletedKeyIsAnon(hash: Bytes, m: Row, s: S.State)
    requires KeyPath(hash, m, s) && !OwnerPath(hash, m) && DistinctHashes(s)
    ensures Resolves(Some(hash), Some(m), S.DeleteAPIKey(s, m.apiKeyId), Anon)
  {
  }

  /** Any number of steps may pass between the authorization and the audit entry. Whoever came in
      with the owner token is named by it, whatever happens in between. Whoever came in with a
      key is named by that key unless the key was revoked in between, and exactly then by nobody. */
  lemma NameSurvives(actions: seq<Action>, more: seq<Action>, hash: Bytes, m: Row, actor: Actor)
    requires Legal(START, actions) && Legal(Run(START, actions), more)
    requires Access(Some(hash), m, Run(START, actions).store)
    requires Resolves(Some(hash), Some(m), Run(Run(START, actions), more).store, actor)
    ensures actor ==
      if OwnerPath(hash, m) then AdminToken(m.id)
      else if Revoked(more, m.apiKeyId) then Anon
      else ApiKey(m.apiKeyId)
    ensures actor == Anon <==> !OwnerPath(hash, m) && m.apiKeyId !in Run(Run(START, actions), more).store.apiKeys
  {
    if !OwnerPath(hash, m) {
      RunKeepsInv(START, actions);
      var sys := Run(START, actions);
      LiveUnlessRevoked(sys, more, m.apiKeyId);
      RunKeepsInv(sys, more);
      NamedByKey(Run(sys, more), hash, m.apiKeyId, m, actor);
    }
  }

  /** A hash that was issued belongs to one ID for good. */
  lemma NamedByKey(sys: Sys, hash: Bytes, id: int, m: Row, actor: Actor)
    requires Inv(sys) && id in sys.issued && sys.issued[id] == hash && !OwnerPath(hash, m)
    requires Resolves(Some(hash), Some(m), sys.store, actor)
    ensures actor == if id in sys.store.apiKeys then ApiKey(id) else Anon
  {
    if id in sys.store.apiKeys {
      assert Holds(sys.store, hash, id);
    }
  }

  // ---------- the owner token, over runs ----------

  /** A stored row carries the token last given to its code, a snapshot the one it was read under. */
  ghost predicate TokensTraced(sys: Sys) {
    && (forall code :: code in sys.store.urls ==> code in sys.token && sys.store.urls[code].ownerTokenHash == sys.token[code])
    && (forall id :: id in sys.reading ==> sys.reading[id].row.ownerTokenHash == sys.reading[id].token)
  }

  lemma OtherKeepsTokens(sys: Sys, a: Action)
    requires TokensTraced(sys) && a.Other? && Enabled(sys, a)
    ensures TokensTraced(Next(sys, a))
  {
    var after := Next(sys, a);
    forall code | code in after.store.urls
      ensures code in after.token && after.store.urls[code].ownerTokenHash == after.token[code]
    {
      assert code in sys.store.urls;
    }
  }

  lemma NextKeepsTokens(sys: Sys, a: Action)
    requires TokensTraced(sys) && Enabled(sys, a)
    ensures TokensTraced(Next(sys, a))
  {
    match a
    case Other(_) => OtherKeepsTokens(sys, a);
    case _ =>
  }

  lemma {:induction false} RunKeepsTokens(sys: Sys, actions: seq<Action>)
    requires TokensTraced(sys) && Legal(sys, actions)
    ensures TokensTraced(Run(sys, actions))
  {
    if actions != [] {
      var before, a := actions[..|actions| - 1], actions[|actions| - 1];
      assert actions == before + [a];
      LegalParts(sys, before, a);
      RunKeepsTokens(sys, before);
      NextKeepsTokens(Run(sys, before), a);
    }
  }

  /** Whatever snapshot a handler holds: a bearer is let in if and only if it is the token that was
      in force when the snapshot was read, or the live key that created the mapping. */
  lemma AdmittedExactly(actions: seq<Action>, id: nat, bearer: Option<Bytes>)
    requires Legal(START, actions) && id in Run(START, actions).reading
    ensures var sys := Run(START, actions);
      var r := sys.reading[id];
      Access(bearer, r.row, sys.store) <==>
        && bearer.Some?
        && ((r.token != [] && bearer.value == r.token)
            || (r.row.apiKeyId != 0 && r.row.apiKeyId in sys.store.apiKeys && r.presented == bearer))
  {
    RunKeepsTokens(START, actions);
    if bearer.Some? {
      OnlyTheCreatingKey(actions, id, bearer.value);
    }
  }

  /** And the audit log names the token's holder as such, a key's holder by the key, others not. */
  lemma NamedExactly(actions: seq<Action>, id: nat, bearer: Option<Bytes>, actor: Actor)
    requires Legal(START, actions) && id in Run(START, actions).reading
    requires Resolves(bearer, Some(Run(START, actions).reading[id].row), Run(START, actions).store, actor)
    ensures var sys := Run(START, actions);
      var r := sys.reading[id];
      && (actor == AdminToken(r.row.id) <==> bearer.Some? && r.token != [] && bearer.value == r.token)
      && (actor == Anon <==>
            bearer.None? || ((r.token == [] || bearer.value != r.token)
                             && forall k :: k in sys.store.apiKeys ==> sys.store.apiKeys[k].tokenHash != bearer.value))
      && (actor.ApiKey? ==> actor.id in sys.store.apiKeys && bearer == Some(sys.store.apiKeys[actor.id].tokenHash))
  {
    RunKeepsTokens(START, actions);
    var sys := Run(START, actions);
    if bearer.Some? && actor == Anon {
      assert forall k :: k in sys.store.apiKeys && sys.store.apiKeys[k].tokenHash == bearer.value ==>
        Holds(sys.store, bearer.value, k);
    }
  }

  /** A rotation takes effect at once: for the mapping as stored from then on the new token is
      admitted, and the old one no more than any stranger, that is, only as a linked key. */
  lemma RotationSwitches(actions: seq<Action>, code: string, newHash: Bytes, m: Row)
    requires Legal(START, actions) && code in Run(START, actions).store.urls
    requires m == S.RotateToken(Run(START, actions).store, code, newHash).urls[code]
    ensures var sys := Run(START, actions);
      var after := S.RotateToken(sys.store, code, newHash);
      && (newHash != [] ==> Access(Some(newHash), m, after))
      && (code in sys.token && sys.token[code] != newHash ==>
            (Access(Some(sys.token[code]), m, after) <==>
               && m.apiKeyId != 0 && m.apiKeyId in after.apiKeys
               && after.apiKeys[m.apiKeyId].tokenHash == sys.token[code]))
  {
    RunKeepsTokens(START, actions);
  }

  /** A key links what it creates: in every run, a create that carries a live key's token and whose
      code is still free when it commits stores a mapping which that key then opens. */
  lemma CreatorIsAdmitted(actions: seq<Action>, id: nat, code: string, hash: Bytes, key: int, now: Time, row: Row, detected: int)
    requires Legal(START, actions) && code !in Run(START, actions).store.urls
    requires key in Run(START, actions).store.apiKeys && Run(START, actions).store.apiKeys[key].tokenHash == hash
    requires Detects(Run(START, actions).store, Some(hash), detected)
    ensures detected == key && key != 0
    ensures var begun := Next(Run(START, actions), BeginCreate(id, code, Some(hash), detected, now));
      var done := Next(begun, CommitCreate(id, row));
      && code in done.store.urls && done.store.urls[code].apiKeyId == key
      && Access(Some(hash), done.store.urls[code], done.store)
  {
    RunKeepsInv(START, actions);
    assert Holds(Run(START, actions).store, hash, key);
  }

  /** A bearer that is no live key links nothing. */
  lemma StrangerLinksNothing(s: S.State, bearer: Option<Bytes>, detected: int)
    requires Detects(s, bearer, detected)
    requires bearer.Some? ==> forall k :: k in s.apiKeys ==> s.apiKeys[k].tokenHash != bearer.value
    ensures detected == 0
  {
  }

  /** Revoking a key unlinks exactly the mappings that carried it, and changes nothing else of them. */
  lemma RevocationUnlinks(s: S.State, id: int, code: string)
    requires id in s.apiKeys && code in s.urls
    ensures var before, after := s.urls[code], S.DeleteAPIKey(s, id);
      && after.apiKeys == s.apiKeys - {id} && code in after.urls
      && after.urls[code] == (if before.apiKeyId == id then before.(apiKeyId := 0) else before)
      && (id != 0 ==> after.urls[code].apiKeyId != id)
  {
  }

  // ---------- what the log entry says ----------

  /** The kinds and IDs of the log, and that no two actors look alike in it. */
  lemma AuditTellsActors(a: Actor, b: Actor, action: string, code: string)
    ensures AuditOf(a, action, code).action == action && AuditOf(a, action, code).target == code
    ensures a == Anon <==> AuditOf(a, action, code).actorKind == "anon"
    ensures a.AdminToken? <==> AuditOf(a, action, code).actorKind == "admin_token"
    ensures a.ApiKey? <==> AuditOf(a, action, code).actorKind == "apikey"
    ensures a == Anon ==> AuditOf(a, action, code).actorId == ""
    ensures a.AdminToken? ==> AuditOf(a, action, code).actorId == a.code
    ensures a.ApiKey? ==> Strings.ReadDecimal(AuditOf(a, action, code).actorId) == a.id
    ensures AuditOf(a, action, code) == AuditOf(b, action, code) ==> a == b
  {
    assert "anon"[0] == 'a' && "anon"[1] == 'n' && "apikey"[1] == 'p' && |"admin_token"| == 11 && |"apikey"| == 6;
    if a.ApiKey? {
      Strings.DecimalReadsBack(a.id);
    }
    if b.ApiKey? {
      Strings.DecimalReadsBack(b.id);
    }
  }
}
