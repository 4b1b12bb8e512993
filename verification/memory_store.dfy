/** The in-memory store as it lives on the heap: mappings behind pointers, slices
    and optional times as boxes that a snapshot shares. */
module MemoryStore {
  import opened Models
  import S = StoreSpec

  /** Storage that copies of a struct share: what a `*time.Time` points at, or the backing
      array that a slice header refers to. Its contents can be overwritten. */
  class Box<T> {
    var v: T

    constructor (v: T)
      ensures this.v == v
    {
      this.v := v;
    }
  }

  function TimeAt(p: Box?<Time>): Option<Time>
    reads p
  {
    if p == null then None else Some(p.v)
  }

  /** The struct itself; copying it copies the references. */
  datatype URLMapping = URLMapping(
    id: string,
    originalUrl: string,
    createdAt: Time,
    expiresAt: Box?<Time>,
    clickCount: int,
    lastAccessed: Box?<Time>,
    ownerTokenHash: Box<Bytes>,
    tags: Box<seq<string>>,
    maxClicks: int,
    passwordHash: Box<Bytes>,
    passwordSalt: Box<Bytes>,
    webhookUrl: string,
    webhookSecret: Box<Bytes>,
    apiKeyId: int,
    previewTitle: string,
    previewImage: string,
    previewDescription: string,
    previewFetchedAt: Box?<Time>,
    destinations: Box<seq<Destination>>)
  {
    /** The contents a reader of the struct sees. */
    ghost function View(): Row
      reads *
    {
      Row(id, originalUrl, createdAt, TimeAt(expiresAt), clickCount, TimeAt(lastAccessed), ownerTokenHash.v,
          tags.v, maxClicks, passwordHash.v, passwordSalt.v, webhookUrl, webhookSecret.v, apiKeyId,
          previewTitle, previewImage, previewDescription, TimeAt(previewFetchedAt), destinations.v)
    }
  }

  /** `*models.URLMapping`. */
  class MappingRef {
    var m: URLMapping

    constructor (m: URLMapping)
      ensures this.m == m
    {
      this.m := m;
    }

    predicate Expired(now: Time)
      reads this, m.expiresAt
    {
      m.expiresAt != null && now > m.expiresAt.v
    }

    method Click(ev: ClickEvent)
      modifies this
      ensures m.View() == S.Clicked(old(m.View()), ev)
    {
      m := m.(clickCount := m.clickCount + 1);
      var t := new Box(ev.at);
      m := m.(lastAccessed := t);
    }

    method SetOwner(newHash: Bytes)
      modifies this
      ensures m.View() == old(m.View()).(ownerTokenHash := newHash)
    {
      var hash := new Box(newHash);
      m := m.(ownerTokenHash := hash);
    }

    method UnlinkFrom(id: int)
      modifies this
      ensures m == if old(m).apiKeyId == id then old(m).(apiKeyId := 0) else old(m)
    {
      if m.apiKeyId == id {
        m := m.(apiKeyId := 0);
      }
    }

    // The switch statements of Update, in the source's order.

    method UpdateTarget(f: UpdateFields)
      modifies this
      ensures m.View() == S.ApplyTarget(old(m.View()), f)
    {
      if f.originalUrl.Some? {
        m := m.(originalUrl := f.originalUrl.value);
      }
      if f.clearExpiration {
        m := m.(expiresAt := null);
      } else if f.expiresAt.Some? {
        var t := new Box(f.expiresAt.value);
        m := m.(expiresAt := t);
      }
      if f.tags.Some? {
        var tags := new Box(f.tags.value);
        m := m.(tags := tags);
      }
    }

    method UpdateGuards(f: UpdateFields)
      modifies this
      ensures m.View() == S.ApplyGuards(old(m.View()), f)
    {
      if f.maxClicks.Some? {
        m := m.(maxClicks := f.maxClicks.value);
      }
      if f.clearPassword {
        var none := new Box<Bytes>([]);
        m := m.(passwordHash := none, passwordSalt := none);
      } else if f.passwordHash.Some? {
        var hash := new Box(f.passwordHash.value);
        var salt := new Box(f.passwordSalt);
        m := m.(passwordHash := hash, passwordSalt := salt);
      }
    }

    method UpdateLinks(f: UpdateFields)
      modifies this
      ensures m.View() == S.ApplyLinks(old(m.View()), f, old(m.View()).webhookSecret)
    {
      if f.clearWebhook {
        var none := new Box<Bytes>([]);
        m := m.(webhookUrl := "", webhookSecret := none);
      } else if f.webhookUrl.Some? {
        m := m.(webhookUrl := f.webhookUrl.value);
        if f.webhookSecret.Some? {
          var secret := new Box(f.webhookSecret.value);
          m := m.(webhookSecret := secret);
        }
      }
      if f.apiKeyId.Some? {
        m := m.(apiKeyId := f.apiKeyId.value);
      }
    }

    method UpdatePreview(f: UpdateFields)
      modifies this
      ensures m.View() == S.ApplyPreview(old(m.View()), f)
    {
      if f.previewTitle.Some? {
        m := m.(previewTitle := f.previewTitle.value);
      }
      if f.previewImage.Some? {
        m := m.(previewImage := f.previewImage.value);
      }
      if f.previewDescription.Some? {
        m := m.(previewDescription := f.previewDescription.value);
      }
    }

    method UpdateRest(f: UpdateFields, now: Time)
      modifies this
      ensures m.View() == S.ApplyRest(old(m.View()), f, now)
    {
      if f.setPreviewFetched {
        var t := new Box(now);
        m := m.(previewFetchedAt := t);
      }
      if f.destinations.Some? {
        var pool := new Box(f.destinations.value);
        m := m.(destinations := pool);
      }
    }
  }

  /** A mapping built from plain values, as the create handler builds it. */
  method NewMapping(row: Row) returns (p: MappingRef)
    ensures fresh(p) && p.m.View() == row
  {
    var expires: Box?<Time>, accessed: Box?<Time>, fetched: Box?<Time> := null, null, null;
    if row.expiresAt.Some? { expires := new Box(row.expiresAt.value); }
    if row.lastAccessed.Some? { accessed := new Box(row.lastAccessed.value); }
    if row.previewFetchedAt.Some? { fetched := new Box(row.previewFetchedAt.value); }
    var owner := new Box(row.ownerTokenHash);
    var tags := new Box(row.tags);
    var hash := new Box(row.passwordHash);
    var salt := new Box(row.passwordSalt);
    var secret := new Box(row.webhookSecret);
    var pool := new Box(row.destinations);
    p := new MappingRef(URLMapping(
      row.id, row.originalUrl, row.createdAt, expires, row.clickCount, accessed, owner, tags, row.maxClicks,
      hash, salt, row.webhookUrl, secret, row.apiKeyId, row.previewTitle, row.previewImage,
      row.previewDescription, fetched, pool));
  }

  /** The body of Update under the lock. */
  method ApplyTo(p: MappingRef, f: UpdateFields, now: Time)
    modifies p
    ensures p.m.View() == S.ApplyUpdate(old(p.m.View()), f, now)
  {
    p.UpdateTarget(f);
    p.UpdateGuards(f);
    p.UpdateLinks(f);
    p.UpdatePreview(f);
    p.UpdateRest(f, now);
  }

  method BytesEqualConstTime(a: Bytes, b: Bytes) returns (eq: bool)
    ensures eq <==> a == b
  {
    if |a| != |b| {
      return false;
    }
    var v: Byte := 0;
    for i := 0 to |a|
      invariant v == 0 <==> a[..i] == b[..i]
    {
      assert a[..i + 1] == a[..i] + [a[i]] && b[..i + 1] == b[..i] + [b[i]];
      OrOfXor(v, a[i], b[i]);
      v := v | (a[i] ^ b[i]);
    }
    assert a[..|a|] == a && b[..|b|] == b;
    return v == 0;
  }

  lemma OrOfXor(v: Byte, x: Byte, y: Byte)
    ensures v | (x ^ y) == 0 <==> v == 0 && x == y
  {
  }

  /** Where no box was written, a struct reads as it did. */
  twostate lemma ViewKept(m: URLMapping)
    requires forall b: Box<Bytes> :: old(allocated(b)) ==> b.v == old(b.v)
    requires forall b: Box<seq<string>> :: old(allocated(b)) ==> b.v == old(b.v)
    requires forall b: Box<seq<Destination>> :: old(allocated(b)) ==> b.v == old(b.v)
    requires forall b: Box<Time> :: old(allocated(b)) ==> b.v == old(b.v)
    ensures m.View() == old(m.View())
  {
  }

  /** Append to a bounded list: `copy` slides a full one down by one and the last cell is dropped. */
  method AppendBounded<T>(log: seq<T>, x: T, cap: nat) returns (list: seq<T>)
    requires cap > 0
    ensures list == S.BoundedAppend(log, x, cap)
  {
    list := log;
    if |list| >= cap {
      list := list[1..] + [list[|list| - 1]];
      list := list[..|list| - 1];
    }
    list := list + [x];
  }

  class MemoryStore {
    var urls: map<string, MappingRef>
    var events: map<string, seq<ClickEvent>>
    var apiKeys: map<int, APIKey>
    var nextKeyId: int
    var audit: seq<AuditEvent>
    var nextAuditId: int

    /** No two codes share a mapping; a key is stored under its own ID, which the counter has passed. */
    ghost predicate Valid()
      reads this
    {
      && (forall c, d :: c in urls && d in urls && c != d ==> urls[c] != urls[d])
      && (forall id :: id in apiKeys ==> apiKeys[id].id == id <= nextKeyId)
    }

    ghost function Rows(): map<string, Row>
      reads *
    {
      map c | c in urls :: urls[c].m.View()
    }

    ghost function Contents(): S.State
      reads *
    {
      S.State(Rows(), events, apiKeys, nextKeyId, audit, nextAuditId)
    }

    lemma RowsKeys()
      ensures Rows().Keys == urls.Keys
    {
    }

    lemma RowsLive(now: Time)
      ensures S.LiveCodes(Contents(), now) == set c | c in urls && !urls[c].Expired(now)
    {
    }

    twostate lemma RowsKept()
      requires forall c :: c in urls ==> c in old(urls) && urls[c] == old(urls[c]) && urls[c].m == old(urls[c].m)
      requires forall b: Box<Bytes> :: old(allocated(b)) ==> b.v == old(b.v)
      requires forall b: Box<seq<string>> :: old(allocated(b)) ==> b.v == old(b.v)
      requires forall b: Box<seq<Destination>> :: old(allocated(b)) ==> b.v == old(b.v)
      requires forall b: Box<Time> :: old(allocated(b)) ==> b.v == old(b.v)
      ensures Rows() == S.Restrict(old(Rows()), urls.Keys)
      ensures urls == old(urls) ==> Rows() == old(Rows())
    {
      forall c | c in urls ensures Rows()[c] == old(Rows())[c] {
        ViewKept(old(urls[c].m));
      }
      S.RestrictToAll(old(Rows()));
    }

    twostate lemma AllKept()
      requires unchanged(this) && forall c :: c in urls ==> urls[c].m == old(urls[c].m)
      requires forall b: Box<Bytes> :: old(allocated(b)) ==> b.v == old(b.v)
      requires forall b: Box<seq<string>> :: old(allocated(b)) ==> b.v == old(b.v)
      requires forall b: Box<seq<Destination>> :: old(allocated(b)) ==> b.v == old(b.v)
      requires forall b: Box<Time> :: old(allocated(b)) ==> b.v == old(b.v)
      ensures Contents() == old(Contents())
    {
      RowsKept();
    }

    /** Writing through one pointer leaves every other code's view alone. */
    twostate lemma OneRowWritten(code: string)
      requires old(Valid()) && urls == old(urls) && code in urls
      requires forall c :: c in urls && c != code ==> urls[c].m == old(urls[c].m)
      requires forall b: Box<Bytes> :: old(allocated(b)) ==> b.v == old(b.v)
      requires forall b: Box<seq<string>> :: old(allocated(b)) ==> b.v == old(b.v)
      requires forall b: Box<seq<Destination>> :: old(allocated(b)) ==> b.v == old(b.v)
      requires forall b: Box<Time> :: old(allocated(b)) ==> b.v == old(b.v)
      ensures Rows() == old(Rows())[code := urls[code].m.View()]
    {
      hide URLMapping.View;
      forall c | c in urls && c != code ensures Rows()[c] == old(Rows())[c] {
        ViewKept(old(urls[c].m));
      }
    }

    constructor ()
      ensures Valid() && Contents() == S.EMPTY
    {
      urls, events, apiKeys, nextKeyId, audit, nextAuditId := map[], map[], map[], 0, [], 0;
      new;
      assert Contents().urls == map[];
    }

    /** A snapshot: the struct is copied, what it points at is shared. */
    method Get(code: string, now: Time) returns (r: Result<URLMapping, S.StoreError>)
      requires Valid()
      ensures r.Ok? ==> code in urls && r.value == urls[code].m
      ensures match S.Get(Contents(), code, now)
              case Ok(row) => r.Ok? && r.value.View() == row
              case Err(e) => r == Err(e)
    {
      if code !in urls {
        return Err(S.NotFound);
      }
      var snap := urls[code].m;
      if snap.expiresAt != null && now > snap.expiresAt.v {
        return Err(S.Expired);
      }
      return Ok(snap);
    }

    method Set(code: string, p: MappingRef) returns (err: Option<S.StoreError>)
      requires Valid() && p !in urls.Values
      modifies this`urls
      ensures Valid()
      ensures err == if code in old(urls) then Some(S.CodeConflict) else None
      ensures Contents() == S.Set(old(Contents()), code, old(p.m.View()))
      ensures urls == if code in old(urls) then old(urls) else old(urls)[code := p]
    {
      hide URLMapping.View;
      if code in urls {
        return Some(S.CodeConflict);
      }
      Insert(code, p);
      return None;
    }

    method Insert(code: string, p: MappingRef)
      modifies this`urls
      ensures urls == old(urls)[code := p]
      ensures Rows() == old(Rows())[code := old(p.m.View())]
    {
      hide URLMapping.View;
      urls := urls[code := p];
      forall c | c in urls ensures urls[c].m.View() == old((urls[code := p])[c].m.View()) {
        ViewKept(urls[c].m);
      }
    }

    method Update(code: string, f: UpdateFields, now: Time) returns (err: Option<S.StoreError>)
      requires Valid()
      modifies if code in urls then {urls[code]} else {}
      ensures Valid()
      ensures err == if code in urls then None else Some(S.NotFound)
      ensures Contents() == S.Update(old(Contents()), code, f, now)
      ensures unchanged(this)
    {
      hide URLMapping.View;
      if code !in urls {
        return Some(S.NotFound);
      }
      var p := urls[code];
      ApplyTo(p, f, now);
      OneRowWritten(code);
      return None;
    }

    method Delete(code: string) returns (err: Option<S.StoreError>)
      requires Valid()
      modifies this`urls, this`events
      ensures Valid()
      ensures err == if code in old(urls) then None else Some(S.NotFound)
      ensures Contents() == S.Delete(old(Contents()), code)
      ensures forall c :: c in urls ==> c in old(urls) && urls[c] == old(urls)[c]
    {
      hide URLMapping.View;
      if code !in urls {
        return Some(S.NotFound);
      }
      RowsKeys();
      urls := urls - {code};
      events := events - {code};
      RowsKept();
      assert urls.Keys == old(urls).Keys - {code};
      return None;
    }

    method RotateToken(code: string, newHash: Bytes) returns (err: Option<S.StoreError>)
      requires Valid()
      modifies if code in urls then {urls[code]} else {}
      ensures Valid()
      ensures err == if code in urls then None else Some(S.NotFound)
      ensures Contents() == S.RotateToken(old(Contents()), code, newHash)
      ensures unchanged(this)
    {
      hide URLMapping.View;
      if code !in urls {
        return Some(S.NotFound);
      }
      urls[code].SetOwner(newHash);
      OneRowWritten(code);
      return None;
    }

    /** Counter, last-accessed time and log move together. */
    method RecordClick(code: string, ev: ClickEvent) returns (err: Option<S.StoreError>)
      requires Valid()
      modifies this`events, if code in urls then {urls[code]} else {}
      ensures Valid()
      ensures err == if code in urls then None else Some(S.NotFound)
      ensures Contents() == S.RecordClick(old(Contents()), code, ev)
    {
      hide URLMapping.View;
      if code !in urls {
        return Some(S.NotFound);
      }
      urls[code].Click(ev);
      label clicked:
      LogClick(code, ev);
      ViewKept@clicked(urls[code].m);
      OneRowWritten(code);
      return None;
    }

    method LogClick(code: string, ev: ClickEvent)
      modifies this`events
      ensures events == old(events)[code := S.BoundedAppend(if code in old(events) then old(events)[code] else [], ev, S.CLICK_CAP)]
    {
      var list := AppendBounded(if code in events then events[code] else [], ev, S.CLICK_CAP);
      events := events[code := list];
    }

    method RecentClicks(code: string, limit: int) returns (r: Result<seq<ClickEvent>, S.StoreError>)
      ensures r == S.RecentClicks(Contents(), code, limit)
    {
      hide URLMapping.View;
      RowsKeys();
      if code !in urls {
        return Err(S.NotFound);
      }
      var list := if code in events then events[code] else [];
      var n := if limit <= 0 then S.DEFAULT_LIMIT else limit;
      ghost var asked := n;
      if n > |list| {
        n := |list|;
      }
      var out := [];
      for i := 0 to n
        invariant |out| == i
        invariant forall k :: 0 <= k < i ==> out[k] == list[|list| - 1 - k]
      {
        out := out + [list[|list| - 1 - i]];
      }
      assert out == S.Reverse(S.LastN(list, asked));
      return Ok(out);
    }

    method CreateAPIKey(keyLabel: string, tokenHash: Bytes, now: Time) returns (key: APIKey)
      requires Valid()
      modifies this
      ensures Valid()
      ensures key == APIKey(old(nextKeyId) + 1, tokenHash, keyLabel, now, None) && key.id !in old(apiKeys)
      ensures Contents() == S.CreateAPIKey(old(Contents()), keyLabel, tokenHash, now)
      ensures urls == old(urls)
    {
      nextKeyId := nextKeyId + 1;
      key := APIKey(nextKeyId, tokenHash, keyLabel, now, None);
      apiKeys := apiKeys[key.id := key];
      RowsKept();
    }

    /** Walks the keys in whatever order the map yields them. */
    method LookupAPIKey(tokenHash: Bytes, now: Time) returns (r: Result<APIKey, S.StoreError>)
      requires Valid()
      modifies this
      ensures Valid()
      ensures r.Ok? ==> r.value.id in old(apiKeys) && old(apiKeys)[r.value.id].tokenHash == tokenHash
      ensures r.Ok? ==> Contents() == S.TouchKey(old(Contents()), r.value.id, now)
      ensures r.Err? ==> r.error == S.NotFound && Contents() == old(Contents())
      ensures r.Err? ==> forall id :: id in apiKeys ==> apiKeys[id].tokenHash != tokenHash
      ensures urls == old(urls)
    {
      var found := FindKey(tokenHash);
      if found.None? {
        return Err(S.NotFound);
      }
      Touch(found.value, now);
      return Ok(apiKeys[found.value]);
    }

    method Touch(id: int, now: Time)
      requires Valid()
      modifies this`apiKeys
      ensures Valid()
      ensures Contents() == S.TouchKey(old(Contents()), id, now)
      ensures apiKeys.Keys == old(apiKeys.Keys)
    {
      if id in apiKeys {
        apiKeys := apiKeys[id := apiKeys[id].(lastUsedAt := Some(now))];
      }
      RowsKept();
    }

    method FindKey(tokenHash: Bytes) returns (found: Option<int>)
      ensures found.Some? ==> found.value in apiKeys && apiKeys[found.value].tokenHash == tokenHash
      ensures found.None? ==> forall id :: id in apiKeys ==> apiKeys[id].tokenHash != tokenHash
    {
      var todo := apiKeys.Items;
      while todo != {}
        invariant todo <= apiKeys.Items
        invariant forall e :: e in apiKeys.Items && e !in todo ==> e.1.tokenHash != tokenHash
        decreases todo
      {
        var entry :| entry in todo;
        todo := todo - {entry};
        var same := BytesEqualConstTime(entry.1.tokenHash, tokenHash);
        if same {
          return Some(entry.0);
        }
      }
      assert forall id :: id in apiKeys ==> (id, apiKeys[id]) in apiKeys.Items;
      return None;
    }

    method DeleteAPIKey(id: int) returns (err: Option<S.StoreError>)
      requires Valid()
      modifies this`apiKeys, urls.Values
      ensures Valid()
      ensures err == if id in old(apiKeys) then None else Some(S.NotFound)
      ensures Contents() == S.DeleteAPIKey(old(Contents()), id)
    {
      hide URLMapping.View;
      if id !in apiKeys {
        return Some(S.NotFound);
      }
      apiKeys := apiKeys - {id};
      UnlinkAll(id);
      RowsUnlinked(id);
      return None;
    }

    ghost predicate Unlinked(now: URLMapping, was: URLMapping, id: int) {
      now == if was.apiKeyId == id then was.(apiKeyId := 0) else was
    }

    method UnlinkAll(id: int)
      requires Valid()
      modifies urls.Values
      ensures forall c :: c in urls ==> Unlinked(urls[c].m, old(urls[c].m), id)
    {
      var todo := urls.Keys;
      while todo != {}
        invariant todo <= urls.Keys
        invariant forall c :: c in urls && c in todo ==> urls[c].m == old(urls[c].m)
        invariant forall c :: c in urls && c !in todo ==> Unlinked(urls[c].m, old(urls[c].m), id)
        decreases todo
      {
        var code :| code in todo;
        todo := todo - {code};
        urls[code].UnlinkFrom(id);
      }
    }

    twostate lemma RowsUnlinked(id: int)
      requires urls == old(urls) && forall c :: c in urls ==> Unlinked(urls[c].m, old(urls[c].m), id)
      requires forall b: Box<Bytes> :: old(allocated(b)) ==> b.v == old(b.v)
      requires forall b: Box<seq<string>> :: old(allocated(b)) ==> b.v == old(b.v)
      requires forall b: Box<seq<Destination>> :: old(allocated(b)) ==> b.v == old(b.v)
      requires forall b: Box<Time> :: old(allocated(b)) ==> b.v == old(b.v)
      ensures Rows() == map c | c in old(Rows()) :: S.Unlink(old(Rows())[c], id)
    {
      forall c | c in urls ensures Rows()[c] == S.Unlink(old(Rows())[c], id) {
        ViewKept(old(urls[c].m));
      }
    }

    method UpdateAPIKeyLabel(id: int, keyLabel: string) returns (err: Option<S.StoreError>)
      requires Valid()
      modifies this
      ensures Valid()
      ensures err == if id in old(apiKeys) then None else Some(S.NotFound)
      ensures Contents() == S.UpdateAPIKeyLabel(old(Contents()), id, keyLabel)
      ensures urls == old(urls)
    {
      if id !in apiKeys {
        return Some(S.NotFound);
      }
      apiKeys := apiKeys[id := apiKeys[id].(keyLabel := keyLabel)];
      RowsKept();
      return None;
    }

    method LogAudit(event: AuditEvent, now: Time)
      requires Valid()
      modifies this
      ensures Valid()
      ensures Contents() == S.LogAudit(old(Contents()), event, now)
      ensures urls == old(urls)
    {
      nextAuditId := nextAuditId + 1;
      var ev := event.(id := nextAuditId);
      if ev.at.None? {
        ev := ev.(at := Some(now));
      }
      audit := AppendBounded(audit, ev, S.AUDIT_CAP);
      RowsKept();
    }

    /** Walks backwards from the newest event of the page. */
    method RecentAuditEvents(limit: int, offset: int) returns (page: seq<AuditEvent>)
      ensures page == S.AuditPage(audit, limit, offset)
    {
      var n := if limit <= 0 then S.DEFAULT_LIMIT else limit;
      var skip := if offset < 0 then 0 else offset;
      var total := |audit|;
      if skip >= total {
        return [];
      }
      var end := total - skip;
      var start := end - n;
      if start < 0 {
        start := 0;
      }
      page := [];
      var i := end - 1;
      while i >= start
        invariant start - 1 <= i < end && |page| == end - 1 - i
        invariant forall k :: 0 <= k < |page| ==> page[k] == audit[end - 1 - k]
      {
        page := page + [audit[i]];
        i := i - 1;
      }
    }

    /** Drops expired mappings; the click lists stay. */
    method CleanupExpired(now: Time)
      requires Valid()
      modifies this`urls
      ensures Valid()
      ensures Contents() == S.CleanupExpired(old(Contents()), now)
      ensures forall c :: c in urls ==> c in old(urls) && urls[c] == old(urls)[c]
    {
      hide URLMapping.View;
      RowsLive(now);
      Reap(now, S.LiveCodes(Contents(), now));
      RowsKept();
    }

    method Reap(now: Time, ghost live: set<string>)
      requires live == set c | c in urls && !urls[c].Expired(now)
      modifies this`urls
      ensures forall c :: c in urls ==> c in old(urls) && urls[c] == old(urls)[c]
      ensures urls.Keys == live
    {
      var todo := urls.Keys;
      while todo != {}
        invariant todo <= urls.Keys
        invariant forall c :: c in urls ==> c in old(urls) && urls[c] == old(urls)[c]
        invariant forall c :: c in old(urls) && c !in todo ==> (c in urls <==> !old(urls[c].Expired(now)))
        decreases todo
      {
        var code :| code in todo;
        todo := todo - {code};
        var expired := urls[code].Expired(now);
        if expired {
          urls := urls - {code};
        }
      }
    }
  }

  predicate OnUrls(op: S.Op) {
    op.OpSet? || op.OpDelete? || op.OpRotateToken? || op.OpUpdate? || op.OpRecordClick?
  }

  /** Any one operation, on the real store. */
  method Perform(store: MemoryStore, op: S.Op)
    requires store.Valid()
    modifies store, store.urls.Values
    ensures store.Valid()
    ensures store.Contents() == S.Step(old(store.Contents()), op)
    ensures forall c :: c in store.urls ==> store.urls[c] in old(store.urls.Values) || fresh(store.urls[c])
  {
    if OnUrls(op) {
      PerformOnUrls(store, op);
    } else {
      PerformOther(store, op);
    }
  }

  method PerformOnUrls(store: MemoryStore, op: S.Op)
    requires store.Valid() && OnUrls(op)
    modifies store, store.urls.Values
    ensures store.Valid()
    ensures store.Contents() == S.Step(old(store.Contents()), op)
    ensures forall c :: c in store.urls ==> store.urls[c] in old(store.urls.Values) || fresh(store.urls[c])
  {
    hide URLMapping.View;
    match op
    case OpSet(code, row) =>
      var p := NewMapping(row);
      store.AllKept();
      var err := store.Set(code, p);
    case OpDelete(code) => var err := store.Delete(code);
    case OpRotateToken(code, hash) => var err := store.RotateToken(code, hash);
    case OpUpdate(code, f, now) => var err := store.Update(code, f, now);
    case OpRecordClick(code, ev) => var err := store.RecordClick(code, ev);
  }

  method PerformOther(store: MemoryStore, op: S.Op)
    requires store.Valid() && !OnUrls(op)
    modifies store, store.urls.Values
    ensures store.Valid()
    ensures store.Contents() == S.Step(old(store.Contents()), op)
    ensures forall c :: c in store.urls ==> store.urls[c] in old(store.urls.Values)
  {
    hide URLMapping.View;
    match op
    case OpCreateAPIKey(keyLabel, hash, now) => var key := store.CreateAPIKey(keyLabel, hash, now);
    case OpDeleteAPIKey(id) => var err := store.DeleteAPIKey(id);
    case OpTouchKey(id, now) => store.Touch(id, now);
    case OpUpdateAPIKeyLabel(id, keyLabel) => var err := store.UpdateAPIKeyLabel(id, keyLabel);
    case OpLogAudit(ev, now) => store.LogAudit(ev, now);
    case OpCleanup(now) => store.CleanupExpired(now);
  }

  /** What other requests do to the store while one handler is between two of its own steps. */
  method Interfere(store: MemoryStore, ops: seq<S.Op>)
    requires store.Valid()
    modifies store, store.urls.Values
    ensures store.Valid() && store.Contents() == S.Run(old(store.Contents()), ops)
    ensures forall c :: c in store.urls ==> store.urls[c] in old(store.urls.Values) || fresh(store.urls[c])
  {
    hide URLMapping.View;
    for i := 0 to |ops|
      invariant store.Valid() && store.Contents() == S.Run(old(store.Contents()), ops[..i])
      invariant forall c :: c in store.urls ==> store.urls[c] in old(store.urls.Values) || fresh(store.urls[c])
    {
      Perform(store, ops[i]);
      assert ops[..i + 1][..i] == ops[..i];
    }
    assert ops[..|ops|] == ops;
  }

  /** A snapshot never changes: whatever operations follow a Get, the struct it returned
      reads, through every slice and pointer, exactly as it did. */
  method SnapshotStable(store: MemoryStore, code: string, now: Time, ops: seq<S.Op>)
    returns (r: Result<URLMapping, S.StoreError>)
    requires store.Valid()
    modifies store, store.urls.Values
    ensures store.Valid() && store.Contents() == S.Run(old(store.Contents()), ops)
    ensures match S.Get(old(store.Contents()), code, now)
            case Ok(row) => r.Ok? && r.value.View() == row
            case Err(e) => r == Err(e)
  {
    hide URLMapping.View;
    r := store.Get(code, now);
    Interfere(store, ops);
    if r.Ok? {
      ViewKept(r.value);
    }
  }
}
