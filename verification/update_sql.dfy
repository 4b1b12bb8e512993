/** The two SQL compilers of `Store.Update`: SQLite's positional builder and
    Postgres's numbered one, the statements they produce, and what those
    statements do to a table of encoded rows. */
module UpdateSql {
  import opened Models
  import S = StoreSpec

  // ---------- the urls table ----------

  datatype Column =
    | OriginalUrl | ExpiresAt | Tags | MaxClicks | PasswordHash | PasswordSalt | WebhookUrl | WebhookSecret
    | ApiKeyId | PreviewTitle | PreviewImage | PreviewDescription | PreviewFetchedAt | Destinations
    | CreatedAt | ClickCount | LastAccessed | OwnerTokenHash

  datatype Value = Null | Integer(i: int) | Text(t: string) | Blob(b: Bytes)

  /** One table row: a value in every column. */
  datatype Record = Record(
    originalUrl: Value, expiresAt: Value, tags: Value, maxClicks: Value, passwordHash: Value, passwordSalt: Value,
    webhookUrl: Value, webhookSecret: Value, apiKeyId: Value, previewTitle: Value, previewImage: Value,
    previewDescription: Value, previewFetchedAt: Value, destinations: Value,
    createdAt: Value, clickCount: Value, lastAccessed: Value, ownerTokenHash: Value)

  type Table = map<string, Record>

  function Put(rec: Record, c: Column, v: Value): Record {
    match c
    case OriginalUrl => rec.(originalUrl := v)
    case ExpiresAt => rec.(expiresAt := v)
    case Tags => rec.(tags := v)
    case MaxClicks => rec.(maxClicks := v)
    case PasswordHash => rec.(passwordHash := v)
    case PasswordSalt => rec.(passwordSalt := v)
    case WebhookUrl => rec.(webhookUrl := v)
    case WebhookSecret => rec.(webhookSecret := v)
    case ApiKeyId => rec.(apiKeyId := v)
    case PreviewTitle => rec.(previewTitle := v)
    case PreviewImage => rec.(previewImage := v)
    case PreviewDescription => rec.(previewDescription := v)
    case PreviewFetchedAt => rec.(previewFetchedAt := v)
    case Destinations => rec.(destinations := v)
    case CreatedAt => rec.(createdAt := v)
    case ClickCount => rec.(clickCount := v)
    case LastAccessed => rec.(lastAccessed := v)
    case OwnerTokenHash => rec.(ownerTokenHash := v)
  }

  /** JSON text of the two list columns: any encoder with a decoder that undoes it. */
  datatype Codec = Codec(
    encodeTags: seq<string> -> string, decodeTags: string -> Option<seq<string>>,
    encodePool: seq<Destination> -> string, decodePool: string -> Option<seq<Destination>>)
  {
    ghost predicate Valid() {
      && (forall t: seq<string> :: encodeTags(t) != "" && decodeTags(encodeTags(t)) == Some(t))
      && (forall d: seq<Destination> :: encodePool(d) != "" && decodePool(encodePool(d)) == Some(d))
    }
  }

  // ---------- Go value to SQL value, and back ----------

  function NullableInt(v: int): Value { if v == 0 then Null else Integer(v) }
  function NullableText(s: string): Value { if s == "" then Null else Text(s) }
  function NullableBlob(b: Bytes): Value { if b == [] then Null else Blob(b) }
  function NullableTime(t: Option<Time>): Value { if t.None? then Null else Integer(t.value) }
  function EncodeTags(j: Codec, tags: seq<string>): Value { if tags == [] then Null else Text(j.encodeTags(tags)) }
  function EncodePool(j: Codec, pool: seq<Destination>): Value { if pool == [] then Null else Text(j.encodePool(pool)) }

  function IntOf(v: Value): int { if v.Integer? then v.i else 0 }
  function TextOf(v: Value): string { if v.Text? then v.t else "" }
  function BlobOf(v: Value): Bytes { if v.Blob? then v.b else [] }
  function TimeOf(v: Value): Option<Time> { if v.Integer? then Some(v.i) else None }
  /** Malformed JSON reads as "no tags" or "no pool". */
  function TagsOf(j: Codec, v: Value): seq<string> {
    if v.Text? && v.t != "" then j.decodeTags(v.t).GetOr([]) else []
  }
  function PoolOf(j: Codec, v: Value): seq<Destination> {
    if v.Text? && v.t != "" then j.decodePool(v.t).GetOr([]) else []
  }

  function Encode(j: Codec, row: Row): Record {
    Record(
      originalUrl := Text(row.originalUrl),
      expiresAt := NullableTime(row.expiresAt),
      tags := EncodeTags(j, row.tags),
      maxClicks := NullableInt(row.maxClicks),
      passwordHash := NullableBlob(row.passwordHash),
      passwordSalt := NullableBlob(row.passwordSalt),
      webhookUrl := NullableText(row.webhookUrl),
      webhookSecret := NullableBlob(row.webhookSecret),
      apiKeyId := NullableInt(row.apiKeyId),
      previewTitle := NullableText(row.previewTitle),
      previewImage := NullableText(row.previewImage),
      previewDescription := NullableText(row.previewDescription),
      previewFetchedAt := NullableTime(row.previewFetchedAt),
      destinations := EncodePool(j, row.destinations),
      createdAt := Integer(row.createdAt),
      clickCount := Integer(row.clickCount),
      lastAccessed := NullableTime(row.lastAccessed),
      ownerTokenHash := Blob(row.ownerTokenHash))
  }

  function Decode(j: Codec, code: string, rec: Record): Row {
    Row(code, TextOf(rec.originalUrl), IntOf(rec.createdAt), TimeOf(rec.expiresAt), IntOf(rec.clickCount),
        TimeOf(rec.lastAccessed), BlobOf(rec.ownerTokenHash), TagsOf(j, rec.tags), IntOf(rec.maxClicks),
        BlobOf(rec.passwordHash), BlobOf(rec.passwordSalt), TextOf(rec.webhookUrl), BlobOf(rec.webhookSecret),
        IntOf(rec.apiKeyId), TextOf(rec.previewTitle), TextOf(rec.previewImage),
        TextOf(rec.previewDescription), TimeOf(rec.previewFetchedAt), PoolOf(j, rec.destinations))
  }

  lemma EncodeDecode(j: Codec, row: Row)
    requires j.Valid()
    ensures Decode(j, row.id, Encode(j, row)) == row
  {
    assert j.decodeTags(j.encodeTags(row.tags)) == Some(row.tags);
    assert j.decodePool(j.encodePool(row.destinations)) == Some(row.destinations);
  }

  // ---------- the SET list, field by field ----------

  datatype Assignment = Assignment(column: Column, value: Value)

  function SetUrl(f: UpdateFields): seq<Assignment> {
    if f.originalUrl.Some? then [Assignment(OriginalUrl, Text(f.originalUrl.value))] else []
  }
  function SetExpiry(f: UpdateFields): seq<Assignment> {
    if f.clearExpiration then [Assignment(ExpiresAt, Null)]
    else if f.expiresAt.Some? then [Assignment(ExpiresAt, Integer(f.expiresAt.value))] else []
  }
  function SetTags(j: Codec, f: UpdateFields): seq<Assignment> {
    if f.tags.Some? then [Assignment(Tags, EncodeTags(j, f.tags.value))] else []
  }
  function SetCap(f: UpdateFields): seq<Assignment> {
    if f.maxClicks.Some? then [Assignment(MaxClicks, NullableInt(f.maxClicks.value))] else []
  }
  function SetPassword(f: UpdateFields): seq<Assignment> {
    if f.clearPassword then [Assignment(PasswordHash, Null), Assignment(PasswordSalt, Null)]
    else if f.passwordHash.Some? then
      [Assignment(PasswordHash, NullableBlob(f.passwordHash.value)), Assignment(PasswordSalt, NullableBlob(f.passwordSalt))]
    else []
  }
  function SetWebhook(f: UpdateFields): seq<Assignment> {
    if f.clearWebhook then [Assignment(WebhookUrl, Null), Assignment(WebhookSecret, Null)]
    else if f.webhookUrl.Some? then
      [Assignment(WebhookUrl, NullableText(f.webhookUrl.value)),
       Assignment(WebhookSecret, NullableBlob(f.webhookSecret.GetOr([])))]
    else []
  }
  function SetKey(f: UpdateFields): seq<Assignment> {
    if f.apiKeyId.Some? then [Assignment(ApiKeyId, NullableInt(f.apiKeyId.value))] else []
  }
  function SetTitle(f: UpdateFields): seq<Assignment> {
    if f.previewTitle.Some? then [Assignment(PreviewTitle, NullableText(f.previewTitle.value))] else []
  }
  function SetImage(f: UpdateFields): seq<Assignment> {
    if f.previewImage.Some? then [Assignment(PreviewImage, NullableText(f.previewImage.value))] else []
  }
  function SetDescription(f: UpdateFields): seq<Assignment> {
    if f.previewDescription.Some? then [Assignment(PreviewDescription, NullableText(f.previewDescription.value))] else []
  }
  function SetFetched(f: UpdateFields, now: Time): seq<Assignment> {
    if f.setPreviewFetched then [Assignment(PreviewFetchedAt, Integer(now))] else []
  }
  function SetPool(j: Codec, f: UpdateFields): seq<Assignment> {
    if f.destinations.Some? then [Assignment(Destinations, EncodePool(j, f.destinations.value))] else []
  }

  function SetTarget(j: Codec, f: UpdateFields): seq<Assignment> { SetUrl(f) + SetExpiry(f) + SetTags(j, f) }
  function SetGuards(f: UpdateFields): seq<Assignment> { SetCap(f) + SetPassword(f) }
  function SetLinks(f: UpdateFields): seq<Assignment> { SetWebhook(f) + SetKey(f) }
  function SetPreview(f: UpdateFields): seq<Assignment> { SetTitle(f) + SetImage(f) + SetDescription(f) }
  function SetRest(j: Codec, f: UpdateFields, now: Time): seq<Assignment> { SetFetched(f, now) + SetPool(j, f) }

  /** Every assignment an update makes, in the order both builders emit them. */
  function Assignments(j: Codec, f: UpdateFields, now: Time): seq<Assignment> {
    SetTarget(j, f) + SetGuards(f) + SetLinks(f) + SetPreview(f) + SetRest(j, f, now)
  }

  // ---------- statements and the two engines ----------

  /** `?` takes the next argument in order; `$k` names the k-th argument. */
  datatype Placeholder = Positional | Numbered(k: int)
  datatype Fragment = Fragment(column: Column, placeholder: Placeholder)

  datatype ArgValue = Arg(value: Value) | CodeArg(code: string)

  /** `UPDATE urls SET <sets> WHERE short_code = <key>`. */
  datatype Statement = Statement(sets: seq<Fragment>, key: Placeholder)

  datatype ExecError = WrongArgumentCount | NoSuchParameter | WrongParameterType | ColumnSetTwice

  function Assigned(rec: Record, assignments: seq<Assignment>): Record
    decreases |assignments|
  {
    if assignments == [] then rec
    else Assigned(Put(rec, assignments[0].column, assignments[0].value), assignments[1..])
  }

  /** The argument a placeholder stands for; `position` counts the `?` before it. */
  function Bind(p: Placeholder, position: nat, args: seq<ArgValue>): Result<ArgValue, ExecError> {
    var i := if p.Positional? then position else p.k - 1;
    if 0 <= i < |args| then Ok(args[i]) else Err(NoSuchParameter)
  }

  function BindAll(sets: seq<Fragment>, position: nat, args: seq<ArgValue>): Result<seq<Assignment>, ExecError> {
    if sets == [] then Ok([])
    else
      var first := Bind(sets[0].placeholder, position, args);
      if first.Err? then Err(first.error)
      else if first.value.CodeArg? then Err(WrongParameterType)
      else
        var rest := BindAll(sets[1..], position + 1, args);
        if rest.Err? then rest
        else Ok([Assignment(sets[0].column, first.value.value)] + rest.value)
  }

  predicate SetsTwice(sets: seq<Fragment>) {
    exists i, k :: 0 <= i < k < |sets| && sets[i].column == sets[k].column
  }

  /** The table after the statement, and the number of rows it touched. */
  function Exec(t: Table, stmt: Statement, args: seq<ArgValue>): Result<(Table, nat), ExecError> {
    if |args| != |stmt.sets| + 1 then Err(WrongArgumentCount)
    else if SetsTwice(stmt.sets) then Err(ColumnSetTwice)
    else
      var bound := BindAll(stmt.sets, 0, args);
      var key := Bind(stmt.key, |stmt.sets|, args);
      if bound.Err? then Err(bound.error)
      else if key.Err? then Err(key.error)
      else if key.value.Arg? then Err(WrongParameterType)
      else if key.value.code in t then
        Ok((t[key.value.code := Assigned(t[key.value.code], bound.value)], 1))
      else Ok((t, 0))
  }

  // ---------- no column is set twice ----------

  function Rank(c: Column): nat {
    match c
    case OriginalUrl => 0 case ExpiresAt => 1 case Tags => 2 case MaxClicks => 3
    case PasswordHash => 4 case PasswordSalt => 5 case WebhookUrl => 6 case WebhookSecret => 7
    case ApiKeyId => 8 case PreviewTitle => 9 case PreviewImage => 10 case PreviewDescription => 11
    case PreviewFetchedAt => 12 case Destinations => 13 case CreatedAt => 14 case ClickCount => 15
    case LastAccessed => 16 case OwnerTokenHash => 17
  }

  /** The columns rise strictly and stay in [lo, hi). */
  ghost predicate Rising(s: seq<Assignment>, lo: nat, hi: nat) {
    && (forall i :: 0 <= i < |s| ==> lo <= Rank(s[i].column) < hi)
    && (forall i, k :: 0 <= i < k < |s| ==> Rank(s[i].column) < Rank(s[k].column))
  }

  lemma RisingConcat(a: seq<Assignment>, b: seq<Assignment>, lo: nat, mid: nat, hi: nat)
    requires lo <= mid <= hi && Rising(a, lo, mid) && Rising(b, mid, hi)
    ensures Rising(a + b, lo, hi)
  {
  }

  lemma TargetRising(j: Codec, f: UpdateFields)
    ensures Rising(SetTarget(j, f), 0, 3)
  {
    RisingConcat(SetUrl(f), SetExpiry(f), 0, 1, 2);
    RisingConcat(SetUrl(f) + SetExpiry(f), SetTags(j, f), 0, 2, 3);
  }

  lemma GuardsRising(f: UpdateFields)
    ensures Rising(SetGuards(f), 3, 6)
  {
    RisingConcat(SetCap(f), SetPassword(f), 3, 4, 6);
  }

  lemma LinksRising(f: UpdateFields)
    ensures Rising(SetLinks(f), 6, 9)
  {
    RisingConcat(SetWebhook(f), SetKey(f), 6, 8, 9);
  }

  lemma PreviewRising(f: UpdateFields)
    ensures Rising(SetPreview(f), 9, 12)
  {
    RisingConcat(SetTitle(f), SetImage(f), 9, 10, 11);
    RisingConcat(SetTitle(f) + SetImage(f), SetDescription(f), 9, 11, 12);
  }

  lemma RestRising(j: Codec, f: UpdateFields, now: Time)
    ensures Rising(SetRest(j, f, now), 12, 14)
  {
    RisingConcat(SetFetched(f, now), SetPool(j, f), 12, 13, 14);
  }

  lemma PartsRising(a: seq<Assignment>, b: seq<Assignment>, c: seq<Assignment>, d: seq<Assignment>, e: seq<Assignment>)
    requires Rising(a, 0, 3) && Rising(b, 3, 6) && Rising(c, 6, 9) && Rising(d, 9, 12) && Rising(e, 12, 14)
    ensures Rising(a + b + c + d + e, 0, 14)
  {
    RisingConcat(a, b, 0, 3, 6);
    RisingConcat(a + b, c, 0, 6, 9);
    RisingConcat(a + b + c, d, 0, 9, 12);
    RisingConcat(a + b + c + d, e, 0, 12, 14);
  }

  lemma AssignmentsRising(j: Codec, f: UpdateFields, now: Time)
    ensures Rising(Assignments(j, f, now), 0, 14)
  {
    TargetRising(j, f);
    GuardsRising(f);
    LinksRising(f);
    PreviewRising(f);
    RestRising(j, f, now);
    PartsRising(SetTarget(j, f), SetGuards(f), SetLinks(f), SetPreview(f), SetRest(j, f, now));
  }

  // ---------- the builders ----------

  /** Fragments and arguments in step with the assignments they stand for. */
  ghost predicate InStep(sets: seq<Fragment>, args: seq<ArgValue>, done: seq<Assignment>, numbered: bool) {
    && |sets| == |args| == |done|
    && (forall i :: 0 <= i < |done| ==>
          sets[i] == Fragment(done[i].column, if numbered then Numbered(i + 1) else Positional))
    && (forall i :: 0 <= i < |done| ==> args[i] == Arg(done[i].value))
  }

  method SqliteTarget(j: Codec, f: UpdateFields, sets0: seq<Fragment>, args0: seq<ArgValue>, ghost done0: seq<Assignment>)
    returns (sets: seq<Fragment>, args: seq<ArgValue>)
    requires InStep(sets0, args0, done0, false)
    ensures InStep(sets, args, done0 + SetTarget(j, f), false)
  {
    sets, args := sets0, args0;
    ghost var done := done0;
    if f.originalUrl.Some? {
      sets := sets + [Fragment(OriginalUrl, Positional)];
      args := args + [Arg(Text(f.originalUrl.value))];
    }
    done := done + SetUrl(f);
    assert InStep(sets, args, done, false);
    if f.clearExpiration {
      sets := sets + [Fragment(ExpiresAt, Positional)];
      args := args + [Arg(Null)];
    } else if f.expiresAt.Some? {
      sets := sets + [Fragment(ExpiresAt, Positional)];
      args := args + [Arg(Integer(f.expiresAt.value))];
    }
    done := done + SetExpiry(f);
    assert InStep(sets, args, done, false);
    sets, args := SqliteTags(j, f, sets, args, done);
    assert done + SetTags(j, f) == done0 + SetTarget(j, f);
  }

  method SqliteTags(j: Codec, f: UpdateFields, sets0: seq<Fragment>, args0: seq<ArgValue>, ghost done: seq<Assignment>)
    returns (sets: seq<Fragment>, args: seq<ArgValue>)
    requires InStep(sets0, args0, done, false)
    ensures InStep(sets, args, done + SetTags(j, f), false)
  {
    sets, args := sets0, args0;
    if f.tags.Some? {
      sets := sets + [Fragment(Tags, Positional)];
      args := args + [Arg(EncodeTags(j, f.tags.value))];
    }
  }

  method SqliteGuards(f: UpdateFields, sets0: seq<Fragment>, args0: seq<ArgValue>, ghost done0: seq<Assignment>)
    returns (sets: seq<Fragment>, args: seq<ArgValue>)
    requires InStep(sets0, args0, done0, false)
    ensures InStep(sets, args, done0 + SetGuards(f), false)
  {
    sets, args := sets0, args0;
    ghost var done := done0;
    if f.maxClicks.Some? {
      sets := sets + [Fragment(MaxClicks, Positional)];
      args := args + [Arg(NullableInt(f.maxClicks.value))];
    }
    done := done + SetCap(f);
    assert InStep(sets, args, done, false);
    if f.clearPassword {
      sets := sets + [Fragment(PasswordHash, Positional), Fragment(PasswordSalt, Positional)];
      args := args + [Arg(Null), Arg(Null)];
    } else if f.passwordHash.Some? {
      sets := sets + [Fragment(PasswordHash, Positional), Fragment(PasswordSalt, Positional)];
      args := args + [Arg(NullableBlob(f.passwordHash.value)), Arg(NullableBlob(f.passwordSalt))];
    }
    done := done + SetPassword(f);
    assert InStep(sets, args, done, false);
    assert done == done0 + SetGuards(f);
  }

  method SqliteLinks(f: UpdateFields, sets0: seq<Fragment>, args0: seq<ArgValue>, ghost done0: seq<Assignment>)
    returns (sets: seq<Fragment>, args: seq<ArgValue>)
    requires InStep(sets0, args0, done0, false)
    ensures InStep(sets, args, done0 + SetLinks(f), false)
  {
    sets, args := sets0, args0;
    ghost var done := done0;
    if f.clearWebhook {
      sets := sets + [Fragment(WebhookUrl, Positional), Fragment(WebhookSecret, Positional)];
      args := args + [Arg(Null), Arg(Null)];
    } else if f.webhookUrl.Some? {
      sets := sets + [Fragment(WebhookUrl, Positional), Fragment(WebhookSecret, Positional)];
      args := args + [Arg(NullableText(f.webhookUrl.value)), Arg(NullableBlob(f.webhookSecret.GetOr([])))];
    }
    done := done + SetWebhook(f);
    assert InStep(sets, args, done, false);
    if f.apiKeyId.Some? {
      sets := sets + [Fragment(ApiKeyId, Positional)];
      args := args + [Arg(NullableInt(f.apiKeyId.value))];
    }
    done := done + SetKey(f);
    assert InStep(sets, args, done, false);
    assert done == done0 + SetLinks(f);
  }

  method SqlitePreview(f: UpdateFields, sets0: seq<Fragment>, args0: seq<ArgValue>, ghost done0: seq<Assignment>)
    returns (sets: seq<Fragment>, args: seq<ArgValue>)
    requires InStep(sets0, args0, done0, false)
    ensures InStep(sets, args, done0 + SetPreview(f), false)
  {
    sets, args := sets0, args0;
    ghost var done := done0;
    if f.previewTitle.Some? {
      sets := sets + [Fragment(PreviewTitle, Positional)];
      args := args + [Arg(NullableText(f.previewTitle.value))];
    }
    done := done + SetTitle(f);
    assert InStep(sets, args, done, false);
    if f.previewImage.Some? {
      sets := sets + [Fragment(PreviewImage, Positional)];
      args := args + [Arg(NullableText(f.previewImage.value))];
    }
    done := done + SetImage(f);
    assert InStep(sets, args, done, false);
    if f.previewDescription.Some? {
      sets := sets + [Fragment(PreviewDescription, Positional)];
      args := args + [Arg(NullableText(f.previewDescription.value))];
    }
    done := done + SetDescription(f);
    assert InStep(sets, args, done, false);
    assert done == done0 + SetPreview(f);
  }

  method SqliteRest(j: Codec, f: UpdateFields, now: Time, sets0: seq<Fragment>, args0: seq<ArgValue>, ghost done0: seq<Assignment>)
    returns (sets: seq<Fragment>, args: seq<ArgValue>)
    requires InStep(sets0, args0, done0, false)
    ensures InStep(sets, args, done0 + SetRest(j, f, now), false)
  {
    sets, args := sets0, args0;
    ghost var done := done0;
    if f.setPreviewFetched {
      sets := sets + [Fragment(PreviewFetchedAt, Positional)];
      args := args + [Arg(Integer(now))];
    }
    done := done + SetFetched(f, now);
    assert InStep(sets, args, done, false);
    if f.destinations.Some? {
      sets := sets + [Fragment(Destinations, Positional)];
      args := args + [Arg(EncodePool(j, f.destinations.value))];
    }
    done := done + SetPool(j, f);
    assert InStep(sets, args, done, false);
    assert done == done0 + SetRest(j, f, now);
  }

  method BuildSqlite(j: Codec, f: UpdateFields, now: Time) returns (sets: seq<Fragment>, args: seq<ArgValue>)
    ensures InStep(sets, args, Assignments(j, f, now), false)
  {
    sets, args := SqliteTarget(j, f, [], [], []);
    sets, args := SqliteGuards(f, sets, args, SetTarget(j, f));
    sets, args := SqliteLinks(f, sets, args, SetTarget(j, f) + SetGuards(f));
    sets, args := SqlitePreview(f, sets, args, SetTarget(j, f) + SetGuards(f) + SetLinks(f));
    sets, args := SqliteRest(j, f, now, sets, args, SetTarget(j, f) + SetGuards(f) + SetLinks(f) + SetPreview(f));
  }

  /** The `next` closure: reserve an argument slot and name it by its number. */
  method Next(args: seq<ArgValue>) returns (grown: seq<ArgValue>, p: Placeholder)
    ensures grown == args + [Arg(Null)] && p == Numbered(|grown|)
  {
    grown := args + [Arg(Null)];
    p := Numbered(|grown|);
  }

  method PostgresTarget(j: Codec, f: UpdateFields, sets0: seq<Fragment>, args0: seq<ArgValue>, ghost done0: seq<Assignment>)
    returns (sets: seq<Fragment>, args: seq<ArgValue>)
    requires InStep(sets0, args0, done0, true)
    ensures InStep(sets, args, done0 + SetTarget(j, f), true)
  {
    sets, args := sets0, args0;
    ghost var done := done0;
    var p: Placeholder;
    if f.originalUrl.Some? {
      args, p := Next(args);
      sets := sets + [Fragment(OriginalUrl, p)];
      args := args[|args| - 1 := Arg(Text(f.originalUrl.value))];
    }
    done := done + SetUrl(f);
    assert InStep(sets, args, done, true);
    if f.clearExpiration {
      args, p := Next(args);
      sets := sets + [Fragment(ExpiresAt, p)];
      args := args[|args| - 1 := Arg(Null)];
    } else if f.expiresAt.Some? {
      args, p := Next(args);
      sets := sets + [Fragment(ExpiresAt, p)];
      args := args[|args| - 1 := Arg(Integer(f.expiresAt.value))];
    }
    done := done + SetExpiry(f);
    assert InStep(sets, args, done, true);
    sets, args := PostgresTags(j, f, sets, args, done);
    assert done + SetTags(j, f) == done0 + SetTarget(j, f);
  }

  method PostgresTags(j: Codec, f: UpdateFields, sets0: seq<Fragment>, args0: seq<ArgValue>, ghost done: seq<Assignment>)
    returns (sets: seq<Fragment>, args: seq<ArgValue>)
    requires InStep(sets0, args0, done, true)
    ensures InStep(sets, args, done + SetTags(j, f), true)
  {
    sets, args := sets0, args0;
    if f.tags.Some? {
      var p: Placeholder;
      args, p := Next(args);
      sets := sets + [Fragment(Tags, p)];
      args := args[|args| - 1 := Arg(EncodeTags(j, f.tags.value))];
    }
  }

  method PostgresGuards(f: UpdateFields, sets0: seq<Fragment>, args0: seq<ArgValue>, ghost done0: seq<Assignment>)
    returns (sets: seq<Fragment>, args: seq<ArgValue>)
    requires InStep(sets0, args0, done0, true)
    ensures InStep(sets, args, done0 + SetGuards(f), true)
  {
    sets, args := sets0, args0;
    ghost var done := done0;
    var p, q: Placeholder;
    if f.maxClicks.Some? {
      args, p := Next(args);
      sets := sets + [Fragment(MaxClicks, p)];
      args := args[|args| - 1 := Arg(NullableInt(f.maxClicks.value))];
    }
    done := done + SetCap(f);
    assert InStep(sets, args, done, true);
    if f.clearPassword {
      args, p := Next(args);
      args, q := Next(args);
      sets := sets + [Fragment(PasswordHash, p), Fragment(PasswordSalt, q)];
      args := args[|args| - 2 := Arg(Null)];
      args := args[|args| - 1 := Arg(Null)];
    } else if f.passwordHash.Some? {
      args, p := Next(args);
      args, q := Next(args);
      sets := sets + [Fragment(PasswordHash, p), Fragment(PasswordSalt, q)];
      args := args[|args| - 2 := Arg(NullableBlob(f.passwordHash.value))];
      args := args[|args| - 1 := Arg(NullableBlob(f.passwordSalt))];
    }
    done := done + SetPassword(f);
    assert InStep(sets, args, done, true);
    assert done == done0 + SetGuards(f);
  }

  method PostgresLinks(f: UpdateFields, sets0: seq<Fragment>, args0: seq<ArgValue>, ghost done0: seq<Assignment>)
    returns (sets: seq<Fragment>, args: seq<ArgValue>)
    requires InStep(sets0, args0, done0, true)
    ensures InStep(sets, args, done0 + SetLinks(f), true)
  {
    sets, args := sets0, args0;
    ghost var done := done0;
    var p, q: Placeholder;
    if f.clearWebhook {
      args, p := Next(args);
      args, q := Next(args);
      sets := sets + [Fragment(WebhookUrl, p), Fragment(WebhookSecret, q)];
      args := args[|args| - 2 := Arg(Null)];
      args := args[|args| - 1 := Arg(Null)];
    } else if f.webhookUrl.Some? {
      args, p := Next(args);
      args, q := Next(args);
      sets := sets + [Fragment(WebhookUrl, p), Fragment(WebhookSecret, q)];
      args := args[|args| - 2 := Arg(NullableText(f.webhookUrl.value))];
      args := args[|args| - 1 := Arg(NullableBlob(f.webhookSecret.GetOr([])))];
    }
    done := done + SetWebhook(f);
    assert InStep(sets, args, done, true);
    if f.apiKeyId.Some? {
      args, p := Next(args);
      sets := sets + [Fragment(ApiKeyId, p)];
      args := args[|args| - 1 := Arg(NullableInt(f.apiKeyId.value))];
    }
    done := done + SetKey(f);
    assert InStep(sets, args, done, true);
    assert done == done0 + SetLinks(f);
  }

  method PostgresPreview(f: UpdateFields, sets0: seq<Fragment>, args0: seq<ArgValue>, ghost done0: seq<Assignment>)
    returns (sets: seq<Fragment>, args: seq<ArgValue>)
    requires InStep(sets0, args0, done0, true)
    ensures InStep(sets, args, done0 + SetPreview(f), true)
  {
    sets, args := sets0, args0;
    ghost var done := done0;
    var p: Placeholder;
    if f.previewTitle.Some? {
      args, p := Next(args);
      sets := sets + [Fragment(PreviewTitle, p)];
      args := args[|args| - 1 := Arg(NullableText(f.previewTitle.value))];
    }
    done := done + SetTitle(f);
    assert InStep(sets, args, done, true);
    if f.previewImage.Some? {
      args, p := Next(args);
      sets := sets + [Fragment(PreviewImage, p)];
      args := args[|args| - 1 := Arg(NullableText(f.previewImage.value))];
    }
    done := done + SetImage(f);
    assert InStep(sets, args, done, true);
    if f.previewDescription.Some? {
      args, p := Next(args);
      sets := sets + [Fragment(PreviewDescription, p)];
      args := args[|args| - 1 := Arg(NullableText(f.previewDescription.value))];
    }
    done := done + SetDescription(f);
    assert InStep(sets, args, done, true);
    assert done == done0 + SetPreview(f);
  }

  method PostgresRest(j: Codec, f: UpdateFields, now: Time, sets0: seq<Fragment>, args0: seq<ArgValue>, ghost done0: seq<Assignment>)
    returns (sets: seq<Fragment>, args: seq<ArgValue>)
    requires InStep(sets0, args0, done0, true)
    ensures InStep(sets, args, done0 + SetRest(j, f, now), true)
  {
    sets, args := sets0, args0;
    ghost var done := done0;
    var p: Placeholder;
    if f.setPreviewFetched {
      args, p := Next(args);
      sets := sets + [Fragment(PreviewFetchedAt, p)];
      args := args[|args| - 1 := Arg(Integer(now))];
    }
    done := done + SetFetched(f, now);
    assert InStep(sets, args, done, true);
    if f.destinations.Some? {
      args, p := Next(args);
      sets := sets + [Fragment(Destinations, p)];
      args := args[|args| - 1 := Arg(EncodePool(j, f.destinations.value))];
    }
    done := done + SetPool(j, f);
    assert InStep(sets, args, done, true);
    assert done == done0 + SetRest(j, f, now);
  }

  method BuildPostgres(j: Codec, f: UpdateFields, now: Time) returns (sets: seq<Fragment>, args: seq<ArgValue>)
    ensures InStep(sets, args, Assignments(j, f, now), true)
  {
    sets, args := PostgresTarget(j, f, [], [], []);
    sets, args := PostgresGuards(f, sets, args, SetTarget(j, f));
    sets, args := PostgresLinks(f, sets, args, SetTarget(j, f) + SetGuards(f));
    sets, args := PostgresPreview(f, sets, args, SetTarget(j, f) + SetGuards(f) + SetLinks(f));
    sets, args := PostgresRest(j, f, now, sets, args, SetTarget(j, f) + SetGuards(f) + SetLinks(f) + SetPreview(f));
  }

  // ---------- running the statement ----------

  ghost function UpdateTable(j: Codec, t: Table, code: string, f: UpdateFields, now: Time): Table {
    if code in t then t[code := Assigned(t[code], Assignments(j, f, now))] else t
  }

  /** With fragments and arguments in step, both numbering schemes bind back to the assignments. */
  lemma {:induction false} BindInStep(
      sets: seq<Fragment>, args: seq<ArgValue>, done: seq<Assignment>, numbered: bool, code: string, from: nat)
    requires InStep(sets, args, done, numbered) && from <= |sets|
    ensures BindAll(sets[from..], from, args + [CodeArg(code)]) == Ok(done[from..])
    decreases |sets| - from
  {
    if from < |sets| {
      BindInStep(sets, args, done, numbered, code, from + 1);
      assert sets[from..][1..] == sets[from + 1..];
      assert done[from..] == [done[from]] + done[from + 1..];
    } else {
      assert sets[from..] == [] && done[from..] == [];
    }
  }

  lemma NoColumnTwice(
      j: Codec, f: UpdateFields, now: Time, sets: seq<Fragment>, args: seq<ArgValue>, numbered: bool)
    requires InStep(sets, args, Assignments(j, f, now), numbered)
    ensures !SetsTwice(sets)
  {
    var all := Assignments(j, f, now);
    AssignmentsRising(j, f, now);
    forall i, k | 0 <= i < k < |sets| ensures sets[i].column != sets[k].column {
      assert Rank(all[i].column) < Rank(all[k].column);
    }
  }

  lemma ExecBinds(
      t: Table, sets: seq<Fragment>, args: seq<ArgValue>, numbered: bool, code: string, all: seq<Assignment>)
    requires InStep(sets, args, all, numbered) && !SetsTwice(sets)
    ensures var key := if numbered then Numbered(|args| + 1) else Positional;
      Exec(t, Statement(sets, key), args + [CodeArg(code)])
      == Ok(if code in t then (t[code := Assigned(t[code], all)], 1) else (t, 0))
  {
    BindInStep(sets, args, all, numbered, code, 0);
    assert sets[0..] == sets && all[0..] == all;
  }

  lemma ExecInStep(
      j: Codec, t: Table, sets: seq<Fragment>, args: seq<ArgValue>, numbered: bool, code: string, f: UpdateFields, now: Time)
    requires InStep(sets, args, Assignments(j, f, now), numbered)
    ensures var key := if numbered then Numbered(|args| + 1) else Positional;
      Exec(t, Statement(sets, key), args + [CodeArg(code)])
      == Ok((UpdateTable(j, t, code, f, now), if code in t then 1 else 0))
  {
    NoColumnTwice(j, f, now, sets, args, numbered);
    ExecBinds(t, sets, args, numbered, code, Assignments(j, f, now));
  }

  /** The part of the two SQL stores that `Update` touches: the urls table. */
  class SqlStore {
    const codec: Codec
    var urls: Table

    constructor (codec: Codec)
      ensures this.codec == codec && urls == map[]
    {
      this.codec := codec;
      urls := map[];
    }

    method UpdateSqlite(code: string, f: UpdateFields, now: Time) returns (err: Option<S.StoreError>)
      modifies this
      ensures urls == UpdateTable(codec, old(urls), code, f, now)
      ensures err == if code in old(urls) then None else Some(S.NotFound)
    {
      var sets, args := BuildSqlite(codec, f, now);
      if |sets| == 0 {
        return if code in urls then None else Some(S.NotFound);
      }
      ExecInStep(codec, urls, sets, args, false, code, f, now);
      args := args + [CodeArg(code)];
      var res := Exec(urls, Statement(sets, Positional), args);
      urls := res.value.0;
      return if res.value.1 == 0 then Some(S.NotFound) else None;
    }

    method UpdatePostgres(code: string, f: UpdateFields, now: Time) returns (err: Option<S.StoreError>)
      modifies this
      ensures urls == UpdateTable(codec, old(urls), code, f, now)
      ensures err == if code in old(urls) then None else Some(S.NotFound)
    {
      var sets, args := BuildPostgres(codec, f, now);
      if |sets| == 0 {
        return if code in urls then None else Some(S.NotFound);
      }
      ExecInStep(codec, urls, sets, args, true, code, f, now);
      args := args + [CodeArg(code)];
      var res := Exec(urls, Statement(sets, Numbered(|args|)), args);
      urls := res.value.0;
      return if res.value.1 == 0 then Some(S.NotFound) else None;
    }
  }

  // ---------- the SET list means what MemoryStore.Update does ----------

  lemma {:induction false} AssignedConcat(rec: Record, a: seq<Assignment>, b: seq<Assignment>)
    ensures Assigned(rec, a + b) == Assigned(Assigned(rec, a), b)
    decreases |a|
  {
    if a == [] {
      assert a + b == b;
    } else {
      AssignedConcat(Put(rec, a[0].column, a[0].value), a[1..], b);
      assert (a + b)[1..] == a[1..] + b;
    }
  }

  lemma AssignedPair(rec: Record, x: Assignment, y: Assignment)
    ensures Assigned(rec, [x, y]) == Put(Put(rec, x.column, x.value), y.column, y.value)
  {
    assert [x, y][1..] == [y];
    assert Assigned(Put(rec, x.column, x.value), [y]) == Put(Put(rec, x.column, x.value), y.column, y.value);
  }

  // What each part leaves of the decoded row, whatever record it starts from.

  lemma AssignedUrlExpiry(rec: Record, f: UpdateFields)
    ensures Assigned(rec, SetUrl(f)) == rec.(originalUrl := if f.originalUrl.Some? then Text(f.originalUrl.value) else rec.originalUrl)
    ensures Assigned(rec, SetExpiry(f)) == rec.(expiresAt :=
      if f.clearExpiration then Null else if f.expiresAt.Some? then Integer(f.expiresAt.value) else rec.expiresAt)
  {
  }

  lemma AssignedTags(j: Codec, rec: Record, f: UpdateFields)
    ensures Assigned(rec, SetTags(j, f)) == rec.(tags := if f.tags.Some? then EncodeTags(j, f.tags.value) else rec.tags)
  {
  }

  lemma AssignedTexts(rec: Record, f: UpdateFields)
    ensures Assigned(rec, SetTitle(f))
      == rec.(previewTitle := if f.previewTitle.Some? then NullableText(f.previewTitle.value) else rec.previewTitle)
    ensures Assigned(rec, SetImage(f))
      == rec.(previewImage := if f.previewImage.Some? then NullableText(f.previewImage.value) else rec.previewImage)
    ensures Assigned(rec, SetDescription(f)) == rec.(previewDescription :=
      if f.previewDescription.Some? then NullableText(f.previewDescription.value) else rec.previewDescription)
  {
  }

  lemma TargetAgrees(j: Codec, code: string, rec: Record, f: UpdateFields)
    requires j.Valid()
    ensures Decode(j, code, Assigned(rec, SetTarget(j, f))) == S.ApplyTarget(Decode(j, code, rec), f)
  {
    AssignedConcat(rec, SetUrl(f), SetExpiry(f));
    AssignedConcat(rec, SetUrl(f) + SetExpiry(f), SetTags(j, f));
    var r := Assigned(rec, SetUrl(f));
    AssignedUrlExpiry(rec, f);
    AssignedUrlExpiry(r, f);
    AssignedTags(j, Assigned(r, SetExpiry(f)), f);
    if f.tags.Some? {
      assert j.decodeTags(j.encodeTags(f.tags.value)) == Some(f.tags.value);
    }
  }

  lemma GuardsAgree(j: Codec, code: string, rec: Record, f: UpdateFields)
    ensures Decode(j, code, Assigned(rec, SetGuards(f))) == S.ApplyGuards(Decode(j, code, rec), f)
  {
    AssignedConcat(rec, SetCap(f), SetPassword(f));
    if |SetPassword(f)| == 2 {
      AssignedPair(Assigned(rec, SetCap(f)), SetPassword(f)[0], SetPassword(f)[1]);
    }
  }

  lemma LinksAgree(j: Codec, code: string, rec: Record, f: UpdateFields)
    ensures Decode(j, code, Assigned(rec, SetLinks(f))) == S.ApplyLinks(Decode(j, code, rec), f, [])
  {
    AssignedConcat(rec, SetWebhook(f), SetKey(f));
    if |SetWebhook(f)| == 2 {
      AssignedPair(rec, SetWebhook(f)[0], SetWebhook(f)[1]);
    }
  }

  lemma PreviewAgrees(j: Codec, code: string, rec: Record, f: UpdateFields)
    ensures Decode(j, code, Assigned(rec, SetPreview(f))) == S.ApplyPreview(Decode(j, code, rec), f)
  {
    AssignedConcat(rec, SetTitle(f), SetImage(f));
    AssignedConcat(rec, SetTitle(f) + SetImage(f), SetDescription(f));
    var r := Assigned(rec, SetTitle(f));
    AssignedTexts(rec, f);
    AssignedTexts(r, f);
    AssignedTexts(Assigned(r, SetImage(f)), f);
  }

  lemma RestAgrees(j: Codec, code: string, rec: Record, f: UpdateFields, now: Time)
    requires j.Valid()
    ensures Decode(j, code, Assigned(rec, SetRest(j, f, now))) == S.ApplyRest(Decode(j, code, rec), f, now)
  {
    AssignedConcat(rec, SetFetched(f, now), SetPool(j, f));
    if f.destinations.Some? {
      assert j.decodePool(j.encodePool(f.destinations.value)) == Some(f.destinations.value);
    }
  }

  /** The row that either SQL backend leaves: a URL without a secret empties the secret. */
  function ApplySql(row: Row, f: UpdateFields, now: Time): Row {
    S.ApplyRest(S.ApplyPreview(S.ApplyLinks(S.ApplyGuards(S.ApplyTarget(row, f), f), f, []), f), f, now)
  }

  /** The decoded row after the whole SET list. */
  lemma AssignmentsDecoded(j: Codec, code: string, rec: Record, f: UpdateFields, now: Time)
    requires j.Valid()
    ensures Decode(j, code, Assigned(rec, Assignments(j, f, now))) == ApplySql(Decode(j, code, rec), f, now)
  {
    var a, b, c, d := SetTarget(j, f), SetGuards(f), SetLinks(f), SetPreview(f);
    AssignedConcat(rec, a, b);
    AssignedConcat(rec, a + b, c);
    AssignedConcat(rec, a + b + c, d);
    AssignedConcat(rec, a + b + c + d, SetRest(j, f, now));
    TargetAgrees(j, code, rec, f);
    var r := Assigned(rec, a);
    GuardsAgree(j, code, r, f);
    r := Assigned(r, b);
    LinksAgree(j, code, r, f);
    r := Assigned(r, c);
    PreviewAgrees(j, code, r, f);
    r := Assigned(r, d);
    RestAgrees(j, code, r, f, now);
  }

  /** A webhook URL and its secret travel together. */
  predicate WebhookPaired(f: UpdateFields) {
    f.clearWebhook || f.webhookUrl.None? || f.webhookSecret.Some?
  }

  /** One row: the SQL statement and MemoryStore.Update leave the same row exactly when
      the URL comes with a secret, or there was no stored secret to lose. */
  lemma RowsAgree(j: Codec, code: string, rec: Record, f: UpdateFields, now: Time)
    requires j.Valid()
    ensures Decode(j, code, Assigned(rec, Assignments(j, f, now)))
              == S.ApplyUpdate(Decode(j, code, rec), f, now)
            <==> WebhookPaired(f) || BlobOf(rec.webhookSecret) == []
  {
    AssignmentsDecoded(j, code, rec, f, now);
  }

  function DecodeTable(j: Codec, t: Table): map<string, Row> {
    map code | code in t :: Decode(j, code, t[code])
  }

  lemma DecodeTableUpdated(j: Codec, t: Table, code: string, rec: Record)
    ensures DecodeTable(j, t[code := rec]) == DecodeTable(j, t)[code := Decode(j, code, rec)]
  {
  }

  /** The three backends: running either SQL builder on the encoded table and decoding
      gives MemoryStore's map, exactly under the same condition. */
  lemma BackendsAgree(j: Codec, t: Table, code: string, f: UpdateFields, now: Time)
    requires j.Valid()
    ensures DecodeTable(j, UpdateTable(j, t, code, f, now))
              == S.Update(S.EMPTY.(urls := DecodeTable(j, t)), code, f, now).urls
            <==> code !in t || WebhookPaired(f) || BlobOf(t[code].webhookSecret) == []
  {
    if code in t {
      RowsAgree(j, code, t[code], f, now);
      var rows := DecodeTable(j, t);
      var rec := Assigned(t[code], Assignments(j, f, now));
      DecodeTableUpdated(j, t, code, rec);
      var mem := S.ApplyUpdate(rows[code], f, now);
      assert rows[code := Decode(j, code, rec)][code] == Decode(j, code, rec) && rows[code := mem][code] == mem;
    }
  }

  /** The condition is needed: a URL set without a secret keeps the secret in memory and
      loses it in SQL. */
  lemma UnpairedUpdateDiffers(j: Codec, row: Row, now: Time)
    requires j.Valid() && row.webhookSecret != []
    ensures var f := UpdateFields(webhookUrl := Some("https://example.com/hook"));
      var sql := Decode(j, row.id, Assigned(Encode(j, row), Assignments(j, f, now)));
      sql.webhookSecret == [] && S.ApplyUpdate(row, f, now).webhookSecret == row.webhookSecret
  {
    EncodeDecode(j, row);
    AssignmentsDecoded(j, row.id, Encode(j, row), UpdateFields(webhookUrl := Some("https://example.com/hook")), now);
  }
}
