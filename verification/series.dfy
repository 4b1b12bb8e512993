/** Clicks per bucket: the in-memory loop, the SQL grouping, and the handler that aligns them. */
module Series {
  import opened Models
  import opened Arith
  import S = StoreSpec
  import M = MemoryStore
  import Auth

  // ---------- what a series is ----------

  /** How many of the events lie in [lo, hi). */
  function Count(events: seq<ClickEvent>, lo: Time, hi: Time): nat {
    if events == [] then 0
    else Count(events[..|events| - 1], lo, hi) + if lo <= events[|events| - 1].at < hi then 1 else 0
  }

  function Bucket(start: Time, w: Time, i: int): Time {
    start + i * w
  }

  /** Bucket i counts exactly the events in [start + i*w, start + (i+1)*w). */
  function Buckets(events: seq<ClickEvent>, start: Time, w: Time, n: nat): seq<int> {
    seq(n, i requires 0 <= i < n => Count(events, Bucket(start, w, i), Bucket(start, w, i + 1)))
  }

  function Sum(s: seq<int>): int {
    if s == [] then 0 else Sum(s[..|s| - 1]) + s[|s| - 1]
  }

  lemma {:induction false} CountSplits(events: seq<ClickEvent>, lo: Time, mid: Time, hi: Time)
    requires lo <= mid <= hi
    ensures Count(events, lo, mid) + Count(events, mid, hi) == Count(events, lo, hi)
  {
    if events != [] {
      CountSplits(events[..|events| - 1], lo, mid, hi);
    }
  }

  lemma {:induction false} CountNone(events: seq<ClickEvent>, at: Time)
    ensures Count(events, at, at) == 0
  {
    if events != [] {
      CountNone(events[..|events| - 1], at);
    }
  }

  lemma BucketOrder(start: Time, w: Time, i: int, k: int)
    requires w >= 0 && i <= k
    ensures Bucket(start, w, i) <= Bucket(start, w, k)
    ensures i < k ==> Bucket(start, w, i + 1) <= Bucket(start, w, k)
  {
    if i < k {
      StepUp(i, k, w);
      Distribute(i, 1, w);
    }
  }

  /** No event of the window is counted twice or left out. */
  lemma {:induction false} SumIsWindow(events: seq<ClickEvent>, start: Time, w: Time, n: nat)
    requires w >= 0
    ensures Sum(Buckets(events, start, w, n)) == Count(events, start, start + n * w)
  {
    if n == 0 {
      CountNone(events, start);
    } else {
      SumIsWindow(events, start, w, n - 1);
      var all := Buckets(events, start, w, n);
      assert all[..n - 1] == Buckets(events, start, w, n - 1);
      BucketOrder(start, w, 0, n - 1);
      BucketOrder(start, w, n - 1, n);
      CountSplits(events, start, Bucket(start, w, n - 1), Bucket(start, w, n));
    }
  }

  /** A run of adjacent buckets is itself a series, from its own start. */
  lemma Subseries(events: seq<ClickEvent>, start: Time, w: Time, n: nat, i: nat, k: nat)
    requires i + k <= n
    ensures Buckets(events, start, w, n)[i..i + k] == Buckets(events, Bucket(start, w, i), w, k)
  {
    forall j | 0 <= j <= k ensures Bucket(start, w, i + j) == Bucket(Bucket(start, w, i), w, j) {
      Distribute(i, j, w);
    }
  }

  /** Summing each k adjacent buckets is bucketing at width k*w. */
  lemma Coarsens(events: seq<ClickEvent>, start: Time, w: Time, k: nat, n: nat, i: nat)
    requires w >= 0 && i < n
    ensures 0 <= i * k && i * k + k <= n * k
    ensures Buckets(events, start, k * w, n)[i] == Sum(Buckets(events, start, w, n * k)[i * k..i * k + k])
  {
    StepUp(i, n, k);
    Subseries(events, start, w, n * k, i * k, k);
    SumIsWindow(events, Bucket(start, w, i * k), w, k);
    Associate(i, k, w);
    Distribute(i, 1, k * w);
  }

  /** The index the division gives is the bucket the event lies in. */
  lemma IndexOfEvent(at: Time, start: Time, w: Time, n: int, i: int)
    requires w > 0 && start <= at < start + n * w
    ensures 0 <= Quo(at - start, w) < n
    ensures Quo(at - start, w) == i <==> Bucket(start, w, i) <= at < Bucket(start, w, i + 1)
  {
    var d, q := at - start, Quo(at - start, w);
    assert d == q * w + d % w;
    Distribute(q, 1, w);
    if q >= n {
      BucketOrder(start, w, n, q);
    }
    if i < q {
      BucketOrder(start, w, i, q);
    } else if i > q {
      BucketOrder(start, w, q, i);
    }
  }

  // ---------- the in-memory loop ----------

  function Wrap64(x: int): int {
    (x + 0x8000_0000_0000_0000) % 0x1_0000_0000_0000_0000 - 0x8000_0000_0000_0000
  }

  /** `-time.Duration(count) * bucket` does not wrap. */
  predicate Fits(bucket: Time, count: int) {
    count * bucket <= 0x8000_0000_0000_0000
  }

  method ClicksByBucket(storage: M.MemoryStore, code: string, until: Time, bucket: Time, count: int)
    returns (r: Result<seq<int>, S.StoreError>)
    requires Fits(bucket, count)
    ensures count <= 0 || bucket <= 0 ==> r == Ok([])
    ensures count > 0 && bucket > 0 ==>
      r == if code !in storage.urls then Err(S.NotFound)
           else Ok(Buckets(if code in storage.events then storage.events[code] else [],
                           until - count * bucket, bucket, count))
  {
    if count <= 0 || bucket <= 0 {
      return Ok([]);
    }
    if code !in storage.urls {
      return Err(S.NotFound);
    }
    assert count * bucket > 0;
    var out := Tally(if code in storage.events then storage.events[code] else [], until, bucket, count);
    return Ok(out[..]);
  }

  /** The guard inside the loop never drops an event of the window. */
  method Tally(events: seq<ClickEvent>, until: Time, bucket: Time, count: int) returns (out: array<int>)
    requires count > 0 && bucket > 0 && 0 < count * bucket && Fits(bucket, count)
    ensures fresh(out) && out[..] == Buckets(events, until - count * bucket, bucket, count)
  {
    out := new int[count](_ => 0);
    var windowStart := until + Wrap64(-count * bucket);
    assert -count * bucket == -(count * bucket);
    assert windowStart == until - count * bucket;
    for k := 0 to |events|
      invariant forall i :: 0 <= i < count ==>
        out[i] == Count(events[..k], Bucket(windowStart, bucket, i), Bucket(windowStart, bucket, i + 1))
    {
      var ev := events[k];
      assert events[..k + 1][..k] == events[..k];
      if ev.at < windowStart || !(ev.at < until) {
        OutsideWindow(ev.at, windowStart, bucket, count);
        continue;
      }
      var idx := Quo(ev.at - windowStart, bucket);
      IndexOfEvent(ev.at, windowStart, bucket, count, idx);
      forall i | 0 <= i < count
        ensures i == idx <==> Bucket(windowStart, bucket, i) <= ev.at < Bucket(windowStart, bucket, i + 1)
      {
        IndexOfEvent(ev.at, windowStart, bucket, count, i);
      }
      if idx >= 0 && idx < count {
        out[idx] := out[idx] + 1;
      }
    }
    assert events[..|events|] == events;
  }

  lemma OutsideWindow(at: Time, start: Time, w: Time, n: nat)
    requires w > 0 && !(start <= at < start + n * w)
    ensures forall i :: 0 <= i < n ==> !(Bucket(start, w, i) <= at < Bucket(start, w, i + 1))
  {
    forall i | 0 <= i < n ensures !(Bucket(start, w, i) <= at < Bucket(start, w, i + 1)) {
      BucketOrder(start, w, 0, i);
      BucketOrder(start, w, i + 1, n);
    }
  }

  // ---------- the SQL grouping ----------

  predicate Selected(ev: ClickEvent, start: Time, until: Time) {
    start <= ev.at < until
  }

  function Key(ev: ClickEvent, start: Time, w: Time): int
    requires w > 0
  {
    Quo(ev.at - start, w)
  }

  /** COUNT(*) of one group. */
  function GroupSize(events: seq<ClickEvent>, start: Time, until: Time, w: Time, key: int): nat
    requires w > 0
  {
    if events == [] then 0
    else
      var ev := events[|events| - 1];
      GroupSize(events[..|events| - 1], start, until, w, key)
        + if Selected(ev, start, until) && Key(ev, start, w) == key then 1 else 0
  }

  /** The result rows, in no particular order: one (bucket_idx, COUNT(*)) per group. */
  function GroupRows(events: seq<ClickEvent>, start: Time, until: Time, w: Time): set<(int, int)>
    requires w > 0
  {
    set i | 0 <= i < |events| && Selected(events[i], start, until) ::
      (Key(events[i], start, w), GroupSize(events, start, until, w, Key(events[i], start, w)))
  }

  lemma {:induction false} GroupIsBucket(events: seq<ClickEvent>, start: Time, w: Time, n: nat, key: nat)
    requires w > 0 && key < n
    ensures GroupSize(events, start, start + n * w, w, key)
      == Count(events, Bucket(start, w, key), Bucket(start, w, key + 1))
  {
    if events != [] {
      GroupIsBucket(events[..|events| - 1], start, w, n, key);
      var ev := events[|events| - 1];
      if Selected(ev, start, start + n * w) {
        IndexOfEvent(ev.at, start, w, n, key);
      } else {
        OutsideWindow(ev.at, start, w, n);
      }
    }
  }

  lemma {:induction false} EmptyGroup(events: seq<ClickEvent>, start: Time, until: Time, w: Time, key: int)
    requires w > 0
    requires forall i :: 0 <= i < |events| && Selected(events[i], start, until) ==> Key(events[i], start, w) != key
    ensures GroupSize(events, start, until, w, key) == 0
  {
    if events != [] {
      EmptyGroup(events[..|events| - 1], start, until, w, key);
    }
  }

  /** The SQL backends, on the click_events rows of the code: on the same click events the same
      answer as the in-memory loop. `known` is what the existence query gave. */
  method SqlClicksByBucket(known: bool, events: seq<ClickEvent>, until: Time, bucket: Time, count: int)
    returns (r: Result<seq<int>, S.StoreError>)
    requires Fits(bucket, count)
    ensures count <= 0 || bucket <= 0 ==> r == Ok([])
    ensures count > 0 && bucket > 0 ==>
      r == if !known then Err(S.NotFound) else Ok(Buckets(events, until - count * bucket, bucket, count))
  {
    if count <= 0 || bucket <= 0 {
      return Ok([]);
    }
    if !known {
      return Err(S.NotFound);
    }
    assert count * bucket > 0;
    var out := FillFromRows(events, until, bucket, count);
    return Ok(out[..]);
  }

  /** The same numbers as the loop, whatever order the rows come in. */
  method FillFromRows(events: seq<ClickEvent>, until: Time, bucket: Time, count: int) returns (out: array<int>)
    requires count > 0 && bucket > 0 && 0 < count * bucket && Fits(bucket, count)
    ensures fresh(out) && out[..] == Buckets(events, until - count * bucket, bucket, count)
  {
    out := new int[count](_ => 0);
    var start := until + Wrap64(-count * bucket);
    assert -count * bucket == -(count * bucket);
    var rows := GroupRows(events, start, until, bucket);
    var todo := rows;
    while todo != {}
      invariant todo <= rows
      invariant forall row :: row in rows - todo && 0 <= row.0 < count ==> out[row.0] == row.1
      invariant forall i :: 0 <= i < count && (forall row :: row in rows - todo ==> row.0 != i) ==> out[i] == 0
      decreases todo
    {
      var row :| row in todo;
      todo := todo - {row};
      var (idx, n) := row;
      OneRowPerKey(events, start, until, bucket);
      if idx >= 0 && idx < count {
        out[idx] := n;
      }
    }
    forall i | 0 <= i < count ensures out[i] == Count(events, Bucket(start, bucket, i), Bucket(start, bucket, i + 1)) {
      GroupIsBucket(events, start, bucket, count, i);
      if k :| 0 <= k < |events| && Selected(events[k], start, until) && Key(events[k], start, bucket) == i {
        assert (i, GroupSize(events, start, until, bucket, i)) in rows;
      } else {
        EmptyGroup(events, start, until, bucket, i);
      }
    }
  }

  lemma OneRowPerKey(events: seq<ClickEvent>, start: Time, until: Time, w: Time)
    requires w > 0
    ensures var rows := GroupRows(events, start, until, w);
      forall a, b :: a in rows && b in rows && a.0 == b.0 ==> a == b
  {
  }

  // ---------- the handler ----------

  const SECOND: Time := 1_000_000_000

  datatype Config = Config(bucket: Time, defN: int, maxN: int)

  function RangeCaps(name: string): Option<Config> {
    if name == "minute" then Some(Config(60 * SECOND, 60, 240))
    else if name == "hour" then Some(Config(3600 * SECOND, 24, 168))
    else if name == "day" then Some(Config(86400 * SECOND, 30, 365))
    else None
  }

  /** The exclusive end of the newest bucket. */
  function End(now: Time, w: Time): Time
    requires w > 0
  {
    Quo(now, w) * w + w
  }

  lemma QuoOfMultiple(q: int, w: int)
    requires w > 0
    ensures Quo(q * w, w) == q && q * w % w == 0
  {
    Divides(q * w, w, q, 0);
    Distribute(q, -q, w);
    Divides(-q * w, w, -q, 0);
  }

  /** The end is a bucket boundary. */
  lemma EndAligned(now: Time, w: Time)
    requires w > 0
    ensures End(now, w) % w == 0 && End(End(now, w) - w, w) == End(now, w)
  {
    var q := Quo(now, w);
    QuoOfMultiple(q, w);
    QuoOfMultiple(q + 1, w);
    Distribute(q, 1, w);
  }

  /** Any two clocks past the epoch have the same end exactly if they lie in the same bucket. */
  lemma SameBucketSameEnd(a: Time, b: Time, w: Time, k: nat)
    requires w > 0 && k * w <= a < (k + 1) * w && b >= 0
    ensures End(a, w) == (k + 1) * w
    ensures End(b, w) == End(a, w) <==> k * w <= b < (k + 1) * w
  {
    Distribute(k, 1, w);
    Divides(a, w, k, a - k * w);
    var q := b / w;
    assert b == q * w + b % w;
    Distribute(q, 1, w);
    if q < k {
      StepUp(q, k, w);
    } else if q > k {
      StepUp(k, q, w);
    }
  }

  /** A click at `now` falls in the newest bucket exactly when the clock is past the epoch or on
      a boundary: for earlier times the truncating division puts the end one bucket too late. */
  lemma NowInLastBucket(now: Time, w: Time)
    requires w > 0
    ensures End(now, w) - w <= now < End(now, w) <==> now >= 0 || now % w == 0
  {
    var q := Quo(now, w);
    if now >= 0 {
      assert now == q * w + now % w;
    } else {
      var m := -now;
      assert m == (m / w) * w + m % w;
      Distribute(m / w, -(m / w), w);
      assert q * w == -((m / w) * w);
      if m % w == 0 {
        Divides(now, w, q, 0);
      } else {
        Distribute(q, -1, w);
        Divides(now, w, q - 1, w - m % w);
      }
    }
  }

  /** `param` is the range query parameter: absent, not a number, or a number. */
  predicate BadQuery(bucketName: string, param: Option<Option<int>>) {
    || RangeCaps(Named(bucketName)).None?
    || (param.Some? && (param.value.None? || param.value.value <= 0))
  }

  function Named(bucketName: string): string {
    if bucketName == "" then "hour" else bucketName
  }

  /** Why a request is refused, in the order of the checks. */
  ghost function Refusal(
      s: S.State, code: string, bearer: Option<Bytes>, bucketName: string, param: Option<Option<int>>, now: Time)
    : Option<int>
  {
    match S.Get(s, code, now)
    case Err(e) => Some(if e == S.NotFound then 404 else 410)
    case Ok(row) =>
      if !Auth.Access(bearer, row, s) then Some(401) else if BadQuery(bucketName, param) then Some(400) else None
  }

  method ServeSeries(storage: M.MemoryStore, code: string, bearer: Option<Bytes>, bucketName: string,
                     param: Option<Option<int>>, now: Time)
    returns (r: Result<seq<int>, int>)
    requires storage.Valid() && Auth.DistinctHashes(storage.Contents())
    modifies storage
    ensures storage.Valid()
    ensures storage.Contents() == old(storage.Contents())
      || (bearer.Some? && Auth.LookedUp(old(storage.Contents()), storage.Contents(), bearer.value, now))
    ensures var refusal := Refusal(old(storage.Contents()), code, bearer, bucketName, param, now);
      if refusal.Some? then r == Err(refusal.value)
      else
        var cfg := RangeCaps(Named(bucketName)).value;
        var n := Range(cfg, param);
        1 <= n <= cfg.maxN && r == Ok(Ending(S.EventsOf(old(storage.Contents()), code), now, cfg.bucket, n))
  {
    hide M.URLMapping.View;
    var ok, status := Admit(storage, code, bearer, now);
    if !ok {
      return Err(status);
    }
    var query := ParseQuery(bucketName, param);
    if query.None? {
      return Err(400);
    }
    var counts := CountUpTo(storage, code, now, query.value.0.bucket, query.value.1);
    return Ok(counts);
  }

  method Admit(storage: M.MemoryStore, code: string, bearer: Option<Bytes>, now: Time)
    returns (ok: bool, status: int)
    requires storage.Valid() && Auth.DistinctHashes(storage.Contents())
    modifies storage
    ensures storage.Valid() && storage.urls == old(storage.urls) && storage.events == old(storage.events)
    ensures storage.Contents() == old(storage.Contents())
      || (bearer.Some? && Auth.LookedUp(old(storage.Contents()), storage.Contents(), bearer.value, now))
    ensures match S.Get(old(storage.Contents()), code, now)
            case Err(e) => !ok && status == if e == S.NotFound then 404 else 410
            case Ok(row) =>
              && code in storage.urls && (ok <==> Auth.Access(bearer, row, old(storage.Contents())))
              && (!ok ==> status == 401)
  {
    hide M.URLMapping.View;
    var got := storage.Get(code, now);
    if got.Err? {
      return false, if got.error == S.NotFound then 404 else 410;
    }
    ok := Auth.AuthorizeAccess(storage, bearer, got.value, now);
    assert storage.Contents().events == old(storage.Contents()).events;
    status := 401;
  }

  /** The newest n buckets of width w, the last one holding `now`. */
  function Ending(events: seq<ClickEvent>, now: Time, w: Time, n: nat): seq<int>
    requires w > 0
  {
    Buckets(events, End(now, w) - n * w, w, n)
  }

  method CountUpTo(storage: M.MemoryStore, code: string, now: Time, w: Time, n: int) returns (counts: seq<int>)
    requires code in storage.urls && w > 0 && n > 0 && Fits(w, n)
    ensures counts == Ending(if code in storage.events then storage.events[code] else [], now, w, n)
  {
    var r := ClicksByBucket(storage, code, End(now, w), w, n);
    return r.value;
  }

  method ParseQuery(bucketName: string, param: Option<Option<int>>) returns (q: Option<(Config, int)>)
    ensures q.None? <==> BadQuery(bucketName, param)
    ensures q.Some? ==>
      && RangeCaps(Named(bucketName)) == Some(q.value.0) && q.value.1 == Range(q.value.0, param)
      && 1 <= q.value.1 <= q.value.0.maxN && Fits(q.value.0.bucket, q.value.1) && q.value.0.bucket > 0
  {
    var name := bucketName;
    if name == "" {
      name := "hour";
    }
    var cfg := RangeCaps(name);
    if cfg.None? {
      return None;
    }
    var count := cfg.value.defN;
    if param.Some? {
      if param.value.None? || param.value.value <= 0 {
        return None;
      }
      var parsed := param.value.value;
      if parsed > cfg.value.maxN {
        parsed := cfg.value.maxN;
      }
      count := parsed;
    }
    RangeFits(name, count);
    return Some((cfg.value, count));
  }

  function Range(cfg: Config, param: Option<Option<int>>): int {
    if param.Some? && param.value.Some? then
      if param.value.value > cfg.maxN then cfg.maxN else param.value.value
    else cfg.defN
  }

  /** The caps keep every window well inside 64 bits. */
  lemma RangeFits(name: string, count: int)
    requires RangeCaps(name).Some? && count <= RangeCaps(name).value.maxN
    ensures Fits(RangeCaps(name).value.bucket, count)
  {
  }

  /** A click recorded at `now` shows at once in the last bucket of a series asked at `now`. */
  lemma ClickShowsInLastBucket(events: seq<ClickEvent>, ev: ClickEvent, now: Time, w: Time, n: nat)
    requires w > 0 && n > 0 && now >= 0 && ev.at == now
    ensures Ending(events + [ev], now, w, n) == Ending(events, now, w, n)[n - 1 := Ending(events, now, w, n)[n - 1] + 1]
  {
    NowInLastBucket(now, w);
    var start := End(now, w) - n * w;
    assert (events + [ev])[..|events|] == events;
    Distribute(n - 1, 1, w);
    forall i | 0 <= i < n ensures Bucket(start, w, i) <= now < Bucket(start, w, i + 1) <==> i == n - 1 {
      LastBucketOnly(now, w, n, i);
    }
  }

  lemma LastBucketOnly(now: Time, w: Time, n: nat, i: nat)
    requires w > 0 && i < n && End(now, w) - w <= now < End(now, w)
    ensures var start := End(now, w) - n * w;
      Bucket(start, w, i) <= now < Bucket(start, w, i + 1) <==> i == n - 1
  {
    var start := End(now, w) - n * w;
    Distribute(n - 1, 1, w);
    if i < n - 1 {
      BucketOrder(start, w, i, n - 1);
    }
  }

  /** The widths and limits by name, in seconds; a missing name means hours, a missing range the
      default, and a range beyond the limit the limit. */
  lemma QueryMeans(bucketName: string, param: Option<Option<int>>)
    ensures BadQuery(bucketName, param) <==>
      || (bucketName != "" && bucketName != "minute" && bucketName != "hour" && bucketName != "day")
      || (param.Some? && (param.value.None? || param.value.value <= 0))
    ensures !BadQuery(bucketName, param) ==>
      var cfg := RangeCaps(Named(bucketName)).value;
      && cfg.bucket == SECOND * (if bucketName == "minute" then 60 else if bucketName == "day" then 86_400 else 3_600)
      && cfg.maxN == (if bucketName == "minute" then 240 else if bucketName == "day" then 365 else 168)
      && (param.None? ==>
            Range(cfg, param) == if bucketName == "minute" then 60 else if bucketName == "day" then 30 else 24)
      && (param.Some? ==>
            && Range(cfg, param) <= param.value.value && Range(cfg, param) <= cfg.maxN
            && (Range(cfg, param) == param.value.value || Range(cfg, param) == cfg.maxN))
  {
  }

  /** Which refusal each request gets, the first reason deciding. */
  lemma RefusedWith(
      s: S.State, code: string, bearer: Option<Bytes>, bucketName: string, param: Option<Option<int>>, now: Time)
    ensures var refusal := Refusal(s, code, bearer, bucketName, param, now);
      && (code !in s.urls ==> refusal == Some(404))
      && (code in s.urls ==>
            var row := s.urls[code];
            if row.expiresAt.Some? && now > row.expiresAt.value then refusal == Some(410)
            else if !Auth.Access(bearer, row, s) then refusal == Some(401)
            else if BadQuery(bucketName, param) then refusal == Some(400) else refusal.None?)
  {
  }
}
