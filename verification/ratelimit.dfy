/** The per-IP fixed-window limiter and its janitor. */
module RateLimit {
  import opened Models
  import opened Sets

  const SECOND: Time := 1_000_000_000

  /** What a bucket holds. */
  datatype Window = Window(count: int, resetAt: Time)

  type Buckets = map<string, Window>

  /** The bucket after serving one more request: an elapsed window starts over. */
  function Served(w: Window, now: Time, window: Time): Window {
    if now > w.resetAt then Window(1, now + window) else w.(count := w.count + 1)
  }

  function Serve(b: Buckets, ip: string, now: Time, window: Time): Buckets {
    b[ip := Served(if ip in b then b[ip] else Window(0, now + window), now, window)]
  }

  predicate Stale(w: Window, now: Time) {
    now > w.resetAt
  }

  function Sweep(b: Buckets, ip: string, now: Time): Buckets {
    if ip in b && Stale(b[ip], now) then b - {ip} else b
  }

  /** `int(d.Seconds()) + 1` for the time left until the reset. */
  function RetryAfter(resetAt: Time, clock: Time): int {
    Quo(resetAt - clock, SECOND) + 1
  }

  // ---------- the limiter ----------

  class Bucket {
    var count: int
    var resetAt: Time

    constructor (resetAt: Time)
      ensures count == 0 && this.resetAt == resetAt
    {
      count, this.resetAt := 0, resetAt;
    }

    function View(): Window
      reads this
    {
      Window(count, resetAt)
    }

    method Hit(now: Time, window: Time)
      modifies this
      ensures View() == Served(old(View()), now, window)
    {
      if now > resetAt {
        count := 0;
        resetAt := now + window;
      }
      count := count + 1;
    }
  }

  datatype Response = Pass | TooMany(retryAfter: int)

  class Limiter {
    const rate: int
    const window: Time
    var buckets: map<string, Bucket>

    constructor (rate: int, window: Time)
      requires window > 0
      ensures Valid() && this.rate == rate && this.window == window && View() == map[]
    {
      this.rate, this.window, buckets := rate, window, map[];
    }

    /** Every IP has a bucket of its own. */
    ghost predicate Valid()
      reads this
    {
      window > 0 && forall a, b :: a in buckets && b in buckets && buckets[a] == buckets[b] ==> a == b
    }

    ghost function View(): Buckets
      reads this, buckets.Values
    {
      map ip | ip in buckets :: buckets[ip].View()
    }

    /** One request; `until` is the clock that time.Until reads after `now` was taken. */
    method Allow(ip: string, now: Time, until: Time) returns (r: Response)
      requires Valid()
      modifies this, buckets.Values
      ensures Valid()
      ensures View() == Serve(old(View()), ip, now, window)
      ensures r.Pass? <==> View()[ip].count <= rate
      ensures r.TooMany? ==> r.retryAfter == RetryAfter(View()[ip].resetAt, until)
    {
      if ip !in buckets {
        var created := new Bucket(now + window);
        buckets := buckets[ip := created];
      }
      var b := buckets[ip];
      b.Hit(now, window);
      assert View().Keys == old(View()).Keys + {ip};
      var retryAfter := Quo(b.resetAt - until, SECOND) + 1;
      if b.count > rate {
        return TooMany(retryAfter);
      }
      return Pass;
    }

    method SweepOne(ip: string, now: Time)
      requires Valid()
      modifies this
      ensures Valid() && buckets.Values <= old(buckets.Values)
      ensures View() == Sweep(old(View()), ip, now)
    {
      if ip in buckets && now > buckets[ip].resetAt {
        buckets := buckets - {ip};
      }
    }

    /** A janitor pass that no request interrupts leaves exactly the windows still running. */
    method JanitorPass(now: Time)
      requires Valid()
      modifies this
      ensures Valid()
      ensures View() == map ip | ip in old(View()) && !Stale(old(View())[ip], now) :: old(View())[ip]
    {
      var todo := buckets.Keys;
      while todo != {}
        invariant Valid() && todo <= buckets.Keys
        invariant forall ip :: ip in buckets ==> ip in old(buckets) && buckets[ip] == old(buckets)[ip]
        invariant forall ip :: ip in old(buckets) && ip !in buckets ==> now > old(buckets)[ip].resetAt
        invariant forall ip :: ip in buckets && ip !in todo ==> now <= buckets[ip].resetAt
        decreases todo
      {
        var ip :| ip in todo;
        todo := todo - {ip};
        if now > buckets[ip].resetAt {
          buckets := buckets - {ip};
        }
      }
    }
  }

  // ---------- runs ----------

  datatype Event =
    | Request(ip: string, now: Time)
    | Check(ip: string, now: Time)   // the janitor looks at one bucket

  /** A served request and its bucket right after. */
  datatype Entry = Entry(ip: string, now: Time, w: Window)

  function Step(b: Buckets, e: Event, window: Time, evict: bool): Buckets {
    match e
    case Request(ip, now) => Serve(b, ip, now, window)
    case Check(ip, now) => if evict then Sweep(b, ip, now) else b
  }

  function After(events: seq<Event>, window: Time, evict: bool): Buckets {
    if events == [] then map[]
    else Step(After(events[..|events| - 1], window, evict), events[|events| - 1], window, evict)
  }

  function Log(events: seq<Event>, window: Time, evict: bool): seq<Entry> {
    if events == [] then []
    else
      var before, e := Log(events[..|events| - 1], window, evict), events[|events| - 1];
      if e.Request? then before + [Entry(e.ip, e.now, After(events, window, evict)[e.ip])] else before
  }

  /** Requests see a clock that never goes back, also past the times of earlier janitor ticks.
      (A tick may carry an older time than the requests before it.) */
  ghost predicate Timely(events: seq<Event>) {
    forall i, k :: 0 <= i < k < |events| && events[k].Request? ==> events[i].now <= events[k].now
  }

  /** No event so far is later than `t`. */
  ghost predicate UpTo(events: seq<Event>, t: Time) {
    forall i :: 0 <= i < |events| ==> events[i].now <= t
  }

  // ---------- eviction ----------

  /** A bucket the janitor dropped is one whose window has elapsed. */
  ghost predicate Simulates(evicting: Buckets, keeping: Buckets, t: Time) {
    && (forall ip :: ip in evicting ==> ip in keeping && evicting[ip] == keeping[ip])
    && (forall ip :: ip in keeping && ip !in evicting ==> keeping[ip].resetAt < t)
  }

  lemma StepSimulates(evicting: Buckets, keeping: Buckets, e: Event, t: Time, window: Time)
    requires window > 0 && Simulates(evicting, keeping, t) && (e.Request? ==> t <= e.now)
    ensures Simulates(Step(evicting, e, window, true), Step(keeping, e, window, false), if t < e.now then e.now else t)
    ensures e.Request? ==> Step(evicting, e, window, true)[e.ip] == Step(keeping, e, window, false)[e.ip]
  {
  }

  /** The latest time among the events. */
  function Latest(events: seq<Event>, floor: Time): Time {
    if events == [] then floor
    else
      var t := Latest(events[..|events| - 1], floor);
      if t < events[|events| - 1].now then events[|events| - 1].now else t
  }

  lemma {:induction false} LatestBelow(events: seq<Event>, floor: Time, t: Time)
    requires floor <= t && UpTo(events, t)
    ensures Latest(events, floor) <= t
  {
    if events != [] {
      LatestBelow(events[..|events| - 1], floor, t);
    }
  }

  lemma {:induction false} RunsSimulate(events: seq<Event>, floor: Time, window: Time)
    requires window > 0 && Timely(events)
    requires forall i :: 0 <= i < |events| ==> floor <= events[i].now
    ensures Simulates(After(events, window, true), After(events, window, false), Latest(events, floor))
    ensures Log(events, window, true) == Log(events, window, false)
  {
    if events != [] {
      var before, e := events[..|events| - 1], events[|events| - 1];
      RunsSimulate(before, floor, window);
      if e.Request? {
        LatestBelow(before, floor, e.now);
      }
      StepSimulates(After(before, window, true), After(before, window, false), e, Latest(before, floor), window);
    }
  }

  /** The janitor is invisible: every request finds the same count and the same reset time,
      so gets the same answer, as if no bucket was ever dropped. */
  lemma EvictionInvisible(events: seq<Event>, window: Time)
    requires window > 0 && Timely(events)
    ensures Log(events, window, true) == Log(events, window, false)
  {
    var floor := Floor(events);
    RunsSimulate(events, floor, window);
  }

  lemma {:induction false} Floor(events: seq<Event>) returns (floor: Time)
    ensures forall i :: 0 <= i < |events| ==> floor <= events[i].now
  {
    floor := 0;
    if events != [] {
      floor := Floor(events[1..]);
      floor := if events[0].now < floor then events[0].now else floor;
      forall i | 0 <= i < |events| ensures floor <= events[i].now {
        assert i > 0 ==> events[i] == events[1..][i - 1];
      }
    }
  }

  lemma {:induction false} Ceiling(events: seq<Event>) returns (t: Time)
    ensures UpTo(events, t)
  {
    t := 0;
    if events != [] {
      t := Ceiling(events[..|events| - 1]);
      t := if t < events[|events| - 1].now then events[|events| - 1].now else t;
    }
  }

  /** Dropping a bucket is invisible to that IP's next request exactly if its window has elapsed
      by then: a drop that comes after a request has opened a new window shows. */
  lemma DropInvisibleIff(b: Buckets, ip: string, later: Time, window: Time)
    requires window > 0 && ip in b && b[ip].count >= 1
    ensures Serve(b - {ip}, ip, later, window)[ip] == Serve(b, ip, later, window)[ip] <==> Stale(b[ip], later)
  {
  }

  /** Between check and delete of a janitor that lets go of the bucket: if a request comes in
      between, the drop always shows to a request in the same window. */
  lemma LateDropShows(b: Buckets, ip: string, check: Time, between: Time, later: Time, window: Time)
    requires window > 0 && ip in b && Stale(b[ip], check) && check <= between <= later <= between + window
    ensures var reopened := Serve(b, ip, between, window);
      Serve(reopened - {ip}, ip, later, window)[ip].count == 1 && Serve(reopened, ip, later, window)[ip].count == 2
  {
  }

  // ---------- windows ----------

  /** Two requests of one IP, in order: same window and a higher count, or a later window
      that starts strictly after the first one ends. */
  ghost predicate InOrder(a: Window, b: Window, window: Time) {
    (a.resetAt == b.resetAt && a.count < b.count) || a.resetAt < b.resetAt - window
  }

  ghost predicate Within(e: Entry, window: Time) {
    && e.w.count >= 1 && e.w.resetAt - window <= e.now <= e.w.resetAt
    && (e.w.count == 1 ==> e.now == e.w.resetAt - window)
  }

  ghost predicate Ordered(log: seq<Entry>, window: Time) {
    && (forall i :: 0 <= i < |log| ==> Within(log[i], window))
    && (forall i, k :: 0 <= i < k < |log| && log[i].ip == log[k].ip ==> InOrder(log[i].w, log[k].w, window))
  }

  /** What ties the buckets to the log: each holds its IP's latest window. */
  ghost predicate Current(b: Buckets, log: seq<Entry>, window: Time, t: Time) {
    && (forall ip :: ip in b ==> b[ip].count >= 1 && b[ip].resetAt - window <= t)
    && (forall i :: 0 <= i < |log| ==> log[i].ip in b && (log[i].w == b[log[i].ip] || InOrder(log[i].w, b[log[i].ip], window)))
  }

  lemma {:induction false} LogOrdered(events: seq<Event>, window: Time, t: Time)
    requires window > 0 && Timely(events) && UpTo(events, t)
    ensures Ordered(Log(events, window, false), window)
    ensures Current(After(events, window, false), Log(events, window, false), window, t)
  {
    if events != [] {
      var before, e := events[..|events| - 1], events[|events| - 1];
      LogOrdered(before, window, if e.Request? then e.now else t);
      if e.Request? {
        Extends(After(before, window, false), Log(before, window, false), e, window, t);
      }
    }
  }

  lemma Extends(b: Buckets, log: seq<Entry>, e: Event, window: Time, t: Time)
    requires window > 0 && e.Request? && e.now <= t && Ordered(log, window) && Current(b, log, window, e.now)
    ensures var b' := Serve(b, e.ip, e.now, window);
      var log' := log + [Entry(e.ip, e.now, b'[e.ip])];
      Ordered(log', window) && Current(b', log', window, t)
  {
    var b' := Serve(b, e.ip, e.now, window);
    var log' := log + [Entry(e.ip, e.now, b'[e.ip])];
    forall i | 0 <= i < |log| && log[i].ip == e.ip ensures InOrder(log[i].w, b'[e.ip], window) {
    }
  }

  /** Indices of one IP's requests in a window that came after the first `from` and among
      the first `to` of that window: with `from == 0` and `last` the rate, the admitted ones. */
  ghost function InWindow(log: seq<Entry>, ip: string, from: int, last: int, resetAt: Time): set<int> {
    set i | 0 <= i < |log| && log[i].ip == ip && from < log[i].w.count <= last && log[i].w.resetAt == resetAt
  }

  /** Indices of the admitted requests of one IP in a closed interval of time. */
  ghost function Admitted(log: seq<Entry>, ip: string, rate: int, from: Time, upto: Time): set<int> {
    set i | 0 <= i < |log| && log[i].ip == ip && log[i].w.count <= rate && from <= log[i].now <= upto
  }

  lemma SameRank(log: seq<Entry>, window: Time, i: int, k: int)
    requires Ordered(log, window) && window > 0 && 0 <= i < |log| && 0 <= k < |log|
    requires log[i].ip == log[k].ip && log[i].w == log[k].w
    ensures i == k
  {
    assert i < k ==> InOrder(log[i].w, log[k].w, window);
    assert k < i ==> InOrder(log[k].w, log[i].w, window);
  }

  lemma {:induction false} WindowSize(log: seq<Entry>, window: Time, ip: string, from: nat, last: nat, resetAt: Time)
    requires Ordered(log, window) && window > 0 && from <= last
    ensures |InWindow(log, ip, from, last, resetAt)| <= last - from
    decreases last
  {
    var all := InWindow(log, ip, from, last, resetAt);
    if last == from {
      assert all == {};
    } else {
      var fewer := InWindow(log, ip, from, last - 1, resetAt);
      WindowSize(log, window, ip, from, last - 1, resetAt);
      if i :| i in all && log[i].w.count == last {
        forall k | k in all ensures k in fewer + {i} {
          if log[k].w == log[i].w {
            SameRank(log, window, i, k);
          }
        }
        SubsetSize(all, fewer + {i});
      } else {
        SubsetSize(all, fewer);
      }
    }
  }

  /** An interval no longer than a window touches at most two windows of an IP, and not the
      request that opened the earlier one. */
  lemma AtMostTwoWindows(log: seq<Entry>, window: Time, ip: string, rate: int, from: Time, i: int, k: int, j: int)
    requires Ordered(log, window) && window > 0
    requires {i, k, j} <= Admitted(log, ip, rate, from, from + window)
    requires log[i].w.resetAt < log[k].w.resetAt
    ensures log[j].w.resetAt == log[i].w.resetAt || log[j].w.resetAt == log[k].w.resetAt
    ensures log[j].w.resetAt == log[i].w.resetAt ==> log[j].w.count > 1
  {
    assert Within(log[i], window) && Within(log[k], window) && Within(log[j], window);
  }

  lemma IntervalBound(log: seq<Entry>, window: Time, ip: string, rate: nat, from: Time)
    requires Ordered(log, window) && window > 0 && rate > 0
    ensures |Admitted(log, ip, rate, from, from + window)| <= 2 * rate - 1
  {
    var all := Admitted(log, ip, rate, from, from + window);
    if i, k :| i in all && k in all && log[i].w.resetAt < log[k].w.resetAt {
      var earlier := InWindow(log, ip, 1, rate, log[i].w.resetAt);
      var later := InWindow(log, ip, 0, rate, log[k].w.resetAt);
      WindowSize(log, window, ip, 1, rate, log[i].w.resetAt);
      WindowSize(log, window, ip, 0, rate, log[k].w.resetAt);
      forall j | j in all ensures j in earlier + later {
        AtMostTwoWindows(log, window, ip, rate, from, i, k, j);
      }
      SubsetSize(all, earlier + later);
    } else if i :| i in all {
      WindowSize(log, window, ip, 0, rate, log[i].w.resetAt);
      SubsetSize(all, InWindow(log, ip, 0, rate, log[i].w.resetAt));
    }
  }

  /** On every run, wherever the janitor looks: windows of one IP are disjoint, each admits at
      most `rate` requests, and any closed interval of one window's length at most 2*rate - 1:
      the request that opens a window is a whole window older than the next one. */
  lemma AdmissionBounds(events: seq<Event>, window: Time, ip: string, rate: nat, resetAt: Time, from: Time)
    requires window > 0 && Timely(events)
    ensures Ordered(Log(events, window, true), window)
    ensures |InWindow(Log(events, window, true), ip, 0, rate, resetAt)| <= rate
    ensures |Admitted(Log(events, window, true), ip, rate, from, from + window)| <= if rate == 0 then 0 else 2 * rate - 1
  {
    EvictionInvisible(events, window);
    var t := Ceiling(events);
    LogOrdered(events, window, t);
    var log := Log(events, window, false);
    WindowSize(log, window, ip, 0, rate, resetAt);
    if rate == 0 {
      assert Admitted(log, ip, rate, from, from + window) == {};
    } else {
      IntervalBound(log, window, ip, rate, from);
    }
  }

  function Burst(ip: string, now: Time, n: nat): seq<Event> {
    if n == 0 then [] else Burst(ip, now, n - 1) + [Request(ip, now)]
  }

  lemma OneMore(events: seq<Event>, e: Event, window: Time)
    requires e.Request?
    ensures After(events + [e], window, true) == Step(After(events, window, true), e, window, true)
    ensures Log(events + [e], window, true)
      == Log(events, window, true) + [Entry(e.ip, e.now, After(events + [e], window, true)[e.ip])]
  {
    assert (events + [e])[..|events|] == events;
  }

  /** What a burst inside a running window writes to the log. */
  function Ticks(ip: string, now: Time, w: Window, n: nat): seq<Entry> {
    seq(n, i requires 0 <= i < n => Entry(ip, now, w.(count := w.count + 1 + i)))
  }

  lemma TicksGrow(ip: string, now: Time, w: Window, n: nat)
    requires n > 0
    ensures Ticks(ip, now, w, n) == Ticks(ip, now, w, n - 1) + [Entry(ip, now, w.(count := w.count + n))]
  {
  }

  lemma TickStep(before: seq<Event>, b: Buckets, log: seq<Entry>, ip: string, now: Time, n: nat, window: Time, w: Window)
    requires n > 0 && now <= w.resetAt
    requires After(before, window, true) == b[ip := w.(count := w.count + n - 1)]
    requires Log(before, window, true) == log + Ticks(ip, now, w, n - 1)
    ensures After(before + [Request(ip, now)], window, true) == b[ip := w.(count := w.count + n)]
    ensures Log(before + [Request(ip, now)], window, true) == log + Ticks(ip, now, w, n)
  {
    OneMore(before, Request(ip, now), window);
    TicksGrow(ip, now, w, n);
  }

  lemma BurstSnoc(events: seq<Event>, ip: string, now: Time, n: nat)
    ensures n == 0 ==> events + Burst(ip, now, n) == events
    ensures n > 0 ==> events + Burst(ip, now, n) == events + Burst(ip, now, n - 1) + [Request(ip, now)]
  {
  }

  lemma {:induction false} BurstCounts(
      events: seq<Event>, ip: string, now: Time, n: nat, window: Time, w: Window, b: Buckets, log: seq<Entry>)
    requires b == After(events, window, true) && log == Log(events, window, true)
    requires ip in b && w == b[ip] && now <= w.resetAt
    ensures After(events + Burst(ip, now, n), window, true) == b[ip := w.(count := w.count + n)]
    ensures Log(events + Burst(ip, now, n), window, true) == log + Ticks(ip, now, w, n)
    decreases n
  {
    BurstSnoc(events, ip, now, n);
    if n == 0 {
      assert b[ip := w] == b && log + Ticks(ip, now, w, 0) == log;
    } else {
      BurstCounts(events, ip, now, n - 1, window, w, b, log);
      TickStep(events + Burst(ip, now, n - 1), b, log, ip, now, n, window, w);
    }
  }

  lemma {:induction false} BurstAt(ip: string, now: Time, n: nat)
    ensures |Burst(ip, now, n)| == n && forall i :: 0 <= i < n ==> Burst(ip, now, n)[i] == Request(ip, now)
  {
    if n > 0 {
      BurstAt(ip, now, n - 1);
    }
  }

  /** One request, rate - 1 more at its window's end, and `rate` right after it. */
  function Straddle(ip: string, rate: nat, window: Time): seq<Event>
    requires rate > 0
  {
    [Request(ip, 0)] + Burst(ip, window, rate - 1) + [Request(ip, window + 1)] + Burst(ip, window + 1, rate - 1)
  }

  lemma StraddleTimely(ip: string, rate: nat, window: Time)
    requires rate > 0 && window > 0
    ensures Timely(Straddle(ip, rate, window))
  {
    BurstAt(ip, window, rate - 1);
    BurstAt(ip, window + 1, rate - 1);
    assert forall i :: 0 <= i < |Straddle(ip, rate, window)| ==>
      Straddle(ip, rate, window)[i].now == if i == 0 then 0 else if i < rate then window else window + 1;
  }

  lemma FirstRequest(one: seq<Event>, ip: string, window: Time)
    requires window > 0 && one == [Request(ip, 0)]
    ensures After(one, window, true) == map[ip := Window(1, window)]
    ensures Log(one, window, true) == [Entry(ip, 0, Window(1, window))]
  {
    assert one[..0] == [];
    assert After([], window, true) == map[] && Log([], window, true) == [];
  }

  lemma FirstHalf(ip: string, n: nat, window: Time, one: seq<Event>)
    requires window > 0 && one == [Request(ip, 0)]
    ensures Log(one + Burst(ip, window, n), window, true)
      == [Entry(ip, 0, Window(1, window))] + Ticks(ip, window, Window(1, window), n)
    ensures After(one + Burst(ip, window, n), window, true) == map[ip := Window(1 + n, window)]
  {
    FirstRequest(one, ip, window);
    BurstCounts(one, ip, window, n, window, Window(1, window), After(one, window, true), Log(one, window, true));
  }

  lemma StraddleLog(ip: string, rate: nat, window: Time)
    requires rate > 0 && window > 0
    ensures Log(Straddle(ip, rate, window), window, true)
      == [Entry(ip, 0, Window(1, window))] + Ticks(ip, window, Window(1, window), rate - 1)
       + [Entry(ip, window + 1, Window(1, 2 * window + 1))]
       + Ticks(ip, window + 1, Window(1, 2 * window + 1), rate - 1)
  {
    FirstHalf(ip, rate - 1, window, [Request(ip, 0)]);
    var two := [Request(ip, 0)] + Burst(ip, window, rate - 1);
    OneMore(two, Request(ip, window + 1), window);
    var three := two + [Request(ip, window + 1)];
    assert After(three, window, true)[ip] == Window(1, 2 * window + 1);
    BurstCounts(three, ip, window + 1, rate - 1, window, Window(1, 2 * window + 1),
                After(three, window, true), Log(three, window, true));
  }

  /** The bound is exact: for every rate and window some run reaches it. */
  lemma BoundReached(ip: string, rate: nat, window: Time) returns (events: seq<Event>)
    requires rate > 0 && window > 0
    ensures Timely(events)
    ensures |Admitted(Log(events, window, true), ip, rate, 1, 1 + window)| == 2 * rate - 1
  {
    events := Straddle(ip, rate, window);
    StraddleTimely(ip, rate, window);
    StraddleLog(ip, rate, window);
    assert Admitted(Log(events, window, true), ip, rate, 1, 1 + window) == Interval(1, 2 * rate);
  }

  // ---------- Retry-After ----------

  /** Waiting the announced seconds always ends after the window; the announced number is
      positive exactly when the clock had not passed the reset by a whole second. */
  lemma RetryAfterSuffices(resetAt: Time, clock: Time)
    ensures clock + RetryAfter(resetAt, clock) * SECOND > resetAt
    ensures RetryAfter(resetAt, clock) >= 1 <==> clock < resetAt + SECOND
    ensures clock <= resetAt ==> clock + (RetryAfter(resetAt, clock) - 1) * SECOND <= resetAt
  {
  }

  /** A rejected client whose next request comes that much later opens a new window, whether
      or not the janitor has dropped its bucket: it is admitted under every rate of at least 1. */
  lemma WaitingIsEnough(b: Buckets, ip: string, window: Time, clock: Time, later: Time, sweep: Time)
    requires window > 0 && ip in b && later >= clock + RetryAfter(b[ip].resetAt, clock) * SECOND
    ensures Serve(b, ip, later, window)[ip] == Window(1, later + window)
    ensures Serve(Sweep(b, ip, sweep), ip, later, window)[ip] == Window(1, later + window)
  {
    RetryAfterSuffices(b[ip].resetAt, clock);
  }

  /** A check of the janitor drops a bucket exactly if its window has elapsed, and touches no other. */
  lemma SweepDrops(b: Buckets, ip: string, now: Time, other: string)
    ensures ip in Sweep(b, ip, now) <==> ip in b && now <= b[ip].resetAt
    ensures other != ip ==> (other in Sweep(b, ip, now) <==> other in b)
    ensures other in Sweep(b, ip, now) ==> Sweep(b, ip, now)[other] == b[other]
  {
  }
}
