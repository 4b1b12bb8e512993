/** The cache of host validations: looked up and filled under a lock, resolved outside it. */
module DnsCache {
  import opened Models

  const DEFAULT_TTL: Time := 5_000_000_000
  const DEFAULT_CAP := 1024

  /** What validating a host says: `None` lets it pass, `Some` is the error. */
  type Answer = Option<string>

  datatype Entry = Entry(err: Answer, expires: Time)

  type Data = map<string, Entry>

  function Find(d: Data, host: string, now: Time): Option<Answer> {
    if host in d && now < d[host].expires then Some(d[host].err) else None
  }

  function Unexpired(d: Data, now: Time): Data {
    map h | h in d && now <= d[h].expires :: d[h]
  }

  function Evicted(d: Data, cap: int, now: Time): Data {
    if |d| < cap then d
    else if |Unexpired(d, now)| >= cap then map[]
    else Unexpired(d, now)
  }

  function Stored(d: Data, cap: int, ttl: Time, host: string, err: Answer, now: Time): Data {
    Evicted(d, cap, now)[host := Entry(err, now + ttl)]
  }

  class DNSCache {
    const ttl: Time
    const cap: int
    var data: Data

    constructor (ttl: Time, capacity: int)
      ensures Valid() && data == map[]
      ensures this.ttl == if ttl <= 0 then 5_000_000_000 else ttl
      ensures this.cap == if capacity <= 0 then 1024 else capacity
    {
      this.ttl := if ttl <= 0 then DEFAULT_TTL else ttl;
      this.cap := if capacity <= 0 then DEFAULT_CAP else capacity;
      data := map[];
    }

    ghost predicate Valid()
      reads this
    {
      ttl > 0 && cap > 0 && |data| <= cap
    }

    method EvictIfFull(now: Time)
      modifies this
      ensures data == Evicted(old(data), cap, now)
    {
      if |data| < cap {
        return;
      }
      var todo := data.Keys;
      while todo != {}
        invariant todo <= data.Keys <= old(data).Keys
        invariant forall h :: h in data ==> data[h] == old(data)[h]
        invariant forall h :: h in old(data) && h !in todo ==> (h in data <==> now <= old(data)[h].expires)
        decreases todo
      {
        var h :| h in todo;
        todo := todo - {h};
        if now > data[h].expires {
          data := data - {h};
        }
      }
      assert data == Unexpired(old(data), now);
      if |data| >= cap {
        data := map[];
      }
    }

    /** One call that no other call interleaves with: `now` is read once, before the lookup. */
    method ValidateHost(host: string, now: Time, resolve: string -> Answer) returns (err: Answer)
      requires Valid()
      modifies this
      ensures Valid()
      ensures match Find(old(data), host, now)
              case Some(cached) => err == cached && data == old(data)
              case None => err == resolve(host) && data == Stored(old(data), cap, ttl, host, err, now)
    {
      if host in data && now < data[host].expires {
        return data[host].err;
      }
      err := resolve(host);
      FitsAfterEviction(data, cap, now, host, Entry(err, now + ttl));
      EvictIfFull(now);
      data := data[host := Entry(err, now + ttl)];
    }
  }

  /** After an eviction there is room for one more entry. */
  lemma FitsAfterEviction(d: Data, cap: int, now: Time, host: string, e: Entry)
    requires cap > 0
    ensures |Evicted(d, cap, now)[host := e]| <= cap
  {
    var left := Evicted(d, cap, now);
    assert left[host := e].Keys == left.Keys + {host};
    assert |left.Keys| == |left|;
  }

  // ---------- calls interleaving ----------

  /** A call: before its lookup, resolving, or with an answer it has yet to store. */
  datatype Call =
    | Entered(host: string, now: Time)
    | Resolving(host: string, now: Time, began: Time)
    | Resolved(host: string, now: Time, err: Answer)

  /** A finished lookup: when it began, and when the resolver was really asked. */
  datatype Resolution = Resolution(host: string, began: Time, asked: Time, err: Answer)

  datatype Answered = Answered(host: string, now: Time, err: Answer)

  /** `resolutions` and `answers` are history. */
  datatype Sys = Sys(
    clock: Time, data: Data, calls: map<nat, Call>, resolutions: seq<Resolution>, answers: seq<Answered>)

  /** The TTL, the capacity, and the resolver as a function of time. */
  datatype Config = Config(ttl: Time, cap: int, oracle: (string, Time) -> Answer)

  datatype Action =
    | Tick(t: Time)
    | Enter(id: nat, host: string)
    | Lookup(id: nat)
    | Resolve(id: nat)
    | Store(id: nat)

  function Start(clock: Time): Sys {
    Sys(clock, map[], map[], [], [])
  }

  /** An action that is not enabled does nothing. */
  predicate Enabled(sys: Sys, a: Action) {
    match a
    case Tick(t) => sys.clock <= t
    case Enter(id, _) => id !in sys.calls
    case Lookup(id) => id in sys.calls && sys.calls[id].Entered?
    case Resolve(id) => id in sys.calls && sys.calls[id].Resolving?
    case Store(id) => id in sys.calls && sys.calls[id].Resolved?
  }

  function Next(c: Config, sys: Sys, a: Action): Sys {
    if !Enabled(sys, a) then sys else
    match a
    case Tick(t) => sys.(clock := t)
    case Enter(id, host) => sys.(calls := sys.calls[id := Entered(host, sys.clock)])
    case Lookup(id) =>
      var call := sys.calls[id];
      var hit := Find(sys.data, call.host, call.now);
      if hit.Some? then
        sys.(calls := sys.calls - {id}, answers := sys.answers + [Answered(call.host, call.now, hit.value)])
      else sys.(calls := sys.calls[id := Resolving(call.host, call.now, sys.clock)])
    case Resolve(id) =>
      var call := sys.calls[id];
      var err := c.oracle(call.host, sys.clock);
      sys.(calls := sys.calls[id := Resolved(call.host, call.now, err)],
           resolutions := sys.resolutions + [Resolution(call.host, call.began, sys.clock, err)])
    case Store(id) =>
      var call := sys.calls[id];
      sys.(data := Stored(sys.data, c.cap, c.ttl, call.host, call.err, call.now),
           calls := sys.calls - {id},
           answers := sys.answers + [Answered(call.host, call.now, call.err)])
  }

  function Run(c: Config, clock: Time, actions: seq<Action>): Sys {
    if actions == [] then Start(clock)
    else Next(c, Run(c, clock, actions[..|actions| - 1]), actions[|actions| - 1])
  }

  // ---------- freshness ----------

  /** Some resolution of this very host, begun no earlier than `since`, gave this answer. */
  ghost predicate Backed(rs: seq<Resolution>, host: string, err: Answer, since: Time) {
    exists i :: 0 <= i < |rs| && rs[i].host == host && rs[i].err == err && since <= rs[i].began
  }

  lemma BackedLonger(rs: seq<Resolution>, r: Resolution, host: string, err: Answer, since: Time)
    requires Backed(rs, host, err, since)
    ensures Backed(rs + [r], host, err, since)
  {
    var i :| 0 <= i < |rs| && rs[i].host == host && rs[i].err == err && since <= rs[i].began;
    assert (rs + [r])[i] == rs[i];
  }

  ghost predicate CallInv(sys: Sys, call: Call) {
    && call.now <= sys.clock
    && (call.Resolving? ==> call.now <= call.began <= sys.clock)
    && (call.Resolved? ==> Backed(sys.resolutions, call.host, call.err, call.now))
  }

  ghost predicate ResolutionInv(c: Config, clock: Time, r: Resolution) {
    r.began <= r.asked <= clock && r.err == c.oracle(r.host, r.asked)
  }

  ghost predicate Inv(c: Config, sys: Sys) {
    && |sys.data| <= c.cap
    && (forall i :: 0 <= i < |sys.resolutions| ==> ResolutionInv(c, sys.clock, sys.resolutions[i]))
    && (forall id :: id in sys.calls ==> CallInv(sys, sys.calls[id]))
    && (forall h :: h in sys.data ==> Backed(sys.resolutions, h, sys.data[h].err, sys.data[h].expires - c.ttl))
    && (forall i :: 0 <= i < |sys.answers| ==>
          var a := sys.answers[i]; Backed(sys.resolutions, a.host, a.err, a.now - c.ttl + 1))
  }

  lemma ResolveKeepsInv(c: Config, sys: Sys, a: Action)
    requires c.ttl > 0 && c.cap > 0 && Inv(c, sys) && a.Resolve?
    ensures Inv(c, Next(c, sys, a))
  {
    if !Enabled(sys, a) {
      return;
    }
    var call, after := sys.calls[a.id], Next(c, sys, a);
    var r := after.resolutions[|sys.resolutions|];
    forall host, err, since | Backed(sys.resolutions, host, err, since)
      ensures Backed(after.resolutions, host, err, since)
    {
      BackedLonger(sys.resolutions, r, host, err, since);
    }
    assert after.resolutions[|sys.resolutions|].host == call.host;
  }

  lemma BackedEarlier(rs: seq<Resolution>, host: string, err: Answer, since: Time, earlier: Time)
    requires Backed(rs, host, err, since) && earlier <= since
    ensures Backed(rs, host, err, earlier)
  {
    var i :| 0 <= i < |rs| && rs[i].host == host && rs[i].err == err && since <= rs[i].began;
    assert earlier <= rs[i].began;
  }

  lemma StoreKeepsInv(c: Config, sys: Sys, a: Action)
    requires c.ttl > 0 && c.cap > 0 && Inv(c, sys) && a.Store?
    ensures Inv(c, Next(c, sys, a))
  {
    if Enabled(sys, a) {
      var call := sys.calls[a.id];
      FitsAfterEviction(sys.data, c.cap, call.now, call.host, Entry(call.err, call.now + c.ttl));
      assert CallInv(sys, call);
      BackedEarlier(sys.resolutions, call.host, call.err, call.now, call.now - c.ttl + 1);
      forall h | h in Next(c, sys, a).data
        ensures Backed(sys.resolutions, h, Next(c, sys, a).data[h].err, Next(c, sys, a).data[h].expires - c.ttl)
      {
      }
    }
  }

  lemma LookupKeepsInv(c: Config, sys: Sys, a: Action)
    requires c.ttl > 0 && c.cap > 0 && Inv(c, sys) && a.Lookup?
    ensures Inv(c, Next(c, sys, a))
  {
    if Enabled(sys, a) {
      var call := sys.calls[a.id];
      if Find(sys.data, call.host, call.now).Some? {
        var e := sys.data[call.host];
        BackedEarlier(sys.resolutions, call.host, e.err, e.expires - c.ttl, call.now - c.ttl + 1);
      }
    }
  }

  lemma {:induction false} RunKeepsInv(c: Config, clock: Time, actions: seq<Action>)
    requires c.ttl > 0 && c.cap > 0
    ensures Inv(c, Run(c, clock, actions))
  {
    if actions != [] {
      var before, a := actions[..|actions| - 1], actions[|actions| - 1];
      RunKeepsInv(c, clock, before);
      var sys := Run(c, clock, before);
      match a
      case Tick(_) => assert forall id :: id in sys.calls ==> CallInv(sys, sys.calls[id]);
      case Enter(_, _) =>
      case Lookup(_) => LookupKeepsInv(c, sys, a);
      case Resolve(_) => ResolveKeepsInv(c, sys, a);
      case Store(_) => StoreKeepsInv(c, sys, a);
    }
  }

  /** However calls interleave, whatever older lookup overwrites a newer one and whatever is
      evicted: an answer stems from a lookup of that host begun less than a TTL before the
      call read the clock, and the map stays within its capacity. */
  lemma EveryAnswerFresh(c: Config, clock: Time, actions: seq<Action>, k: nat)
    requires c.ttl > 0 && c.cap > 0 && k < |Run(c, clock, actions).answers|
    ensures var sys := Run(c, clock, actions);
      var a := sys.answers[k];
      && |sys.data| <= c.cap
      && exists i :: 0 <= i < |sys.resolutions| && sys.resolutions[i].host == a.host
                     && sys.resolutions[i].err == a.err && a.now - c.ttl < sys.resolutions[i].began
  {
    RunKeepsInv(c, clock, actions);
    var sys := Run(c, clock, actions);
    var a := sys.answers[k];
    var i :| 0 <= i < |sys.resolutions| && sys.resolutions[i].host == a.host && sys.resolutions[i].err == a.err
             && a.now - c.ttl + 1 <= sys.resolutions[i].began;
  }

  /** A changed verdict reaches every caller within a TTL: once the resolver has answered the
      same for a whole TTL before the call, the call answers what a direct validation does,
      with any capacity and any evictions. */
  lemma AnswersAsDirect(c: Config, clock: Time, actions: seq<Action>, k: nat, direct: Answer)
    requires c.ttl > 0 && c.cap > 0 && k < |Run(c, clock, actions).answers|
    requires var sys := Run(c, clock, actions);
      forall t :: sys.answers[k].now - c.ttl < t <= sys.clock ==> c.oracle(sys.answers[k].host, t) == direct
    ensures Run(c, clock, actions).answers[k].err == direct
  {
    EveryAnswerFresh(c, clock, actions, k);
    RunKeepsInv(c, clock, actions);
    var sys := Run(c, clock, actions);
    var a := sys.answers[k];
    var i :| 0 <= i < |sys.resolutions| && sys.resolutions[i].host == a.host
             && sys.resolutions[i].err == a.err && a.now - c.ttl < sys.resolutions[i].began;
    assert ResolutionInv(c, sys.clock, sys.resolutions[i]);
  }

  // ---------- the cache does cache ----------

  /** An answer that was stored is found for that host, and only for it, until a TTL after the call
      that stored it. */
  lemma StoredIsFound(d: Data, cap: int, ttl: Time, host: string, err: Answer, now: Time, other: string, later: Time)
    ensures Find(Stored(d, cap, ttl, host, err, now), host, later) == if later < now + ttl then Some(err) else None
    ensures other != host && Find(Stored(d, cap, ttl, host, err, now), other, later).Some? ==>
      Find(Stored(d, cap, ttl, host, err, now), other, later) == Find(d, other, later)
  {
  }

  /** An eviction leaves everything while there is room, the entries that have not expired if that
      makes room, and nothing otherwise. */
  lemma EvictionExactly(d: Data, cap: int, now: Time, host: string)
    ensures |d| < cap ==> Evicted(d, cap, now) == d
    ensures |d| >= cap && (host in Evicted(d, cap, now)) ==> host in d && now <= d[host].expires
    ensures |d| >= cap && host in d && now <= d[host].expires && LiveCount(d, now) < cap ==> host in Evicted(d, cap, now)
    ensures |d| >= cap && LiveCount(d, now) >= cap ==> Evicted(d, cap, now) == map[]
    ensures host in Evicted(d, cap, now) ==> Evicted(d, cap, now)[host] == d[host]
  {
    assert (set h | h in d && now <= d[h].expires) == Unexpired(d, now).Keys;
    assert |Unexpired(d, now).Keys| == |Unexpired(d, now)|;
  }

  /** How many entries have not expired. */
  function LiveCount(d: Data, now: Time): int {
    |set h | h in d && now <= d[h].expires|
  }

  /** The steps of a call: a live entry answers it at once; otherwise it asks the resolver, stores
      what that says until a TTL after its own clock reading, and answers it. */
  lemma CallSteps(c: Config, sys: Sys, id: nat)
    requires id in sys.calls
    ensures sys.calls[id].Entered? ==>
      var call, after := sys.calls[id], Next(c, sys, Lookup(id));
      if call.host in sys.data && call.now < sys.data[call.host].expires then
        && id !in after.calls && after.resolutions == sys.resolutions
        && after.answers == sys.answers + [Answered(call.host, call.now, sys.data[call.host].err)]
      else id in after.calls && after.calls[id] == Resolving(call.host, call.now, sys.clock) && after.answers == sys.answers
    ensures sys.calls[id].Resolving? ==>
      var call, after := sys.calls[id], Next(c, sys, Resolve(id));
      id in after.calls && after.calls[id] == Resolved(call.host, call.now, c.oracle(call.host, sys.clock))
    ensures sys.calls[id].Resolved? ==>
      var call, after := sys.calls[id], Next(c, sys, Store(id));
      && id !in after.calls && after.answers == sys.answers + [Answered(call.host, call.now, call.err)]
      && call.host in after.data && after.data[call.host] == Entry(call.err, call.now + c.ttl)
  {
  }
}
