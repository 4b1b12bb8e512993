/** Webhook delivery: which attempts are made, which outcome ends them, and what is counted. */
module Webhook {
  import opened Models
  import opened WorkQueue

  const MAX_ATTEMPTS := 3
  const MS: Time := 1_000_000

  /** One HTTP POST: the request could not be built, got no response, or got a status. */
  datatype Outcome = BadRequest | NoResponse | Status(code: int)

  predicate Is2xx(o: Outcome) {
    o.Status? && 200 <= o.code < 300
  }

  /** Transient: no response at all, or the receiver's own failure. */
  predicate Transient(o: Outcome) {
    o.NoResponse? || (o.Status? && o.code >= 500)
  }

  /** What one attempt tells the retry loop. */
  method Attempt(o: Outcome) returns (retry: bool, ok: bool)
    ensures retry <==> Transient(o)
    ensures ok <==> Is2xx(o)
  {
    if o.BadRequest? {
      return false, false;
    }
    if o.NoResponse? {
      return true, false;
    }
    if o.code >= 200 && o.code < 300 {
      return false, true;
    }
    if o.code >= 500 {
      return true, false;
    }
    return false, false;
  }

  /** `parses` and `hostOk` are url.Parse and the runtime host check; `post` answers the n-th attempt. */
  datatype Env = Env(parses: Job -> bool, hostOk: Job -> bool, post: (Job, nat) -> Outcome)

  /** Attempts made, time slept between them, and whether the event counts as sent. */
  datatype Report = Report(attempts: nat, slept: Time, ok: bool)

  /** What a delivery must be: none if the target is refused; otherwise attempts up to the first
      that is not retryable, at most three; sent exactly when the last one was a 2xx. */
  ghost predicate Delivers(r: Report, ev: Job, env: Env) {
    if !env.parses(ev) || !env.hostOk(ev) then r == Report(0, 0, false)
    else
      && 1 <= r.attempts <= MAX_ATTEMPTS
      && (forall i :: 0 <= i < r.attempts - 1 ==> Transient(env.post(ev, i)))
      && (r.attempts < MAX_ATTEMPTS ==> !Transient(env.post(ev, r.attempts - 1)))
      && (r.ok <==> Is2xx(env.post(ev, r.attempts - 1)))
      && r.slept == (if r.attempts == 1 then 0 else if r.attempts == 2 then 200 * MS else 1000 * MS)
  }

  /** ... and that leaves nothing open. */
  lemma DeliveryDetermined(r: Report, r': Report, ev: Job, env: Env)
    requires Delivers(r, ev, env) && Delivers(r', ev, env)
    ensures r == r'
  {
    if r.attempts < r'.attempts {
      assert false;
    } else if r'.attempts < r.attempts {
      assert false;
    }
  }

  class WebhookDispatcher {
    const cap: nat
    var queue: seq<Job>
    var stopped: bool
    var sent: int
    var failed: int
    var dropped: int
    ghost var reports: seq<(Job, Report)>

    constructor (queueSize: int)
      ensures cap == (if queueSize <= 0 then 256 else queueSize) && queue == [] && !stopped
      ensures sent == 0 && failed == 0 && dropped == 0 && reports == []
    {
      cap := if queueSize <= 0 then 256 else queueSize;
      queue, stopped, sent, failed, dropped, reports := [], false, 0, 0, 0, [];
    }

    /** With nothing between the test and the send, no call aborts. */
    method Enqueue(ev: Job) returns (ok: bool)
      modifies this`queue, this`dropped
      ensures ok <==> !stopped && |old(queue)| < cap
      ensures queue == if ok then old(queue) + [ev] else old(queue)
      ensures dropped == old(dropped) + if !stopped && !ok then 1 else 0
    {
      if stopped {
        return false;
      }
      if |queue| < cap {
        queue := queue + [ev];
        return true;
      }
      dropped := dropped + 1;
      return false;
    }

    method Deliver(ev: Job, env: Env) returns (ghost r: Report, ok: bool)
      modifies this`sent, this`failed, this`reports
      ensures Delivers(r, ev, env) && ok == r.ok
      ensures sent == old(sent) + (if ok then 1 else 0) && failed == old(failed) + (if ok then 0 else 1)
      ensures reports == old(reports) + [(ev, r)]
    {
      var attempts, slept := 0, 0;
      ok := false;
      if !env.parses(ev) || !env.hostOk(ev) {
        failed := failed + 1;
        r := Report(0, 0, false);
        reports := reports + [(ev, r)];
        return;
      }
      var backoff := [0, 200 * MS, 800 * MS];
      while attempts < MAX_ATTEMPTS
        invariant attempts <= MAX_ATTEMPTS
        invariant forall i :: 0 <= i < attempts ==> Transient(env.post(ev, i))
        invariant slept == if attempts <= 1 then 0 else if attempts == 2 then 200 * MS else 1000 * MS
        invariant sent == old(sent) && failed == old(failed) && reports == old(reports)
      {
        if attempts > 0 {
          slept := slept + backoff[attempts];
        }
        var retry, delivered := Attempt(env.post(ev, attempts));
        attempts := attempts + 1;
        if delivered {
          sent := sent + 1;
          ok := true;
          r := Report(attempts, slept, true);
          reports := reports + [(ev, r)];
          return;
        }
        if !retry {
          failed := failed + 1;
          r := Report(attempts, slept, false);
          reports := reports + [(ev, r)];
          return;
        }
      }
      failed := failed + 1;
      r := Report(attempts, slept, false);
      reports := reports + [(ev, r)];
    }

    /** `for ev := range queue` on a closed queue: a lone worker delivers all of it, in order. */
    method Drain(env: Env)
      modifies this
      ensures queue == [] && stopped == old(stopped) && dropped == old(dropped)
      ensures sent + failed == old(sent) + old(failed) + |old(queue)|
      ensures |reports| == |old(reports)| + |old(queue)| && reports[..|old(reports)|] == old(reports)
      ensures forall i :: 0 <= i < |old(queue)| ==>
        reports[|old(reports)| + i].0 == old(queue)[i] && Delivers(reports[|old(reports)| + i].1, old(queue)[i], env)
    {
      ghost var n := 0;
      while queue != []
        invariant 0 <= n <= |old(queue)| && queue == old(queue)[n..]
        invariant stopped == old(stopped) && dropped == old(dropped)
        invariant sent + failed == old(sent) + old(failed) + n
        invariant |reports| == |old(reports)| + n && reports[..|old(reports)|] == old(reports)
        invariant forall i :: 0 <= i < n ==>
          reports[|old(reports)| + i].0 == old(queue)[i] && Delivers(reports[|old(reports)| + i].1, old(queue)[i], env)
        decreases |queue|
      {
        var ev := queue[0];
        queue := queue[1..];
        var r, ok := Deliver(ev, env);
        n := n + 1;
      }
    }
  }

  // ---------- deliveries inside the worker pool ----------

  /** One delivery of a run: the outside world it met, and what was done. */
  datatype Delivery = Delivery(env: Env, report: Report)

  /** The deliveries of a run, one for each job that a worker settles, in order. */
  ghost predicate Delivering(sys: Sys, actions: seq<Action>, ds: seq<Delivery>)
    decreases |actions|
  {
    if actions == [] then ds == []
    else if actions[0].Settle? && Enabled(sys, actions[0]) then
      && ds != [] && Delivers(ds[0].report, sys.workers[actions[0].w].job, ds[0].env)
      && ds[0].report.ok == actions[0].ok
      && Delivering(Next(sys, actions[0]), actions[1..], ds[1..])
    else Delivering(Next(sys, actions[0]), actions[1..], ds)
  }

  /** The last attempt was made and answered with a 2xx. */
  ghost predicate LastIs2xx(d: Delivery, ev: Job) {
    d.report.attempts > 0 && Is2xx(d.env.post(ev, d.report.attempts - 1))
  }

  lemma {:induction false} EachDoneIsADelivery(sys: Sys, actions: seq<Action>, ds: seq<Delivery>)
    requires Delivering(sys, actions, ds)
    ensures var done := Run(sys, actions).done;
      && |done| == |sys.done| + |ds| && done[..|sys.done|] == sys.done
      && forall k :: 0 <= k < |ds| ==>
           && Delivers(ds[k].report, done[|sys.done| + k].job, ds[k].env)
           && ds[k].report.ok == done[|sys.done| + k].ok
    decreases |actions|
  {
    if actions != [] {
      var next := Next(sys, actions[0]);
      if actions[0].Settle? && Enabled(sys, actions[0]) {
        EachDoneIsADelivery(next, actions[1..], ds[1..]);
        assert next.done == sys.done + [Done(sys.workers[actions[0].w].job, actions[0].ok)];
        OneMoreDelivery(sys.done, next.done, Run(next, actions[1..]).done, ds);
      } else {
        EachDoneIsADelivery(next, actions[1..], ds);
      }
    }
  }

  /** Reading the list of deliveries from one place earlier. */
  lemma OneMoreDelivery(before: seq<Done>, after: seq<Done>, all: seq<Done>, ds: seq<Delivery>)
    requires ds != [] && |after| == |before| + 1 && after[..|before|] == before
    requires |all| == |after| + |ds| - 1 && all[..|after|] == after
    requires Delivers(ds[0].report, after[|before|].job, ds[0].env) && ds[0].report.ok == after[|before|].ok
    requires forall k :: 0 <= k < |ds| - 1 ==>
      && Delivers(ds[1..][k].report, all[|after| + k].job, ds[1..][k].env)
      && ds[1..][k].report.ok == all[|after| + k].ok
    ensures all[..|before|] == before
    ensures forall k :: 0 <= k < |ds| ==>
      Delivers(ds[k].report, all[|before| + k].job, ds[k].env) && ds[k].report.ok == all[|before| + k].ok
  {
    assert all[|before|] == all[..|after|][|before|];
    assert all[..|before|] == all[..|after|][..|before|];
    forall k | 0 < k < |ds|
      ensures Delivers(ds[k].report, all[|before| + k].job, ds[k].env) && ds[k].report.ok == all[|before| + k].ok
    {
      assert ds[1..][k - 1] == ds[k] && all[|after| + (k - 1)] == all[|before| + k];
    }
  }

  /** How many deliveries ended in a 2xx. */
  ghost function Successes(done: seq<Done>, ds: seq<Delivery>): int
    requires |done| == |ds|
  {
    if ds == [] then 0
    else
      var n := |ds| - 1;
      Successes(done[..n], ds[..n]) + if LastIs2xx(ds[n], done[n].job) then 1 else 0
  }

  lemma {:induction false} EndedIsSuccesses(done: seq<Done>, ds: seq<Delivery>)
    requires |done| == |ds|
    requires forall k :: 0 <= k < |ds| ==>
      Delivers(ds[k].report, done[k].job, ds[k].env) && ds[k].report.ok == done[k].ok
    ensures Ended(done, true) == Successes(done, ds) && Ended(done, false) == |ds| - Successes(done, ds)
  {
    if ds != [] {
      var n := |ds| - 1;
      EndedIsSuccesses(done[..n], ds[..n]);
      assert Delivers(ds[n].report, done[n].job, ds[n].env);
    }
  }

  /** In every run of producers, workers and closers: `sent` counts exactly the accepted events
      whose last attempt was a 2xx, `failed` the other settled ones, each settled event had its
      own delivery, and none took more than three attempts. */
  lemma SentCountsSuccesses(cap: nat, workers: nat, actions: seq<Action>, ds: seq<Delivery>)
    requires Delivering(Start(cap, workers), actions, ds)
    ensures var sys := Run(Start(cap, workers), actions);
      && |sys.done| == |ds|
      && sys.sent == Successes(sys.done, ds) && sys.failed == |ds| - Successes(sys.done, ds)
      && forall k :: 0 <= k < |ds| ==>
           ds[k].report.attempts <= 3 && Delivers(ds[k].report, sys.done[k].job, ds[k].env)
  {
    NothingLost(cap, workers, actions);
    EachDoneIsADelivery(Start(cap, workers), actions, ds);
    EndedIsSuccesses(Run(Start(cap, workers), actions).done, ds);
  }

  /** The rules by status code: an attempt is followed by another exactly if it got no response or a
      status of 500 or more and fewer than three were made; the event is sent exactly if the last
      attempt got a status from 200 to 299; the waits are 0, 200 and 1000 milliseconds. */
  lemma DeliveryByStatus(r: Report, ev: Job, env: Env)
    requires Delivers(r, ev, env)
    ensures r.attempts <= 3
    ensures r.attempts == 0 <==> !env.parses(ev) || !env.hostOk(ev)
    ensures forall i :: 0 <= i < r.attempts ==>
      var o := env.post(ev, i);
      i + 1 < r.attempts <==> i < 2 && (o == NoResponse || (o.Status? && o.code >= 500))
    ensures r.ok <==>
      && r.attempts > 0
      && env.post(ev, r.attempts - 1).Status? && 200 <= env.post(ev, r.attempts - 1).code <= 299
    ensures r.slept == if r.attempts <= 1 then 0 else if r.attempts == 2 then 200_000_000 else 1_000_000_000
  {
  }
}
