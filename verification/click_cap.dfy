/** The click cap under concurrency: a redirect reads the counter in one step and
    increments it in a later one, with anything in between. */
module ClickCap {
  import opened Models
  import opened Sets
  import S = StoreSpec
  import R = Redirect

  /** Redirects of one code that have done their Get and not yet their RecordClick,
      each with the snapshot it decides on. */
  datatype Sys = Sys(store: S.State, inflight: map<nat, Row>)

  const START := Sys(S.EMPTY, map[])

  datatype Action =
    | Arrive(req: nat, now: Time)
    | Finish(req: nat, env: R.Env)
    | Other(op: S.Op)

  /** `Arrive` is Get; `Finish` decides on the snapshot and records if it serves;
      `Other` is any store operation of any other handler. */
  function Next(code: string, sys: Sys, a: Action): Sys {
    match a
    case Arrive(req, now) =>
      var got := S.Get(sys.store, code, now);
      if got.Ok? then sys.(inflight := sys.inflight[req := got.value]) else sys
    case Finish(req, env) =>
      if req !in sys.inflight then sys
      else
        var d := R.Decide(sys.inflight[req], env);
        Sys(if d.Serve? then S.RecordClick(sys.store, code, d.ev) else sys.store, sys.inflight - {req})
    case Other(op) => sys.(store := S.Step(sys.store, op))
  }

  function Run(code: string, actions: seq<Action>): Sys {
    if actions == [] then START
    else Next(code, Run(code, actions[..|actions| - 1]), actions[|actions| - 1])
  }

  /** At most `n` redirects in flight; a mapping is created with count 0; the click counter
      is the redirects' alone. */
  ghost predicate Enabled(code: string, n: nat, sys: Sys, a: Action) {
    match a
    case Arrive(req, now) => req !in sys.inflight && |sys.inflight| < n
    case Finish(req, env) => req in sys.inflight
    case Other(op) =>
      && !(op.OpRecordClick? && op.code == code)
      && (op.OpSet? && op.code == code ==> op.row.clickCount == 0)
  }

  /** While the code is stored, a cap is in force and never above `cap`. */
  ghost predicate Capped(code: string, cap: int, s: S.State) {
    code in s.urls ==> 0 < s.urls[code].maxClicks <= cap
  }

  ghost predicate Legal(code: string, cap: int, n: nat, actions: seq<Action>) {
    actions == [] ||
    (var before, a := actions[..|actions| - 1], actions[|actions| - 1];
     && Legal(code, cap, n, before)
     && Enabled(code, n, Run(code, before), a)
     && Capped(code, cap, Run(code, actions).store))
  }

  // ---------- the bound ----------

  /** The redirects in flight that may still increment. */
  ghost function Passers(sys: Sys): set<nat> {
    set r | r in sys.inflight && R.UnderCap(sys.inflight[r])
  }

  ghost predicate Inv(code: string, cap: int, n: nat, sys: Sys) {
    && Capped(code, cap, sys.store)
    && |sys.inflight| <= n
    && |Passers(sys)| <= |sys.inflight|
    && (code in sys.store.urls ==> sys.store.urls[code].clickCount + |Passers(sys)| <= cap + n - 1)
  }

  lemma PassersAtMostInFlight(sys: Sys)
    ensures |Passers(sys)| <= |sys.inflight|
  {
    SubsetSize(Passers(sys), sys.inflight.Keys);
  }

  lemma ArriveKeepsInv(code: string, cap: int, n: nat, sys: Sys, a: Action)
    requires cap >= 1 && n >= 1 && Inv(code, cap, n, sys) && a.Arrive? && Enabled(code, n, sys, a)
    ensures Inv(code, cap, n, Next(code, sys, a))
  {
    var after := Next(code, sys, a);
    var got := S.Get(sys.store, code, a.now);
    if got.Ok? {
      assert after.inflight.Keys == sys.inflight.Keys + {a.req};
      assert Passers(after) == if R.UnderCap(got.value) then Passers(sys) + {a.req} else Passers(sys);
      PassersAtMostInFlight(after);
    }
  }

  lemma FinishKeepsInv(code: string, cap: int, n: nat, sys: Sys, a: Action)
    requires cap >= 1 && n >= 1 && Inv(code, cap, n, sys) && a.Finish? && Enabled(code, n, sys, a)
    ensures Inv(code, cap, n, Next(code, sys, a))
  {
    var after := Next(code, sys, a);
    assert after.inflight.Keys == sys.inflight.Keys - {a.req};
    assert Passers(after) == Passers(sys) - {a.req};
    PassersAtMostInFlight(after);
  }

  lemma OtherKeepsInv(code: string, cap: int, n: nat, sys: Sys, a: Action)
    requires cap >= 1 && n >= 1 && Inv(code, cap, n, sys) && a.Other? && Enabled(code, n, sys, a)
    requires Capped(code, cap, Next(code, sys, a).store)
    ensures Inv(code, cap, n, Next(code, sys, a))
  {
    var after := Next(code, sys, a);
    assert Passers(after) == Passers(sys);
    if code in after.store.urls && code in sys.store.urls {
      S.StepKeepsIdentity(sys.store, a.op, code);
    }
  }

  lemma {:induction false} RunKeepsInv(code: string, cap: int, n: nat, actions: seq<Action>)
    requires cap >= 1 && n >= 1 && Legal(code, cap, n, actions)
    ensures Inv(code, cap, n, Run(code, actions))
  {
    if actions == [] {
      assert Passers(START) == {};
    } else {
      var before, a := actions[..|actions| - 1], actions[|actions| - 1];
      RunKeepsInv(code, cap, n, before);
      match a
      case Arrive(_, _) => ArriveKeepsInv(code, cap, n, Run(code, before), a);
      case Finish(_, _) => FinishKeepsInv(code, cap, n, Run(code, before), a);
      case Other(_) => OtherKeepsInv(code, cap, n, Run(code, before), a);
    }
  }

  /** With at most N redirects in flight, the counter overshoots the largest cap ever in
      force by at most N - 1: one at a time it never overshoots. */
  lemma CapBound(code: string, cap: int, n: nat, actions: seq<Action>)
    requires cap >= 1 && n >= 1 && Legal(code, cap, n, actions)
    requires code in Run(code, actions).store.urls
    ensures Run(code, actions).store.urls[code].clickCount <= cap + n - 1
    ensures n == 1 ==> Run(code, actions).store.urls[code].clickCount <= cap
  {
    RunKeepsInv(code, cap, n, actions);
  }

  // ---------- the bound is reached ----------

  /** A plain capped mapping that has served `count` clicks. */
  ghost predicate Plain(row: Row, cap: int, count: int) {
    && row.maxClicks == cap && row.clickCount == count
    && row.expiresAt.None? && row.passwordHash == [] && row.destinations == []
  }

  ghost predicate Open(env: R.Env) {
    forall t :: !env.denied(t) && !env.blocked(t)
  }

  /** The state after some legal run: `count` clicks recorded and the requests 0..k in
      flight, all on snapshots of `seen` clicks. */
  ghost predicate At(code: string, cap: int, n: nat, actions: seq<Action>, count: int, seen: int, from: nat, k: nat) {
    var sys := Run(code, actions);
    && Legal(code, cap, n, actions)
    && code in sys.store.urls && Plain(sys.store.urls[code], cap, count)
    && (forall r :: r in sys.inflight <==> from <= r < k)
    && (forall r :: r in sys.inflight ==> Plain(sys.inflight[r], cap, seen))
    && |sys.inflight| == k - from
  }

  lemma Extend(code: string, actions: seq<Action>, a: Action)
    ensures (actions + [a])[..|actions|] == actions
    ensures Run(code, actions + [a]) == Next(code, Run(code, actions), a)
  {
    assert (actions + [a])[..|actions + [a]| - 1] == actions;
  }

  lemma LegalExtends(code: string, cap: int, n: nat, actions: seq<Action>, a: Action)
    requires Legal(code, cap, n, actions) && Enabled(code, n, Run(code, actions), a)
    requires Capped(code, cap, Next(code, Run(code, actions), a).store)
    ensures Legal(code, cap, n, actions + [a])
  {
    Extend(code, actions, a);
    assert (actions + [a])[..|actions + [a]| - 1] == actions;
  }

  lemma OneArrives(code: string, cap: int, n: nat, actions: seq<Action>, count: int, k: nat) returns (longer: seq<Action>)
    requires cap >= 1 && k < n && At(code, cap, n, actions, count, count, 0, k)
    ensures At(code, cap, n, longer, count, count, 0, k + 1)
  {
    var a := Arrive(k, 0);
    longer := actions + [a];
    Extend(code, actions, a);
    LegalExtends(code, cap, n, actions, a);
    var sys := Run(code, actions);
    assert Run(code, longer).inflight.Keys == sys.inflight.Keys + {k};
  }

  lemma OneFinishes(code: string, cap: int, n: nat, actions: seq<Action>, count: int, seen: int, from: nat, k: nat, env: R.Env)
    returns (longer: seq<Action>)
    requires seen < cap && from < k && Open(env) && At(code, cap, n, actions, count, seen, from, k)
    ensures At(code, cap, n, longer, count + 1, seen, from + 1, k)
  {
    var a := Finish(from, env);
    longer := actions + [a];
    Extend(code, actions, a);
    LegalExtends(code, cap, n, actions, a);
    var sys := Run(code, actions);
    assert R.Decide(sys.inflight[from], env).Serve?;
    assert Run(code, longer).inflight.Keys == sys.inflight.Keys - {from};
  }

  lemma {:induction false} ManyArrive(code: string, cap: int, n: nat, actions: seq<Action>, count: int, k: nat)
    returns (longer: seq<Action>)
    requires cap >= 1 && k <= n && At(code, cap, n, actions, count, count, 0, 0)
    ensures At(code, cap, n, longer, count, count, 0, k)
    decreases k
  {
    if k == 0 {
      longer := actions;
    } else {
      longer := ManyArrive(code, cap, n, actions, count, k - 1);
      longer := OneArrives(code, cap, n, longer, count, k - 1);
    }
  }

  lemma {:induction false} ManyFinish(
      code: string, cap: int, n: nat, actions: seq<Action>, count: int, seen: int, from: nat, k: nat, env: R.Env)
    returns (longer: seq<Action>)
    requires seen < cap && from <= k && Open(env) && At(code, cap, n, actions, count, seen, from, k)
    ensures At(code, cap, n, longer, count + k - from, seen, k, k)
    decreases k - from
  {
    if from == k {
      longer := actions;
    } else {
      longer := OneFinishes(code, cap, n, actions, count, seen, from, k, env);
      longer := ManyFinish(code, cap, n, longer, count + 1, seen, from + 1, k, env);
    }
  }

  /** No request in flight: the numbering may start again at 0 and at a new snapshot. */
  lemma Restart(code: string, cap: int, n: nat, actions: seq<Action>, count: int, seen: int, k: nat)
    requires At(code, cap, n, actions, count, seen, k, k)
    ensures At(code, cap, n, actions, count, count, 0, 0)
  {
  }

  lemma {:induction false} OneByOne(code: string, cap: int, n: nat, row: Row, env: R.Env, count: nat)
    returns (actions: seq<Action>)
    requires n >= 1 && count < cap && Open(env) && Plain(row, cap, 0)
    ensures At(code, cap, n, actions, count, count, 0, 0)
    decreases count
  {
    if count == 0 {
      var a := Other(S.OpSet(code, row));
      actions := [a];
      assert [a][..0] == [];
      assert Legal(code, cap, n, [a][..0]);
      assert Run(code, [a]) == Next(code, START, a);
    } else {
      actions := OneByOne(code, cap, n, row, env, count - 1);
      actions := ManyArrive(code, cap, n, actions, count - 1, 1);
      actions := ManyFinish(code, cap, n, actions, count - 1, count - 1, 0, 1, env);
      Restart(code, cap, n, actions, count, count - 1, 1);
    }
  }

  /** For every cap and every N some legal run ends at exactly cap + N - 1 clicks: N redirects
      all read the counter at cap - 1 before any of them records. */
  lemma BoundReached(code: string, cap: int, n: nat, row: Row, env: R.Env) returns (actions: seq<Action>)
    requires cap >= 1 && n >= 1 && Open(env) && Plain(row, cap, 0)
    ensures Legal(code, cap, n, actions) && code in Run(code, actions).store.urls
    ensures Run(code, actions).store.urls[code].clickCount == cap + n - 1
  {
    actions := OneByOne(code, cap, n, row, env, cap - 1);
    actions := ManyArrive(code, cap, n, actions, cap - 1, n);
    actions := ManyFinish(code, cap, n, actions, cap - 1, cap - 1, 0, n, env);
  }
}
