/** The redirect: look up, decide on the snapshot, record, fan out. As one handler
    over the real store, and as two steps that interleave with everything else. */
module Redirect {
  import opened Models
  import S = StoreSpec
  import Picker
  import M = MemoryStore
  import P = Passwords

  /** The HTTP method; a POST carries the passphrase field of its form, or a form that does not parse. */
  datatype Request = Get | Post(form: Option<string>) | OtherMethod

  /** What the request and the outside world contribute to one redirect. */
  datatype Env = Env(
    now: Time,
    request: Request,
    kdf: P.Kdf,
    rng: int -> int,            // rand.IntN
    parses: string -> bool,     // url.Parse accepts the target
    denied: string -> bool,     // the deny list contains the target's host
    blocked: string -> bool,    // the host failed the runtime check
    ev: ClickEvent)             // the click's metadata

  datatype Decision = Refuse(status: int) | Serve(target: string, ev: ClickEvent)

  predicate UnderCap(row: Row) {
    !(row.maxClicks > 0 && row.clickCount >= row.maxClicks)
  }

  /** The password gate: 0 lets the request through, anything else is the status of its answer. */
  function GateStatus(hash: Bytes, salt: Bytes, env: Env): int {
    match env.request
    case Post(None) => 400
    case Post(Some(password)) => if P.VerifyPassword(password, hash, salt, env.kdf) then 0 else 401
    case Get => 200
    case OtherMethod => 405
  }

  function Target(row: Row, env: Env): string {
    var pool := row.destinations;
    if pool == [] then row.originalUrl
    else
      var i := Picker.Landing(pool, env.rng(Picker.Total(pool)), 0);
      if i < |pool| then pool[i].url else pool[|pool| - 1].url
  }

  /** Everything between Get and RecordClick looks at the snapshot only. */
  function Decide(row: Row, env: Env): Decision {
    if !UnderCap(row) then Refuse(410)
    else if row.passwordHash != [] && GateStatus(row.passwordHash, row.passwordSalt, env) != 0 then
      Refuse(GateStatus(row.passwordHash, row.passwordSalt, env))
    else
      var target := Target(row, env);
      if env.parses(target) && (env.denied(target) || env.blocked(target)) then Refuse(451)
      else Serve(target, env.ev.(destinationUrl := if row.destinations == [] then "" else target))
  }

  // ---------- the handler ----------

  datatype Delivery = Delivery(code: string, url: string, secret: Bytes, ev: ClickEvent)

  class RedirectHandler {
    const storage: M.MemoryStore
    var published: seq<(string, ClickEvent)>
    var enqueued: seq<Delivery>

    constructor (storage: M.MemoryStore)
      ensures this.storage == storage && published == [] && enqueued == []
    {
      this.storage := storage;
      published, enqueued := [], [];
    }

    /** From the cap check to the choice of target, on the snapshot. */
    method Check(m: M.URLMapping, env: Env) returns (d: Decision)
      requires forall n :: n > 0 ==> 0 <= env.rng(n) < n
      requires Picker.PositiveWeights(m.View().destinations)
      ensures d == Decide(m.View(), env)
    {
      if m.maxClicks > 0 && m.clickCount >= m.maxClicks {
        return Refuse(410);
      }
      if |m.passwordHash.v| > 0 {
        var status := PasswordOK(m.passwordHash.v, m.passwordSalt.v, env);
        if status != 0 {
          return Refuse(status);
        }
      }
      var targetUrl := m.originalUrl;
      if |m.destinations.v| > 0 {
        var picked := Picker.PickDestination(m.destinations.v, env.rng);
        if picked.Some? {
          targetUrl := picked.value.url;
        }
      }
      if env.parses(targetUrl) {
        if env.denied(targetUrl) {
          return Refuse(451);
        }
        if env.blocked(targetUrl) {
          return Refuse(451);
        }
      }
      var ev := env.ev.(destinationUrl := "");
      if |m.destinations.v| > 0 {
        ev := ev.(destinationUrl := targetUrl);
      }
      return Serve(targetUrl, ev);
    }

    /** Verifies a posted form; every other request is shown the form, or refused. */
    method PasswordOK(hash: Bytes, salt: Bytes, env: Env) returns (status: int)
      ensures status == GateStatus(hash, salt, env)
    {
      match env.request
      case Post(form) =>
        if form.None? {
          return 400;
        }
        if !P.VerifyPassword(form.value, hash, salt, env.kdf) {
          return 401;
        }
        return 0;
      case Get => return 200;
      case OtherMethod => return 405;
    }

    /** What a request can change: the store, the published clicks, the queued deliveries. */
    ghost function Effects(): Visible
      reads *
    {
      Visible(storage.Contents(), published, enqueued)
    }

    /** Subscribers and webhooks hear of a click exactly when the store recorded it. */
    method RecordAndPublish(code: string, url: string, secret: Bytes, ev: ClickEvent) returns (recorded: bool)
      requires storage.Valid()
      modifies this`published, this`enqueued, storage`events, if code in storage.urls then {storage.urls[code]} else {}
      ensures storage.Valid()
      ensures recorded == (code in old(storage.urls))
      ensures Effects() == if recorded then Clicked(old(Effects()), code, url, secret, ev) else old(Effects())
    {
      hide M.URLMapping.View;
      var err := storage.RecordClick(code, ev);
      recorded := err.None?;
      if recorded {
        FanOut(code, url, secret, ev);
      }
    }

    method FanOut(code: string, url: string, secret: Bytes, ev: ClickEvent)
      modifies this`published, this`enqueued
      ensures published == old(published) + [(code, ev)]
      ensures enqueued == if url != "" then old(enqueued) + [Delivery(code, url, secret, ev)] else old(enqueued)
      ensures storage.Contents() == old(storage.Contents())
    {
      hide M.URLMapping.View;
      published := published + [(code, ev)];
      if url != "" {
        enqueued := enqueued + [Delivery(code, url, secret, ev)];
      }
      storage.AllKept();
    }

    /** `meanwhile` is what other requests do to the store between Get and RecordClick. */
    method ServeHTTP(code: string, env: Env, meanwhile: seq<S.Op>) returns (status: int, location: string)
      requires storage.Valid()
      requires forall n :: n > 0 ==> 0 <= env.rng(n) < n
      requires code in storage.urls ==> Picker.PositiveWeights(storage.urls[code].m.View().destinations)
      modifies this`published, this`enqueued, storage, storage.urls.Values
      ensures storage.Valid()
      ensures Answers(old(Effects()), code, env, meanwhile, status, location, Effects())
    {
      hide M.URLMapping.View;
      location := "";
      var got := storage.Get(code, env.now);
      if got.Err? {
        status := if got.error == S.NotFound then 404 else 410;
        return;
      }
      var decision := Check(got.value, env);
      if decision.Refuse? {
        status := decision.status;
        return;
      }
      RecordServed(code, got.value, decision.ev, meanwhile);
      status, location := 302, decision.target;
    }

    /** The rest of a served request; the webhook is the snapshot's, however old. */
    method RecordServed(code: string, m: M.URLMapping, ev: ClickEvent, meanwhile: seq<S.Op>)
      requires storage.Valid()
      modifies this`published, this`enqueued, storage, storage.urls.Values
      ensures storage.Valid()
      ensures Effects() == Recorded(old(Effects()), meanwhile, code, old(m.View()), ev)
    {
      hide M.URLMapping.View;
      M.Interfere(storage, meanwhile);
      M.ViewKept(m);
      WebhookOf(m);
      var recorded := RecordAndPublish(code, m.webhookUrl, m.webhookSecret.v, ev);
    }

    lemma WebhookOf(m: M.URLMapping)
      ensures m.View().webhookUrl == m.webhookUrl && m.View().webhookSecret == m.webhookSecret.v
    {
    }
  }

  datatype Visible = Visible(store: S.State, published: seq<(string, ClickEvent)>, enqueued: seq<Delivery>)

  /** One click recorded, published once, and queued once if there is a webhook. */
  function Clicked(v: Visible, code: string, url: string, secret: Bytes, ev: ClickEvent): Visible {
    Visible(S.RecordClick(v.store, code, ev), v.published + [(code, ev)],
            v.enqueued + if url == "" then [] else [Delivery(code, url, secret, ev)])
  }

  /** After other requests have run: one click if the mapping is still there, else nothing. */
  function Recorded(v: Visible, meanwhile: seq<S.Op>, code: string, row: Row, ev: ClickEvent): Visible {
    var later := v.(store := S.Run(v.store, meanwhile));
    if code in later.store.urls then Clicked(later, code, row.webhookUrl, row.webhookSecret, ev) else later
  }

  /** A served request leads to the decided target, and is one click exactly if the mapping is still
      stored by then; a refused one changes nothing. */
  ghost predicate Answers(
      before: Visible, code: string, env: Env, meanwhile: seq<S.Op>, status: int, location: string, after: Visible)
  {
    match S.Get(before.store, code, env.now)
    case Err(e) => status == (if e == S.NotFound then 404 else 410) && after == before
    case Ok(row) =>
      match Decide(row, env)
      case Refuse(st) => status == st && after == before
      case Serve(target, ev) =>
        status == 302 && location == target && after == Recorded(before, meanwhile, code, row, ev)
  }

  // ---------- what an answer means ----------

  /** The target of a draw: the mapping's own URL, or the pool entry whose slice of the cumulated
      weights the draw lies in. */
  ghost predicate Chosen(row: Row, draw: int, location: string) {
    if row.destinations == [] then location == row.originalUrl
    else exists i :: 0 <= i < |row.destinations| && location == row.destinations[i].url
           && Picker.WeightBefore(row.destinations, i) <= draw < Picker.WeightBefore(row.destinations, i + 1)
  }

  /** The draw of a request. */
  function Draw(row: Row, env: Env): int {
    env.rng(Picker.WeightBefore(row.destinations, |row.destinations|))
  }

  lemma TargetChosen(row: Row, env: Env, location: string)
    requires Picker.PositiveWeights(row.destinations)
    requires row.destinations != [] ==> 0 <= Draw(row, env) < Picker.Total(row.destinations)
    ensures Chosen(row, Draw(row, env), location) <==> location == Target(row, env)
  {
    if row.destinations != [] {
      var draw := Draw(row, env);
      var landed := Picker.Landing(row.destinations, draw, 0);
      Picker.LandingSlice(row.destinations, draw, 0, 0);
      Picker.LandingSlice(row.destinations, draw, 0, landed);
      forall i | 0 <= i < |row.destinations|
          && Picker.WeightBefore(row.destinations, i) <= draw < Picker.WeightBefore(row.destinations, i + 1)
        ensures i == landed
      {
        Picker.LandingSlice(row.destinations, draw, 0, i);
      }
    }
  }

  /** The passphrase gate is open. */
  ghost predicate Unlocked(row: Row, env: Env) {
    row.passwordHash == []
      || (&& env.request.Post? && env.request.form.Some? && row.passwordSalt != []
          && env.kdf(env.request.form.value, row.passwordSalt) == Some(row.passwordHash))
  }

  ghost predicate Reachable(location: string, env: Env) {
    env.parses(location) ==> !env.denied(location) && !env.blocked(location)
  }

  ghost predicate Live(row: Row, now: Time) {
    row.expiresAt.Some? ==> now <= row.expiresAt.value
  }

  ghost predicate HasRoom(row: Row) {
    row.maxClicks <= 0 || row.clickCount < row.maxClicks
  }

  /** Everything that must hold for a redirect to this location. */
  ghost predicate Granted(before: Visible, code: string, env: Env, location: string) {
    && code in before.store.urls
    && var row := before.store.urls[code];
    Live(row, env.now) && HasRoom(row) && Unlocked(row, env)
      && Chosen(row, Draw(row, env), location) && Reachable(location, env)
  }

  /** Draws stay in range and stored pools have positive weights. */
  ghost predicate Sound(before: Visible, code: string, env: Env) {
    && (forall n :: n > 0 ==> 0 <= env.rng(n) < n)
    && (code in before.store.urls ==> Picker.PositiveWeights(before.store.urls[code].destinations))
  }

  lemma DrawInRange(row: Row, env: Env)
    requires Picker.PositiveWeights(row.destinations) && forall n :: n > 0 ==> 0 <= env.rng(n) < n
    ensures row.destinations != [] ==> 0 <= Draw(row, env) < Picker.Total(row.destinations)
  {
    Picker.WeightsGrow(row.destinations, 0, |row.destinations|);
  }

  /** A request is redirected exactly if the mapping is stored and live, has room under its cap, is
      unlocked, and its target is reachable; and then to that target. */
  lemma RedirectedIff(
      before: Visible, code: string, env: Env, meanwhile: seq<S.Op>, status: int, location: string, after: Visible)
    requires Sound(before, code, env) && Answers(before, code, env, meanwhile, status, location, after)
    ensures status == 302 <==> exists target :: Granted(before, code, env, target)
    ensures status == 302 ==> Granted(before, code, env, location)
  {
    if code in before.store.urls {
      var row := before.store.urls[code];
      DrawInRange(row, env);
      forall target ensures Chosen(row, Draw(row, env), target) <==> target == Target(row, env) {
        TargetChosen(row, env, target);
      }
      assert Granted(before, code, env, Target(row, env)) <==> S.Get(before.store, code, env.now).Ok? && Decide(row, env).Serve?;
    }
  }

  /** Which refusal each request gets, the first reason deciding; a refusal changes nothing. */
  lemma RefusedWith(
      before: Visible, code: string, env: Env, meanwhile: seq<S.Op>, status: int, location: string, after: Visible)
    requires Answers(before, code, env, meanwhile, status, location, after) && status != 302
    ensures after == before
    ensures code !in before.store.urls ==> status == 404
    ensures code in before.store.urls ==>
      var row := before.store.urls[code];
      if !Live(row, env.now) || !HasRoom(row) then status == 410
      else if !Unlocked(row, env) then
        status == (match env.request case Get => 200 case OtherMethod => 405
                   case Post(form) => if form.None? then 400 else 401)
      else status == 451
  {
  }

  /** What a redirect leaves behind: if the mapping is still stored after what came in between, one
      more click, its time and its log entry, one published event, and one webhook job if the
      snapshot has a webhook; else nothing of its own. The event names the target of a pool. */
  lemma RedirectEffects(
      before: Visible, code: string, env: Env, meanwhile: seq<S.Op>, status: int, location: string, after: Visible)
    requires Answers(before, code, env, meanwhile, status, location, after) && status == 302
    requires code in before.store.urls
    ensures var row, base := before.store.urls[code], S.Run(before.store, meanwhile);
      var ev := env.ev.(destinationUrl := if row.destinations == [] then "" else location);
      if code in base.urls then
        && code in after.store.urls
        && after.store.urls[code].clickCount == base.urls[code].clickCount + 1
        && after.store.urls[code].lastAccessed == Some(env.ev.at)
        && S.EventsOf(after.store, code) != []
        && S.EventsOf(after.store, code)[|S.EventsOf(after.store, code)| - 1] == ev
        && after.published == before.published + [(code, ev)]
        && after.enqueued == before.enqueued
             + (if row.webhookUrl == "" then [] else [Delivery(code, row.webhookUrl, row.webhookSecret, ev)])
      else after == Visible(base, before.published, before.enqueued)
  {
  }
}
