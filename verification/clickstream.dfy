/** The in-process fan-out of click events to open subscriptions. */
module ClickStream {
  import opened Models

  const BUFFER := 8

  /** A buffered Go channel; sending on a closed one, or closing it twice, panics. */
  datatype Chan = Chan(buf: seq<ClickEvent>, open: bool)

  datatype Sub = Sub(code: string, ch: Chan, closed: bool)

  type Registry<T> = map<string, set<T>>

  // ---------- the steps, each under one lock ----------

  function SubsOf<T>(r: Registry<T>, code: string): set<T> {
    if code in r then r[code] else {}
  }

  function Register<T>(r: Registry<T>, code: string, sub: T): Registry<T> {
    r[code := SubsOf(r, code) + {sub}]
  }

  function Unregister<T(==)>(r: Registry<T>, code: string, sub: T): Registry<T> {
    if code !in r then r
    else if r[code] - {sub} == {} then r - {code}
    else r[code := r[code] - {sub}]
  }

  datatype Outcome = Sent | Full | Gone | Panic

  /** The non-blocking send of trySend. */
  function Try(s: Sub): Outcome {
    if s.closed then Gone
    else if !s.ch.open then Panic
    else if |s.ch.buf| >= BUFFER then Full
    else Sent
  }

  function TrySend(s: Sub, ev: ClickEvent): Sub {
    if Try(s) == Sent then s.(ch := s.ch.(buf := s.ch.buf + [ev])) else s
  }

  function MarkClosed(s: Sub): Sub {
    if s.closed then s else s.(closed := true, ch := s.ch.(open := false))
  }

  // ---------- the objects ----------

  class Channel {
    var buf: seq<ClickEvent>
    var open: bool

    constructor ()
      ensures buf == [] && open
    {
      buf, open := [], true;
    }

    /** `select { case ch <- ev: default: }` on a channel of capacity BUFFER. */
    method Offer(ev: ClickEvent)
      requires open
      modifies this
      ensures open && buf == if |old(buf)| < BUFFER then old(buf) + [ev] else old(buf)
    {
      if |buf| < BUFFER {
        buf := buf + [ev];
      }
    }

    method Close()
      requires open
      modifies this
      ensures !open && buf == old(buf)
    {
      open := false;
    }
  }

  class Subscription {
    const code: string
    const ch: Channel
    var closed: bool

    constructor (code: string)
      ensures fresh(ch) && Valid() && View() == Sub(code, Chan([], true), false)
    {
      this.code := code;
      ch := new Channel();
      closed := false;
    }

    ghost predicate Valid()
      reads this, ch
    {
      closed <==> !ch.open
    }

    function View(): Sub
      reads this, ch
    {
      Sub(code, Chan(ch.buf, ch.open), closed)
    }

    method Deliver(ev: ClickEvent)
      requires Valid()
      modifies ch
      ensures Valid() && View() == TrySend(old(View()), ev)
    {
      if closed {
        return;
      }
      ch.Offer(ev);
    }

    /** The locked half of Close; the caller that gets `first` goes on to unsubscribe. */
    method CloseOnce() returns (first: bool)
      requires Valid()
      modifies this, ch
      ensures Valid() && View() == MarkClosed(old(View()))
      ensures first == !old(closed)
    {
      if closed {
        return false;
      }
      closed := true;
      ch.Close();
      return true;
    }
  }

  class Stream {
    var subs: Registry<Subscription>

    constructor ()
      ensures subs == map[]
    {
      subs := map[];
    }

    method Subscribe(code: string) returns (sub: Subscription)
      modifies this
      ensures fresh(sub) && fresh(sub.ch) && sub.Valid() && sub.View() == Sub(code, Chan([], true), false)
      ensures subs == Register(old(subs), code, sub)
    {
      sub := new Subscription(code);
      if code !in subs {
        subs := subs[code := {}];
      }
      subs := subs[code := subs[code] + {sub}];
    }

    method Unsubscribe(sub: Subscription)
      modifies this
      ensures subs == Unregister(old(subs), sub.code, sub)
    {
      if sub.code in subs {
        subs := subs[sub.code := subs[sub.code] - {sub}];
        if subs[sub.code] == {} {
          subs := subs - {sub.code};
        }
      }
    }

    method Close(sub: Subscription)
      requires sub.Valid()
      modifies this, sub, sub.ch
      ensures sub.Valid() && sub.View() == MarkClosed(old(sub.View()))
      ensures subs == if old(sub.closed) then old(subs) else Unregister(old(subs), sub.code, sub)
    {
      var first := sub.CloseOnce();
      if first {
        Unsubscribe(sub);
      }
    }

    /** A publish that nothing interleaves with offers the event to each subscriber once. */
    method Publish(code: string, ev: ClickEvent)
      requires forall s :: s in SubsOf(subs, code) ==> s.Valid()
      requires forall s, t :: s in SubsOf(subs, code) && t in SubsOf(subs, code) && s.ch == t.ch ==> s == t
      modifies set s | s in SubsOf(subs, code) :: s.ch
      ensures forall s :: s in SubsOf(subs, code) ==> s.Valid() && s.View() == TrySend(old(s.View()), ev)
    {
      var todo := SubsOf(subs, code);
      while todo != {}
        invariant todo <= SubsOf(subs, code)
        invariant forall s :: s in todo ==> s.Valid() && s.View() == old(s.View())
        invariant forall s :: s in SubsOf(subs, code) - todo ==> s.Valid() && s.View() == TrySend(old(s.View()), ev)
        decreases todo
      {
        var s :| s in todo;
        todo := todo - {s};
        s.Deliver(ev);
      }
    }
  }

  // ---------- publishers, subscribers and closers interleaving ----------

  /** A publish: what it offers, and the subscribers it saw under the read lock. */
  datatype Publication = Publication(code: string, ev: ClickEvent, snapshot: set<nat>)

  datatype Attempt = Attempt(pub: nat, sub: nat, ev: ClickEvent, outcome: Outcome)

  /** `closing` holds the subscriptions between the two halves of Close, `todo` the sends a
      publish still has to do; `attempts` and `received` are history. */
  datatype Sys = Sys(
    registry: Registry<nat>,
    subs: map<nat, Sub>,
    closing: set<nat>,
    pubs: map<nat, Publication>,
    todo: map<nat, set<nat>>,
    attempts: seq<Attempt>,
    received: map<nat, seq<ClickEvent>>,
    doubleClose: bool)

  const START := Sys(map[], map[], {}, map[], map[], [], map[], false)

  datatype Action =
    | Subscribe(id: nat, code: string)
    | Snapshot(pub: nat, code: string, ev: ClickEvent)
    | Send(pub: nat, sub: nat)
    | CloseFirst(sub: nat)
    | CloseSecond(sub: nat)
    | Receive(sub: nat)

  /** An action that is not enabled does nothing. */
  predicate Enabled(sys: Sys, a: Action) {
    match a
    case Subscribe(id, _) => id !in sys.subs
    case Snapshot(pub, _, _) => pub !in sys.pubs
    case Send(pub, sub) => pub in sys.pubs && pub in sys.todo && sub in sys.todo[pub] && sub in sys.subs
    case CloseFirst(sub) => sub in sys.subs
    case CloseSecond(sub) => sub in sys.closing && sub in sys.subs
    case Receive(sub) => sub in sys.subs && sub in sys.received && sys.subs[sub].ch.buf != []
  }

  function Next(sys: Sys, a: Action): Sys {
    if !Enabled(sys, a) then sys else
    match a
    case Subscribe(id, code) =>
      sys.(subs := sys.subs[id := Sub(code, Chan([], true), false)], received := sys.received[id := []],
           registry := Register(sys.registry, code, id))
    case Snapshot(pub, code, ev) =>
      var seen := SubsOf(sys.registry, code);
      sys.(pubs := sys.pubs[pub := Publication(code, ev, seen)], todo := sys.todo[pub := seen])
    case Send(pub, sub) =>
      var ev, s := sys.pubs[pub].ev, sys.subs[sub];
      sys.(subs := sys.subs[sub := TrySend(s, ev)],
           todo := sys.todo[pub := sys.todo[pub] - {sub}],
           attempts := sys.attempts + [Attempt(pub, sub, ev, Try(s))])
    case CloseFirst(sub) =>
      var s := sys.subs[sub];
      if s.closed then sys
      else sys.(subs := sys.subs[sub := MarkClosed(s)], closing := sys.closing + {sub},
                doubleClose := sys.doubleClose || !s.ch.open)
    case CloseSecond(sub) =>
      sys.(registry := Unregister(sys.registry, sys.subs[sub].code, sub), closing := sys.closing - {sub})
    case Receive(sub) =>
      var s := sys.subs[sub];
      sys.(subs := sys.subs[sub := s.(ch := s.ch.(buf := s.ch.buf[1..]))],
           received := sys.received[sub := sys.received[sub] + [s.ch.buf[0]]])
  }

  function Run(actions: seq<Action>): Sys {
    if actions == [] then START else Next(Run(actions[..|actions| - 1]), actions[|actions| - 1])
  }

  /** The events sent to a subscription, in send order. */
  function SentTo(attempts: seq<Attempt>, sub: nat): seq<ClickEvent> {
    if attempts == [] then []
    else
      var before, a := SentTo(attempts[..|attempts| - 1], sub), attempts[|attempts| - 1];
      if a.sub == sub && a.outcome == Sent then before + [a.ev] else before
  }

  // ---------- invariants ----------

  /** Registered while open, and while closing until the second half of Close. */
  ghost predicate RegistryInv(sys: Sys) {
    && (forall code :: code in sys.registry ==> sys.registry[code] != {})
    && (forall code, id :: id in SubsOf(sys.registry, code) <==>
          id in sys.subs && sys.subs[id].code == code && (!sys.subs[id].closed || id in sys.closing))
    && (forall id :: id in sys.closing ==> id in sys.subs && sys.subs[id].closed)
  }

  ghost predicate SubInv(s: Sub) {
    && (s.closed <==> !s.ch.open)
    && |s.ch.buf| <= BUFFER
  }

  ghost predicate ChannelsInv(sys: Sys) {
    && !sys.doubleClose
    && sys.subs.Keys == sys.received.Keys
    && (forall id :: id in sys.subs ==>
          SubInv(sys.subs[id]) && sys.received[id] + sys.subs[id].ch.buf == SentTo(sys.attempts, id))
    && (forall i :: 0 <= i < |sys.attempts| ==> sys.attempts[i].outcome != Panic && sys.attempts[i].sub in sys.subs)
  }

  /** The attempts of a publish. */
  ghost function Tried(attempts: seq<Attempt>, pub: nat): set<nat> {
    set i | 0 <= i < |attempts| && attempts[i].pub == pub :: attempts[i].sub
  }

  /** Each publish offers its own event, to each subscriber it saw, once. */
  ghost predicate PublishInv(sys: Sys) {
    && sys.pubs.Keys == sys.todo.Keys
    && (forall i :: 0 <= i < |sys.attempts| ==>
          var a := sys.attempts[i];
          a.pub in sys.pubs && a.sub in sys.pubs[a.pub].snapshot && a.ev == sys.pubs[a.pub].ev)
    && (forall p, s :: p in sys.pubs && s in sys.pubs[p].snapshot ==> s in sys.subs && sys.subs[s].code == sys.pubs[p].code)
    && (forall p :: p in sys.pubs ==>
          && sys.todo[p] !! Tried(sys.attempts, p)
          && sys.pubs[p].snapshot == sys.todo[p] + Tried(sys.attempts, p))
    && (forall i, k :: 0 <= i < k < |sys.attempts| ==>
          sys.attempts[i].pub != sys.attempts[k].pub || sys.attempts[i].sub != sys.attempts[k].sub)
  }

  ghost predicate Inv(sys: Sys) {
    RegistryInv(sys) && ChannelsInv(sys) && PublishInv(sys)
  }

  lemma RegistryChanges(r: Registry<nat>, code: string, id: nat)
    ensures forall c, x :: x in SubsOf(Register(r, code, id), c) <==> x in SubsOf(r, c) || (c == code && x == id)
    ensures forall c, x :: x in SubsOf(Unregister(r, code, id), c) <==> x in SubsOf(r, c) && !(c == code && x == id)
  {
    var left := SubsOf(r, code) - {id};
    assert forall x :: x in left <==> x in SubsOf(r, code) && x != id;
  }

  lemma NextKeepsRegistry(sys: Sys, a: Action)
    requires RegistryInv(sys)
    ensures RegistryInv(Next(sys, a))
  {
    if Enabled(sys, a) {
      match a
      case Subscribe(id, code) => RegistryChanges(sys.registry, code, id);
      case CloseSecond(sub) => RegistryChanges(sys.registry, sys.subs[sub].code, sub);
      case _ => assert Next(sys, a).registry == sys.registry;
    }
  }

  lemma {:induction false} NothingSentYet(attempts: seq<Attempt>, sub: nat)
    requires forall i :: 0 <= i < |attempts| ==> attempts[i].sub != sub
    ensures SentTo(attempts, sub) == []
  {
    if attempts != [] {
      NothingSentYet(attempts[..|attempts| - 1], sub);
    }
  }

  lemma SendKeepsChannels(sys: Sys, a: Action)
    requires ChannelsInv(sys) && a.Send? && Enabled(sys, a)
    ensures ChannelsInv(Next(sys, a))
  {
    var after := Next(sys, a);
    assert after.attempts[..|after.attempts| - 1] == sys.attempts;
    forall id | id in after.subs
      ensures SubInv(after.subs[id]) && after.received[id] + after.subs[id].ch.buf == SentTo(after.attempts, id)
    {
      assert SubInv(sys.subs[id]);
    }
  }

  lemma SubscribeKeepsChannels(sys: Sys, a: Action)
    requires ChannelsInv(sys) && a.Subscribe? && Enabled(sys, a)
    ensures ChannelsInv(Next(sys, a))
  {
    NothingSentYet(sys.attempts, a.id);
  }

  lemma CloseKeepsChannels(sys: Sys, a: Action)
    requires ChannelsInv(sys) && (a.CloseFirst? || a.CloseSecond?) && Enabled(sys, a)
    ensures ChannelsInv(Next(sys, a))
  {
  }

  lemma ReceiveKeepsChannels(sys: Sys, a: Action)
    requires ChannelsInv(sys) && a.Receive? && Enabled(sys, a)
    ensures ChannelsInv(Next(sys, a))
  {
    var s := sys.subs[a.sub];
    assert sys.received[a.sub] + [s.ch.buf[0]] + s.ch.buf[1..] == sys.received[a.sub] + s.ch.buf;
  }

  lemma NextKeepsChannels(sys: Sys, a: Action)
    requires ChannelsInv(sys)
    ensures ChannelsInv(Next(sys, a))
  {
    if Enabled(sys, a) {
      match a
      case Subscribe(_, _) => SubscribeKeepsChannels(sys, a);
      case Snapshot(_, _, _) =>
      case Send(_, _) => SendKeepsChannels(sys, a);
      case Receive(_) => ReceiveKeepsChannels(sys, a);
      case _ => CloseKeepsChannels(sys, a);
    }
  }

  /** A send moves one subscriber from `todo` to the attempts. */
  lemma SendTries(sys: Sys, a: Action)
    requires PublishInv(sys) && a.Send? && Enabled(sys, a)
    ensures forall p :: Tried(Next(sys, a).attempts, p) == Tried(sys.attempts, p) + if p == a.pub then {a.sub} else {}
    ensures forall i :: 0 <= i < |sys.attempts| && sys.attempts[i].pub == a.pub ==> sys.attempts[i].sub != a.sub
  {
    forall p ensures Tried(Next(sys, a).attempts, p) == Tried(sys.attempts, p) + if p == a.pub then {a.sub} else {} {
      TriedGrows(sys.attempts, Next(sys, a).attempts[|sys.attempts|], p);
    }
    forall i | 0 <= i < |sys.attempts| && sys.attempts[i].pub == a.pub ensures sys.attempts[i].sub != a.sub {
      assert sys.attempts[i].sub in Tried(sys.attempts, a.pub);
    }
  }

  lemma SendKeepsPublish(sys: Sys, a: Action)
    requires PublishInv(sys) && a.Send? && Enabled(sys, a)
    ensures PublishInv(Next(sys, a))
  {
    hide Tried, Try, TrySend;
    SendTries(sys, a);
    assert Next(sys, a).subs.Keys == sys.subs.Keys;
    SendKeepsCodes(sys, a);
  }

  lemma SendKeepsCodes(sys: Sys, a: Action)
    requires a.Send? && Enabled(sys, a)
    ensures forall id :: id in sys.subs ==> id in Next(sys, a).subs && Next(sys, a).subs[id].code == sys.subs[id].code
  {
  }

  lemma SnapshotKeepsPublish(sys: Sys, a: Action)
    requires PublishInv(sys) && RegistryInv(sys) && a.Snapshot? && Enabled(sys, a)
    ensures PublishInv(Next(sys, a))
  {
    assert Tried(sys.attempts, a.pub) == {};
  }

  lemma PublishKept(sys: Sys, after: Sys)
    requires PublishInv(sys)
    requires after.attempts == sys.attempts && after.pubs == sys.pubs && after.todo == sys.todo
    requires forall id :: id in sys.subs ==> id in after.subs && after.subs[id].code == sys.subs[id].code
    ensures PublishInv(after)
  {
    forall p, s | p in after.pubs && s in after.pubs[p].snapshot
      ensures s in after.subs && after.subs[s].code == after.pubs[p].code
    {
      assert p in sys.pubs && s in sys.pubs[p].snapshot;
    }
  }

  lemma NextKeepsPublish(sys: Sys, a: Action)
    requires PublishInv(sys) && RegistryInv(sys)
    ensures PublishInv(Next(sys, a))
  {
    if Enabled(sys, a) {
      match a
      case Send(_, _) => SendKeepsPublish(sys, a);
      case Snapshot(_, _, _) => SnapshotKeepsPublish(sys, a);
      case _ => PublishKept(sys, Next(sys, a));
    }
  }

  lemma TriedGrows(attempts: seq<Attempt>, a: Attempt, pub: nat)
    ensures Tried(attempts + [a], pub) == Tried(attempts, pub) + if a.pub == pub then {a.sub} else {}
  {
    var longer := attempts + [a];
    assert longer[|attempts|] == a;
    forall s | s in Tried(attempts, pub) ensures s in Tried(longer, pub) {
      var i :| 0 <= i < |attempts| && attempts[i].pub == pub && attempts[i].sub == s;
      assert longer[i] == attempts[i];
    }
  }

  lemma {:induction false} RunKeepsInv(actions: seq<Action>)
    ensures Inv(Run(actions))
  {
    if actions != [] {
      var before, a := actions[..|actions| - 1], actions[|actions| - 1];
      RunKeepsInv(before);
      NextKeepsRegistry(Run(before), a);
      NextKeepsChannels(Run(before), a);
      NextKeepsPublish(Run(before), a);
    }
  }

  /** However publishers, receivers and closers interleave: no send hits a closed channel and
      no channel is closed twice; buffers stay within their capacity; what a subscriber got,
      and is about to get, is exactly what was sent to it, in send order; every open
      subscription is registered under its code and no empty set is left behind. */
  lemma StreamSafe(actions: seq<Action>)
    ensures var sys := Run(actions);
      && !sys.doubleClose
      && (forall i :: 0 <= i < |sys.attempts| ==> sys.attempts[i].outcome != Panic)
      && (forall id :: id in sys.subs ==>
            && id in sys.received
            && |sys.subs[id].ch.buf| <= 8
            && sys.received[id] + sys.subs[id].ch.buf == SentTo(sys.attempts, id)
            && (!sys.subs[id].closed ==> id in SubsOf(sys.registry, sys.subs[id].code)))
      && (forall code :: code in sys.registry ==> sys.registry[code] != {})
  {
    RunKeepsInv(actions);
  }

  /** Every attempt offers the event of a publish to that publish's own code, never twice to
      one subscriber; and a publish that is done has tried everyone it saw. */
  lemma EachOfferedOnce(actions: seq<Action>)
    ensures var sys := Run(actions);
      && (forall i :: 0 <= i < |sys.attempts| ==>
            var a := sys.attempts[i];
            && a.pub in sys.pubs && a.sub in sys.subs
            && a.ev == sys.pubs[a.pub].ev && sys.subs[a.sub].code == sys.pubs[a.pub].code)
      && (forall i, k :: 0 <= i < k < |sys.attempts| ==>
            sys.attempts[i].pub != sys.attempts[k].pub || sys.attempts[i].sub != sys.attempts[k].sub)
      && (forall p :: p in sys.pubs && p in sys.todo && sys.todo[p] == {} ==>
            sys.pubs[p].snapshot == Tried(sys.attempts, p))
  {
    RunKeepsInv(actions);
  }

  /** The send order of one subscriber is a subsequence of the attempts on it: events are lost
      only to a full buffer or a closed subscription. */
  lemma LossesExplained(sys: Sys, pub: nat, sub: nat)
    requires Inv(sys) && Enabled(sys, Send(pub, sub))
    ensures var after := Next(sys, Send(pub, sub));
      SentTo(after.attempts, sub) != SentTo(sys.attempts, sub) + [sys.pubs[pub].ev] <==>
        sys.subs[sub].closed || |sys.subs[sub].ch.buf| == BUFFER
  {
    var after := Next(sys, Send(pub, sub));
    assert after.attempts[..|after.attempts| - 1] == sys.attempts;
  }

  // ---------- every step does its part, and a publish reaches everyone ----------

  /** A subscription counts for a publish while it is open, and between the two halves of Close. */
  ghost predicate Reached(sys: Sys, id: nat, code: string) {
    id in sys.subs && sys.subs[id].code == code && (!sys.subs[id].closed || id in sys.closing)
  }

  /** A new subscription starts open, empty and registered under its code. */
  lemma SubscribeRegisters(sys: Sys, id: nat, code: string)
    requires id !in sys.subs
    ensures var after := Next(sys, Subscribe(id, code));
      && id in after.subs && after.subs[id] == Sub(code, Chan([], true), false)
      && id in SubsOf(after.registry, code) && id in after.received && after.received[id] == []
  {
  }

  /** The first half of Close closes the channel and keeps what is in it; the second deregisters. */
  lemma CloseCloses(actions: seq<Action>, id: nat)
    requires id in Run(actions).subs
    ensures var sys := Run(actions);
      var after := Next(sys, CloseFirst(id));
      && after.subs[id].closed && !after.subs[id].ch.open && after.subs[id].ch.buf == sys.subs[id].ch.buf
      && (id in sys.closing ==> id !in SubsOf(Next(sys, CloseSecond(id)).registry, sys.subs[id].code))
  {
    RunKeepsInv(actions);
    RegistryChanges(Run(actions).registry, Run(actions).subs[id].code, id);
  }

  /** A receive takes the oldest buffered event, from a closed channel too. */
  lemma ReceiveTakes(sys: Sys, id: nat)
    requires id in sys.subs && id in sys.received && sys.subs[id].ch.buf != []
    ensures var after, buf := Next(sys, Receive(id)), sys.subs[id].ch.buf;
      after.received[id] == sys.received[id] + [buf[0]] && after.subs[id].ch.buf == buf[1..]
  {
  }

  /** A publish sees exactly the subscriptions of its code that count at that step. */
  lemma SnapshotSees(actions: seq<Action>, pub: nat, code: string, ev: ClickEvent, id: nat)
    requires pub !in Run(actions).pubs
    ensures var after := Next(Run(actions), Snapshot(pub, code, ev));
      && pub in after.pubs && after.pubs[pub].code == code && after.pubs[pub].ev == ev
      && (id in after.pubs[pub].snapshot <==> Reached(Run(actions), id, code))
  {
    RunKeepsInv(actions);
  }

  lemma StepKeepsPublication(sys: Sys, a: Action, pub: nat)
    requires pub in sys.pubs
    ensures pub in Next(sys, a).pubs && Next(sys, a).pubs[pub] == sys.pubs[pub]
  {
  }

  lemma {:induction false} PublicationKept(actions: seq<Action>, more: seq<Action>, pub: nat)
    requires pub in Run(actions).pubs
    ensures pub in Run(actions + more).pubs && Run(actions + more).pubs[pub] == Run(actions).pubs[pub]
  {
    hide Next;
    if more == [] {
      assert actions + more == actions;
    } else {
      var before := more[..|more| - 1];
      PublicationKept(actions, before, pub);
      assert (actions + more)[..|actions + more| - 1] == actions + before;
      StepKeepsPublication(Run(actions + before), more[|more| - 1], pub);
    }
  }

  /** The attempt of a publish on a subscriber. */
  ghost predicate IsAttempt(attempts: seq<Attempt>, i: nat, pub: nat, sub: nat) {
    i < |attempts| && attempts[i].pub == pub && attempts[i].sub == sub
  }

  /** In every run: once a publish is done, each subscription of its code that was open when it took
      its snapshot has had exactly one attempt, with the publish's event. */
  lemma EveryoneOffered(
      actions: seq<Action>, pub: nat, code: string, ev: ClickEvent, more: seq<Action>, id: nat) returns (i: nat)
    requires pub !in Run(actions).pubs
    requires id in Run(actions).subs && Run(actions).subs[id].code == code && !Run(actions).subs[id].closed
    requires var end := Run(actions + [Snapshot(pub, code, ev)] + more); pub in end.todo && end.todo[pub] == {}
    ensures var end := Run(actions + [Snapshot(pub, code, ev)] + more);
      && IsAttempt(end.attempts, i, pub, id) && end.attempts[i].ev == ev
      && forall k :: IsAttempt(end.attempts, k, pub, id) ==> k == i
  {
    var taken := actions + [Snapshot(pub, code, ev)];
    assert taken[..|taken| - 1] == actions;
    SnapshotSees(actions, pub, code, ev, id);
    PublicationKept(taken, more, pub);
    EachOfferedOnce(taken + more);
    var end := Run(taken + more);
    assert id in Tried(end.attempts, pub);
    i :| 0 <= i < |end.attempts| && end.attempts[i].pub == pub && end.attempts[i].sub == id;
  }

  /** A step adds at most one attempt, and then explains it. */
  lemma StepExplains(sys: Sys, a: Action)
    ensures var after := Next(sys, a).attempts;
      after == sys.attempts
      || (|after| == |sys.attempts| + 1 && after[..|sys.attempts|] == sys.attempts
          && Explains(sys, a, after[|sys.attempts|]))
  {
  }

  /** An attempt delivers unless the subscription was closed or its buffer full at that moment. */
  lemma {:induction false} AttemptExplained(actions: seq<Action>, i: nat) returns (k: nat)
    requires i < |Run(actions).attempts|
    ensures k < |actions| && Explains(Run(actions[..k]), actions[k], Run(actions).attempts[i])
  {
    hide Next, Explains;
    var before, a := actions[..|actions| - 1], actions[|actions| - 1];
    StepExplains(Run(before), a);
    if i < |Run(before).attempts| {
      k := AttemptExplained(before, i);
      assert actions[..k] == before[..k];
      assert Run(actions).attempts[..|Run(before).attempts|][i] == Run(before).attempts[i];
    } else {
      k := |before|;
    }
  }

  /** The step that made an attempt, with what it found. */
  ghost predicate Explains(sys: Sys, a: Action, t: Attempt) {
    && a == Send(t.pub, t.sub) && t.sub in sys.subs
    && (t.outcome == Gone <==> sys.subs[t.sub].closed)
    && (t.outcome == Full <==> !sys.subs[t.sub].closed && sys.subs[t.sub].ch.open && |sys.subs[t.sub].ch.buf| >= 8)
    && (t.outcome == Sent <==> !sys.subs[t.sub].closed && sys.subs[t.sub].ch.open && |sys.subs[t.sub].ch.buf| < 8)
  }

  /** A pending send can always be made: it is one attempt, and one less to do. */
  lemma SendProceeds(actions: seq<Action>, pub: nat, sub: nat)
    requires pub in Run(actions).todo && sub in Run(actions).todo[pub]
    ensures var sys, after := Run(actions), Next(Run(actions), Send(pub, sub));
      && |after.attempts| == |sys.attempts| + 1 && IsAttempt(after.attempts, |sys.attempts|, pub, sub)
      && after.todo[pub] == sys.todo[pub] - {sub}
  {
    RunKeepsInv(actions);
    assert sub in Run(actions).pubs[pub].snapshot;
  }
}
