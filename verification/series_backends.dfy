/** The two click series of one code: memory counts its bounded list, SQL every click row of the
    stored mapping. */
module SeriesBackends {
  import opened Models
  import opened Series
  import S = StoreSpec
  import H = History

  lemma {:induction false} CountConcat(a: seq<ClickEvent>, b: seq<ClickEvent>, lo: Time, hi: Time)
    ensures Count(a + b, lo, hi) == Count(a, lo, hi) + Count(b, lo, hi)
  {
    if b == [] {
      assert a + b == a;
    } else {
      CountConcat(a, b[..|b| - 1], lo, hi);
      assert (a + b)[..|a + b| - 1] == a + b[..|b| - 1];
    }
  }

  /** Events in front of a list change its series exactly if one of them lies in the window. */
  lemma PrefixShowsIff(front: seq<ClickEvent>, log: seq<ClickEvent>, start: Time, w: Time, n: nat)
    requires w >= 0
    ensures Buckets(front + log, start, w, n) == Buckets(log, start, w, n) <==> Count(front, start, start + n * w) == 0
  {
    SumIsWindow(front + log, start, w, n);
    SumIsWindow(log, start, w, n);
    CountConcat(front, log, start, start + n * w);
    if Count(front, start, start + n * w) == 0 {
      forall i | 0 <= i < n
        ensures Count(front + log, Bucket(start, w, i), Bucket(start, w, i + 1))
             == Count(log, Bucket(start, w, i), Bucket(start, w, i + 1))
      {
        CountConcat(front, log, Bucket(start, w, i), Bucket(start, w, i + 1));
        NoneInside(front, start, w, n, i);
      }
    }
  }

  lemma NoneInside(events: seq<ClickEvent>, start: Time, w: Time, n: nat, i: nat)
    requires w >= 0 && i < n && Count(events, start, start + n * w) == 0
    ensures Count(events, Bucket(start, w, i), Bucket(start, w, i + 1)) == 0
  {
    BucketOrder(start, w, 0, i);
    BucketOrder(start, w, i, i + 1);
    BucketOrder(start, w, i + 1, n);
    CountSplits(events, start, Bucket(start, w, i), start + n * w);
    CountSplits(events, Bucket(start, w, i), Bucket(start, w, i + 1), start + n * w);
  }

  // ---------- the click_events table ----------

  type ClickRows = map<string, seq<ClickEvent>>

  /** The rows by code; `pruned` is history: what the age limit took from each stored mapping. */
  datatype Table = Table(rows: ClickRows, pruned: ClickRows)

  function RowsOf(rows: ClickRows, code: string): seq<ClickEvent> {
    if code in rows then rows[code] else []
  }

  function OlderThan(events: seq<ClickEvent>, cutoff: Time, older: bool): seq<ClickEvent> {
    if events == [] then []
    else
      var before, ev := OlderThan(events[..|events| - 1], cutoff, older), events[|events| - 1];
      if (ev.at < cutoff) == older then before + [ev] else before
  }

  /** DELETE FROM click_events WHERE clicked_at < cutoff. */
  function Prune(t: Table, cutoff: Time): Table {
    Table(map code | code in t.rows :: OlderThan(t.rows[code], cutoff, false),
          map code | code in t.rows.Keys + t.pruned.Keys ::
            RowsOf(t.pruned, code) + OlderThan(RowsOf(t.rows, code), cutoff, true))
  }

  /** The rows of a mapping go with it. */
  function Cascade(t: Table, codes: set<string>): Table {
    Table(S.Restrict(t.rows, codes), S.Restrict(t.pruned, codes))
  }

  /** The table under one operation: a click inserts a row; deletion and cleanup cascade; cleanup
      also prunes what is older than the retention time, if there is one. */
  function SqlStep(t: Table, s: S.State, op: S.Op, retention: Time): Table {
    match op
    case OpRecordClick(code, ev) =>
      if code in s.urls then t.(rows := t.rows[code := RowsOf(t.rows, code) + [ev]]) else t
    case OpDelete(_) => Cascade(t, S.Step(s, op).urls.Keys)
    case OpCleanup(now) =>
      var left := Cascade(t, S.Step(s, op).urls.Keys);
      if retention > 0 then Prune(left, now - retention) else left
    case _ => t
  }

  function SqlTable(ops: seq<S.Op>, retention: Time): Table {
    if ops == [] then Table(map[], map[])
    else
      var init := ops[..|ops| - 1];
      SqlStep(SqlTable(init, retention), H.Run(init).store, ops[|ops| - 1], retention)
  }

  /** The first list holds what the other two hold together, moment by moment. */
  ghost predicate Together(own: seq<ClickEvent>, kept: seq<ClickEvent>, pruned: seq<ClickEvent>) {
    forall lo, hi :: Count(own, lo, hi) == Count(kept, lo, hi) + Count(pruned, lo, hi)
  }

  /** The rows of a stored mapping and what was pruned from them are the clicks recorded on it since
      it was created, and only clicks older than the cutoff were pruned. */
  ghost predicate OwnClicks(table: Table, t: H.Trace, cutoff: Time) {
    && table.rows.Keys <= t.store.urls.Keys && table.pruned.Keys <= t.store.urls.Keys
    && (forall code :: code in t.store.urls ==>
          code in t.full && Together(t.full[code], RowsOf(table.rows, code), RowsOf(table.pruned, code)))
    && (forall code, i :: 0 <= i < |RowsOf(table.pruned, code)| ==> RowsOf(table.pruned, code)[i].at < cutoff)
  }

  lemma {:induction false} OlderCounts(events: seq<ClickEvent>, cutoff: Time, lo: Time, hi: Time)
    ensures Count(events, lo, hi)
      == Count(OlderThan(events, cutoff, false), lo, hi) + Count(OlderThan(events, cutoff, true), lo, hi)
  {
    if events != [] {
      var init, ev := events[..|events| - 1], events[|events| - 1];
      OlderCounts(init, cutoff, lo, hi);
      var part := OlderThan(init, cutoff, ev.at < cutoff);
      assert (part + [ev])[..|part|] == part;
    }
  }

  lemma {:induction false} OlderAreOlder(events: seq<ClickEvent>, cutoff: Time)
    ensures forall i :: 0 <= i < |OlderThan(events, cutoff, true)| ==> OlderThan(events, cutoff, true)[i].at < cutoff
  {
    if events != [] {
      OlderAreOlder(events[..|events| - 1], cutoff);
    }
  }

  lemma PruneKeepsOwnClicks(table: Table, t: H.Trace, limit: Time, cutoff: Time)
    requires OwnClicks(table, t, cutoff) && limit <= cutoff
    ensures OwnClicks(Prune(table, limit), t, cutoff)
  {
    var after := Prune(table, limit);
    forall code | code in t.store.urls
      ensures Together(t.full[code], RowsOf(after.rows, code), RowsOf(after.pruned, code))
    {
      PruneTogether(t.full[code], RowsOf(table.rows, code), RowsOf(table.pruned, code), limit);
      assert RowsOf(after.rows, code) == OlderThan(RowsOf(table.rows, code), limit, false);
      assert RowsOf(after.pruned, code) == RowsOf(table.pruned, code) + OlderThan(RowsOf(table.rows, code), limit, true);
    }
    forall code, i | 0 <= i < |RowsOf(after.pruned, code)| ensures RowsOf(after.pruned, code)[i].at < cutoff {
      OlderAreOlder(RowsOf(table.rows, code), limit);
    }
  }

  lemma PruneTogether(own: seq<ClickEvent>, rows: seq<ClickEvent>, pruned: seq<ClickEvent>, limit: Time)
    requires Together(own, rows, pruned)
    ensures Together(own, OlderThan(rows, limit, false), pruned + OlderThan(rows, limit, true))
  {
    forall lo, hi
      ensures Count(own, lo, hi)
        == Count(OlderThan(rows, limit, false), lo, hi) + Count(pruned + OlderThan(rows, limit, true), lo, hi)
    {
      OlderCounts(rows, limit, lo, hi);
      CountConcat(pruned, OlderThan(rows, limit, true), lo, hi);
    }
  }

  lemma ClickTogether(own: seq<ClickEvent>, rows: seq<ClickEvent>, pruned: seq<ClickEvent>, ev: ClickEvent)
    requires Together(own, rows, pruned)
    ensures Together(own + [ev], rows + [ev], pruned)
  {
    forall lo, hi ensures Count(own + [ev], lo, hi) == Count(rows + [ev], lo, hi) + Count(pruned, lo, hi) {
      CountConcat(own, [ev], lo, hi);
      CountConcat(rows, [ev], lo, hi);
    }
  }

  lemma ClickKeepsOwnClicks(table: Table, t: H.Trace, op: S.Op, cutoff: Time)
    requires OwnClicks(table, t, cutoff) && op.OpRecordClick?
    ensures OwnClicks(SqlStep(table, t.store, op, 0), H.Next(t, op), cutoff)
  {
    hide Together;
    if op.code in t.store.urls {
      ClickTogether(t.full[op.code], RowsOf(table.rows, op.code), RowsOf(table.pruned, op.code), op.ev);
    }
  }

  lemma SetKeepsOwnClicks(table: Table, t: H.Trace, op: S.Op, cutoff: Time)
    requires OwnClicks(table, t, cutoff) && op.OpSet?
    ensures OwnClicks(table, H.Next(t, op), cutoff)
  {
  }

  lemma CascadeFits(table: Table, t: H.Trace, u: H.Trace, cutoff: Time)
    requires OwnClicks(table, t, cutoff) && u.full == t.full && u.store.urls.Keys <= t.store.urls.Keys
    ensures OwnClicks(Cascade(table, u.store.urls.Keys), u, cutoff)
  {
    hide Together;
    var after := Cascade(table, u.store.urls.Keys);
    assert forall code :: code in u.store.urls ==>
      RowsOf(after.rows, code) == RowsOf(table.rows, code) && RowsOf(after.pruned, code) == RowsOf(table.pruned, code);
  }

  lemma CascadeKeepsOwnClicks(table: Table, t: H.Trace, op: S.Op, cutoff: Time)
    requires OwnClicks(table, t, cutoff) && (op.OpDelete? || op.OpCleanup?)
    ensures OwnClicks(Cascade(table, S.Step(t.store, op).urls.Keys), H.Next(t, op), cutoff)
  {
    hide OwnClicks, Cascade;
    assert S.Step(t.store, op).urls.Keys <= t.store.urls.Keys;
    CascadeFits(table, t, H.Next(t, op), cutoff);
  }

  lemma OtherKeepsOwnClicks(table: Table, t: H.Trace, op: S.Op, cutoff: Time)
    requires OwnClicks(table, t, cutoff)
    requires !op.OpSet? && !op.OpRecordClick? && !op.OpDelete? && !op.OpCleanup?
    ensures OwnClicks(table, H.Next(t, op), cutoff)
  {
    hide Together;
    assert S.Step(t.store, op).urls.Keys == t.store.urls.Keys;
    assert H.Next(t, op).full == t.full;
  }

  /** No cleanup of the run prunes past the cutoff. */
  ghost predicate Cutoff(ops: seq<S.Op>, retention: Time, cutoff: Time) {
    retention > 0 ==> forall i :: 0 <= i < |ops| && ops[i].OpCleanup? ==> ops[i].now - retention <= cutoff
  }

  lemma {:induction false} SqlKeepsOwnClicks(ops: seq<S.Op>, retention: Time, cutoff: Time)
    requires Cutoff(ops, retention, cutoff)
    ensures OwnClicks(SqlTable(ops, retention), H.Run(ops), cutoff)
  {
    if ops != [] {
      var init, op := ops[..|ops| - 1], ops[|ops| - 1];
      SqlKeepsOwnClicks(init, retention, cutoff);
      StepKeepsOwnClicks(SqlTable(init, retention), H.Run(init), op, retention, cutoff);
    }
  }

  lemma StepKeepsOwnClicks(table: Table, t: H.Trace, op: S.Op, retention: Time, cutoff: Time)
    requires OwnClicks(table, t, cutoff)
    requires op.OpCleanup? && retention > 0 ==> op.now - retention <= cutoff
    ensures OwnClicks(SqlStep(table, t.store, op, retention), H.Next(t, op), cutoff)
  {
    hide OwnClicks;
    match op
    case OpSet(_, _) => SetKeepsOwnClicks(table, t, op, cutoff);
    case OpRecordClick(_, _) => ClickKeepsOwnClicks(table, t, op, cutoff);
    case OpDelete(_) => CascadeKeepsOwnClicks(table, t, op, cutoff);
    case OpCleanup(now) =>
      CascadeKeepsOwnClicks(table, t, op, cutoff);
      if retention > 0 {
        PruneKeepsOwnClicks(Cascade(table, S.Step(t.store, op).urls.Keys), H.Next(t, op), now - retention, cutoff);
      }
    case _ => OtherKeepsOwnClicks(table, t, op, cutoff);
  }

  // ---------- where the two series agree ----------

  /** The clicks of earlier mappings that memory still shows, and the own clicks that it dropped. */
  function Foreign(leftover: seq<ClickEvent>, own: seq<ClickEvent>): seq<ClickEvent> {
    if |own| >= S.CLICK_CAP then [] else S.LastN(leftover, S.CLICK_CAP - |own|)
  }

  function Dropped(own: seq<ClickEvent>): seq<ClickEvent> {
    if |own| <= S.CLICK_CAP then [] else own[..|own| - S.CLICK_CAP]
  }

  lemma ListParts(leftover: seq<ClickEvent>, own: seq<ClickEvent>)
    ensures |own| <= S.CLICK_CAP ==> S.LastN(leftover + own, S.CLICK_CAP) == Foreign(leftover, own) + own
    ensures |own| >= S.CLICK_CAP ==> own == Dropped(own) + S.LastN(leftover + own, S.CLICK_CAP)
  {
  }

  /** On every run: for a stored code, the series that the in-memory store counts from its list is
      the one that a SQL store counts from its rows, if and only if in every bucket the clicks of
      earlier mappings that memory still lists and the own clicks that SQL pruned make up exactly
      for the own clicks that memory dropped. */
  lemma BackendsSeriesIff(ops: seq<S.Op>, retention: Time, code: string, start: Time, w: Time, n: nat)
    requires w >= 0 && code in H.Run(ops).store.urls
    ensures code in H.Run(ops).full && code in H.Run(ops).leftover
    ensures var own, leftover := H.Run(ops).full[code], H.Run(ops).leftover[code];
      var sql := SqlTable(ops, retention);
      Buckets(S.EventsOf(H.Run(ops).store, code), start, w, n) == Buckets(RowsOf(sql.rows, code), start, w, n) <==>
        forall i :: 0 <= i < n ==>
          Buckets(Foreign(leftover, own), start, w, n)[i] + Buckets(RowsOf(sql.pruned, code), start, w, n)[i]
            == Buckets(Dropped(own), start, w, n)[i]
  {
    hide SqlTable, H.Run, Together, Buckets, Foreign, Dropped;
    H.ClickLog(ops, code);
    var cutoff := SomeCutoff(ops, retention);
    SqlKeepsOwnClicks(ops, retention, cutoff);
    ListedIff(H.Run(ops).leftover[code], H.Run(ops).full[code],
              RowsOf(SqlTable(ops, retention).rows, code), RowsOf(SqlTable(ops, retention).pruned, code), start, w, n);
  }

  lemma ListedIff(
      leftover: seq<ClickEvent>, own: seq<ClickEvent>, rows: seq<ClickEvent>, pruned: seq<ClickEvent>,
      start: Time, w: Time, n: nat)
    requires Together(own, rows, pruned)
    ensures Buckets(S.LastN(leftover + own, S.CLICK_CAP), start, w, n) == Buckets(rows, start, w, n) <==>
      forall i :: 0 <= i < n ==>
        Buckets(Foreign(leftover, own), start, w, n)[i] + Buckets(pruned, start, w, n)[i]
          == Buckets(Dropped(own), start, w, n)[i]
  {
    hide Foreign, Dropped, S.LastN;
    var listed := S.LastN(leftover + own, S.CLICK_CAP);
    forall i | 0 <= i < n
      ensures Buckets(listed, start, w, n)[i] + Buckets(Dropped(own), start, w, n)[i]
        == Buckets(rows, start, w, n)[i] + Buckets(pruned, start, w, n)[i]
           + Buckets(Foreign(leftover, own), start, w, n)[i]
    {
      ListCounts(leftover, own, Bucket(start, w, i), Bucket(start, w, i + 1));
    }
    if forall i :: 0 <= i < n ==> Buckets(listed, start, w, n)[i] == Buckets(rows, start, w, n)[i] {
      assert Buckets(listed, start, w, n) == Buckets(rows, start, w, n);
    }
  }

  lemma ListCounts(leftover: seq<ClickEvent>, own: seq<ClickEvent>, lo: Time, hi: Time)
    ensures Count(S.LastN(leftover + own, S.CLICK_CAP), lo, hi) + Count(Dropped(own), lo, hi)
      == Count(own, lo, hi) + Count(Foreign(leftover, own), lo, hi)
  {
    ListParts(leftover, own);
    if |own| <= S.CLICK_CAP {
      CountConcat(Foreign(leftover, own), own, lo, hi);
    } else {
      CountConcat(Dropped(own), S.LastN(leftover + own, S.CLICK_CAP), lo, hi);
    }
  }

  lemma {:induction false} SomeCutoff(ops: seq<S.Op>, retention: Time) returns (cutoff: Time)
    ensures Cutoff(ops, retention, cutoff)
  {
    cutoff := 0;
    if ops != [] {
      cutoff := SomeCutoff(ops[..|ops| - 1], retention);
      var last := ops[|ops| - 1];
      if last.OpCleanup? && cutoff < last.now - retention {
        cutoff := last.now - retention;
      }
    }
  }

  /** In a window that no cleanup has pruned: if and only if neither a leftover that memory still
      lists nor an own click that it dropped lies in the window. */
  lemma SeriesInsideRetention(
      ops: seq<S.Op>, retention: Time, code: string, start: Time, w: Time, n: nat)
    requires w >= 0 && code in H.Run(ops).store.urls && Cutoff(ops, retention, start)
    ensures code in H.Run(ops).full && code in H.Run(ops).leftover
    ensures var own, leftover := H.Run(ops).full[code], H.Run(ops).leftover[code];
      Buckets(S.EventsOf(H.Run(ops).store, code), start, w, n)
        == Buckets(RowsOf(SqlTable(ops, retention).rows, code), start, w, n) <==>
        Count(Foreign(leftover, own), start, start + n * w) == 0 && Count(Dropped(own), start, start + n * w) == 0
  {
    hide SqlTable, H.Run, Together, Buckets, Foreign, Dropped;
    H.ClickLog(ops, code);
    SqlKeepsOwnClicks(ops, retention, start);
    NonePrunedInside(H.Run(ops).full[code], RowsOf(SqlTable(ops, retention).rows, code),
                     RowsOf(SqlTable(ops, retention).pruned, code), start, w, n);
    SeriesIff(H.Run(ops).leftover[code], H.Run(ops).full[code], start, w, n);
  }

  lemma NonePrunedInside(
      own: seq<ClickEvent>, rows: seq<ClickEvent>, pruned: seq<ClickEvent>, start: Time, w: Time, n: nat)
    requires w >= 0 && Together(own, rows, pruned) && forall i :: 0 <= i < |pruned| ==> pruned[i].at < start
    ensures Buckets(own, start, w, n) == Buckets(rows, start, w, n)
  {
    forall i | 0 <= i < n
      ensures Count(own, Bucket(start, w, i), Bucket(start, w, i + 1))
           == Count(rows, Bucket(start, w, i), Bucket(start, w, i + 1))
    {
      BucketOrder(start, w, 0, i);
      CountBefore(pruned, start, Bucket(start, w, i), Bucket(start, w, i + 1));
    }
  }

  lemma {:induction false} CountBefore(events: seq<ClickEvent>, start: Time, lo: Time, hi: Time)
    requires start <= lo && forall i :: 0 <= i < |events| ==> events[i].at < start
    ensures Count(events, lo, hi) == 0
  {
    if events != [] {
      CountBefore(events[..|events| - 1], start, lo, hi);
    }
  }

  lemma SeriesIff(leftover: seq<ClickEvent>, own: seq<ClickEvent>, start: Time, w: Time, n: nat)
    requires w >= 0
    ensures Buckets(S.LastN(leftover + own, S.CLICK_CAP), start, w, n) == Buckets(own, start, w, n) <==>
      Count(Foreign(leftover, own), start, start + n * w) == 0 && Count(Dropped(own), start, start + n * w) == 0
  {
    ListParts(leftover, own);
    if |own| <= S.CLICK_CAP {
      PrefixShowsIff(Foreign(leftover, own), own, start, w, n);
    } else {
      PrefixShowsIff(Dropped(own), S.LastN(leftover + own, S.CLICK_CAP), start, w, n);
    }
  }

  /** The first input: more than 1000 clicks in the window. Memory counts 1000, SQL all of them. */
  lemma LongHistoryDiffers(own: seq<ClickEvent>, start: Time, w: Time, n: nat)
    requires w >= 0 && |own| > S.CLICK_CAP
    requires forall i :: 0 <= i < |own| ==> start <= own[i].at < start + n * w
    ensures Sum(Buckets(S.LastN(own, S.CLICK_CAP), start, w, n)) == S.CLICK_CAP
    ensures Sum(Buckets(own, start, w, n)) == |own|
  {
    SumIsWindow(own, start, w, n);
    SumIsWindow(S.LastN(own, S.CLICK_CAP), start, w, n);
    CountAll(own, start, start + n * w);
    CountAll(S.LastN(own, S.CLICK_CAP), start, start + n * w);
  }

  lemma {:induction false} CountAll(events: seq<ClickEvent>, lo: Time, hi: Time)
    requires forall i :: 0 <= i < |events| ==> lo <= events[i].at < hi
    ensures Count(events, lo, hi) == |events|
  {
    if events != [] {
      CountAll(events[..|events| - 1], lo, hi);
    }
  }

  /** The second input: a code clicked once, reaped and created again. The new mapping has no click,
      yet memory counts one; SQL deleted the row with its mapping. */
  lemma ReusedSeriesDiffers(row: Row, ev: ClickEvent, now: Time, retention: Time, start: Time, w: Time, n: nat)
    requires S.RowExpired(row, now) && row.clickCount == 0 && w >= 0 && start <= ev.at < start + n * w
    ensures var ops := [S.OpSet("a", row), S.OpRecordClick("a", ev), S.OpCleanup(now), S.OpSet("a", row)];
      && Sum(Buckets(S.EventsOf(H.Run(ops).store, "a"), start, w, n)) == 1
      && Sum(Buckets(RowsOf(SqlTable(ops, retention).rows, "a"), start, w, n)) == 0
  {
    var ops := [S.OpSet("a", row), S.OpRecordClick("a", ev), S.OpCleanup(now), S.OpSet("a", row)];
    H.ReusedCodeInheritsClicks(row, ev, now);
    var cutoff := SomeCutoff(ops, retention);
    SqlKeepsOwnClicks(ops, retention, cutoff);
    var rows := RowsOf(SqlTable(ops, retention).rows, "a");
    CountAll([ev], start, start + n * w);
    SumIsWindow([ev], start, w, n);
    SumIsWindow(rows, start, w, n);
    assert Together([], rows, RowsOf(SqlTable(ops, retention).pruned, "a"));
    assert Count([], start, start + n * w) == 0;
  }

  /** The third input: a click that the age limit pruned. */
  lemma PrunedSeriesDiffers(row: Row, ev: ClickEvent, now: Time, retention: Time, start: Time, w: Time, n: nat)
    requires row.expiresAt.None? && retention > 0 && ev.at < now - retention
    requires w >= 0 && start <= ev.at < start + n * w
    ensures var ops := [S.OpSet("a", row), S.OpRecordClick("a", ev), S.OpCleanup(now)];
      && Sum(Buckets(S.EventsOf(H.Run(ops).store, "a"), start, w, n)) == 1
      && Sum(Buckets(RowsOf(SqlTable(ops, retention).rows, "a"), start, w, n)) == 0
  {
    PrunedRun(row, ev, now, retention);
    CountAll([ev], start, start + n * w);
    SumIsWindow([ev], start, w, n);
    SumIsWindow([], start, w, n);
  }

  lemma PrunedRun(row: Row, ev: ClickEvent, now: Time, retention: Time)
    requires row.expiresAt.None? && retention > 0 && ev.at < now - retention
    ensures var ops := [S.OpSet("a", row), S.OpRecordClick("a", ev), S.OpCleanup(now)];
      S.EventsOf(H.Run(ops).store, "a") == [ev] && RowsOf(SqlTable(ops, retention).rows, "a") == []
  {
    var a, b, c := S.OpSet("a", row), S.OpRecordClick("a", ev), S.OpCleanup(now);
    assert [a, b, c][..2] == [a, b];
    ClickedOnce(row, ev, retention);
    assert H.Run([a, b, c]).store == S.Step(H.Run([a, b]).store, c);
    PruneOne(SqlTable([a, b], retention), H.Run([a, b]).store, ev, now, retention);
  }

  lemma PruneOne(table: Table, s: S.State, ev: ClickEvent, now: Time, retention: Time)
    requires retention > 0 && ev.at < now - retention && table.rows == map["a" := [ev]]
    requires "a" in s.urls && s.urls["a"].expiresAt.None?
    ensures RowsOf(SqlStep(table, s, S.OpCleanup(now), retention).rows, "a") == []
  {
    assert [ev][..0] == [];
    assert OlderThan([ev], now - retention, false) == [];
  }

  lemma ClickedOnce(row: Row, ev: ClickEvent, retention: Time)
    ensures var ops := [S.OpSet("a", row), S.OpRecordClick("a", ev)];
      && S.EventsOf(H.Run(ops).store, "a") == [ev] && SqlTable(ops, retention).rows == map["a" := [ev]]
      && "a" in H.Run(ops).store.urls && H.Run(ops).store.urls["a"].expiresAt == row.expiresAt
  {
    var a, b := S.OpSet("a", row), S.OpRecordClick("a", ev);
    assert [a][..0] == [] && [a, b][..1] == [a];
    assert H.Run([a]) == H.Next(H.START, a);
    assert H.Run([a, b]) == H.Next(H.Run([a]), b);
    assert SqlTable([a], retention).rows == map[];
  }
}
