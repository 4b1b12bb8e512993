/** The bounded logs against the full history: what the click lists and the audit
    ring hold after any run of store operations. */
module History {
  import opened Models
  import S = StoreSpec

  /** The store together with everything it ever logged. `full` and `leftover` are kept
      per stored code: the clicks recorded since its Set, and the list that was already
      lying under the code at that moment. */
  datatype Trace = Trace(
    store: S.State,
    full: map<string, seq<ClickEvent>>,
    leftover: map<string, seq<ClickEvent>>,
    initialCount: map<string, int>,
    reaped: set<string>,
    auditLog: seq<AuditEvent>)

  const START := Trace(S.EMPTY, map[], map[], map[], {}, [])

  function Next(t: Trace, op: S.Op): Trace {
    var after := t.(store := S.Step(t.store, op));
    match op
    case OpSet(code, row) =>
      if code in t.store.urls then after
      else after.(full := t.full[code := []],
                  leftover := t.leftover[code := S.EventsOf(t.store, code)],
                  initialCount := t.initialCount[code := row.clickCount])
    case OpRecordClick(code, ev) =>
      if code in t.store.urls && code in t.full then after.(full := t.full[code := t.full[code] + [ev]]) else after
    case OpLogAudit(ev, now) =>
      after.(auditLog := t.auditLog + [S.StampAudit(ev, t.store.nextAuditId + 1, now)])
    case OpCleanup(now) => after.(reaped := t.reaped + (t.store.urls.Keys - S.LiveCodes(t.store, now)))
    case _ => after
  }

  function Run(ops: seq<S.Op>): Trace {
    if ops == [] then START else Next(Run(ops[..|ops| - 1]), ops[|ops| - 1])
  }

  // ---------- the last n of a growing log ----------

  lemma BoundedAppendIsLastN<T>(log: seq<T>, x: T, cap: nat)
    requires cap > 0
    ensures S.BoundedAppend(S.LastN(log, cap), x, cap) == S.LastN(log + [x], cap)
  {
  }

  /** A stale prefix under the log is invisible exactly when there is none, or when
      enough newer entries have pushed it out. */
  lemma StalePrefix<T>(stale: seq<T>, log: seq<T>, cap: nat)
    ensures S.LastN(stale + log, cap) == S.LastN(log, cap) <==> stale == [] || |log| >= cap
  {
    var all := stale + log;
    if stale == [] {
      assert all == log;
    } else if |log| >= cap {
      assert S.LastN(all, cap) == S.LastN(log, cap);
    } else {
      assert |S.LastN(all, cap)| > |log|;
    }
  }

  // ---------- the invariant ----------

  ghost predicate CodeInv(t: Trace, code: string)
    requires code in t.store.urls
  {
    && code in t.full && code in t.leftover && code in t.initialCount
    && S.EventsOf(t.store, code) == S.LastN(t.leftover[code] + t.full[code], S.CLICK_CAP)
    && t.store.urls[code].clickCount == t.initialCount[code] + |t.full[code]|
    && (t.full[code] != [] ==>
          t.store.urls[code].lastAccessed == Some(t.full[code][|t.full[code]| - 1].at))
  }

  ghost predicate EventsInv(t: Trace) {
    && (forall code :: code in t.store.events ==> code in t.store.urls || code in t.reaped)
    && (forall code :: |S.EventsOf(t.store, code)| <= S.CLICK_CAP)
  }

  ghost predicate AuditInv(t: Trace) {
    && t.store.audit == S.LastN(t.auditLog, S.AUDIT_CAP)
    && t.store.nextAuditId == |t.auditLog|
    && (forall i :: 0 <= i < |t.auditLog| ==> t.auditLog[i].id == i + 1)
  }

  ghost predicate Inv(t: Trace) {
    && (forall code :: code in t.store.urls ==> CodeInv(t, code))
    && EventsInv(t)
    && AuditInv(t)
  }

  lemma NextKeepsInv(t: Trace, op: S.Op)
    requires Inv(t)
    ensures Inv(Next(t, op))
  {
    forall code | code in Next(t, op).store.urls ensures CodeInv(Next(t, op), code) {
      NextKeepsCode(t, op, code);
    }
    NextKeepsEvents(t, op);
    NextKeepsAudit(t, op);
  }

  lemma NextKeepsEvents(t: Trace, op: S.Op)
    requires EventsInv(t)
    ensures EventsInv(Next(t, op))
  {
    forall code ensures |S.EventsOf(Next(t, op).store, code)| <= S.CLICK_CAP {
      StepKeepsBound(t.store, op, code);
    }
  }

  lemma NextKeepsAudit(t: Trace, op: S.Op)
    requires AuditInv(t)
    ensures AuditInv(Next(t, op))
  {
    if op.OpLogAudit? {
      BoundedAppendIsLastN(t.auditLog, S.StampAudit(op.audit, t.store.nextAuditId + 1, op.now), S.AUDIT_CAP);
    }
  }

  lemma StepKeepsBound(s: S.State, op: S.Op, code: string)
    requires |S.EventsOf(s, code)| <= S.CLICK_CAP
    ensures |S.EventsOf(S.Step(s, op), code)| <= S.CLICK_CAP
  {
  }

  lemma NextKeepsCode(t: Trace, op: S.Op, code: string)
    requires Inv(t) && code in Next(t, op).store.urls
    ensures CodeInv(Next(t, op), code)
  {
    if op.OpSet? {
      SetKeepsCode(t, op, code);
    } else if op.OpRecordClick? {
      ClickKeepsCode(t, op, code);
    } else {
      QuietStep(t.store, op, code);
      assert CodeInv(t, code);
    }
  }

  /** Outside Set and RecordClick a kept code keeps its clicks. */
  lemma QuietStep(s: S.State, op: S.Op, code: string)
    requires !op.OpSet? && !op.OpRecordClick? && code in S.Step(s, op).urls
    ensures code in s.urls
    ensures S.Step(s, op).urls[code].clickCount == s.urls[code].clickCount
    ensures S.Step(s, op).urls[code].lastAccessed == s.urls[code].lastAccessed
    ensures S.EventsOf(S.Step(s, op), code) == S.EventsOf(s, code)
  {
  }

  lemma SetKeepsCode(t: Trace, op: S.Op, code: string)
    requires Inv(t) && op.OpSet? && code in Next(t, op).store.urls
    ensures CodeInv(Next(t, op), code)
  {
    var u := Next(t, op);
    if code in t.store.urls {
      assert CodeInv(t, code);
    } else {
      assert u.leftover[code] + u.full[code] == S.EventsOf(t.store, code);
    }
  }

  lemma ClickKeepsCode(t: Trace, op: S.Op, code: string)
    requires Inv(t) && op.OpRecordClick? && code in Next(t, op).store.urls
    ensures CodeInv(Next(t, op), code)
  {
    assert CodeInv(t, code);
    if op.code == code {
      var u := Next(t, op);
      var log := t.leftover[code] + t.full[code];
      BoundedAppendIsLastN(log, op.ev, S.CLICK_CAP);
      assert log + [op.ev] == u.leftover[code] + u.full[code];
    }
  }

  lemma {:induction false} RunKeepsInv(ops: seq<S.Op>)
    ensures Inv(Run(ops))
  {
    if ops != [] {
      RunKeepsInv(ops[..|ops| - 1]);
      NextKeepsInv(Run(ops[..|ops| - 1]), ops[|ops| - 1]);
    }
  }

  // ---------- the click list ----------

  /** On every run: the list of a stored code is the newest 1000 of what it was created
      over followed by its own clicks, and the counter counts exactly its own clicks. */
  lemma ClickLog(ops: seq<S.Op>, code: string)
    requires code in Run(ops).store.urls
    ensures var t := Run(ops);
      && code in t.full && code in t.leftover && code in t.initialCount
      && S.EventsOf(t.store, code) == S.LastN(t.leftover[code] + t.full[code], S.CLICK_CAP)
      && (S.EventsOf(t.store, code) == S.LastN(t.full[code], S.CLICK_CAP)
          <==> t.leftover[code] == [] || |t.full[code]| >= S.CLICK_CAP)
      && t.store.urls[code].clickCount == t.initialCount[code] + |t.full[code]|
      && (t.full[code] != [] ==>
            t.store.urls[code].lastAccessed == Some(t.full[code][|t.full[code]| - 1].at))
  {
    RunKeepsInv(ops);
    var t := Run(ops);
    assert CodeInv(t, code);
    StalePrefix(t.leftover[code], t.full[code], S.CLICK_CAP);
  }

  /** No operation of the run creates a code again that a cleanup reaped. */
  ghost predicate NoReuse(ops: seq<S.Op>) {
    forall i :: 0 <= i < |ops| && ops[i].OpSet? ==> ops[i].code !in Run(ops[..i]).reaped
  }

  lemma {:induction false} NoReuseNoLeftover(ops: seq<S.Op>, code: string)
    requires NoReuse(ops) && code in Run(ops).store.urls
    ensures code in Run(ops).leftover && Run(ops).leftover[code] == []
  {
    var before := ops[..|ops| - 1];
    NoReusePrefix(ops);
    RunKeepsInv(before);
    if code in Run(before).store.urls {
      NoReuseNoLeftover(before, code);
    }
    LeftoverStep(Run(before), ops[|ops| - 1], code);
  }

  lemma NoReusePrefix(ops: seq<S.Op>)
    requires NoReuse(ops) && ops != []
    ensures NoReuse(ops[..|ops| - 1])
  {
    var before := ops[..|ops| - 1];
    forall i | 0 <= i < |before| && before[i].OpSet? ensures before[i].code !in Run(before[..i]).reaped {
      assert before[..i] == ops[..i] && before[i] == ops[i];
    }
  }

  lemma LeftoverStep(t: Trace, op: S.Op, code: string)
    requires Inv(t) && code in Next(t, op).store.urls
    requires code in t.store.urls ==> code in t.leftover && t.leftover[code] == []
    requires op.OpSet? ==> op.code !in t.reaped
    ensures code in Next(t, op).leftover && Next(t, op).leftover[code] == []
  {
    if !op.OpSet? && !op.OpRecordClick? {
      QuietStep(t.store, op, code);
    }
  }

  /** The promised shape: where reaped codes are not reused, a mapping created with count 0 holds
      the last min(ClickCount, 1000) of its clicks, was last accessed when the newest of them
      came in, and RecentClicks returns the newest of them, newest first. */
  lemma FreshClickLog(ops: seq<S.Op>, code: string, limit: int)
    requires NoReuse(ops) && code in Run(ops).store.urls && code in Run(ops).initialCount
    requires Run(ops).initialCount[code] == 0
    ensures var t := Run(ops);
      var n := t.store.urls[code].clickCount;
      && code in t.full && |t.full[code]| == n
      && |S.EventsOf(t.store, code)| == (if n <= 1000 then n else 1000)
      && S.EventsOf(t.store, code) == S.LastN(t.full[code], 1000)
      && (n > 0 ==> t.store.urls[code].lastAccessed == Some(t.full[code][n - 1].at))
    ensures S.RecentClicks(Run(ops).store, code, limit)
      == Ok(S.Reverse(S.LastN(Run(ops).full[code], Shown(limit))))
  {
    hide Run, S.Reverse;
    ClickLog(ops, code);
    NoReuseNoLeftover(ops, code);
    var own := Run(ops).full[code];
    assert Run(ops).leftover[code] + own == own;
    LastOfLast(own, if limit <= 0 then 50 else limit, 1000);
  }

  /** How many clicks a limit can show. */
  function Shown(limit: int): nat {
    if limit <= 0 then 50 else if limit <= 1000 then limit else 1000
  }

  lemma LastOfLast<T>(s: seq<T>, n: nat, m: nat)
    ensures S.LastN(S.LastN(s, m), n) == S.LastN(s, if n <= m then n else m)
  {
  }

  /** The condition is needed: reaping a clicked code and creating it again hands the old
      clicks to the new mapping, which has counted none. */
  lemma ReusedCodeInheritsClicks(row: Row, ev: ClickEvent, now: Time)
    requires S.RowExpired(row, now) && row.clickCount == 0
    ensures var t := Run([S.OpSet("a", row), S.OpRecordClick("a", ev), S.OpCleanup(now), S.OpSet("a", row)]);
      && "a" in t.store.urls && t.store.urls["a"].clickCount == 0 && S.EventsOf(t.store, "a") == [ev]
      && "a" in t.full && t.full["a"] == []
  {
    var a, b, c, d := S.OpSet("a", row), S.OpRecordClick("a", ev), S.OpCleanup(now), S.OpSet("a", row);
    assert [a][..0] == [] && [a, b][..1] == [a] && [a, b, c][..2] == [a, b] && [a, b, c, d][..3] == [a, b, c];
    var t1 := Next(START, a);
    assert Run([a]) == t1;
    assert Run([a, b]) == Next(t1, b);
    assert S.EventsOf(Next(t1, b).store, "a") == [ev];
    assert Run([a, b, c]) == Next(Run([a, b]), c);
    assert "a" !in Run([a, b, c]).store.urls;
  }

  // ---------- the audit ring ----------

  /** The ring is the last min(n, 1000) of the n events logged, with consecutive IDs
      ending at n. */
  lemma AuditRing(ops: seq<S.Op>)
    ensures var t := Run(ops);
      var n, ring := |t.auditLog|, t.store.audit;
      && t.store.nextAuditId == n
      && ring == S.LastN(t.auditLog, 1000)
      && |ring| == (if n <= 1000 then n else 1000)
      && (forall i :: 0 <= i < |ring| ==> ring[i].id == n - |ring| + i + 1)
  {
    RunKeepsInv(ops);
  }

  /** Everything from an offset on, page after page of `limit` events. */
  function Pages(audit: seq<AuditEvent>, limit: int, offset: int): seq<AuditEvent>
    requires limit > 0 && offset >= 0
    decreases |audit| - offset
  {
    if offset >= |audit| then []
    else S.AuditPage(audit, limit, offset) + Pages(audit, limit, offset + limit)
  }

  /** Reading consecutive pages from the start reads the whole ring backwards, once. */
  lemma {:induction false} PagesAreTheReversal(audit: seq<AuditEvent>, limit: int, offset: int)
    requires limit > 0 && offset >= 0
    ensures Pages(audit, limit, offset) == if offset >= |audit| then [] else S.Reverse(audit)[offset..]
    decreases |audit| - offset
  {
    if offset < |audit| {
      PagesAreTheReversal(audit, limit, offset + limit);
      FirstPage(audit, limit, offset, Pages(audit, limit, offset + limit));
    }
  }

  lemma FirstPage(audit: seq<AuditEvent>, limit: int, offset: int, rest: seq<AuditEvent>)
    requires limit > 0 && 0 <= offset < |audit|
    requires rest == if offset + limit >= |audit| then [] else S.Reverse(audit)[offset + limit..]
    ensures S.AuditPage(audit, limit, offset) + rest == S.Reverse(audit)[offset..]
  {
    PageAt(audit, limit, offset);
    SplitAt(S.Reverse(audit), offset, if offset + limit <= |audit| then offset + limit else |audit|);
  }

  lemma SplitAt<T>(s: seq<T>, i: nat, k: nat)
    requires i <= k <= |s|
    ensures s[i..] == s[i..k] + (if k < |s| then s[k..] else [])
  {
  }

  lemma PageAt(audit: seq<AuditEvent>, limit: int, offset: int)
    requires limit > 0 && 0 <= offset < |audit|
    ensures S.AuditPage(audit, limit, offset)
      == S.Reverse(audit)[offset..if offset + limit <= |audit| then offset + limit else |audit|]
  {
    var end := |audit| - offset;
    var m := if limit <= end then limit else end;
    assert S.LastN(audit[..end], limit) == audit[end - m..end];
    var page, want := S.Reverse(audit[end - m..end]), S.Reverse(audit)[offset..offset + m];
    forall i | 0 <= i < m ensures page[i] == want[i] {
      assert page[i] == audit[end - m..end][m - 1 - i];
    }
    assert page == want;
  }
}
