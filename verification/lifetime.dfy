/** How long a code can be read: what any steps of the store do to it between two looks. */
module Lifetime {
  import opened Models
  import S = StoreSpec

  /** A code is not stored, or it is until its deadline, if it has one. */
  datatype Fate = Gone | Until(deadline: Option<Time>)

  function FateOf(s: S.State, code: string): Fate {
    if code in s.urls then Until(s.urls[code].expiresAt) else Gone
  }

  predicate Passed(deadline: Option<Time>, now: Time) {
    deadline.Some? && now > deadline.value
  }

  /** What one operation does to a fate: only creation, deletion, cleanup and a new deadline count. */
  function FateAfter(fate: Fate, code: string, op: S.Op): Fate {
    match op
    case OpSet(c, row) => if c == code && fate.Gone? then Until(row.expiresAt) else fate
    case OpDelete(c) => if c == code then Gone else fate
    case OpUpdate(c, f, _) =>
      if c != code || fate.Gone? then fate
      else if f.clearExpiration then Until(None)
      else if f.expiresAt.Some? then Until(f.expiresAt)
      else fate
    case OpCleanup(now) => if fate.Until? && Passed(fate.deadline, now) then Gone else fate
    case _ => fate
  }

  function FateOver(fate: Fate, code: string, ops: seq<S.Op>): Fate {
    if ops == [] then fate else FateAfter(FateOver(fate, code, ops[..|ops| - 1]), code, ops[|ops| - 1])
  }

  lemma StepFate(s: S.State, op: S.Op, code: string)
    ensures FateOf(S.Step(s, op), code) == FateAfter(FateOf(s, code), code, op)
  {
  }

  lemma {:induction false} RunFate(s: S.State, ops: seq<S.Op>, code: string)
    ensures FateOf(S.Run(s, ops), code) == FateOver(FateOf(s, code), code, ops)
  {
    if ops != [] {
      RunFate(s, ops[..|ops| - 1], code);
      StepFate(S.Run(s, ops[..|ops| - 1]), ops[|ops| - 1], code);
    }
  }

  /** After any operations at all, a code cannot be read exactly if it is gone or its deadline passed. */
  lemma UnreadableIff(s: S.State, ops: seq<S.Op>, code: string, later: Time)
    ensures S.Get(S.Run(s, ops), code, later).Err? <==>
      var fate := FateOver(FateOf(s, code), code, ops);
      fate.Gone? || Passed(fate.deadline, later)
  {
    RunFate(s, ops, code);
  }

  // ---------- where nobody creates the code or moves its deadline ----------

  predicate Leaves(op: S.Op, code: string) {
    && !(op.OpSet? && op.code == code)
    && !(op.OpUpdate? && op.code == code && (op.fields.clearExpiration || op.fields.expiresAt.Some?))
  }

  /** The operation takes away a code with this deadline. */
  predicate Removes(op: S.Op, code: string, deadline: Option<Time>) {
    op == S.OpDelete(code) || (op.OpCleanup? && Passed(deadline, op.now))
  }

  lemma {:induction false} FateWhereLeft(deadline: Option<Time>, code: string, ops: seq<S.Op>)
    requires forall i :: 0 <= i < |ops| ==> Leaves(ops[i], code)
    ensures FateOver(Until(deadline), code, ops) ==
      if exists i :: 0 <= i < |ops| && Removes(ops[i], code, deadline) then Gone else Until(deadline)
  {
    if ops != [] {
      var init, last := ops[..|ops| - 1], |ops| - 1;
      FateWhereLeft(deadline, code, init);
      if i :| 0 <= i < |ops| && Removes(ops[i], code, deadline) {
        if i < last {
          assert Removes(init[i], code, deadline);
        }
      }
      if i :| 0 <= i < |init| && Removes(init[i], code, deadline) {
        assert Removes(ops[i], code, deadline);
      }
    }
  }

  /** Then a stored code becomes unreadable exactly if it is deleted, reaped after its deadline, or
      read after it. */
  lemma UnreadableWhereLeft(s: S.State, ops: seq<S.Op>, code: string, later: Time)
    requires code in s.urls && forall i :: 0 <= i < |ops| ==> Leaves(ops[i], code)
    ensures S.Get(S.Run(s, ops), code, later).Err? <==>
      || (exists i :: 0 <= i < |ops| && Removes(ops[i], code, s.urls[code].expiresAt))
      || Passed(s.urls[code].expiresAt, later)
  {
    UnreadableIff(s, ops, code, later);
    FateWhereLeft(s.urls[code].expiresAt, code, ops);
  }
}
