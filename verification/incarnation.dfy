/** Which mapping a PATCH lands on: the code it read may have been removed and created again,
    by another owner, before its update comes. */
module Incarnation {
  import opened Models
  import opened Create
  import opened Patch
  import S = StoreSpec

  function RunFrom(sys: Sys, actions: seq<Action>): Sys {
    if actions == [] then sys else Next(RunFrom(sys, actions[..|actions| - 1]), actions[|actions| - 1])
  }

  predicate Stored(sys: Sys, code: string) {
    code in sys.store.urls
  }

  ghost predicate Legal(actions: seq<Action>) {
    forall i :: 0 <= i < |actions| ==> Enabled(actions[i])
  }

  /** The code is stored at every moment of the run. */
  ghost predicate StoredThroughout(sys: Sys, actions: seq<Action>, code: string) {
    forall i :: 0 <= i <= |actions| ==> Stored(RunFrom(sys, actions[..i]), code)
  }

  /** How often the run creates the code anew. */
  function Births(sys: Sys, actions: seq<Action>, code: string): nat {
    if actions == [] then 0
    else
      var init := actions[..|actions| - 1];
      Births(sys, init, code)
        + if !Stored(RunFrom(sys, init), code) && Stored(RunFrom(sys, actions), code) then 1 else 0
  }

  lemma ThroughoutSnoc(sys: Sys, before: seq<Action>, a: Action, code: string)
    ensures StoredThroughout(sys, before + [a], code) <==>
      StoredThroughout(sys, before, code) && Stored(RunFrom(sys, before + [a]), code)
  {
    var all := before + [a];
    assert all[..|all|] == all;
    forall i | 0 <= i <= |before| ensures all[..i] == before[..i] {
    }
  }

  lemma RunFromSnoc(sys: Sys, before: seq<Action>, a: Action)
    ensures RunFrom(sys, before + [a]) == Next(RunFrom(sys, before), a)
  {
    assert (before + [a])[..|before|] == before;
  }

  /** A code that is stored at the end is still the mapping it was at the start, not one created
      since, if and only if it was never missing in between. */
  lemma {:induction false} SameMappingIff(sys: Sys, actions: seq<Action>, code: string)
    requires Stored(sys, code) && Stored(RunFrom(sys, actions), code)
    ensures Births(sys, actions, code) == 0 <==> StoredThroughout(sys, actions, code)
  {
    if actions != [] {
      var before, a := actions[..|actions| - 1], actions[|actions| - 1];
      assert actions == before + [a];
      ThroughoutSnoc(sys, before, a, code);
      if Stored(RunFrom(sys, before), code) {
        SameMappingIff(sys, before, code);
      } else {
        assert before[..|before|] == before;
        assert !StoredThroughout(sys, before, code);
      }
    } else {
      assert actions[..0] == actions;
    }
  }

  // ---------- the owner token tells ----------

  /** No rotation of the code, and whoever creates it gets a token other than `owner`. */
  ghost predicate FreshOwners(actions: seq<Action>, code: string, owner: Bytes) {
    forall i :: 0 <= i < |actions| ==>
      var a := actions[i];
      && !(a.Other? && a.op.OpRotateToken? && a.op.code == code)
      && (a.Create? && a.newCode == code ==> a.owner != owner)
  }

  lemma StepKeepsOwner(sys: Sys, a: Action, code: string)
    requires Enabled(a) && Stored(sys, code) && Stored(Next(sys, a), code)
    requires !(a.Other? && a.op.OpRotateToken? && a.op.code == code)
    ensures Next(sys, a).store.urls[code].ownerTokenHash == sys.store.urls[code].ownerTokenHash
  {
  }

  lemma StepCreates(sys: Sys, a: Action, code: string)
    requires Enabled(a) && !Stored(sys, code) && Stored(Next(sys, a), code)
    ensures a.Create? && a.newCode == code && Next(sys, a).store.urls[code].ownerTokenHash == a.owner
  {
  }

  /** The stored owner is still `owner` exactly if the code was never missing since. */
  lemma {:induction false} OwnerTells(sys: Sys, actions: seq<Action>, code: string, owner: Bytes)
    requires Legal(actions) && FreshOwners(actions, code, owner)
    requires Stored(sys, code) && sys.store.urls[code].ownerTokenHash == owner
    requires Stored(RunFrom(sys, actions), code)
    ensures RunFrom(sys, actions).store.urls[code].ownerTokenHash == owner <==> StoredThroughout(sys, actions, code)
  {
    if actions != [] {
      var before, a := actions[..|actions| - 1], actions[|actions| - 1];
      assert actions == before + [a];
      RunFromSnoc(sys, before, a);
      ThroughoutSnoc(sys, before, a, code);
      var mid := RunFrom(sys, before);
      if Stored(mid, code) {
        OwnerTells(sys, before, code, owner);
        StepKeepsOwner(mid, a, code);
      } else {
        StepCreates(mid, a, code);
        assert before[..|before|] == before;
        assert !StoredThroughout(sys, before, code);
      }
    } else {
      assert actions[..0] == actions;
    }
  }

  /** What a PATCH commits, however many steps after its read, lands on a mapping of the owner whose
      mapping it read if and only if the code was stored all the time since; if it was removed and
      created again, the update goes to the new owner's mapping. */
  lemma CommitHitsOwnerIff(
      earlier: seq<Action>, id: nat, code: string, req: PatchRequest, now: Time, more: seq<Action>, env: Env)
    requires Legal(more) && S.Get(Run(earlier).store, code, now).Ok?
    requires var read := Next(Run(earlier), BeginPatch(id, code, req, now));
      var snapshot := read.patches[id].snapshot;
      var end := RunFrom(read, more);
      && FreshOwners(more, code, snapshot.ownerTokenHash)
      && id in end.patches && end.patches[id] == read.patches[id] && Stored(end, code)
      && Fault(req, snapshot, env).None?
    ensures var read := Next(Run(earlier), BeginPatch(id, code, req, now));
      var snapshot := read.patches[id].snapshot;
      var end := RunFrom(read, more);
      var done := Next(end, CommitPatch(id, env));
      && Stored(done, code)
      && done.store.urls[code] == S.ApplyUpdate(end.store.urls[code], Fields(req, snapshot, env), env.now)
      && (done.store.urls[code].ownerTokenHash == snapshot.ownerTokenHash <==> StoredThroughout(read, more, code))
  {
    var read := Next(Run(earlier), BeginPatch(id, code, req, now));
    OwnerTells(read, more, code, read.patches[id].snapshot.ownerTokenHash);
  }

  /** The other owner is real: read, delete, create by somebody else, commit. */
  lemma StalePatchHitsNewOwner(
      row: Row, url: string, owner: Bytes, create: ShortenRequest, env: Env)
    requires row.expiresAt.None? && owner != row.ownerTokenHash && env.Valid()
    requires url != "" && env.urlOk(url) && CreateFault(create, env).None?
    ensures
      var patch := PatchRequest(Some(url), None, None, None, None, None, false, None);
      var read := Next(Sys(S.EMPTY.(urls := map["a" := row]), map[]), BeginPatch(0, "a", patch, 0));
      var more := [Other(S.OpDelete("a")), Create("a", create, 0, owner, env)];
      var done := Next(RunFrom(read, more), CommitPatch(0, env));
      && Legal(more) && Stored(done, "a")
      && done.store.urls["a"].originalUrl == url && done.store.urls["a"].ownerTokenHash == owner
  {
    var patch := PatchRequest(Some(url), None, None, None, None, None, false, None);
    var read := Next(Sys(S.EMPTY.(urls := map["a" := row]), map[]), BeginPatch(0, "a", patch, 0));
    Reused(read, "a", create, owner, env);
    assert Fault(patch, row, env).None?;
  }

  lemma Reused(sys: Sys, code: string, create: ShortenRequest, owner: Bytes, env: Env)
    requires CreateFault(create, env).None?
    ensures var after := RunFrom(sys, [Other(S.OpDelete(code)), Create(code, create, 0, owner, env)]);
      && after.patches == sys.patches
      && Stored(after, code) && after.store.urls[code] == NewRow(code, create, 0, owner, env)
  {
    var gone, made := Other(S.OpDelete(code)), Create(code, create, 0, owner, env);
    assert [gone] + [made] == [gone, made] && [] + [gone] == [gone];
    RunFromSnoc(sys, [], gone);
    RunFromSnoc(sys, [gone], made);
  }
}
