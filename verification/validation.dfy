/** Normalised tag lists and validated routing pools. */
module Validation {
  import opened Models
  import opened Strings

  const MAX_TAG_LENGTH := 32
  const MAX_TAGS_PER_URL := 16
  const MAX_DESTINATIONS_PER_URL := 10
  const MAX_DESTINATION_WEIGHT := 100

  datatype ValidationError = InvalidTag | TooManyTags | InvalidDestination | TooManyDestinations | BadUrl

  // ---------- tags ----------

  ghost predicate GoodTag(t: string) {
    t != "" && Trimmed(t) && ByteLen(t) <= MAX_TAG_LENGTH
  }

  ghost predicate Distinct<T>(s: seq<T>) {
    forall i, k :: 0 <= i < k < |s| ==> s[i] != s[k]
  }

  /** What the store may hold as a tag list. */
  ghost predicate GoodTags(tags: seq<string>) {
    && |tags| <= MAX_TAGS_PER_URL
    && Distinct(tags)
    && forall i :: 0 <= i < |tags| ==> GoodTag(tags[i])
  }

  predicate TooLong(raw: string) {
    ByteLen(TrimSpace(raw)) > MAX_TAG_LENGTH
  }

  /** The first occurrences of the non-blank trimmed tags, in the caller's order. */
  function Kept(raws: seq<string>): seq<string> {
    if raws == [] then []
    else
      var before, t := Kept(raws[..|raws| - 1]), TrimSpace(raws[|raws| - 1]);
      if t == "" || t in before then before else before + [t]
  }

  function Normalized(raws: seq<string>): Result<seq<string>, ValidationError> {
    if exists i :: 0 <= i < |raws| && TooLong(raws[i]) then Err(InvalidTag)
    else if |Kept(raws)| > MAX_TAGS_PER_URL then Err(TooManyTags)
    else Ok(Kept(raws))
  }

  method NormalizeTags(raws: seq<string>) returns (r: Result<seq<string>, ValidationError>)
    ensures r == Normalized(raws)
  {
    if |raws| == 0 {
      return Ok([]);
    }
    var seen: set<string> := {};
    var out := [];
    for i := 0 to |raws|
      invariant out == Kept(raws[..i])
      invariant forall t :: t in seen <==> t in out
      invariant forall k :: 0 <= k < i ==> !TooLong(raws[k])
    {
      assert raws[..i + 1][..i] == raws[..i];
      var t := TrimSpace(raws[i]);
      if t != "" {
        if ByteLen(t) > MAX_TAG_LENGTH {
          assert TooLong(raws[i]);
          return Err(InvalidTag);
        }
        if t !in seen {
          seen := seen + {t};
          out := out + [t];
        }
      }
    }
    assert raws[..|raws|] == raws;
    if |out| > MAX_TAGS_PER_URL {
      return Err(TooManyTags);
    }
    return Ok(out);
  }

  lemma {:induction false} KeptIsGood(raws: seq<string>)
    requires forall i :: 0 <= i < |raws| ==> !TooLong(raws[i])
    ensures Distinct(Kept(raws))
    ensures forall t :: t in Kept(raws) ==> GoodTag(t)
    ensures forall t :: t in Kept(raws) <==> t != "" && exists i :: 0 <= i < |raws| && TrimSpace(raws[i]) == t
  {
    if raws != [] {
      var before, last := raws[..|raws| - 1], raws[|raws| - 1];
      KeptIsGood(before);
      assert raws == before + [last];
      GoodLast(last);
      hide TrimSpace, GoodTag;
      var t := TrimSpace(last);
      assert Kept(raws) == if t == "" || t in Kept(before) then Kept(before) else Kept(before) + [t];
      forall u | u != "" && exists i :: 0 <= i < |raws| && TrimSpace(raws[i]) == u ensures u in Kept(raws) {
        var i :| 0 <= i < |raws| && TrimSpace(raws[i]) == u;
        if i < |before| {
          assert TrimSpace(before[i]) == u;
        }
      }
    }
  }

  lemma GoodLast(raw: string)
    requires !TooLong(raw)
    ensures TrimSpace(raw) != "" ==> GoodTag(TrimSpace(raw))
  {
  }

  lemma {:induction false} KeptOfGood(tags: seq<string>)
    requires Distinct(tags) && forall i :: 0 <= i < |tags| ==> GoodTag(tags[i])
    ensures Kept(tags) == tags
  {
    if tags != [] {
      var before := tags[..|tags| - 1];
      KeptOfGood(before);
      TrimTrimmed(tags[|tags| - 1]);
      assert tags == before + [tags[|tags| - 1]];
    }
  }

  /** A result is always storable, says exactly which tags the caller gave, and is a fixed
      point; a list is accepted exactly when no tag is too long and few enough remain. */
  lemma NormalizedIsGood(raws: seq<string>)
    ensures Normalized(raws).Ok? <==>
      (forall i :: 0 <= i < |raws| ==> !TooLong(raws[i])) && |Kept(raws)| <= MAX_TAGS_PER_URL
    ensures Normalized(raws).Ok? ==>
      var tags := Normalized(raws).value;
      && GoodTags(tags)
      && (forall t :: t in tags <==> t != "" && exists i :: 0 <= i < |raws| && TrimSpace(raws[i]) == t)
      && Normalized(tags) == Ok(tags)
  {
    if Normalized(raws).Ok? {
      KeptIsGood(raws);
      var tags := Kept(raws);
      forall i | 0 <= i < |tags| ensures GoodTag(tags[i]) && !TooLong(tags[i]) {
        assert tags[i] in tags;
        TrimTrimmed(tags[i]);
      }
      KeptOfGood(tags);
    }
  }

  // ---------- routing pools ----------

  predicate GoodDestination(d: Destination) {
    1 <= d.weight <= MAX_DESTINATION_WEIGHT
  }

  /** What the store may hold as a routing pool. */
  ghost predicate GoodPool(pool: seq<Destination>) {
    |pool| <= MAX_DESTINATIONS_PER_URL && forall i :: 0 <= i < |pool| ==> GoodDestination(pool[i])
  }

  /** The first entry that is rejected decides the error, its weight before its URL. */
  function ValidatedPool(pool: seq<Destination>, urlOk: string -> bool): Result<seq<Destination>, ValidationError> {
    if |pool| > MAX_DESTINATIONS_PER_URL then Err(TooManyDestinations)
    else
      var e := FirstFault(pool, urlOk);
      if e.Some? then Err(e.value) else Ok(pool)
  }

  function FirstFault(pool: seq<Destination>, urlOk: string -> bool): Option<ValidationError> {
    if pool == [] then None
    else if !GoodDestination(pool[0]) then Some(InvalidDestination)
    else if !urlOk(pool[0].url) then Some(BadUrl)
    else FirstFault(pool[1..], urlOk)
  }

  method ValidateDestinations(pool: seq<Destination>, urlOk: string -> bool)
    returns (r: Result<seq<Destination>, ValidationError>)
    ensures r == ValidatedPool(pool, urlOk)
  {
    if |pool| == 0 {
      return Ok([]);
    }
    if |pool| > MAX_DESTINATIONS_PER_URL {
      return Err(TooManyDestinations);
    }
    var out := [];
    for i := 0 to |pool|
      invariant out == pool[..i]
      invariant FirstFault(pool, urlOk) == FirstFault(pool[i..], urlOk)
    {
      var d := pool[i];
      assert pool[i..][0] == d && pool[i..][1..] == pool[i + 1..];
      if d.weight < 1 || d.weight > MAX_DESTINATION_WEIGHT {
        return Err(InvalidDestination);
      }
      if !urlOk(d.url) {
        return Err(BadUrl);
      }
      out := out + [Destination(d.url, d.weight)];
    }
    assert out == pool;
    return Ok(out);
  }

  lemma {:induction false} ValidatedPoolIsGood(pool: seq<Destination>, urlOk: string -> bool)
    ensures FirstFault(pool, urlOk).None?
      <==> forall i :: 0 <= i < |pool| ==> GoodDestination(pool[i]) && urlOk(pool[i].url)
    ensures ValidatedPool(pool, urlOk).Ok?
      <==> GoodPool(pool) && forall i :: 0 <= i < |pool| ==> urlOk(pool[i].url)
    ensures GoodPool(pool) <==> |pool| <= 10 && forall i :: 0 <= i < |pool| ==> 1 <= pool[i].weight <= 100
    ensures ValidatedPool(pool, urlOk).Ok? ==> ValidatedPool(pool, urlOk).value == pool
    decreases |pool|
  {
    if pool != [] {
      ValidatedPoolIsGood(pool[1..], urlOk);
      assert pool == [pool[0]] + pool[1..];
    }
  }

  /** Which error a list of tags gets: a tag over 32 bytes first, then more than 16 that remain. */
  lemma TagsRefusedWith(raws: seq<string>)
    ensures Normalized(raws) == Err(InvalidTag) <==> exists i :: 0 <= i < |raws| && ByteLen(TrimSpace(raws[i])) > 32
    ensures Normalized(raws) == Err(TooManyTags) <==>
      (forall i :: 0 <= i < |raws| ==> ByteLen(TrimSpace(raws[i])) <= 32) && |Kept(raws)| > 16
  {
    assert forall i :: 0 <= i < |raws| ==> (TooLong(raws[i]) <==> ByteLen(TrimSpace(raws[i])) > 32);
  }

  /** Which error a pool gets: the first entry that is wrong decides, its weight before its URL. */
  lemma {:induction false} FirstFaultIs(pool: seq<Destination>, urlOk: string -> bool) returns (i: nat)
    requires FirstFault(pool, urlOk).Some?
    ensures i < |pool| && (forall k :: 0 <= k < i ==> 1 <= pool[k].weight <= 100 && urlOk(pool[k].url))
    ensures FirstFault(pool, urlOk) == Some(InvalidDestination) <==> !(1 <= pool[i].weight <= 100)
    ensures FirstFault(pool, urlOk) == Some(BadUrl) <==> 1 <= pool[i].weight <= 100 && !urlOk(pool[i].url)
    decreases |pool|
  {
    if GoodDestination(pool[0]) && urlOk(pool[0].url) {
      i := FirstFaultIs(pool[1..], urlOk);
      assert forall k :: 0 < k <= i ==> pool[k] == pool[1..][k - 1];
      assert pool[i + 1] == pool[1..][i];
      i := i + 1;
    } else {
      i := 0;
    }
  }
}
