/** Random base62 codes by rejection sampling, and how many byte tuples give each code. */
module ShortCode {
  import opened Models
  import M = MemoryStore

  type Octet = n: int | 0 <= n < 256

  const LENGTH := 6
  const DIGITS := "0123456789"
  const LOWER := "abcdefghijklmnopqrstuvwxyz"
  const UPPER := "ABCDEFGHIJKLMNOPQRSTUVWXYZ"
  const CHARS := DIGITS + LOWER + UPPER
  const MAX_RETRIES := 5
  const THRESHOLD := 256 - 256 % 62

  // ---------- what the sampler computes ----------

  /** The bytes below the threshold, in stream order. */
  function Accepted(bs: seq<Octet>): seq<Octet> {
    if bs == [] then []
    else
      var before, b := Accepted(bs[..|bs| - 1]), bs[|bs| - 1];
      if b < THRESHOLD then before + [b] else before
  }

  function Char(b: Octet): char {
    CHARS[b % 62]
  }

  function Encode(bs: seq<Octet>): string {
    seq(|bs|, i requires 0 <= i < |bs| => Char(bs[i]))
  }

  /** The byte stream that a list of blocks makes up. */
  function Stream(blocks: seq<seq<Octet>>): seq<Octet> {
    if blocks == [] then [] else Stream(blocks[..|blocks| - 1]) + blocks[|blocks| - 1]
  }

  ghost predicate FullBlocks(blocks: seq<seq<Octet>>, length: nat) {
    forall i :: 0 <= i < |blocks| ==> |blocks[i]| == length
  }

  /** A draw from a stream of blocks, each as long as the code, that fails where it ends: the
      first `length` accepted bytes, whichever blocks they come from, and no block more than
      needed; it fails only if the whole stream accepts too few. */
  ghost predicate Drawn(length: nat, blocks: seq<seq<Octet>>, r: Option<string>, used: nat) {
    && used <= |blocks|
    && (r.None? ==> used == |blocks| && |Accepted(Stream(blocks))| < length)
    && (r.Some? ==>
          var bytes := Accepted(Stream(blocks[..used]));
          && |bytes| >= length && r.value == Encode(bytes[..length])
          && (used > 0 ==> |Accepted(Stream(blocks[..used - 1]))| < length))
  }

  method GenerateRandomBase62(length: nat, blocks: seq<seq<Octet>>) returns (r: Option<string>, used: nat)
    requires FullBlocks(blocks, length)
    ensures Drawn(length, blocks, r, used)
  {
    var code := new char[length](_ => ' ');
    var pos := 0;
    used := 0;
    while pos < length
      invariant pos <= length && used <= |blocks|
      invariant var bytes := Accepted(Stream(blocks[..used]));
        if pos < length then pos == |bytes| && code[..pos] == Encode(bytes)
        else |bytes| >= length && code[..] == Encode(bytes[..length])
      invariant used > 0 ==> |Accepted(Stream(blocks[..used - 1]))| < length
      decreases |blocks| - used
    {
      if used == |blocks| {
        assert blocks[..used] == blocks;
        return None, used;
      }
      pos := Consume(code, pos, blocks[used], Stream(blocks[..used]));
      used := used + 1;
      assert blocks[..used][..used - 1] == blocks[..used - 1];
    }
    return Some(code[..]), used;
  }

  /** One pass over the buffer, from where the code stands to where it is full. */
  method Consume(code: array<char>, start: nat, buf: seq<Octet>, ghost before: seq<Octet>) returns (pos: nat)
    requires start < code.Length && start == |Accepted(before)| && code[..start] == Encode(Accepted(before))
    modifies code
    ensures pos <= code.Length
    ensures var bytes := Accepted(before + buf);
      if pos < code.Length then pos == |bytes| && code[..pos] == Encode(bytes)
      else |bytes| >= code.Length && code[..] == Encode(bytes[..code.Length])
  {
    pos := start;
    assert before + buf[..0] == before;
    for i := 0 to |buf|
      invariant pos < code.Length && pos == |Accepted(before + buf[..i])|
      invariant code[..pos] == Encode(Accepted(before + buf[..i]))
    {
      var b := buf[i];
      AcceptOne(before, buf, i);
      if b >= THRESHOLD {
        continue;
      }
      code[pos] := Char(b);
      pos := pos + 1;
      if pos == code.Length {
        AcceptMore(before + buf[..i + 1], buf[i + 1..]);
        assert before + buf == before + buf[..i + 1] + buf[i + 1..];
        return;
      }
    }
    assert buf[..|buf|] == buf;
  }

  lemma AcceptOne(before: seq<Octet>, buf: seq<Octet>, i: nat)
    requires i < |buf|
    ensures Accepted(before + buf[..i + 1])
      == Accepted(before + buf[..i]) + if buf[i] < THRESHOLD then [buf[i]] else []
  {
    var all := before + buf[..i + 1];
    assert all[..|all| - 1] == before + buf[..i];
  }

  lemma {:induction false} AcceptMore(a: seq<Octet>, b: seq<Octet>)
    ensures Accepted(a) <= Accepted(a + b)
  {
    if b != [] {
      AcceptMore(a, b[..|b| - 1]);
      assert (a + b)[..|a + b| - 1] == a + b[..|b| - 1];
    } else {
      assert a + b == a;
    }
  }

  /** A draw of `code` that starts at block `from` and leaves off at block `next`. */
  ghost function DrawFrom(blocks: seq<seq<Octet>>): (nat, string, nat) -> bool {
    (from: nat, code: string, next: nat) =>
      from <= next <= |blocks| && Drawn(LENGTH, blocks[from..], Some(code), next - from)
  }

  /** Codes drawn one after the other: the k-th starts at `at[k]`, where the one before left off. */
  ghost predicate Chain(codes: seq<string>, at: seq<nat>, draw: (nat, string, nat) -> bool) {
    && |at| == |codes| + 1 && at[0] == 0
    && forall k :: 0 <= k < |codes| ==> draw(at[k], codes[k], at[k + 1])
  }

  lemma ChainGrows(codes: seq<string>, at: seq<nat>, draw: (nat, string, nat) -> bool, code: string, next: nat)
    requires Chain(codes, at, draw) && draw(at[|codes|], code, next)
    ensures Chain(codes + [code], at + [next], draw)
  {
    var more, ats := codes + [code], at + [next];
    forall k | 0 <= k < |more| ensures draw(ats[k], more[k], ats[k + 1]) {
      if k < |codes| {
        assert ats[k] == at[k] && more[k] == codes[k] && ats[k + 1] == at[k + 1];
      }
    }
  }

  /** One round of the retry loop: a code and where its draw left off, or a failed source. */
  method DrawOne(blocks: seq<seq<Octet>>, from: nat) returns (code: Option<string>, next: nat)
    requires FullBlocks(blocks, LENGTH) && from <= |blocks|
    ensures code.Some? ==> next <= |blocks| && |code.value| == LENGTH && DrawFrom(blocks)(from, code.value, next)
    ensures code.None? ==> Fails(blocks, from)
  {
    var used;
    code, used := GenerateRandomBase62(LENGTH, blocks[from..]);
    next := from + used;
  }

  /** The source ends before it accepts enough bytes for another code. */
  ghost predicate Fails(blocks: seq<seq<Octet>>, from: nat) {
    from <= |blocks| && |Accepted(Stream(blocks[from..]))| < LENGTH
  }

  /** At most five codes are drawn: all but the last were taken, and the one returned is free at
      that moment. It gives up after five, or when the random source fails. */
  method GenerateShortCode(storage: M.MemoryStore, blocks: seq<seq<Octet>>)
    returns (r: Option<string>, drawn: seq<string>, ghost at: seq<nat>)
    requires FullBlocks(blocks, LENGTH)
    ensures Chain(drawn, at, DrawFrom(blocks)) && |drawn| <= 5
    ensures forall k :: 0 <= k < |drawn| - 1 ==> drawn[k] in storage.urls
    ensures r.Some? ==>
      && drawn != [] && r.value == drawn[|drawn| - 1]
      && r.value !in storage.urls && |r.value| == 6
    ensures r.None? ==>
      && (forall k :: 0 <= k < |drawn| ==> drawn[k] in storage.urls)
      && (|drawn| == 5 || Fails(blocks, at[|drawn|]))
  {
    drawn, at := [], [0];
    var from := 0;
    for k := 0 to MAX_RETRIES
      invariant Chain(drawn, at, DrawFrom(blocks)) && |drawn| == k && at[k] == from <= |blocks|
      invariant forall i :: 0 <= i < k ==> drawn[i] in storage.urls
    {
      var code, next := DrawOne(blocks, from);
      if code.None? {
        return None, drawn, at;
      }
      ChainGrows(drawn, at, DrawFrom(blocks), code.value, next);
      from := next;
      drawn, at := drawn + [code.value], at + [from];
      if code.value !in storage.urls {
        return code, drawn, at;
      }
    }
    return None, drawn, at;
  }

  // ---------- no character is favoured ----------

  function Power(b: nat, n: nat): nat {
    if n == 0 then 1 else b * Power(b, n - 1)
  }

  lemma DigitAt(i: nat)
    requires i < 10
    ensures DIGITS[i] as int == '0' as int + i
  {
  }

  lemma LowerAt(i: nat)
    requires i < 26
    ensures LOWER[i] as int == 'a' as int + i
  {
  }

  lemma UpperAt(i: nat)
    requires i < 26
    ensures UPPER[i] as int == 'A' as int + i
  {
  }

  lemma CharAt(d: nat)
    requires d < 62
    ensures CHARS[d] as int ==
      if d < 10 then '0' as int + d else if d < 36 then 'a' as int + (d - 10) else 'A' as int + (d - 36)
  {
    if d < 10 {
      DigitAt(d);
    } else if d < 36 {
      LowerAt(d - 10);
    } else {
      UpperAt(d - 36);
    }
  }

  /** The alphabet has no character twice. */
  lemma CharsDistinct(d: nat, e: nat)
    requires d < 62 && e < 62 && CHARS[d] == CHARS[e]
    ensures d == e
  {
    CharAt(d);
    CharAt(e);
  }

  /** The four accepted bytes behind a character. */
  function Behind(d: nat): set<Octet>
    requires d < 62
  {
    {d, d + 62, d + 124, d + 186}
  }

  lemma SameRemainder(b: Octet, d: nat)
    requires b < THRESHOLD && d < 62
    ensures b % 62 == d <==> b in Behind(d)
  {
    var q := b / 62;
    assert b == 62 * q + b % 62 && 0 <= q <= 3;
    assert q == 0 || q == 1 || q == 2 || q == 3;
  }

  lemma FourBytesPerChar(d: nat)
    requires d < 62
    ensures |Behind(d)| == 4
    ensures forall b: Octet :: b in Behind(d) <==> b < THRESHOLD && Char(b) == CHARS[d]
  {
    forall b: Octet ensures b in Behind(d) <==> b < THRESHOLD && Char(b) == CHARS[d] {
      if b < THRESHOLD {
        SameRemainder(b, d);
        if Char(b) == CHARS[d] {
          CharsDistinct(b % 62, d);
        }
      }
    }
    assert Behind(d) == {d} + {d + 62} + {d + 124} + {d + 186};
  }

  /** The tuples of accepted bytes that encode to the characters of the given digits. */
  ghost predicate Yields(t: seq<Octet>, digits: seq<nat>) {
    && |t| == |digits|
    && forall i :: 0 <= i < |t| ==> t[i] < THRESHOLD && digits[i] < 62 && Char(t[i]) == CHARS[digits[i]]
  }

  ghost function Prefixed(b: Octet, ts: set<seq<Octet>>): set<seq<Octet>> {
    set t | t in ts :: [b] + t
  }

  lemma {:induction false} PrefixedSize(b: Octet, ts: set<seq<Octet>>)
    ensures |Prefixed(b, ts)| == |ts|
  {
    if ts != {} {
      var t :| t in ts;
      PrefixedSize(b, ts - {t});
      forall u | u in Prefixed(b, ts - {t}) ensures u != [b] + t {
        assert u[1..] in ts - {t} && ([b] + t)[1..] == t;
      }
      assert Prefixed(b, ts) == Prefixed(b, ts - {t}) + {[b] + t};
    } else {
      assert Prefixed(b, ts) == {};
    }
  }

  ghost function FourWays(d: nat, ts: set<seq<Octet>>): set<seq<Octet>>
    requires d < 62
  {
    Prefixed(d, ts) + Prefixed(d + 62, ts) + Prefixed(d + 124, ts) + Prefixed(d + 186, ts)
  }

  ghost function Tuples(digits: seq<nat>): set<seq<Octet>>
    requires forall i :: 0 <= i < |digits| ==> digits[i] < 62
  {
    if digits == [] then {[]} else FourWays(digits[0], Tuples(digits[1..]))
  }

  lemma {:induction false} TuplesYield(digits: seq<nat>, t: seq<Octet>)
    requires forall i :: 0 <= i < |digits| ==> digits[i] < 62
    ensures t in Tuples(digits) <==> Yields(t, digits)
  {
    if digits != [] {
      FourBytesPerChar(digits[0]);
      if t != [] {
        TuplesYield(digits[1..], t[1..]);
        assert t == [t[0]] + t[1..];
        assert t in Tuples(digits) <==> t[0] in Behind(digits[0]) && t[1..] in Tuples(digits[1..]) by {
          HeadAndTail(t, digits[0], Tuples(digits[1..]));
        }
        assert Yields(t, digits) <==>
          t[0] < THRESHOLD && Char(t[0]) == CHARS[digits[0]] && Yields(t[1..], digits[1..]) by {
          YieldsHeadTail(t, digits);
        }
      }
    }
  }

  lemma HeadAndTail(t: seq<Octet>, d: nat, ts: set<seq<Octet>>)
    requires t != [] && d < 62
    ensures t in FourWays(d, ts) <==> t[0] in Behind(d) && t[1..] in ts
  {
    forall b: Octet ensures t in Prefixed(b, ts) <==> t[0] == b && t[1..] in ts {
      assert t == [t[0]] + t[1..];
      forall u | u in ts && [b] + u == t ensures u == t[1..] {
      }
    }
  }

  lemma YieldsHeadTail(t: seq<Octet>, digits: seq<nat>)
    requires t != [] && digits != [] && digits[0] < 62
    ensures Yields(t, digits) <==>
      t[0] < THRESHOLD && Char(t[0]) == CHARS[digits[0]] && Yields(t[1..], digits[1..])
  {
    if Yields(t[1..], digits[1..]) && t[0] < THRESHOLD && Char(t[0]) == CHARS[digits[0]] {
      forall i | 0 <= i < |t| ensures t[i] < THRESHOLD && digits[i] < 62 && Char(t[i]) == CHARS[digits[i]] {
        if i > 0 {
          assert t[i] == t[1..][i - 1] && digits[i] == digits[1..][i - 1];
        }
      }
    }
  }

  lemma PrefixedApart(a: Octet, b: Octet, ts: set<seq<Octet>>)
    requires a != b
    ensures Prefixed(a, ts) !! Prefixed(b, ts)
  {
    forall t | t in Prefixed(a, ts) ensures t !in Prefixed(b, ts) {
      assert t[0] == a;
    }
  }

  lemma FourPrefixes(d: nat, ts: set<seq<Octet>>)
    requires d < 62
    ensures |FourWays(d, ts)| == 4 * |ts|
  {
    PrefixedSize(d, ts);
    PrefixedSize(d + 62, ts);
    PrefixedSize(d + 124, ts);
    PrefixedSize(d + 186, ts);
    PrefixedApart(d, d + 62, ts);
    PrefixedApart(d, d + 124, ts);
    PrefixedApart(d, d + 186, ts);
    PrefixedApart(d + 62, d + 124, ts);
    PrefixedApart(d + 62, d + 186, ts);
    PrefixedApart(d + 124, d + 186, ts);
  }

  lemma {:induction false} TuplesSize(digits: seq<nat>)
    requires forall i :: 0 <= i < |digits| ==> digits[i] < 62
    ensures |Tuples(digits)| == Power(4, |digits|)
  {
    if digits != [] {
      TuplesSize(digits[1..]);
      TuplesQuadruple(digits);
    }
  }

  lemma TuplesQuadruple(digits: seq<nat>)
    requires digits != [] && forall i :: 0 <= i < |digits| ==> digits[i] < 62
    ensures |Tuples(digits)| == 4 * |Tuples(digits[1..])|
  {
    FourPrefixes(digits[0], Tuples(digits[1..]));
  }

  /** Every code has exactly 4^L accepted byte tuples behind it: all codes of one length are
      equally likely, because the threshold cuts off the incomplete last cycle. */
  lemma EveryCodeEquallyLikely(digits: seq<nat>, code: string)
    requires forall i :: 0 <= i < |digits| ==> digits[i] < 62
    requires |code| == |digits| && forall i :: 0 <= i < |code| ==> code[i] == CHARS[digits[i]]
    ensures forall t: seq<Octet> :: t in Tuples(digits) <==> Accepted(t) == t && Encode(t) == code
    ensures |Tuples(digits)| == Power(4, |code|)
  {
    TuplesSize(digits);
    forall t: seq<Octet> ensures t in Tuples(digits) <==> Accepted(t) == t && Encode(t) == code {
      TuplesYield(digits, t);
      AllAccepted(t);
      YieldsIsEncode(t, digits, code);
    }
  }

  lemma YieldsIsEncode(t: seq<Octet>, digits: seq<nat>, code: string)
    requires forall i :: 0 <= i < |digits| ==> digits[i] < 62
    requires |code| == |digits| && forall i :: 0 <= i < |code| ==> code[i] == CHARS[digits[i]]
    ensures Yields(t, digits) <==> (forall i :: 0 <= i < |t| ==> t[i] < THRESHOLD) && Encode(t) == code
  {
    if |t| == |code| && forall i :: 0 <= i < |t| ==> t[i] < THRESHOLD {
      assert forall i :: 0 <= i < |t| ==> Encode(t)[i] == Char(t[i]);
      if Encode(t) == code {
        forall i | 0 <= i < |t| ensures Char(t[i]) == CHARS[digits[i]] {
          assert Encode(t)[i] == code[i];
        }
      }
    }
  }

  lemma {:induction false} AllAccepted(t: seq<Octet>)
    ensures |Accepted(t)| <= |t|
    ensures Accepted(t) == t <==> forall i :: 0 <= i < |t| ==> t[i] < THRESHOLD
  {
    if t != [] {
      var before := t[..|t| - 1];
      AllAccepted(before);
      assert t == before + [t[|t| - 1]];
    }
  }
}
