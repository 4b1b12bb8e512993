/** Host deny lists: how feed entries become hosts, and which hosts a list blocks. */
module DenyLists {
  import opened Models
  import opened Strings

  /** Lower-casing maps each character on its own, and no other character becomes a dot. */
  type Fold = f: char -> char | forall c :: f(c) == '.' <==> c == '.'
    witness (c: char) => c

  function Lower(s: string, fold: Fold): string {
    seq(|s|, i requires 0 <= i < |s| => fold(s[i]))
  }

  function TrimPrefix(s: string, prefix: string): string {
    if prefix <= s then s[|prefix|..] else s
  }

  function NormalizeHost(raw: string, fold: Fold): string {
    var h := TrimSpace(raw);
    if h == "" || h[0] == '#' then ""
    else TrimPrefix(TrimPrefix(Lower(h, fold), "*."), ".")
  }

  function NormalizedAll(entries: seq<string>, fold: Fold): seq<string> {
    seq(|entries|, i requires 0 <= i < |entries| => NormalizeHost(entries[i], fold))
  }

  function HostsOf(entries: seq<string>, fold: Fold): set<string> {
    set h | h in NormalizedAll(entries, fold) && h != ""
  }

  predicate EndsWith(s: string, suffix: string) {
    |suffix| <= |s| && s[|s| - |suffix|..] == suffix
  }

  /** The entry itself or one of its subdomains. */
  predicate Covers(entry: string, host: string) {
    host == entry || EndsWith(host, "." + entry)
  }

  /** What a list blocks; a nil list blocks nothing. */
  ghost predicate Blocks(list: Option<set<string>>, host: string, fold: Fold) {
    list.Some? && exists e :: e in list.value && Covers(e, Lower(TrimSpace(host), fold))
  }

  /** No list holds the empty host. */
  ghost predicate Valid(list: Option<set<string>>) {
    list.Some? ==> "" !in list.value
  }

  method NewDenyList(entries: seq<string>, fold: Fold) returns (list: Option<set<string>>)
    ensures Valid(list)
    ensures list == if HostsOf(entries, fold) == {} then None else Some(HostsOf(entries, fold))
  {
    if |entries| == 0 {
      return None;
    }
    var hosts: set<string> := {};
    for k := 0 to |entries|
      invariant hosts == HostsOf(entries[..k], fold)
    {
      var h := NormalizeHost(entries[k], fold);
      assert NormalizedAll(entries[..k + 1], fold) == NormalizedAll(entries[..k], fold) + [h];
      if h == "" {
        continue;
      }
      hosts := hosts + {h};
    }
    assert entries[..|entries|] == entries;
    return if hosts == {} then None else Some(hosts);
  }

  function Union(lists: seq<Option<set<string>>>): set<string> {
    if lists == [] then {} else Union(lists[..|lists| - 1]) + lists[|lists| - 1].GetOr({})
  }

  function Merged(lists: seq<Option<set<string>>>): Option<set<string>> {
    if Union(lists) == {} then None else Some(Union(lists))
  }

  method MergeDenyLists(lists: seq<Option<set<string>>>) returns (merged: Option<set<string>>)
    ensures merged == Merged(lists)
  {
    var hosts: set<string> := {};
    for k := 0 to |lists|
      invariant hosts == Union(lists[..k])
    {
      assert lists[..k + 1][..k] == lists[..k];
      if lists[k].None? {
        continue;
      }
      var todo := lists[k].value;
      while todo != {}
        invariant todo <= lists[k].value
        invariant hosts == Union(lists[..k]) + (lists[k].value - todo)
        decreases todo
      {
        var h :| h in todo;
        todo := todo - {h};
        hosts := hosts + {h};
      }
    }
    assert lists[..|lists|] == lists;
    return if hosts == {} then None else Some(hosts);
  }

  /** A merged list blocks what some input blocks, and nothing else. */
  lemma MergedIsDisjunction(lists: seq<Option<set<string>>>, host: string, fold: Fold)
    ensures Blocks(Merged(lists), host, fold)
      <==> exists i :: 0 <= i < |lists| && Blocks(lists[i], host, fold)
  {
    UnionIsDisjunction(lists, host, fold);
  }

  lemma {:induction false} UnionIsDisjunction(lists: seq<Option<set<string>>>, host: string, fold: Fold)
    ensures Blocks(Some(Union(lists)), host, fold)
      <==> exists i :: 0 <= i < |lists| && Blocks(lists[i], host, fold)
  {
    if lists != [] {
      var init, last := lists[..|lists| - 1], lists[|lists| - 1];
      UnionIsDisjunction(init, host, fold);
      var h := Lower(TrimSpace(host), fold);
      if i :| 0 <= i < |lists| && Blocks(lists[i], host, fold) {
        if i < |init| {
          assert Blocks(init[i], host, fold);
          var e :| e in Union(init) && Covers(e, h);
          assert e in Union(lists);
        } else {
          var e :| e in last.value && Covers(e, h);
          assert e in Union(lists);
        }
      }
      if e :| e in Union(lists) && Covers(e, h) {
        if e in Union(init) {
          assert Blocks(Some(Union(init)), host, fold);
          var i :| 0 <= i < |init| && Blocks(init[i], host, fold);
          assert Blocks(lists[i], host, fold);
        } else {
          assert Blocks(lists[|lists| - 1], host, fold);
        }
      }
    }
  }

  /** `strings.Index(s, ".")`. */
  function Dot(s: string): (i: Option<nat>)
    ensures i.None? ==> forall k :: 0 <= k < |s| ==> s[k] != '.'
    ensures i.Some? ==> i.value < |s| && s[i.value] == '.' && forall k :: 0 <= k < i.value ==> s[k] != '.'
  {
    if s == "" then None
    else if s[0] == '.' then Some(0)
    else match Dot(s[1..]) case None => None case Some(i) => Some(i + 1)
  }

  lemma DotOfSuffix(host: string, entry: string)
    requires EndsWith(host, "." + entry)
    ensures host[|host| - |entry| - 1] == '.' && host[|host| - |entry|..] == entry
  {
    var at := |host| - |entry| - 1;
    assert host[at..][0] == '.' && host[at..][1..] == entry;
  }

  /** What a suffix walk can still find behind the first dot. */
  lemma WalkStep(host: string, entry: string)
    ensures Dot(host).None? ==> !EndsWith(host, "." + entry)
    ensures Dot(host).Some? ==>
      (EndsWith(host, "." + entry) <==> Covers(entry, host[Dot(host).value + 1..]))
  {
    if EndsWith(host, "." + entry) {
      DotOfSuffix(host, entry);
    }
    if Dot(host).Some? {
      FirstDot(host, entry, Dot(host).value);
    }
  }

  lemma FirstDot(host: string, entry: string, i: nat)
    requires i < |host| && host[i] == '.' && forall k :: 0 <= k < i ==> host[k] != '.'
    ensures EndsWith(host, "." + entry) <==> Covers(entry, host[i + 1..])
  {
    var dotted, rest := "." + entry, host[i + 1..];
    if EndsWith(host, dotted) {
      DotOfSuffix(host, entry);
      var at := |host| - |dotted|;
      if at > i {
        assert rest[|rest| - |dotted|..] == host[at..];
      }
    }
    if rest == entry {
      assert host[i..] == dotted;
    } else if EndsWith(rest, dotted) {
      assert host[|host| - |dotted|..] == rest[|rest| - |dotted|..];
    }
  }

  /** The walk over the labels ends and finds exactly the entries that cover the host. */
  method Contains(list: Option<set<string>>, host: string, fold: Fold) returns (found: bool)
    requires Valid(list)
    ensures found <==> Blocks(list, host, fold)
  {
    if list.None? || list.value == {} {
      return false;
    }
    var hosts := list.value;
    var h := Lower(TrimSpace(host), fold);
    ghost var whole := h;
    if h == "" {
      return false;
    }
    if h in hosts {
      assert Covers(h, whole);
      return true;
    }
    while true
      invariant h !in hosts
      invariant forall e :: e in hosts ==> (Covers(e, whole) <==> EndsWith(h, "." + e))
      decreases |h|
    {
      forall e | e in hosts
        ensures Dot(h).None? ==> !EndsWith(h, "." + e)
        ensures Dot(h).Some? ==> (EndsWith(h, "." + e) <==> Covers(e, h[Dot(h).value + 1..]))
      {
        WalkStep(h, e);
      }
      var idx := Dot(h);
      if idx.None? {
        return false;
      }
      h := h[idx.value + 1..];
      if h in hosts {
        return true;
      }
    }
  }

  // ---------- what the answers mean ----------

  lemma LowerParts(a: string, b: string, fold: Fold)
    ensures Lower(a + b, fold) == Lower(a, fold) + Lower(b, fold)
  {
  }

  lemma {:induction false} TrimLeftKeepsDot(label1: string, rest: string)
    ensures exists l :: TrimLeft(label1 + ("." + rest), IsSpace) == l + ("." + rest)
  {
    var s := label1 + ("." + rest);
    if label1 == "" {
      assert s == "." + rest;
      assert s == "" + ("." + rest);
    } else if IsSpace(label1[0]) {
      assert s[1..] == label1[1..] + ("." + rest);
      TrimLeftKeepsDot(label1[1..], rest);
    }
  }

  lemma TrimUnderDot(labels: string, t: string) returns (l: string)
    requires Trimmed(t) && t != ""
    ensures TrimSpace(labels + ("." + t)) == l + ("." + t)
  {
    TrimLeftKeepsDot(labels, t);
    l :| TrimLeft(labels + ("." + t), IsSpace) == l + ("." + t);
    var all := l + ("." + t);
    assert all[|all| - 1] == t[|t| - 1];
  }

  lemma LowerUnderDot(l: string, t: string, fold: Fold)
    ensures Lower(l + ("." + t), fold) == Lower(l, fold) + ("." + Lower(t, fold))
  {
    LowerParts(l, "." + t, fold);
    LowerParts(".", t, fold);
    assert Lower(".", fold) == ".";
  }

  /** Adding labels in front of a blocked host gives a blocked host. */
  lemma SubdomainsBlocked(list: Option<set<string>>, labels: string, host: string, fold: Fold)
    requires Valid(list) && Blocks(list, host, fold)
    ensures Blocks(list, labels + ("." + TrimSpace(host)), fold)
  {
    var t := TrimSpace(host);
    if t == "" {
      EmptySuffixNeverMatches(list, host, fold);
    } else {
      var e :| e in list.value && Covers(e, Lower(t, fold));
      var l := TrimUnderDot(labels, t);
      LowerUnderDot(l, t, fold);
      CoversUnderDot(e, Lower(l, fold), Lower(t, fold));
    }
  }

  lemma CoversUnderDot(entry: string, labels: string, host: string)
    requires Covers(entry, host)
    ensures Covers(entry, labels + ("." + host))
  {
    var all, dotted := labels + ("." + host), "." + entry;
    if host == entry {
      assert all[|labels|..] == dotted;
    } else {
      assert all[|all| - |dotted|..] == host[|host| - |dotted|..];
    }
  }

  /** A blank host matches nothing. */
  lemma EmptySuffixNeverMatches(list: Option<set<string>>, host: string, fold: Fold)
    requires Valid(list) && TrimSpace(host) == ""
    ensures !Blocks(list, host, fold)
  {
    assert Lower("", fold) == "";
  }

  /** Nor does the empty suffix behind a trailing dot: such a host is blocked only by an entry
      that itself ends in a dot. */
  lemma TrailingDotNeedsDottedEntry(list: Option<set<string>>, host: string, fold: Fold) returns (e: string)
    ensures Valid(list) && Blocks(list, host, fold) && EndsWith(TrimSpace(host), ".") ==>
      e in list.value && EndsWith(e, ".")
  {
    var t := TrimSpace(host);
    e := "";
    if Valid(list) && Blocks(list, host, fold) && EndsWith(t, ".") {
      e :| e in list.value && Covers(e, Lower(t, fold));
      LastCharCovered(e, Lower(t, fold));
      assert t[|t| - 1..][0] == '.';
    }
  }

  lemma LastCharCovered(entry: string, h: string)
    requires Covers(entry, h) && entry != ""
    ensures h != "" && entry[|entry| - 1] == h[|h| - 1]
  {
    if h != entry {
      DotOfSuffix(h, entry);
      assert h[|h| - |entry|..][|entry| - 1] == h[|h| - 1];
    }
  }

  lemma PrefixTrimmed(prefix: string, h: string)
    ensures TrimPrefix(prefix + h, prefix) == h
    ensures forall p :: prefix != "" && p != "" && p[0] != prefix[0] ==> TrimPrefix(prefix + h, p) == prefix + h
  {
  }

  /** Feeds may write a host with a leading dot or wildcard. */
  lemma FeedFormats(host: string, fold: Fold)
    requires host != "" && Trimmed(host) && host[0] != '#' && host[0] != '.' && fold(host[0]) != '*'
    requires fold('*') == '*'
    ensures NormalizeHost(host, fold) == Lower(host, fold)
    ensures NormalizeHost("." + host, fold) == Lower(host, fold)
    ensures NormalizeHost("*." + host, fold) == Lower(host, fold)
  {
    var h := Lower(host, fold);
    assert h == [h[0]] + h[1..];
    PrefixTrimmed([h[0]], h[1..]);
    TrimTrimmed(host);
    WithPrefix(".", host, fold);
    PrefixTrimmed(".", h);
    WithPrefix("*.", host, fold);
    PrefixTrimmed("*.", h);
  }

  lemma WithPrefix(prefix: string, host: string, fold: Fold)
    requires host != "" && Trimmed(host) && (prefix == "." || prefix == "*.") && fold('*') == '*'
    ensures TrimSpace(prefix + host) == prefix + host
    ensures Lower(prefix + host, fold) == prefix + Lower(host, fold)
  {
    JoinTrimmed(prefix, host);
    LowerParts(prefix, host, fold);
    assert Lower(prefix, fold) == prefix;
  }

  lemma JoinTrimmed(prefix: string, host: string)
    requires prefix != "" && host != "" && !IsSpace(prefix[0]) && !IsSpace(host[|host| - 1])
    ensures TrimSpace(prefix + host) == prefix + host
  {
    TrimTrimmed(prefix + host);
  }

  /** Letter case does not matter, neither in the host asked about nor in an entry. */
  lemma CaseIgnored(list: Option<set<string>>, a: string, b: string, fold: Fold)
    requires Trimmed(a) && Trimmed(b) && SameFolded(a, b, fold)
    ensures Blocks(list, a, fold) <==> Blocks(list, b, fold)
    ensures (a != "" && b != "" ==> (a[0] == '#' <==> b[0] == '#')) ==> NormalizeHost(a, fold) == NormalizeHost(b, fold)
  {
    TrimTrimmed(a);
    TrimTrimmed(b);
    assert Lower(a, fold) == Lower(b, fold);
  }

  /** The same characters up to case. */
  ghost predicate SameFolded(a: string, b: string, fold: Fold) {
    |a| == |b| && forall i :: 0 <= i < |a| ==> fold(a[i]) == fold(b[i])
  }

  /** Comment lines and blank lines name no host. */
  lemma CommentsIgnored(raw: string, fold: Fold)
    requires TrimSpace(raw) == "" || TrimSpace(raw)[0] == '#'
    ensures NormalizeHost(raw, fold) == ""
  {
  }

  /** From a feed to an answer: a listed host blocks itself and everything under it. */
  lemma ListedHostBlocked(entries: seq<string>, i: nat, labels: string, fold: Fold)
    requires i < |entries| && Trimmed(entries[i]) && entries[i] != "" && entries[i][0] != '#' && entries[i][0] != '.'
    requires fold(entries[i][0]) != '*'
    ensures Blocks(Some(HostsOf(entries, fold)), entries[i], fold)
    ensures Blocks(Some(HostsOf(entries, fold)), labels + ("." + entries[i]), fold)
  {
    var host := entries[i];
    TrimTrimmed(host);
    var h := Lower(host, fold);
    assert h == [h[0]] + h[1..];
    PrefixTrimmed([h[0]], h[1..]);
    assert NormalizedAll(entries, fold)[i] == h;
    assert h in HostsOf(entries, fold) && Covers(h, h);
    SubdomainsBlocked(Some(HostsOf(entries, fold)), labels, host, fold);
  }
}
