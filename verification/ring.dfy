/** The click lists and the audit list in place: a slice that slides down by one when full. */
module Ring {
  import S = StoreSpec

  /** A slice header: the first `len` cells of a backing array. */
  class Slice<T(0)> {
    var data: array<T>
    var len: nat

    constructor ()
      ensures Valid() && fresh(data) && Contents() == []
    {
      data := new T[0];
      len := 0;
    }

    ghost predicate Valid()
      reads this
    {
      len <= data.Length
    }

    ghost function Contents(): seq<T>
      reads this, data
      requires Valid()
    {
      data[..len]
    }

    /** `copy(list, list[1:])`. */
    method SlideDown()
      requires Valid() && len > 0
      modifies data
      ensures Contents() == old(Contents())[1..] + [old(Contents())[len - 1]]
    {
      for i := 0 to len - 1
        invariant forall k :: 0 <= k < i ==> data[k] == old(data[k + 1])
        invariant forall k :: i <= k < len ==> data[k] == old(data[k])
      {
        data[i] := data[i + 1];
      }
      assert forall k :: 0 <= k < len - 1 ==> Contents()[k] == old(Contents())[1..][k];
    }

    /** The built-in append: a full backing array is replaced by a larger copy. */
    method Append(x: T)
      requires Valid()
      modifies this, data
      ensures Valid() && Contents() == old(Contents()) + [x]
      ensures data == old(data) || fresh(data)
    {
      if len == data.Length {
        var larger := new T[2 * len + 1];
        for i := 0 to len
          invariant unchanged(this) && unchanged(data)
          invariant forall k :: 0 <= k < i ==> larger[k] == data[k]
        {
          larger[i] := data[i];
        }
        data := larger;
      }
      data[len] := x;
      len := len + 1;
    }

    /** What RecordClick and LogAudit do to their list. */
    method AppendBounded(x: T, cap: nat)
      requires Valid() && cap > 0
      modifies this, data
      ensures Valid() && Contents() == S.BoundedAppend(old(Contents()), x, cap)
      ensures data == old(data) || fresh(data)
      ensures old(len) <= cap ==> len <= cap
    {
      if len >= cap {
        SlideDown();
        len := len - 1;
      }
      Append(x);
    }

    /** RecentClicks hands out a copy: later slides of the backing array cannot reach it. */
    method Newest(limit: int) returns (out: array<T>)
      requires Valid()
      ensures fresh(out)
      ensures out[..] == S.Reverse(S.LastN(Contents(), if limit <= 0 then S.DEFAULT_LIMIT else limit))
    {
      var n := if limit <= 0 then S.DEFAULT_LIMIT else limit;
      if n > len {
        n := len;
      }
      out := new T[n];
      for i := 0 to n
        invariant forall k :: 0 <= k < i ==> out[k] == data[len - 1 - k]
      {
        out[i] := data[len - 1 - i];
      }
      ghost var asked: nat := if limit <= 0 then S.DEFAULT_LIMIT else limit;
      forall k | 0 <= k < n
        ensures |S.Reverse(S.LastN(Contents(), asked))| == n
        ensures out[k] == S.Reverse(S.LastN(Contents(), asked))[k]
      {
        ReverseLastAt(Contents(), asked, k);
      }
      assert n == 0 ==> S.Reverse(S.LastN(Contents(), asked)) == [];
    }
  }

  lemma ReverseLastAt<T>(s: seq<T>, n: nat, k: nat)
    requires k < n && k < |s|
    ensures |S.Reverse(S.LastN(s, n))| == if n < |s| then n else |s|
    ensures S.Reverse(S.LastN(s, n))[k] == s[|s| - 1 - k]
  {
  }
}
