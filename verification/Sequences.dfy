/** Counting and cutting in sequences without repetition. */
module Sequences {
  /** Distinct numbers from `lo` up to `hi` are at most `hi - lo` many. */
  lemma {:induction false} Crowded(s: seq<nat>, lo: nat, hi: nat)
    requires lo <= hi && forall i :: 0 <= i < |s| ==> lo <= s[i] < hi
    requires forall i, j :: 0 <= i < j < |s| ==> s[i] != s[j]
    ensures |s| <= hi - lo
    decreases hi
  {
    if |s| > 0 {
      assert lo <= s[0] < hi;
      if hi - 1 in s {
        var i :| 0 <= i < |s| && s[i] == hi - 1;
        Crowded(s[..i] + s[i + 1..], lo, hi - 1);
      } else {
        Crowded(s, lo, hi - 1);
      }
    }
  }

  /** Cutting position `k` out takes away exactly that element. */
  lemma CutMembers<T>(s: seq<T>, k: nat)
    requires k < |s| && forall i, j :: 0 <= i < j < |s| ==> s[i] != s[j]
    ensures forall t :: t in s[..k] + s[k + 1..] <==> t in s && t != s[k]
    ensures var cut := s[..k] + s[k + 1..]; forall i, j :: 0 <= i < j < |cut| ==> cut[i] != cut[j]
  {
    var cut := s[..k] + s[k + 1..];
    forall t | t in s && t != s[k]
      ensures t in cut
    {
      var i :| 0 <= i < |s| && s[i] == t;
      assert cut[if i < k then i else i - 1] == t;
    }
  }

  /** The sum of a weight over a sequence. */
  ghost function Sum<T(!new)>(s: seq<T>, v: T -> nat): nat {
    if s == [] then 0 else v(s[0]) + Sum(s[1..], v)
  }

  lemma {:induction false} SumConcat<T(!new)>(a: seq<T>, b: seq<T>, v: T -> nat)
    ensures Sum(a + b, v) == Sum(a, v) + Sum(b, v)
  {
    if a == [] {
      assert a + b == b;
    } else {
      SumConcat(a[1..], b, v);
      assert (a + b)[1..] == a[1..] + b;
    }
  }

  lemma SumOne<T(!new)>(x: T, v: T -> nat)
    ensures Sum([x], v) == v(x)
  {
    assert [x][1..] == [];
  }

  lemma SumAppend<T(!new)>(s: seq<T>, x: T, v: T -> nat)
    ensures Sum(s + [x], v) == Sum(s, v) + v(x)
  {
    SumConcat(s, [x], v);
    SumOne(x, v);
  }

  lemma SumCut<T(!new)>(s: seq<T>, k: nat, v: T -> nat)
    requires k < |s|
    ensures Sum(s, v) == Sum(s[..k] + s[k + 1..], v) + v(s[k])
  {
    SumConcat(s[..k], s[k + 1..], v);
    SumAppend(s[..k], s[k], v);
    SumConcat(s[..k] + [s[k]], s[k + 1..], v);
    assert s == s[..k] + [s[k]] + s[k + 1..];
  }

  lemma SumUpdate<T(!new)>(s: seq<T>, k: nat, x: T, v: T -> nat)
    requires k < |s|
    ensures Sum(s[k := x], v) + v(s[k]) == Sum(s, v) + v(x)
  {
    SumCut(s, k, v);
    SumCut(s[k := x], k, v);
    assert s[k := x][..k] == s[..k] && s[k := x][k + 1..] == s[k + 1..];
  }
}
