/** The few facts about sequences that the book, the matcher and the shadow share. */
module Sequences {

  ghost predicate Distinct<T>(s: seq<T>) {
    forall i, j :: 0 <= i < j < |s| ==> s[i] != s[j]
  }

  function RemoveAt<T>(s: seq<T>, i: nat): (r: seq<T>)
    requires i < |s|
    ensures |r| == |s| - 1
  {
    s[..i] + s[i + 1..]
  }

  function Filter<T>(s: seq<T>, p: T -> bool): (r: seq<T>)
    ensures |r| <= |s|
  {
    if s == [] then []
    else if p(s[0]) then [s[0]] + Filter(s[1..], p)
    else Filter(s[1..], p)
  }

  /** Position of the first element satisfying `p`, or `|s|` when there is none. */
  function IndexWhere<T>(s: seq<T>, p: T -> bool): (i: nat)
    ensures i <= |s|
    ensures i < |s| ==> p(s[i])
    ensures forall j :: 0 <= j < i ==> !p(s[j])
  {
    if s == [] then 0
    else if p(s[0]) then 0
    else
      var k := IndexWhere(s[1..], p);
      assert forall j :: 0 <= j < |s[1..]| ==> s[1..][j] == s[j + 1];
      assert forall j :: 1 <= j < k + 1 ==> !p(s[j]) by {
        forall j | 1 <= j < k + 1
          ensures !p(s[j])
        {
          assert !p(s[1..][j - 1]);
        }
      }
      k + 1
  }

  lemma {:induction false} IndexWhereIs<T>(s: seq<T>, p: T -> bool, i: nat)
    requires i < |s| && p(s[i])
    requires forall j :: 0 <= j < i ==> !p(s[j])
    ensures IndexWhere(s, p) == i
  {
  }

  lemma {:induction false} FilterConcat<T>(a: seq<T>, b: seq<T>, p: T -> bool)
    ensures Filter(a + b, p) == Filter(a, p) + Filter(b, p)
  {
    if a == [] {
      assert a + b == b;
    } else {
      assert (a + b)[1..] == a[1..] + b;
      FilterConcat(a[1..], b, p);
    }
  }

  /** Splitting a filtered sequence around one element. */
  lemma {:induction false} FilterSplit<T>(s: seq<T>, i: nat, p: T -> bool)
    requires i < |s|
    ensures Filter(s, p) == Filter(s[..i], p) + (if p(s[i]) then [s[i]] else []) + Filter(s[i + 1..], p)
    ensures p(s[i]) ==> |Filter(s[..i], p)| < |Filter(s, p)| && Filter(s, p)[|Filter(s[..i], p)|] == s[i]
  {
    assert s == s[..i] + ([s[i]] + s[i + 1..]);
    FilterConcat(s[..i], [s[i]] + s[i + 1..], p);
    assert ([s[i]] + s[i + 1..])[1..] == s[i + 1..];
  }

  lemma {:induction false} FilterRemove<T>(s: seq<T>, i: nat, p: T -> bool)
    requires i < |s|
    ensures p(s[i]) ==>
              |Filter(s[..i], p)| < |Filter(s, p)| &&
              Filter(RemoveAt(s, i), p) == RemoveAt(Filter(s, p), |Filter(s[..i], p)|)
    ensures !p(s[i]) ==> Filter(RemoveAt(s, i), p) == Filter(s, p)
  {
    FilterSplit(s, i, p);
    FilterConcat(s[..i], s[i + 1..], p);
  }

  lemma {:induction false} FilterUpdate<T>(s: seq<T>, i: nat, x: T, p: T -> bool)
    requires i < |s|
    requires p(x) == p(s[i])
    ensures p(x) ==>
              |Filter(s[..i], p)| < |Filter(s, p)| &&
              Filter(s[i := x], p) == Filter(s, p)[|Filter(s[..i], p)| := x]
    ensures !p(x) ==> Filter(s[i := x], p) == Filter(s, p)
  {
    FilterSplit(s, i, p);
    var t := s[i := x];
    FilterSplit(t, i, p);
    assert t[..i] == s[..i] && t[i + 1..] == s[i + 1..];
  }

  lemma {:induction false} FilterMember<T>(s: seq<T>, p: T -> bool, x: T)
    ensures x in Filter(s, p) <==> x in s && p(x)
  {
    if s != [] {
      FilterMember(s[1..], p, x);
      assert s == [s[0]] + s[1..];
    }
  }

  lemma {:induction false} FilterMembers<T>(s: seq<T>, p: T -> bool)
    ensures forall i :: 0 <= i < |Filter(s, p)| ==> Filter(s, p)[i] in s && p(Filter(s, p)[i])
  {
    forall i | 0 <= i < |Filter(s, p)|
      ensures Filter(s, p)[i] in s && p(Filter(s, p)[i])
    {
      FilterMember(s, p, Filter(s, p)[i]);
    }
  }

  lemma {:induction false} FilterCongruent<T>(s: seq<T>, p: T -> bool, q: T -> bool)
    requires forall i :: 0 <= i < |s| ==> p(s[i]) == q(s[i])
    ensures Filter(s, p) == Filter(s, q)
  {
    if s != [] {
      assert forall i :: 0 <= i < |s[1..]| ==> s[1..][i] == s[i + 1];
      FilterCongruent(s[1..], p, q);
    }
  }

  lemma {:induction false} FilterNone<T>(s: seq<T>, p: T -> bool)
    requires forall i :: 0 <= i < |s| ==> !p(s[i])
    ensures Filter(s, p) == []
  {
    if s != [] {
      FilterNone(s[1..], p);
    }
  }

  lemma {:induction false} FilterAll<T>(s: seq<T>, p: T -> bool)
    requires forall i :: 0 <= i < |s| ==> p(s[i])
    ensures Filter(s, p) == s
  {
    if s != [] {
      FilterAll(s[1..], p);
    }
  }

  lemma {:induction false} FilterDistinct<T>(s: seq<T>, p: T -> bool)
    requires Distinct(s)
    ensures Distinct(Filter(s, p))
  {
    if s != [] {
      FilterDistinct(s[1..], p);
      FilterMember(s[1..], p, s[0]);
    }
  }

  lemma {:induction false} FilterCommutes<T>(s: seq<T>, p: T -> bool, q: T -> bool)
    ensures Filter(Filter(s, p), q) == Filter(Filter(s, q), p)
  {
    if s != [] {
      FilterCommutes(s[1..], p, q);
      var fp, fq := Filter(s[1..], p), Filter(s[1..], q);
      assert ([s[0]] + fp)[1..] == fp;
      assert ([s[0]] + fq)[1..] == fq;
    }
  }

  /** The head of a filtered sequence is the first match of the original one. */
  lemma {:induction false} FilterHead<T>(s: seq<T>, p: T -> bool)
    ensures (Filter(s, p) != []) <==> IndexWhere(s, p) < |s|
    ensures Filter(s, p) != [] ==> Filter(s, p)[0] == s[IndexWhere(s, p)]
    ensures Filter(s[..IndexWhere(s, p)], p) == []
  {
    var i := IndexWhere(s, p);
    FilterNone(s[..i], p);
    if i < |s| {
      FilterSplit(s, i, p);
    } else {
      assert s[..i] == s;
    }
  }

  /** A sequence without repetitions has as many elements as its set of elements. */
  lemma {:induction false} DistinctSize<T>(s: seq<T>, elements: set<T>)
    requires Distinct(s)
    requires forall x :: x in s <==> x in elements
    ensures |s| == |elements|
  {
    if s == [] {
      assert elements == {};
    } else {
      assert s[0] in elements;
      assert s == [s[0]] + s[1..];
      DistinctSize(s[1..], elements - {s[0]});
    }
  }

  lemma DistinctConcat<T>(a: seq<T>, b: seq<T>)
    requires Distinct(a) && Distinct(b)
    requires forall i, j :: 0 <= i < |a| && 0 <= j < |b| ==> a[i] != b[j]
    ensures Distinct(a + b)
  {
  }

  lemma {:induction false} RemoveAtMembers<T>(s: seq<T>, i: nat)
    requires i < |s| && Distinct(s)
    ensures forall x :: x in RemoveAt(s, i) <==> x in s && x != s[i]
    ensures Distinct(RemoveAt(s, i))
  {
  }
}
