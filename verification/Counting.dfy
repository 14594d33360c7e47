/** How many entries of a list satisfy a predicate: the bookkeeping behind the counters that many
    tasks share. */
module Counting {
  import opened Sequences

  function Count<T>(s: seq<T>, p: T -> bool): (n: nat)
    ensures n <= |s|
  {
    if s == [] then 0 else Count(s[1..], p) + if p(s[0]) then 1 else 0
  }

  lemma {:induction false} CountUpdate<T>(s: seq<T>, i: nat, x: T, p: T -> bool)
    requires i < |s|
    ensures Count(s[i := x], p) == Count(s, p) - (if p(s[i]) then 1 else 0) + (if p(x) then 1 else 0)
  {
    if i == 0 {
      assert s[i := x][1..] == s[1..];
    } else {
      assert s[i := x][1..] == s[1..][i - 1 := x];
      CountUpdate(s[1..], i - 1, x, p);
    }
  }

  lemma {:induction false} CountPush<T>(s: seq<T>, x: T, p: T -> bool)
    ensures Count(s + [x], p) == Count(s, p) + if p(x) then 1 else 0
  {
    if s == [] {
      assert s + [x] == [x];
    } else {
      assert (s + [x])[1..] == s[1..] + [x];
      CountPush(s[1..], x, p);
    }
  }

  lemma {:induction false} CountZero<T>(s: seq<T>, p: T -> bool)
    ensures Count(s, p) == 0 <==> forall i :: 0 <= i < |s| ==> !p(s[i])
  {
    if s != [] {
      CountZero(s[1..], p);
      if Count(s, p) == 0 {
        forall i | 0 <= i < |s| ensures !p(s[i]) {
          assert i > 0 ==> s[i] == s[1..][i - 1];
        }
      }
    }
  }

  /** A larger predicate counts at least as many. */
  lemma {:induction false} CountWeaker<T>(s: seq<T>, p: T -> bool, q: T -> bool)
    requires forall x :: p(x) ==> q(x)
    ensures Count(s, p) <= Count(s, q)
  {
    if s != [] {
      CountWeaker(s[1..], p, q);
    }
  }

  /** Disjoint predicates count apart. */
  lemma {:induction false} CountSplit<T>(s: seq<T>, p: T -> bool, q: T -> bool, r: T -> bool)
    requires forall x :: p(x) <==> q(x) || r(x)
    requires forall x :: !(q(x) && r(x))
    ensures Count(s, p) == Count(s, q) + Count(s, r)
  {
    if s != [] {
      CountSplit(s[1..], p, q, r);
    }
  }

  lemma {:induction false} CountAppend<T>(s: seq<T>, t: seq<T>, p: T -> bool)
    ensures Count(s + t, p) == Count(s, p) + Count(t, p)
  {
    if s == [] {
      assert s + t == t;
    } else {
      assert (s + t)[1..] == s[1..] + t;
      CountAppend(s[1..], t, p);
    }
  }

  /** The sum of a weight over a list. */
  function Weigh<T>(s: seq<T>, w: T -> nat): nat {
    if s == [] then 0 else Weigh(Front(s), w) + w(Last(s))
  }

  lemma {:induction false} WeighUpdate<T>(s: seq<T>, i: nat, x: T, w: T -> nat)
    requires i < |s|
    ensures Weigh(s[i := x], w) == Weigh(s, w) - w(s[i]) + w(x)
  {
    if i == |s| - 1 {
      assert Front(s[i := x]) == Front(s);
    } else {
      assert Front(s[i := x]) == Front(s)[i := x];
      WeighUpdate(Front(s), i, x, w);
    }
  }

  lemma WeighPush<T>(s: seq<T>, x: T, w: T -> nat)
    ensures Weigh(s + [x], w) == Weigh(s, w) + w(x)
  {
    assert Front(s + [x]) == s;
  }
}
