/** Filtering and searching sequences. Both functions recurse on the last element, which is
    the order in which the controllers' loops append to their result. */
module Sequences {
  import opened Outcomes

  function Keep<T>(s: seq<T>, p: T -> bool): seq<T> {
    if s == [] then []
    else
      var rest := Keep(s[..|s| - 1], p);
      if p(s[|s| - 1]) then rest + [s[|s| - 1]] else rest
  }

  function First<T>(s: seq<T>, p: T -> bool): Option<T> {
    if s == [] then None
    else
      var earlier := First(s[..|s| - 1], p);
      if earlier.Some? then earlier
      else if p(s[|s| - 1]) then Some(s[|s| - 1]) else None
  }

  ghost predicate NoDuplicates<T>(s: seq<T>) {
    forall i, j :: 0 <= i < j < |s| ==> s[i] != s[j]
  }

  lemma KeepSnoc<T>(s: seq<T>, x: T, p: T -> bool)
    ensures Keep(s + [x], p) == if p(x) then Keep(s, p) + [x] else Keep(s, p)
    ensures First(s + [x], p) == if First(s, p).Some? then First(s, p) else if p(x) then Some(x) else None
  {
    assert (s + [x])[..|s|] == s;
  }

  lemma {:induction false} KeepCount<T>(s: seq<T>, p: T -> bool, x: T)
    ensures multiset(Keep(s, p))[x] == if p(x) then multiset(s)[x] else 0
  {
    if s == [] {
    } else {
      KeepCount(s[..|s| - 1], p, x);
      assert s == s[..|s| - 1] + [s[|s| - 1]];
    }
  }

  lemma KeepMembers<T>(s: seq<T>, p: T -> bool)
    ensures forall x :: x in Keep(s, p) <==> x in s && p(x)
  {
    forall x ensures x in Keep(s, p) <==> x in s && p(x) {
      KeepCount(s, p, x);
      assert x in Keep(s, p) <==> x in multiset(Keep(s, p));
      assert x in s <==> x in multiset(s);
    }
  }

  lemma {:induction false} KeepAll<T>(s: seq<T>, p: T -> bool)
    requires forall x :: x in s ==> p(x)
    ensures Keep(s, p) == s
  {
    if s == [] {
    } else {
      KeepAll(s[..|s| - 1], p);
      assert s == s[..|s| - 1] + [s[|s| - 1]];
    }
  }

  lemma {:induction false} KeepNone<T>(s: seq<T>, p: T -> bool)
    requires forall x :: x in s ==> !p(x)
    ensures Keep(s, p) == []
  {
    if s == [] {
    } else {
      KeepNone(s[..|s| - 1], p);
    }
  }

  /** Two filters that agree on the elements keep the same ones. */
  lemma {:induction false} KeepAgree<T>(s: seq<T>, p: T -> bool, q: T -> bool)
    requires forall x :: x in s ==> p(x) == q(x)
    ensures Keep(s, p) == Keep(s, q)
  {
    if s == [] {
    } else {
      KeepAgree(s[..|s| - 1], p, q);
    }
  }

  lemma {:induction false} KeepCommutes<T>(s: seq<T>, p: T -> bool, q: T -> bool)
    ensures Keep(Keep(s, p), q) == Keep(Keep(s, q), p)
  {
    if s == [] {
    } else {
      var init, last := s[..|s| - 1], s[|s| - 1];
      KeepCommutes(init, p, q);
      KeepSnoc(Keep(init, p), last, q);
      KeepSnoc(Keep(init, q), last, p);
    }
  }

  /** A filter that passes everything searched for does not change what the search finds. */
  lemma {:induction false} FirstOfKeep<T>(s: seq<T>, p: T -> bool, target: T -> bool)
    requires forall x :: target(x) ==> p(x)
    ensures First(Keep(s, p), target) == First(s, target)
  {
    if s == [] {
    } else {
      var init, last := s[..|s| - 1], s[|s| - 1];
      FirstOfKeep(init, p, target);
      KeepSnoc(Keep(init, p), last, target);
    }
  }

  /** The search finds nothing exactly if nothing is there. */
  lemma {:induction false} FirstSound<T>(s: seq<T>, p: T -> bool)
    ensures First(s, p).None? <==> forall x :: x in s ==> !p(x)
  {
    if s == [] {
    } else {
      FirstSound(s[..|s| - 1], p);
      assert s == s[..|s| - 1] + [s[|s| - 1]];
    }
  }

  /** What it finds is the earliest match. */
  lemma {:induction false} FirstIsEarliest<T>(s: seq<T>, p: T -> bool) returns (i: nat)
    requires First(s, p).Some?
    ensures i < |s| && s[i] == First(s, p).value && p(s[i]) && forall j :: 0 <= j < i ==> !p(s[j])
  {
    var init := s[..|s| - 1];
    if First(init, p).Some? {
      i := FirstIsEarliest(init, p);
      assert forall j :: 0 <= j <= i ==> s[j] == init[j];
    } else {
      i := |s| - 1;
      FirstSound(init, p);
      assert forall j :: 0 <= j < i ==> s[j] in init;
    }
  }

  /** A set is as large as a duplicate-free sequence of its elements. */
  lemma {:induction false} SetSize<T>(s: seq<T>)
    ensures |set x | x in s| <= |s|
    ensures |set x | x in s| == |s| <==> NoDuplicates(s)
  {
    if s == [] {
    } else {
      var init, last := s[..|s| - 1], s[|s| - 1];
      SetSize(init);
      var inner := set x | x in init;
      assert (set x | x in s) == inner + {last} by {
        assert s == init + [last];
      }
      if last in init {
        assert inner + {last} == inner;
        var i :| 0 <= i < |init| && init[i] == last;
        assert s[i] == s[|s| - 1];
      } else {
        assert |inner + {last}| == |inner| + 1;
        if NoDuplicates(init) {
          forall i, j | 0 <= i < j < |s| ensures s[i] != s[j] {
            if j == |s| - 1 { assert s[i] == init[i]; } else { assert s[i] == init[i] && s[j] == init[j]; }
          }
        } else {
          var i, j :| 0 <= i < j < |init| && init[i] == init[j];
          assert s[i] == s[j];
        }
      }
    }
  }

  lemma {:induction false} NoDuplicatesCount<T>(s: seq<T>, x: T)
    requires NoDuplicates(s)
    ensures multiset(s)[x] == if x in s then 1 else 0
  {
    if s == [] {
    } else {
      var init, last := s[..|s| - 1], s[|s| - 1];
      assert s == init + [last];
      NoDuplicatesCount(init, x);
      assert forall i :: 0 <= i < |init| ==> init[i] == s[i];
      assert last !in init;
    }
  }

  lemma SubsetOfEqualSize<T>(a: set<T>, b: set<T>)
    requires a <= b && |a| == |b|
    ensures a == b
  {
    if a != b {
      var x :| x in b && x !in a;
      assert a <= b - {x};
      SubsetSize(a, b - {x});
    }
  }

  lemma {:induction false} SubsetSize<T>(a: set<T>, b: set<T>)
    requires a <= b
    ensures |a| <= |b|
    decreases a
  {
    if a == {} {
    } else {
      var x :| x in a;
      SubsetSize(a - {x}, b - {x});
    }
  }

  /** The pigeonhole step behind comparing two lists by size and inclusion only: when the
      reference list has no duplicates, the comparison is exact for duplicate-free lists. */
  lemma SizeAndInclusionExact<T>(a: seq<T>, b: seq<T>)
    requires NoDuplicates(b)
    ensures multiset(a) == multiset(b) <==>
            NoDuplicates(a) && |a| == |set x | x in b| && forall x :: x in a ==> x in b
  {
    SetSize(a);
    SetSize(b);
    if multiset(a) == multiset(b) {
      assert |a| == |multiset(a)| == |b|;
      assert forall x :: x in a <==> x in multiset(a);
      assert forall x :: x in b <==> x in multiset(b);
      assert (set x | x in a) == (set x | x in b);
    } else if NoDuplicates(a) && |a| == |set x | x in b| && forall x :: x in a ==> x in b {
      var setA, setB := set x | x in a, set x | x in b;
      SubsetOfEqualSize(setA, setB);
      forall x ensures multiset(a)[x] == multiset(b)[x] {
        NoDuplicatesCount(a, x);
        NoDuplicatesCount(b, x);
        assert x in a <==> x in setA;
      }
      assert false;
    }
  }
}
