/** Strings in code-point order, as Python compares and sorts them. */
module Ordering {

  predicate Less(a: string, b: string) {
    b != [] && (a == [] || a[0] < b[0] || (a[0] == b[0] && Less(a[1..], b[1..])))
  }

  lemma {:induction false} LessIrreflexive(a: string)
    ensures !Less(a, a)
  {
    if a != [] { LessIrreflexive(a[1..]); }
  }

  lemma {:induction false} LessTransitive(a: string, b: string, c: string)
    requires Less(a, b) && Less(b, c)
    ensures Less(a, c)
  {
    if a != [] && a[0] == b[0] == c[0] { LessTransitive(a[1..], b[1..], c[1..]); }
  }

  lemma {:induction false} LessTotal(a: string, b: string)
    ensures a == b || Less(a, b) || Less(b, a)
  {
    if a != [] && b != [] && a[0] == b[0] {
      LessTotal(a[1..], b[1..]);
      assert a == [a[0]] + a[1..] && b == [b[0]] + b[1..];
    }
  }

  /** `x` comes first: before every other member of `s`. */
  ghost predicate IsLeast(x: string, s: set<string>) {
    x in s && forall y :: y in s && y != x ==> Less(x, y)
  }

  ghost predicate Sorted(s: seq<string>) {
    forall i, j :: 0 <= i < j < |s| ==> !Less(s[j], s[i])
  }

  function Insert(x: string, s: seq<string>): seq<string> {
    if s == [] || !Less(s[0], x) then [x] + s else [s[0]] + Insert(x, s[1..])
  }

  function Sort(s: seq<string>): seq<string> {
    if s == [] then [] else Insert(s[0], Sort(s[1..]))
  }

  lemma {:induction false} InsertIsSorted(x: string, s: seq<string>)
    requires Sorted(s)
    ensures multiset(Insert(x, s)) == multiset(s) + multiset{x}
    ensures Sorted(Insert(x, s))
  {
    if s == [] {
    } else if !Less(s[0], x) {
      forall j | 0 <= j < |s| ensures !Less(s[j], x) {
        if Less(s[j], x) {
          LessTotal(s[0], s[j]);
          if j != 0 && Less(s[0], s[j]) { LessTransitive(s[0], s[j], x); }
        }
      }
    } else {
      assert s == [s[0]] + s[1..];
      InsertIsSorted(x, s[1..]);
      var t := Insert(x, s[1..]);
      forall j | 0 <= j < |t| ensures !Less(t[j], s[0]) {
        assert t[j] in multiset(t);
        if t[j] == x {
          if Less(x, s[0]) { LessTransitive(x, s[0], x); LessIrreflexive(x); }
        } else {
          assert t[j] in s[1..];
        }
      }
    }
  }

  lemma {:induction false} SortIsSorted(s: seq<string>)
    ensures multiset(Sort(s)) == multiset(s)
    ensures Sorted(Sort(s))
  {
    if s != [] {
      SortIsSorted(s[1..]);
      InsertIsSorted(s[0], Sort(s[1..]));
      assert s == [s[0]] + s[1..];
    }
  }

  ghost predicate NoDup<T(!new)>(s: seq<T>) {
    forall i, j :: 0 <= i < j < |s| ==> s[i] != s[j]
  }

  ghost function Elems<T(!new)>(s: seq<T>): set<T> {
    set x | x in s
  }

  lemma SameMultisetSameElems<T(!new)>(s: seq<T>, t: seq<T>)
    requires multiset(s) == multiset(t)
    ensures forall x :: x in s <==> x in t
    ensures |s| == |t|
  {
    forall x ensures x in s <==> x in t {
      assert x in s <==> x in multiset(s);
      assert x in t <==> x in multiset(t);
    }
    assert |s| == |multiset(s)| && |t| == |multiset(t)|;
  }

  lemma {:induction false} NoDupIsMultisetOnce<T(!new)>(s: seq<T>)
    ensures NoDup(s) <==> forall x :: multiset(s)[x] <= 1
  {
    if s != [] {
      NoDupIsMultisetOnce(s[1..]);
      assert s == [s[0]] + s[1..];
      assert multiset(s) == multiset{s[0]} + multiset(s[1..]);
      if NoDup(s) {
        assert NoDup(s[1..]);
        assert s[0] !in s[1..];
      } else if NoDup(s[1..]) {
        var i, j :| 0 <= i < j < |s| && s[i] == s[j];
        assert i == 0;
        assert s[j] == s[1..][j - 1];
        assert multiset(s)[s[0]] >= 2;
      } else {
        var x :| multiset(s[1..])[x] > 1;
        assert multiset(s)[x] > 1;
      }
    }
  }

  lemma PermutationKeepsNoDup<T(!new)>(s: seq<T>, t: seq<T>)
    requires multiset(s) == multiset(t) && NoDup(s)
    ensures NoDup(t)
  {
    NoDupIsMultisetOnce(s);
    NoDupIsMultisetOnce(t);
  }

  /** The head of a sorted list without repetitions is its least member. */
  lemma HeadIsLeast(s: seq<string>)
    requires s != [] && Sorted(s)
    ensures IsLeast(s[0], Elems(s))
  {
    forall y | y in s && y != s[0] ensures Less(s[0], y) {
      LessTotal(s[0], y);
    }
  }

  lemma {:induction false} SubsetSize<T(!new)>(a: set<T>, b: set<T>)
    requires a <= b
    ensures |a| <= |b|
  {
    if a != {} {
      var x :| x in a;
      SubsetSize(a - {x}, b - {x});
    }
  }

  /** A walk longer than the set it stays in visits some member twice. */
  lemma {:induction false} Pigeonhole<T(!new)>(p: seq<T>, s: set<T>) returns (i: nat, j: nat)
    requires |p| > |s| && forall k :: 0 <= k < |p| ==> p[k] in s
    ensures i < j < |p| && p[i] == p[j]
  {
    var n := |p| - 1;
    if exists k :: 0 <= k < n && p[k] == p[n] {
      i :| 0 <= i < n && p[i] == p[n];
      j := n;
    } else {
      i, j := Pigeonhole(p[..n], s - {p[n]});
    }
  }
}
