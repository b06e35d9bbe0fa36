// Python's order on strings, and sorting by it.

module Ordering {

  // Lexicographic by code point, strictly.
  predicate Before(a: string, b: string) {
    b != [] && (a == [] || a[0] < b[0] || (a[0] == b[0] && Before(a[1..], b[1..])))
  }

  lemma {:induction false} BeforeTotal(a: string, b: string)
    ensures Before(a, b) || a == b || Before(b, a)
    ensures !(Before(a, b) && Before(b, a)) && (a == b ==> !Before(a, b))
  {
    if a != [] && b != [] {
      BeforeTotal(a[1..], b[1..]);
      assert a == [a[0]] + a[1..] && b == [b[0]] + b[1..];
    }
  }

  lemma {:induction false} BeforeTrans(a: string, b: string, c: string)
    requires Before(a, b) && Before(b, c)
    ensures Before(a, c)
  {
    if a != [] && a[0] == b[0] == c[0] {
      BeforeTrans(a[1..], b[1..], c[1..]);
    }
  }

  // The first difference decides, and a proper prefix comes first.
  predicate EarlierAt(a: string, b: string, k: nat) {
    k <= |a| && k < |b| && a[..k] == b[..k] && (k == |a| || a[k] < b[k])
  }

  lemma {:induction false} BeforeIff(a: string, b: string)
    ensures Before(a, b) <==> exists k: nat :: EarlierAt(a, b, k)
  {
    assert b != [] && (a == [] || a[0] < b[0]) ==> EarlierAt(a, b, 0);
    if a != [] && b != [] && a[0] == b[0] {
      BeforeIff(a[1..], b[1..]);
      if j: nat :| EarlierAt(a[1..], b[1..], j) {
        assert a[..j + 1] == [a[0]] + a[1..][..j] && b[..j + 1] == [b[0]] + b[1..][..j];
        assert EarlierAt(a, b, j + 1);
      }
      if k: nat :| EarlierAt(a, b, k) {
        assert k > 0;
        assert a[1..][..k - 1] == a[..k][1..] && b[1..][..k - 1] == b[..k][1..];
        assert EarlierAt(a[1..], b[1..], k - 1);
      }
    }
    if k: nat :| EarlierAt(a, b, k) {
      assert k > 0 ==> a[..k][0] == a[0] && b[..k][0] == b[0];
    }
  }

  predicate Sorted(s: seq<string>) {
    forall i, j :: 0 <= i < j < |s| ==> Before(s[i], s[j])
  }

  // The sorted enumeration of a set.
  ghost predicate Sorting(s: seq<string>, names: set<string>) {
    Sorted(s) && forall x :: x in s <==> x in names
  }

  // There is only one.
  lemma {:induction false} SortingUnique(s: seq<string>, t: seq<string>, names: set<string>)
    requires Sorting(s, names) && Sorting(t, names)
    ensures s == t
    decreases |s|
  {
    SameLength(s, t, names);
    if s != [] {
      assert s[0] in t && t[0] in s;
      HeadIsLeast(s, t[0]);
      HeadIsLeast(t, s[0]);
      BeforeTotal(s[0], t[0]);
      TailSorting(s, names);
      TailSorting(t, names);
      SortingUnique(s[1..], t[1..], names - {s[0]});
      assert s == [s[0]] + s[1..] && t == [t[0]] + t[1..];
    }
  }

  lemma SameLength(s: seq<string>, t: seq<string>, names: set<string>)
    requires Sorting(s, names) && Sorting(t, names)
    ensures s == [] <==> t == []
  {
    assert s != [] ==> s[0] in names;
    assert t != [] ==> t[0] in names;
  }

  lemma HeadIsLeast(s: seq<string>, x: string)
    requires Sorted(s) && x in s
    ensures x == s[0] || Before(s[0], x)
  {
    var i :| 0 <= i < |s| && s[i] == x;
  }

  lemma TailSorting(s: seq<string>, names: set<string>)
    requires Sorting(s, names) && s != []
    ensures Sorting(s[1..], names - {s[0]})
  {
    forall x
      ensures x in s[1..] <==> x in names && x != s[0]
    {
      if x in s[1..] {
        var i :| 0 <= i < |s| - 1 && s[1..][i] == x;
        assert s[i + 1] == x && Before(s[0], s[i + 1]);
        BeforeTotal(s[0], x);
      }
      assert x in s ==> x == s[0] || x in s[1..];
    }
  }

  // Adding one name.
  lemma InsertSorting(s: seq<string>, names: set<string>, x: string, i: nat)
    requires Sorting(s, names) && x !in names && i <= |s|
    requires forall k :: 0 <= k < i ==> Before(s[k], x)
    requires i < |s| ==> Before(x, s[i])
    ensures Sorting(s[..i] + [x] + s[i..], names + {x})
  {
    var t := s[..i] + [x] + s[i..];
    forall j, k | 0 <= j < k < |t|
      ensures Before(t[j], t[k])
    {
      if j == i && k > i + 1 {
        BeforeTrans(x, s[i], s[k - 1]);
      }
    }
    assert s == s[..i] + s[i..];
  }

  method SortNames(names: set<string>) returns (order: seq<string>)
    ensures Sorting(order, names)
  {
    hide Sorting, Before;
    order := [];
    var rest := names;
    EmptySorting();
    assert names - rest == {};
    while rest != {}
      invariant rest <= names && Sorting(order, names - rest)
      decreases rest
    {
      var x :| x in rest;
      var i := 0;
      Members(order, names - rest);
      while i < |order| && Before(order[i], x)
        invariant 0 <= i <= |order|
        invariant forall k :: 0 <= k < i ==> Before(order[k], x)
      {
        i := i + 1;
      }
      if i < |order| {
        assert order[i] in order;
        BeforeTotal(order[i], x);
      }
      InsertSorting(order, names - rest, x, i);
      assert names - (rest - {x}) == (names - rest) + {x};
      order := order[..i] + [x] + order[i..];
      rest := rest - {x};
    }
    assert names - rest == names;
  }

  lemma EmptySorting()
    ensures Sorting([], {})
  {
  }

  lemma Members(s: seq<string>, names: set<string>)
    requires Sorting(s, names)
    ensures forall x :: x in s <==> x in names
  {
  }
}
