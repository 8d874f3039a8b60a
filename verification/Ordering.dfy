/** The lexicographic order of Python strings and byte strings, and Python's stable `sorted`. */
module Ordering {
  import opened Foundation

  /** A strict order in which two elements that precede each other neither way count as equal. */
  ghost predicate IsOrder<T(!new)>(before: (T, T) -> bool) {
    && (forall a, b :: before(a, b) ==> !before(b, a))
    && (forall a, b, c :: !before(a, b) && !before(b, c) ==> !before(a, c))
  }

  predicate ByteBefore(a: Byte, b: Byte) {
    a < b
  }

  predicate CharBefore(a: char, b: char) {
    a < b
  }

  predicate LexBefore<T(==)>(before: (T, T) -> bool, a: seq<T>, b: seq<T>) {
    b != [] && (a == [] || before(a[0], b[0]) || (a[0] == b[0] && LexBefore(before, a[1..], b[1..])))
  }

  /** The texts agree up to place `i`, and there the first has the earlier letter. */
  ghost predicate DiffersAt<T>(before: (T, T) -> bool, a: seq<T>, b: seq<T>, i: nat) {
    i < |a| && i < |b| && a[..i] == b[..i] && before(a[i], b[i])
  }

  lemma DiffersLater<T>(before: (T, T) -> bool, a: seq<T>, b: seq<T>, i: nat)
    requires a != [] && b != [] && a[0] == b[0]
    ensures DiffersAt(before, a, b, i + 1) <==> DiffersAt(before, a[1..], b[1..], i)
  {
    if i + 1 <= |a| && i + 1 <= |b| {
      assert a[..i + 1] == [a[0]] + a[1..][..i] && b[..i + 1] == [b[0]] + b[1..][..i];
      assert a[1..][..i] == a[..i + 1][1..] && b[1..][..i] == b[..i + 1][1..];
    }
  }

  /** One text stands before another when it is a shorter beginning of it or their first difference says so. */
  lemma {:induction false} LexMeans<T(!new)>(before: (T, T) -> bool, a: seq<T>, b: seq<T>)
    requires forall x :: !before(x, x)
    ensures LexBefore(before, a, b) <==> a < b || exists i: nat :: DiffersAt(before, a, b, i)
    decreases |a|
  {
    hide DiffersAt;
    if a != [] && b != [] {
      assert DiffersAt(before, a, b, 0) <==> before(a[0], b[0]) by {
        DiffersFirst(before, a, b);
      }
      if a[0] == b[0] {
        LexMeans(before, a[1..], b[1..]);
        assert a == [a[0]] + a[1..] && b == [b[0]] + b[1..];
        forall i: nat
          ensures DiffersAt(before, a, b, i + 1) <==> DiffersAt(before, a[1..], b[1..], i)
        {
          DiffersLater(before, a, b, i);
        }
        assert forall i: nat :: DiffersAt(before, a, b, i) ==> i > 0 && DiffersAt(before, a[1..], b[1..], i - 1) by {
          forall i: nat | DiffersAt(before, a, b, i)
            ensures i > 0 && DiffersAt(before, a[1..], b[1..], i - 1)
          {
            if i > 0 {
              DiffersLater(before, a, b, i - 1);
            }
          }
        }
      } else {
        forall i: nat | i > 0
          ensures !DiffersAt(before, a, b, i)
        {
          DiffersFirst(before, a, b);
        }
      }
    } else {
      forall i: nat
        ensures !DiffersAt(before, a, b, i)
      {
        DiffersInside(before, a, b, i);
      }
    }
  }

  lemma DiffersFirst<T>(before: (T, T) -> bool, a: seq<T>, b: seq<T>)
    requires a != [] && b != []
    ensures DiffersAt(before, a, b, 0) <==> before(a[0], b[0])
    ensures a[0] != b[0] ==> forall i: nat :: i > 0 ==> !DiffersAt(before, a, b, i)
  {
    forall i: nat | i > 0 && DiffersAt(before, a, b, i)
      ensures a[0] == b[0]
    {
      assert a[0] == a[..i][0] && b[0] == b[..i][0];
    }
  }

  lemma DiffersInside<T>(before: (T, T) -> bool, a: seq<T>, b: seq<T>, i: nat)
    ensures DiffersAt(before, a, b, i) ==> a != [] && b != []
  {
  }

  /** On letters that are equal unless one precedes the other, distinct texts are ordered one way. */
  lemma {:induction false} LexIsTotal<T(!new)>(before: (T, T) -> bool, a: seq<T>, b: seq<T>, c: seq<T>)
    requires IsOrder(before) && forall x, y :: !before(x, y) && !before(y, x) ==> x == y
    ensures !LexBefore(before, a, b) && !LexBefore(before, b, c) ==> !LexBefore(before, a, c)
    ensures LexBefore(before, a, b) ==> !LexBefore(before, b, a)
    ensures !LexBefore(before, a, b) && !LexBefore(before, b, a) ==> a == b
    decreases |a| + |b| + |c|
  {
    if a != [] || b != [] || c != [] {
      LexIsTotal(
        before, if a == [] then [] else a[1..], if b == [] then [] else b[1..], if c == [] then [] else c[1..]);
    }
  }

  // ---------- sorting ----------

  function InsertBy<T>(before: (T, T) -> bool, x: T, sorted: seq<T>): seq<T> {
    if sorted == [] || !before(sorted[0], x) then [x] + sorted
    else [sorted[0]] + InsertBy(before, x, sorted[1..])
  }

  /** Python's `sorted` for a key order. */
  function SortBy<T>(before: (T, T) -> bool, s: seq<T>): seq<T> {
    if s == [] then [] else InsertBy(before, s[0], SortBy(before, s[1..]))
  }

  ghost predicate Ordered<T(!new)>(before: (T, T) -> bool, s: seq<T>) {
    forall i, j :: 0 <= i < j < |s| ==> !before(s[j], s[i])
  }

  /** The elements of `s` that tie with `x`, in their order. */
  ghost function Ties<T>(before: (T, T) -> bool, s: seq<T>, x: T): seq<T> {
    if s == [] then []
    else (if !before(s[0], x) && !before(x, s[0]) then [s[0]] else []) + Ties(before, s[1..], x)
  }

  lemma {:induction false} InsertedElements<T>(before: (T, T) -> bool, x: T, sorted: seq<T>)
    ensures multiset(InsertBy(before, x, sorted)) == multiset([x]) + multiset(sorted)
    decreases |sorted|
  {
    if sorted != [] {
      assert sorted == [sorted[0]] + sorted[1..];
      InsertedElements(before, x, sorted[1..]);
    }
  }

  lemma FirstOfAll<T(!new)>(before: (T, T) -> bool, first: T, x: T, others: seq<T>, rest: seq<T>)
    requires multiset(rest) == multiset([x]) + multiset(others) && Ordered(before, rest)
    requires !before(x, first) && forall j :: 0 <= j < |others| ==> !before(others[j], first)
    ensures Ordered(before, [first] + rest)
  {
    forall j | 0 <= j < |rest|
      ensures !before(rest[j], first)
    {
      assert rest[j] in multiset(rest);
      assert rest[j] == x || rest[j] in others;
    }
  }

  lemma {:induction false} InsertedOrder<T(!new)>(before: (T, T) -> bool, x: T, sorted: seq<T>)
    requires IsOrder(before) && Ordered(before, sorted)
    ensures Ordered(before, InsertBy(before, x, sorted))
    decreases |sorted|
  {
    if sorted == [] || !before(sorted[0], x) {
      assert forall j :: 0 < j < |sorted| ==> !before(sorted[j], sorted[0]);
      assert forall j :: 0 <= j < |sorted| ==> !before(sorted[j], x);
    } else {
      InsertedOrder(before, x, sorted[1..]);
      InsertedElements(before, x, sorted[1..]);
      FirstOfAll(before, sorted[0], x, sorted[1..], InsertBy(before, x, sorted[1..]));
    }
  }

  /** Of an element and one before it, at most one ties with `y`. */
  lemma OneTies<T(!new)>(before: (T, T) -> bool, first: T, x: T, y: T)
    requires IsOrder(before) && before(first, x)
    ensures Ties(before, [first], y) == [] || Ties(before, [x], y) == []
  {
    assert before(first, y) || before(y, x);
  }

  lemma TiesCons<T>(before: (T, T) -> bool, first: T, rest: seq<T>, y: T)
    ensures Ties(before, [first] + rest, y) == Ties(before, [first], y) + Ties(before, rest, y)
  {
    assert ([first] + rest)[1..] == rest;
  }

  lemma {:induction false} InsertedTies<T(!new)>(before: (T, T) -> bool, x: T, sorted: seq<T>, y: T)
    requires IsOrder(before)
    ensures Ties(before, InsertBy(before, x, sorted), y) == Ties(before, [x], y) + Ties(before, sorted, y)
    decreases |sorted|
  {
    hide IsOrder, Ties;
    if sorted == [] || !before(sorted[0], x) {
      TiesCons(before, x, sorted, y);
    } else {
      OneTies(before, sorted[0], x, y);
      InsertedTies(before, x, sorted[1..], y);
      TiesCons(before, sorted[0], InsertBy(before, x, sorted[1..]), y);
      TiesCons(before, sorted[0], sorted[1..], y);
      assert sorted == [sorted[0]] + sorted[1..];
    }
  }

  /** The elements come out in order, and elements that tie in the order given. */
  lemma {:induction false} SortIsStable<T(!new)>(before: (T, T) -> bool, s: seq<T>, x: T)
    requires IsOrder(before)
    ensures Ordered(before, SortBy(before, s))
    ensures multiset(SortBy(before, s)) == multiset(s)
    ensures Ties(before, SortBy(before, s), x) == Ties(before, s, x)
    decreases |s|
  {
    if s != [] {
      SortIsStable(before, s[1..], x);
      InsertedOrder(before, s[0], SortBy(before, s[1..]));
      InsertedElements(before, s[0], SortBy(before, s[1..]));
      InsertedTies(before, s[0], SortBy(before, s[1..]), x);
      TiesCons(before, s[0], s[1..], x);
      assert s == [s[0]] + s[1..];
    }
  }

  lemma {:induction false} SortedElements<T>(before: (T, T) -> bool, s: seq<T>)
    ensures multiset(SortBy(before, s)) == multiset(s)
    decreases |s|
  {
    if s != [] {
      SortedElements(before, s[1..]);
      InsertedElements(before, s[0], SortBy(before, s[1..]));
      assert s == [s[0]] + s[1..];
    }
  }

  /** Distinct elements that the order tells apart come out rising. */
  lemma SortRises<T(!new)>(before: (T, T) -> bool, s: seq<T>)
    requires IsOrder(before) && NoRepeats(s)
    requires forall x, y :: x in s && y in s && x != y ==> before(x, y) || before(y, x)
    ensures var sorted := SortBy(before, s);
      multiset(sorted) == multiset(s) && forall i, j :: 0 <= i < j < |sorted| ==> before(sorted[i], sorted[j])
  {
    var sorted := SortBy(before, s);
    if s != [] {
      SortIsStable(before, s, s[0]);
      PermutationOfDistinct(s, sorted);
    }
    hide IsOrder, SortBy;
    forall i, j | 0 <= i < j < |sorted|
      ensures before(sorted[i], sorted[j])
    {
      assert sorted[i] in multiset(sorted) && sorted[j] in multiset(sorted);
    }
  }

  /** A rising list is in order already. */
  lemma {:induction false} RisingIsSorted<T(!new)>(before: (T, T) -> bool, s: seq<T>)
    requires IsOrder(before) && forall i, j :: 0 <= i < j < |s| ==> before(s[i], s[j])
    ensures SortBy(before, s) == s && NoRepeats(s)
    decreases |s|
  {
    if s != [] {
      RisingIsSorted(before, s[1..]);
      assert s == [s[0]] + s[1..];
    }
  }
}
