/** Types and sequence facts shared by every component model. */
module Foundation {

  datatype Option<+T> = None | Some(value: T)

  datatype Result<+T, +E> = Ok(value: T) | Err(error: E)

  type Byte = b: int | 0 <= b < 256

  type Bytes = seq<Byte>

  function Max(a: int, b: int): int {
    if a < b then b else a
  }

  function Zeros(n: nat): (zeros: Bytes)
    ensures |zeros| == n
  {
    seq(n, _ => 0)
  }

  function ValueAt<K, V>(entries: map<K, V>, key: K): Option<V> {
    if key in entries then Some(entries[key]) else None
  }

  lemma SameMaps<K(!new), V>(a: map<K, V>, b: map<K, V>)
    requires forall key :: ValueAt(a, key) == ValueAt(b, key)
    ensures a == b
  {
    forall key
      ensures key in a <==> key in b
      ensures key in a ==> a[key] == b[key]
    {
      assert ValueAt(a, key) == ValueAt(b, key);
    }
  }

  /** `part` occurs in `whole` starting at position `at`. */
  ghost predicate At<T>(whole: seq<T>, at: nat, part: seq<T>) {
    at + |part| <= |whole| && whole[at..at + |part|] == part
  }

  lemma AtConcat<T>(whole: seq<T>, at: nat, left: seq<T>, right: seq<T>)
    ensures At(whole, at, left + right) <==> At(whole, at, left) && At(whole, at + |left|, right)
  {
    if At(whole, at, left + right) {
      assert whole[at..at + |left|] == (left + right)[..|left|] == left;
      assert whole[at + |left|..at + |left| + |right|] == (left + right)[|left|..] == right;
    }
    if At(whole, at, left) && At(whole, at + |left|, right) {
      assert whole[at..at + |left| + |right|] == whole[at..at + |left|] + whole[at + |left|..at + |left| + |right|];
    }
  }

  // ---------- lists without repeats ----------

  ghost predicate NoRepeats<T(!new)>(s: seq<T>) {
    forall i, j :: 0 <= i < j < |s| ==> s[i] != s[j]
  }

  /** The elements stand at these rising places of the list. */
  ghost predicate RisesAt<T>(order: seq<T>, elements: seq<T>, places: seq<nat>) {
    && |places| == |elements|
    && (forall i :: 0 <= i < |elements| ==> places[i] < |order| && order[places[i]] == elements[i])
    && forall i, j :: 0 <= i < j < |places| ==> places[i] < places[j]
  }

  /** The set a scan has gathered is the set of the elements scanned. */
  ghost predicate Gathers<T(!new)>(seen: set<T>, s: seq<T>) {
    forall x :: x in seen <==> x in s
  }

  lemma ScanOneMore<T(!new)>(seen: set<T>, s: seq<T>, n: nat)
    requires n < |s| && Gathers(seen, s[..n]) && NoRepeats(s[..n])
    ensures Gathers(seen + {s[n]}, s[..n + 1])
    ensures s[n] in seen ==> !NoRepeats(s)
    ensures s[n] !in seen ==> NoRepeats(s[..n + 1])
  {
    assert s[..n + 1] == s[..n] + [s[n]];
    if s[n] in seen {
      assert s[n] in s[..n];
      var i :| 0 <= i < n && s[..n][i] == s[n];
      assert s[i] == s[n];
    }
  }

  // ---------- permutations ----------

  lemma {:induction false} RepeatsAreCounted<T>(s: seq<T>, i: nat, j: nat)
    requires i < j < |s| && s[i] == s[j]
    ensures multiset(s)[s[i]] >= 2
  {
    assert s == s[..j] + s[j..];
    assert s[..j][i] in multiset(s[..j]) && s[j..][0] in multiset(s[j..]);
  }

  lemma {:induction false} NoRepeatsCountedOnce<T(!new)>(s: seq<T>, x: T)
    requires NoRepeats(s)
    ensures multiset(s)[x] <= 1
    decreases |s|
  {
    if s != [] {
      var front := s[..|s| - 1];
      assert s == front + [s[|s| - 1]];
      NoRepeatsCountedOnce(front, x);
      if x == s[|s| - 1] {
        assert x !in front;
        assert x !in multiset(front);
      }
    }
  }

  /** A permutation of a list without repeats has the same elements and again no repeats. */
  lemma PermutationOfDistinct<T(!new)>(s: seq<T>, t: seq<T>)
    requires multiset(s) == multiset(t) && NoRepeats(s)
    ensures |s| == |t| && NoRepeats(t)
    ensures forall i :: 0 <= i < |t| ==> t[i] in s
    ensures forall i :: 0 <= i < |s| ==> s[i] in t
  {
    assert |multiset(s)| == |s| && |multiset(t)| == |t|;
    forall i | 0 <= i < |t|
      ensures t[i] in s
    {
      assert t[i] in multiset(t);
    }
    forall i | 0 <= i < |s|
      ensures s[i] in t
    {
      assert s[i] in multiset(s);
    }
    forall i, j | 0 <= i < j < |t|
      ensures t[i] != t[j]
    {
      if t[i] == t[j] {
        RepeatsAreCounted(t, i, j);
        NoRepeatsCountedOnce(s, t[i]);
      }
    }
  }
}
