/** Texts cut at every occurrence of a mark, as slash-separated paths and pointers are. */
module Splitting {

  function Split<T(==)>(text: seq<T>, mark: T): (parts: seq<seq<T>>)
    ensures parts != []
  {
    if text == [] then [[]]
    else
      var rest := Split(text[1..], mark);
      if text[0] == mark then [[]] + rest else [[text[0]] + rest[0]] + rest[1..]
  }

  function Join<T>(parts: seq<seq<T>>, mark: T): seq<T>
    requires parts != []
  {
    if |parts| == 1 then parts[0] else parts[0] + ([mark] + Join(parts[1..], mark))
  }

  predicate MarkFree<T(==)>(part: seq<T>, mark: T) {
    forall i :: 0 <= i < |part| ==> part[i] != mark
  }

  lemma {:induction false} JoinSplit<T>(text: seq<T>, mark: T)
    ensures Join(Split(text, mark), mark) == text
  {
    if text != [] {
      JoinSplit(text[1..], mark);
      var rest := Split(text[1..], mark);
      if text[0] == mark {
        assert ([[]] + rest)[1..] == rest;
        assert Join(Split(text, mark), mark) == [] + ([mark] + text[1..]);
      } else {
        var parts := [[text[0]] + rest[0]] + rest[1..];
        assert parts[1..] == rest[1..];
        if |rest| > 1 {
          assert Join(parts, mark) == [text[0]] + (rest[0] + ([mark] + Join(rest[1..], mark)));
        }
      }
    }
  }

  lemma {:induction false} SplitMarkFree<T>(text: seq<T>, mark: T)
    ensures forall i :: 0 <= i < |Split(text, mark)| ==> MarkFree(Split(text, mark)[i], mark)
  {
    if text != [] {
      SplitMarkFree(text[1..], mark);
    }
  }

  lemma {:induction false} SplitPart<T>(part: seq<T>, more: seq<T>, mark: T)
    requires MarkFree(part, mark) && (more == [] || more[0] == mark)
    ensures Split(part + more, mark) == [part] + (if more == [] then [] else Split(more[1..], mark))
  {
    if part == [] {
      assert part + more == more;
    } else {
      assert (part + more)[1..] == part[1..] + more;
      SplitPart(part[1..], more, mark);
      assert part == [part[0]] + part[1..];
    }
  }

  lemma {:induction false} SplitJoin<T>(parts: seq<seq<T>>, mark: T)
    requires parts != [] && forall i :: 0 <= i < |parts| ==> MarkFree(parts[i], mark)
    ensures Split(Join(parts, mark), mark) == parts
  {
    if |parts| == 1 {
      assert parts[0] + [] == parts[0];
      SplitPart(parts[0], [], mark);
    } else {
      var more := [mark] + Join(parts[1..], mark);
      SplitJoin(parts[1..], mark);
      SplitPart(parts[0], more, mark);
      assert more[1..] == Join(parts[1..], mark);
      assert [parts[0]] + parts[1..] == parts;
    }
  }

  /** The parts once `first` stands before the text. */
  function Extended<T(==)>(first: T, parts: seq<seq<T>>, mark: T): seq<seq<T>>
    requires parts != []
  {
    if first == mark then [[]] + parts else [[first] + parts[0]] + parts[1..]
  }

  lemma SplitCons<T>(first: T, rest: seq<T>, mark: T)
    ensures Split([first] + rest, mark) == Extended(first, Split(rest, mark), mark)
  {
    assert ([first] + rest)[1..] == rest;
  }

  lemma ExtendedConcat<T>(first: T, a: seq<seq<T>>, b: seq<seq<T>>, mark: T)
    requires a != []
    ensures Extended(first, a + b, mark) == Extended(first, a, mark) + b
  {
    assert (a + b)[1..] == a[1..] + b;
  }

  lemma {:induction false} SplitConcat<T>(a: seq<T>, b: seq<T>, mark: T)
    ensures Split(a + [mark] + b, mark) == Split(a, mark) + Split(b, mark)
    decreases |a|
  {
    if a == [] {
      assert a + [mark] + b == [mark] + b;
      SplitCons(mark, b, mark);
    } else {
      assert a == [a[0]] + a[1..];
      assert a + [mark] + b == [a[0]] + (a[1..] + [mark] + b);
      SplitCons(a[0], a[1..] + [mark] + b, mark);
      SplitCons(a[0], a[1..], mark);
      SplitConcat(a[1..], b, mark);
      ExtendedConcat(a[0], Split(a[1..], mark), Split(b, mark), mark);
    }
  }

  lemma {:induction false} JoinConcat<T>(a: seq<seq<T>>, b: seq<seq<T>>, mark: T)
    requires a != [] && b != []
    ensures Join(a + b, mark) == Join(a, mark) + [mark] + Join(b, mark)
    decreases |a|
  {
    assert (a + b)[1..] == a[1..] + b;
    if |a| == 1 {
      assert a[1..] + b == b;
    } else {
      JoinConcat(a[1..], b, mark);
    }
  }

  /** One text continues another behind a mark exactly when its parts continue the other's. */
  lemma ProperPrefix<T>(a: seq<T>, b: seq<T>, mark: T)
    ensures Split(a, mark) < Split(b, mark) <==> a + [mark] <= b
  {
    hide Split, Join;
    if a + [mark] <= b {
      var more := b[|a| + 1..];
      assert b == a + [mark] + more;
      SplitConcat(a, more, mark);
    }
    if Split(a, mark) < Split(b, mark) {
      var rest := Split(b, mark)[|Split(a, mark)|..];
      assert Split(b, mark) == Split(a, mark) + rest;
      JoinConcat(Split(a, mark), rest, mark);
      JoinSplit(a, mark);
      JoinSplit(b, mark);
      assert b == a + [mark] + Join(rest, mark);
    }
  }
}
