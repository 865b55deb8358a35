/** Counting arguments on sequences. */
module Lists {

  ghost predicate Distinct<T(!new)>(s: seq<T>) {
    forall i, j | 0 <= i < j < |s| :: s[i] != s[j]
  }

  ghost function SetOf<T>(s: seq<T>): set<T> {
    set x | x in s
  }

  lemma {:induction false} SetSize<T(!new)>(s: seq<T>)
    ensures |SetOf(s)| <= |s|
    ensures |SetOf(s)| == |s| <==> Distinct(s)
  {
    if s != [] {
      var init, last := s[..|s| - 1], s[|s| - 1];
      SetSize(init);
      assert s == init + [last];
      assert SetOf(s) == SetOf(init) + {last};
      if last in init {
        var i :| 0 <= i < |init| && init[i] == last;
        assert s[i] == s[|s| - 1];
        assert SetOf(s) == SetOf(init);
      } else {
        assert Distinct(s) <==> Distinct(init);
      }
    }
  }

  lemma {:induction false} SubsetOfSameSize<T>(a: set<T>, b: set<T>)
    requires a <= b && |b| <= |a|
    ensures a == b
  {
    if x :| x in b && x !in a {
      assert |b - {x}| == |b| - 1;
      SubsetSize(a, b - {x});
    }
  }

  lemma {:induction false} SubsetSize<T>(a: set<T>, b: set<T>)
    requires a <= b
    ensures |a| <= |b|
    decreases a
  {
    if a != {} {
      var x :| x in a;
      SubsetSize(a - {x}, b - {x});
    }
  }

  /** Distinct items, all found in a list that is no longer, exhaust that list, which repeats none. */
  lemma {:induction false} Pigeonhole<T(!new)>(a: seq<T>, b: seq<T>)
    requires Distinct(a) && |b| <= |a| && forall x | x in a :: x in b
    ensures forall x | x in b :: x in a
    ensures Distinct(b) && |a| == |b|
  {
    SetSize(a);
    SetSize(b);
    hide Distinct;
    assert SetOf(a) <= SetOf(b);
    SubsetOfSameSize(SetOf(a), SetOf(b));
    forall x | x in b
      ensures x in a
    {
      assert x in SetOf(b);
    }
  }

  lemma {:induction false} Regroup<T>(a: seq<T>, b: seq<T>, c: seq<T>)
    ensures a + (b + c) == (a + b) + c
  {
  }
}
