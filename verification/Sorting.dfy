/** Stable sorting and deduplication of sequences, as the standard library's `sort_by` and
    `dedup` perform them, and the uniqueness of sorted arrangements. */
module Sorting {
  import opened Prelude

  ghost predicate Total<T(!new)>(leq: (T, T) -> bool) {
    && (forall x, y :: leq(x, y) || leq(y, x))
    && (forall x, y, z :: leq(x, y) && leq(y, z) ==> leq(x, z))
  }

  ghost predicate Antisymmetric<T(!new)>(leq: (T, T) -> bool) {
    forall x, y :: leq(x, y) && leq(y, x) ==> x == y
  }

  ghost predicate Ordered<T>(leq: (T, T) -> bool, s: seq<T>) {
    forall i, j :: 0 <= i < j < |s| ==> leq(s[i], s[j])
  }

  /** x placed after every element of s that does not exceed it. */
  function Insert<T>(leq: (T, T) -> bool, s: seq<T>, x: T): seq<T> {
    if s == [] || leq(s[|s| - 1], x) then s + [x]
    else Insert(leq, s[..|s| - 1], x) + [s[|s| - 1]]
  }

  /** The stable arrangement of s. */
  function Sort<T>(leq: (T, T) -> bool, s: seq<T>): seq<T> {
    if s == [] then [] else Insert(leq, Sort(leq, s[..|s| - 1]), s[|s| - 1])
  }

  lemma {:induction false} InsertElements<T>(leq: (T, T) -> bool, s: seq<T>, x: T)
    ensures multiset(Insert(leq, s, x)) == multiset(s) + multiset{x}
    ensures forall y :: y in Insert(leq, s, x) ==> y in s || y == x
  {
    if s != [] && !leq(s[|s| - 1], x) {
      InsertElements(leq, s[..|s| - 1], x);
      assert s == s[..|s| - 1] + [s[|s| - 1]];
    }
  }

  lemma {:induction false} InsertOrdered<T(!new)>(leq: (T, T) -> bool, s: seq<T>, x: T)
    requires Total(leq) && Ordered(leq, s)
    ensures Ordered(leq, Insert(leq, s, x))
  {
    if s != [] {
      var init, last := s[..|s| - 1], s[|s| - 1];
      if leq(last, x) {
        forall i | 0 <= i < |s| ensures leq(s[i], x) {
          assert i == |s| - 1 || leq(s[i], last);
        }
      } else {
        InsertOrdered(leq, init, x);
        InsertElements(leq, init, x);
        forall y | y in Insert(leq, init, x)
          ensures leq(y, last)
        {}
      }
    }
  }

  lemma {:induction false} SortElements<T>(leq: (T, T) -> bool, s: seq<T>)
    ensures multiset(Sort(leq, s)) == multiset(s)
  {
    if s != [] {
      var init, last := s[..|s| - 1], s[|s| - 1];
      SortElements(leq, init);
      InsertElements(leq, Sort(leq, init), last);
      assert s == init + [last];
    }
  }

  lemma {:induction false} SortInOrder<T(!new)>(leq: (T, T) -> bool, s: seq<T>)
    requires Total(leq)
    ensures Ordered(leq, Sort(leq, s))
  {
    if s != [] {
      SortInOrder(leq, s[..|s| - 1]);
      InsertOrdered(leq, Sort(leq, s[..|s| - 1]), s[|s| - 1]);
    }
  }

  lemma {:induction false} SortOrdered<T(!new)>(leq: (T, T) -> bool, s: seq<T>)
    requires Total(leq)
    ensures Ordered(leq, Sort(leq, s)) && multiset(Sort(leq, s)) == multiset(s)
  {
    SortInOrder(leq, s);
    SortElements(leq, s);
  }

  lemma {:induction false} SortMembers<T(!new)>(leq: (T, T) -> bool, s: seq<T>, x: T)
    requires Total(leq)
    ensures x in Sort(leq, s) <==> x in s
  {
    SortOrdered(leq, s);
    assert x in Sort(leq, s) <==> x in multiset(Sort(leq, s));
    assert x in s <==> x in multiset(s);
  }

  lemma {:induction false} SortLength<T>(leq: (T, T) -> bool, s: seq<T>)
    ensures |Sort(leq, s)| == |s|
  {
    if s != [] {
      SortLength(leq, s[..|s| - 1]);
      InsertLength(leq, Sort(leq, s[..|s| - 1]), s[|s| - 1]);
    }
  }

  lemma {:induction false} InsertLength<T>(leq: (T, T) -> bool, s: seq<T>, x: T)
    ensures |Insert(leq, s, x)| == |s| + 1
  {
    if s != [] && !leq(s[|s| - 1], x) {
      InsertLength(leq, s[..|s| - 1], x);
    }
  }

  /** Elements that compare equal both ways are equal, among the members of s. */
  ghost predicate AntisymmetricOn<T(!new)>(leq: (T, T) -> bool, s: seq<T>) {
    forall x, y :: x in s && y in s && leq(x, y) && leq(y, x) ==> x == y
  }

  lemma {:induction false} LastIsGreatest<T(!new)>(leq: (T, T) -> bool, s: seq<T>, x: T)
    requires Total(leq) && Ordered(leq, s) && x in s
    ensures leq(x, s[|s| - 1])
  {
    assert leq(x, x);
  }

  lemma {:induction false} WithoutLast<T>(s: seq<T>)
    requires s != []
    ensures multiset(s[..|s| - 1]) == multiset(s) - multiset{s[|s| - 1]}
  {
    assert s == s[..|s| - 1] + [s[|s| - 1]];
  }

  lemma {:induction false} WithoutAt<T>(s: seq<T>, k: nat)
    requires k < |s|
    ensures multiset(s[..k] + s[k + 1..]) == multiset(s) - multiset{s[k]}
  {
    assert s == s[..k] + [s[k]] + s[k + 1..];
  }

  lemma {:induction false} SameMembers<T>(s: seq<T>, t: seq<T>, x: T)
    requires multiset(s) == multiset(t)
    ensures x in s <==> x in t
  {
    assert x in s <==> x in multiset(s);
    assert x in t <==> x in multiset(t);
  }

  lemma {:induction false} InitArranged<T(!new)>(leq: (T, T) -> bool, s: seq<T>)
    requires s != [] && AntisymmetricOn(leq, s) && Ordered(leq, s)
    ensures AntisymmetricOn(leq, s[..|s| - 1]) && Ordered(leq, s[..|s| - 1])
    ensures multiset(s[..|s| - 1]) == multiset(s) - multiset{s[|s| - 1]}
  {
    forall x | x in s[..|s| - 1] ensures x in s {}
    WithoutLast(s);
  }

  lemma {:induction false} SameLast<T(!new)>(leq: (T, T) -> bool, s: seq<T>, t: seq<T>)
    requires Total(leq) && AntisymmetricOn(leq, s) && s != [] && t != []
    requires Ordered(leq, s) && Ordered(leq, t) && multiset(s) == multiset(t)
    ensures s[|s| - 1] == t[|t| - 1]
  {
    var x, y := s[|s| - 1], t[|t| - 1];
    SameMembers(s, t, x);
    SameMembers(s, t, y);
    LastIsGreatest(leq, s, y);
    LastIsGreatest(leq, t, x);
  }

  lemma {:induction false} SameBagAntisymmetric<T(!new)>(leq: (T, T) -> bool, s: seq<T>, t: seq<T>)
    requires AntisymmetricOn(leq, s) && multiset(s) == multiset(t)
    ensures AntisymmetricOn(leq, t) && |s| == |t|
  {
    assert |s| == |multiset(s)| == |multiset(t)| == |t|;
    forall x | x in t ensures x in s { SameMembers(s, t, x); }
  }

  /** Two ordered arrangements of the same elements are the same sequence. */
  lemma {:induction false} ArrangementUnique<T(!new)>(leq: (T, T) -> bool, s: seq<T>, t: seq<T>)
    requires Total(leq) && AntisymmetricOn(leq, s)
    requires Ordered(leq, s) && Ordered(leq, t) && multiset(s) == multiset(t)
    ensures s == t
  {
    SameBagAntisymmetric(leq, s, t);
    if s != [] {
      var s', t' := s[..|s| - 1], t[..|t| - 1];
      SameLast(leq, s, t);
      InitArranged(leq, s);
      InitArranged(leq, t);
      ArrangementUnique(leq, s', t');
      SameWithLast(s, t);
    }
  }

  lemma {:induction false} SameWithLast<T>(s: seq<T>, t: seq<T>)
    requires s != [] && t != [] && s[..|s| - 1] == t[..|t| - 1] && s[|s| - 1] == t[|t| - 1]
    ensures s == t
  {
    assert s == s[..|s| - 1] + [s[|s| - 1]] && t == t[..|t| - 1] + [t[|t| - 1]];
  }

  // ----- deduplication -----

  /** s without elements equal to their left neighbour. */
  function Dedup<T(==)>(s: seq<T>): seq<T> {
    if s == [] then []
    else if |s| >= 2 && s[|s| - 2] == s[|s| - 1] then Dedup(s[..|s| - 1])
    else Dedup(s[..|s| - 1]) + [s[|s| - 1]]
  }

  ghost predicate Ascending<T>(leq: (T, T) -> bool, s: seq<T>) {
    forall i, j :: 0 <= i < j < |s| ==> leq(s[i], s[j]) && s[i] != s[j]
  }

  lemma {:induction false} DedupMembers<T>(s: seq<T>, x: T)
    ensures x in Dedup(s) <==> x in s
  {
    if s != [] {
      DedupMembers(s[..|s| - 1], x);
      assert s == s[..|s| - 1] + [s[|s| - 1]];
    }
  }

  lemma {:induction false} DedupAscending<T(!new)>(leq: (T, T) -> bool, s: seq<T>)
    requires Total(leq) && Antisymmetric(leq) && Ordered(leq, s)
    ensures Ascending(leq, Dedup(s))
  {
    if s != [] {
      var init, last := s[..|s| - 1], s[|s| - 1];
      DedupAscending(leq, init);
      if |s| >= 2 && s[|s| - 2] != last {
        forall i | 0 <= i < |Dedup(init)|
          ensures leq(Dedup(init)[i], last) && Dedup(init)[i] != last
        {
          DedupMembers(init, Dedup(init)[i]);
          var k :| 0 <= k < |init| && init[k] == Dedup(init)[i];
          assert leq(init[k], last) && leq(s[|s| - 2], last);
          assert k == |s| - 2 || leq(init[k], s[|s| - 2]);
        }
      }
    }
  }

  /** An ascending sequence is determined by its members. */
  lemma {:induction false} AscendingUniqueOn<T(!new)>(leq: (T, T) -> bool, s: seq<T>, t: seq<T>)
    requires AntisymmetricOn(leq, s) && Ascending(leq, s) && Ascending(leq, t)
    requires forall x :: x in s <==> x in t
    ensures s == t
  {
    assert s != [] ==> s[0] in s;
    assert t != [] ==> t[0] in t;
    if s != [] && t != [] {
      var x, y := s[|s| - 1], t[|t| - 1];
      assert x in s && y in t;
      var i :| 0 <= i < |t| && t[i] == x;
      var j :| 0 <= j < |s| && s[j] == y;
      assert x == y;
      var s', t' := s[..|s| - 1], t[..|t| - 1];
      forall z
        ensures z in s' <==> z in t'
      {
        assert z in s <==> z in s' || z == x;
        assert z in t <==> z in t' || z == x;
        assert x !in s' && x !in t';
      }
      AscendingUniqueOn(leq, s', t');
    }
  }

  lemma {:induction false} AscendingUnique<T(!new)>(leq: (T, T) -> bool, s: seq<T>, t: seq<T>)
    requires Antisymmetric(leq) && Ascending(leq, s) && Ascending(leq, t)
    requires forall x :: x in s <==> x in t
    ensures s == t
  {
    AscendingUniqueOn(leq, s, t);
  }

  /** `sort` followed by `dedup`. */
  function SortDedup<T(==)>(leq: (T, T) -> bool, s: seq<T>): seq<T> { Dedup(Sort(leq, s)) }

  lemma {:induction false} SortDedupIsAscending<T(!new)>(leq: (T, T) -> bool, s: seq<T>)
    requires Total(leq) && Antisymmetric(leq)
    ensures Ascending(leq, SortDedup(leq, s))
    ensures forall x :: x in SortDedup(leq, s) <==> x in s
  {
    SortOrdered(leq, s);
    DedupAscending(leq, Sort(leq, s));
    forall x ensures x in SortDedup(leq, s) <==> x in s {
      DedupMembers(Sort(leq, s), x);
      SortMembers(leq, s, x);
    }
  }

  lemma {:induction false} DistinctSameBag<T>(s: seq<T>, t: seq<T>)
    requires Distinct(s) && Distinct(t) && forall x :: x in s <==> x in t
    ensures multiset(s) == multiset(t) && |s| == |t|
  {
    forall x ensures multiset(s)[x] == multiset(t)[x] {
      OnceInBag(s, x);
      OnceInBag(t, x);
      assert x in multiset(s) <==> x in s;
      assert x in multiset(t) <==> x in t;
    }
    assert |s| == |multiset(s)| && |t| == |multiset(t)|;
  }

  // ----- sums, counts and filters -----

  function Sum<T>(f: T -> nat, s: seq<T>): nat { if s == [] then 0 else Sum(f, s[..|s| - 1]) + f(s[|s| - 1]) }

  lemma {:induction false} SumWithout<T>(f: T -> nat, s: seq<T>, k: nat)
    requires k < |s|
    ensures Sum(f, s) == Sum(f, s[..k] + s[k + 1..]) + f(s[k])
  {
    if k == |s| - 1 {
      assert s[..k] + s[k + 1..] == s[..|s| - 1];
    } else {
      var init := s[..|s| - 1];
      SumWithout(f, init, k);
      assert (s[..k] + s[k + 1..])[..|s| - 2] == init[..k] + init[k + 1..];
    }
  }

  /** A sum does not depend on the order of its terms. */
  lemma {:induction false} SumAnyOrder<T>(f: T -> nat, s: seq<T>, t: seq<T>)
    requires multiset(s) == multiset(t)
    ensures Sum(f, s) == Sum(f, t)
  {
    if s == [] {
      assert |multiset(t)| == 0;
    } else {
      var x := s[|s| - 1];
      SameMembers(s, t, x);
      var k: nat :| k < |t| && t[k] == x;
      SumWithout(f, t, k);
      WithoutAt(t, k);
      WithoutLast(s);
      SumAnyOrder(f, s[..|s| - 1], t[..k] + t[k + 1..]);
    }
  }

  function Indicator<T>(p: T -> bool): T -> nat { x => if p(x) then 1 else 0 }

  function Count<T>(p: T -> bool, s: seq<T>): nat { Sum(Indicator(p), s) }

  predicate AtTwo<T>(p: T -> bool, s: seq<T>, i: nat, j: nat) { i < j < |s| && p(s[i]) && p(s[j]) }

  lemma {:induction false} CountSome<T>(p: T -> bool, s: seq<T>)
    ensures Count(p, s) >= 1 <==> exists i: nat :: i < |s| && p(s[i])
  {
    if s != [] {
      CountSome(p, s[..|s| - 1]);
    }
  }

  lemma {:induction false} CountTwo<T>(p: T -> bool, s: seq<T>)
    ensures Count(p, s) >= 2 <==> exists i: nat, j: nat :: AtTwo(p, s, i, j)
  {
    if s != [] {
      var init, n := s[..|s| - 1], |s| - 1;
      CountTwo(p, init);
      CountSome(p, init);
      if i: nat, j: nat :| AtTwo(p, init, i, j) {
        assert AtTwo(p, s, i, j);
      }
      if i: nat :| i < n && p(init[i]) && p(s[n]) {
        assert AtTwo(p, s, i, n);
      }
      if i: nat, j: nat :| AtTwo(p, s, i, j) {
        if j < n {
          assert AtTwo(p, init, i, j);
        } else {
          assert p(init[i]) && p(s[n]);
        }
      }
    }
  }

  /** The elements satisfying p, in order. */
  function Those<T>(p: T -> bool, s: seq<T>): seq<T> {
    if s == [] then []
    else
      var before, x := Those(p, s[..|s| - 1]), s[|s| - 1];
      if p(x) then before + [x] else before
  }

  lemma {:induction false} ThoseMembers<T>(p: T -> bool, s: seq<T>, x: T)
    ensures x in Those(p, s) <==> x in s && p(x)
  {
    if s != [] {
      ThoseMembers(p, s[..|s| - 1], x);
      assert s == s[..|s| - 1] + [s[|s| - 1]];
    }
  }

  lemma {:induction false} ThoseDistinct<T>(p: T -> bool, s: seq<T>)
    requires Distinct(s)
    ensures Distinct(Those(p, s))
  {
    if s != [] {
      var init, last := s[..|s| - 1], s[|s| - 1];
      ThoseDistinct(p, init);
      ThoseMembers(p, init, last);
      assert last !in init;
    }
  }

  lemma {:induction false} ThoseSnoc<T>(p: T -> bool, s: seq<T>, x: T)
    ensures Those(p, s + [x]) == Those(p, s) + if p(x) then [x] else []
  {
    assert (s + [x])[..|s|] == s;
  }

  lemma {:induction false} ThoseConcat<T>(p: T -> bool, s: seq<T>, t: seq<T>)
    ensures Those(p, s + t) == Those(p, s) + Those(p, t)
  {
    if t == [] {
      assert s + t == s;
    } else {
      var init, last := t[..|t| - 1], t[|t| - 1];
      ThoseConcat(p, s, init);
      ThoseSnoc(p, s + init, last);
      assert s + t == s + init + [last];
    }
  }

  lemma {:induction false} ThoseOne<T>(p: T -> bool, x: T)
    ensures Those(p, [x]) == if p(x) then [x] else []
  {
    assert [x] == [] + [x];
    ThoseSnoc(p, [], x);
  }

  lemma {:induction false} BagMiddle<T>(a: seq<T>, x: seq<T>, b: seq<T>)
    ensures multiset(a + x + b) == multiset(a + b) + multiset(x)
  {}

  lemma {:induction false} ThoseParts<T>(p: T -> bool, a: seq<T>, x: T, b: seq<T>)
    ensures Those(p, a + [x] + b) == Those(p, a) + (if p(x) then [x] else []) + Those(p, b)
  {
    ThoseConcat(p, a + [x], b);
    ThoseSnoc(p, a, x);
  }

  lemma {:induction false} ThoseBag<T>(p: T -> bool, a: seq<T>, x: T, b: seq<T>)
    ensures multiset(Those(p, a + [x] + b)) == multiset(Those(p, a + b)) + multiset(if p(x) then [x] else [])
  {
    ThoseParts(p, a, x, b);
    ThoseConcat(p, a, b);
    BagMiddle(Those(p, a), if p(x) then [x] else [], Those(p, b));
  }

  lemma {:induction false} ThoseStep<T>(p: T -> bool, init: seq<T>, x: T, a: seq<T>, b: seq<T>)
    requires multiset(Those(p, init)) == multiset(Those(p, a + b))
    ensures multiset(Those(p, init + [x])) == multiset(Those(p, a + [x] + b))
  {
    ThoseBag(p, a, x, b);
    ThoseSnoc(p, init, x);
  }

  /** The last element of s found in an arrangement of s. */
  lemma {:induction false} Locate<T>(s: seq<T>, t: seq<T>) returns (init: seq<T>, x: T, a: seq<T>, b: seq<T>)
    requires s != [] && multiset(s) == multiset(t)
    ensures s == init + [x] && t == a + [x] + b && multiset(init) == multiset(a + b)
  {
    init, x := s[..|s| - 1], s[|s| - 1];
    SameMembers(s, t, x);
    var k: nat :| k < |t| && t[k] == x;
    a, b := t[..k], t[k + 1..];
    WithoutAt(t, k);
    WithoutLast(s);
  }

  lemma {:induction false} ThoseAnyOrder<T>(p: T -> bool, s: seq<T>, t: seq<T>)
    requires multiset(s) == multiset(t)
    ensures multiset(Those(p, s)) == multiset(Those(p, t))
    decreases |s|
  {
    if s == [] {
      assert |multiset(t)| == 0;
    } else {
      var init, x, a, b := Locate(s, t);
      ThoseAnyOrder(p, init, a + b);
      ThoseStep(p, init, x, a, b);
    }
  }

  lemma {:induction false} SumSnoc<T>(f: T -> nat, s: seq<T>, x: T)
    ensures Sum(f, s + [x]) == Sum(f, s) + f(x)
  {
    assert (s + [x])[..|s|] == s;
  }

  // ----- stability -----

  /** Elements satisfying p compare equal to each other. */
  ghost predicate Level<T(!new)>(leq: (T, T) -> bool, p: T -> bool) { forall x, y :: p(x) && p(y) ==> leq(x, y) }

  lemma {:induction false} InsertStable<T(!new)>(leq: (T, T) -> bool, p: T -> bool, s: seq<T>, x: T)
    requires Level(leq, p)
    ensures Those(p, Insert(leq, s, x)) == Those(p, s) + if p(x) then [x] else []
  {
    if s == [] || leq(s[|s| - 1], x) {
      ThoseSnoc(p, s, x);
    } else {
      var init, last := s[..|s| - 1], s[|s| - 1];
      InsertStable(leq, p, init, x);
      ThoseSnoc(p, Insert(leq, init, x), last);
    }
  }

  /** Sorting keeps the order of elements that compare equal. */
  lemma {:induction false} SortStable<T(!new)>(leq: (T, T) -> bool, p: T -> bool, s: seq<T>)
    requires Level(leq, p)
    ensures Those(p, Sort(leq, s)) == Those(p, s)
  {
    if s != [] {
      var init, last := s[..|s| - 1], s[|s| - 1];
      SortStable(leq, p, init);
      InsertStable(leq, p, Sort(leq, init), last);
    }
  }

  lemma {:induction false} ThoseFirst<T>(p: T -> bool, x: T, s: seq<T>)
    ensures Those(p, [x] + s) == (if p(x) then [x] else []) + Those(p, s)
  {
    ThoseConcat(p, [x], s);
    ThoseOne(p, x);
  }

  /** The first element satisfying p is the first of those that do. */
  lemma {:induction false} ThoseHead<T>(p: T -> bool, s: seq<T>) returns (i: nat)
    requires Those(p, s) != []
    ensures i < |s| && s[i] == Those(p, s)[0] && p(s[i]) && forall j :: 0 <= j < i ==> !p(s[j])
  {
    var init := s[..|s| - 1];
    if Those(p, init) != [] {
      i := ThoseHead(p, init);
    } else {
      i := |s| - 1;
      forall j | 0 <= j < i ensures !p(s[j]) {
        ThoseMembers(p, init, init[j]);
      }
    }
  }

  lemma {:induction false} PairInFront<T>(x: T, y: T, rest: seq<T>)
    ensures multiset([x, y] + rest) == multiset{x} + multiset{y} + multiset(rest)
  {
    assert [x, y] + rest == [x] + ([y] + rest);
  }

  lemma {:induction false} BothInFront<T>(s: seq<T>, x: T, y: T) returns (rest: seq<T>)
    requires x in s && y in s && x != y
    ensures multiset([x, y] + rest) == multiset(s) && multiset([y, x] + rest) == multiset(s)
  {
    var i: nat :| i < |s| && s[i] == x;
    var without := s[..i] + s[i + 1..];
    StillThere(s, i, y);
    var j: nat :| j < |without| && without[j] == y;
    rest := without[..j] + without[j + 1..];
    BagWithout(s, i);
    BagWithout(without, j);
    PairInFront(x, y, rest);
    PairInFront(y, x, rest);
  }

  lemma {:induction false} StillThere<T>(s: seq<T>, k: nat, y: T)
    requires k < |s| && y in s && y != s[k]
    ensures y in s[..k] + s[k + 1..]
  {
    assert s == s[..k] + [s[k]] + s[k + 1..];
  }

  lemma {:induction false} BagWithout<T>(s: seq<T>, k: nat)
    requires k < |s|
    ensures multiset(s) == multiset{s[k]} + multiset(s[..k] + s[k + 1..])
  {
    assert s == s[..k] + [s[k]] + s[k + 1..];
  }

  // ----- sorting without repetition -----

  ghost predicate Distinct<T>(s: seq<T>) { forall i, j :: 0 <= i < j < |s| ==> s[i] != s[j] }

  lemma {:induction false} DistinctAscending<T(!new)>(leq: (T, T) -> bool, s: seq<T>)
    requires Total(leq) && Distinct(s)
    ensures Ascending(leq, Sort(leq, s))
  {
    SortOrdered(leq, s);
    var t := Sort(leq, s);
    forall i, j | 0 <= i < j < |t|
      ensures t[i] != t[j]
    {
      if t[i] == t[j] {
        TwiceInBag(t, i, j);
        OnceInBag(s, t[i]);
      }
    }
  }

  lemma {:induction false} TwiceInBag<T>(t: seq<T>, i: nat, j: nat)
    requires i < j < |t| && t[i] == t[j]
    ensures multiset(t)[t[i]] >= 2
  {
    WithoutAt(t, i);
    var rest := t[..i] + t[i + 1..];
    assert rest[j - 1] == t[j];
    assert t[j] in multiset(rest);
  }

  lemma {:induction false} OnceInBag<T>(s: seq<T>, x: T)
    requires Distinct(s)
    ensures multiset(s)[x] <= 1
  {
    if s != [] {
      var init, last := s[..|s| - 1], s[|s| - 1];
      OnceInBag(init, x);
      assert s == init + [last];
      if last == x {
        assert x !in init;
        assert x !in multiset(init);
      }
    }
  }

  // ----- lexicographic order -----

  function LexLeq<T(==)>(leq: (T, T) -> bool, s: seq<T>, t: seq<T>): bool {
    if s == [] then true
    else if t == [] then false
    else if s[0] == t[0] then LexLeq(leq, s[1..], t[1..])
    else leq(s[0], t[0])
  }

  lemma {:induction false} LexTotal<T(!new)>(leq: (T, T) -> bool, s: seq<T>, t: seq<T>)
    requires Total(leq) && Antisymmetric(leq)
    ensures LexLeq(leq, s, t) || LexLeq(leq, t, s)
    ensures LexLeq(leq, s, t) && LexLeq(leq, t, s) ==> s == t
  {
    if s != [] && t != [] && s[0] == t[0] {
      LexTotal(leq, s[1..], t[1..]);
      assert s == [s[0]] + s[1..] && t == [t[0]] + t[1..];
    }
  }

  lemma {:induction false} LexTransitive<T(!new)>(leq: (T, T) -> bool, s: seq<T>, t: seq<T>, u: seq<T>)
    requires Total(leq) && Antisymmetric(leq) && LexLeq(leq, s, t) && LexLeq(leq, t, u)
    ensures LexLeq(leq, s, u)
  {
    if s != [] && s[0] == t[0] && t[0] == u[0] {
      LexTransitive(leq, s[1..], t[1..], u[1..]);
    }
  }

  function CharLeq(a: char, b: char): bool { a <= b }

  function ByteLeq(a: u8, b: u8): bool { a <= b }

  function StringLeq(s: string, t: string): bool { LexLeq(CharLeq, s, t) }

  function BytesLeq(s: seq<u8>, t: seq<u8>): bool { LexLeq(ByteLeq, s, t) }

  lemma {:induction false} StringOrder()
    ensures Total(StringLeq) && Antisymmetric(StringLeq)
  {
    forall s, t ensures (StringLeq(s, t) || StringLeq(t, s)) && (StringLeq(s, t) && StringLeq(t, s) ==> s == t) {
      LexTotal(CharLeq, s, t);
    }
    forall s, t, u | StringLeq(s, t) && StringLeq(t, u) ensures StringLeq(s, u) {
      LexTransitive(CharLeq, s, t, u);
    }
  }

  lemma {:induction false} BytesOrder()
    ensures Total(BytesLeq) && Antisymmetric(BytesLeq)
  {
    forall s, t ensures (BytesLeq(s, t) || BytesLeq(t, s)) && (BytesLeq(s, t) && BytesLeq(t, s) ==> s == t) {
      LexTotal(ByteLeq, s, t);
    }
    forall s, t, u | BytesLeq(s, t) && BytesLeq(t, u) ensures BytesLeq(s, u) {
      LexTransitive(ByteLeq, s, t, u);
    }
  }

  // ----- the orders in terms of characters and bytes -----

  /** At k, where s and t first differ, s ends or has the smaller element. */
  predicate LessAt<T(==)>(leq: (T, T) -> bool, s: seq<T>, t: seq<T>, k: nat) {
    k <= |s| && k < |t| && s[..k] == t[..k] && (k == |s| || (s[k] != t[k] && leq(s[k], t[k])))
  }

  lemma {:induction false} LexLeqMeans<T>(leq: (T, T) -> bool, s: seq<T>, t: seq<T>)
    ensures LexLeq(leq, s, t) <==> s == t || exists k: nat :: LessAt(leq, s, t, k)
  {
    if s == [] {
      assert t != [] ==> LessAt(leq, s, t, 0);
    } else if t != [] {
      forall k: nat ensures s[0] == t[0] ==> (LessAt(leq, s, t, k + 1) <==> LessAt(leq, s[1..], t[1..], k)) {
        LessAtRest(leq, s, t, k);
      }
      forall k: nat ensures s[0] != t[0] ==> (LessAt(leq, s, t, k) <==> k == 0 && leq(s[0], t[0])) {
        LessAtFirst(leq, s, t, k);
      }
      if s[0] == t[0] {
        LexLeqMeans(leq, s[1..], t[1..]);
        assert s == [s[0]] + s[1..] && t == [t[0]] + t[1..];
        if k: nat :| LessAt(leq, s, t, k) {
          assert k > 0 && LessAt(leq, s[1..], t[1..], k - 1);
        }
        if k: nat :| LessAt(leq, s[1..], t[1..], k) {
          assert LessAt(leq, s, t, k + 1);
        }
      } else {
        assert LessAt(leq, s, t, 0) <==> leq(s[0], t[0]);
      }
    }
  }

  lemma {:induction false} LessAtRest<T>(leq: (T, T) -> bool, s: seq<T>, t: seq<T>, k: nat)
    requires s != [] && t != []
    ensures s[0] == t[0] ==> (LessAt(leq, s, t, k + 1) <==> LessAt(leq, s[1..], t[1..], k))
  {
    if k + 1 <= |s| && k + 1 < |t| {
      assert s[..k + 1] == [s[0]] + s[1..][..k] && t[..k + 1] == [t[0]] + t[1..][..k];
      assert s[1..][..k] == s[..k + 1][1..] && t[1..][..k] == t[..k + 1][1..];
    }
  }

  lemma {:induction false} LessAtFirst<T>(leq: (T, T) -> bool, s: seq<T>, t: seq<T>, k: nat)
    requires s != [] && t != []
    ensures s[0] != t[0] ==> (LessAt(leq, s, t, k) <==> k == 0 && leq(s[0], t[0]))
  {
    if 0 < k <= |s| && k < |t| {
      assert s[..k][0] == s[0] && t[..k][0] == t[0];
    }
  }

  /** s comes before t in a dictionary: a proper prefix, or smaller where they first differ. */
  ghost predicate TextBefore(s: string, t: string) {
    exists k: nat :: TextBeforeAt(s, t, k)
  }

  predicate TextBeforeAt(s: string, t: string, k: nat) {
    k <= |s| && k < |t| && s[..k] == t[..k] && (k == |s| || s[k] < t[k])
  }

  ghost predicate BytesBefore(s: seq<u8>, t: seq<u8>) {
    exists k: nat :: BytesBeforeAt(s, t, k)
  }

  predicate BytesBeforeAt(s: seq<u8>, t: seq<u8>, k: nat) {
    k <= |s| && k < |t| && s[..k] == t[..k] && (k == |s| || s[k] < t[k])
  }

  lemma {:induction false} StringLeqMeans(s: string, t: string)
    ensures StringLeq(s, t) <==> s == t || TextBefore(s, t)
  {
    LexLeqMeans(CharLeq, s, t);
    forall k: nat ensures LessAt(CharLeq, s, t, k) <==> TextBeforeAt(s, t, k) {}
  }

  lemma {:induction false} BytesLeqMeans(s: seq<u8>, t: seq<u8>)
    ensures BytesLeq(s, t) <==> s == t || BytesBefore(s, t)
  {
    LexLeqMeans(ByteLeq, s, t);
    forall k: nat ensures LessAt(ByteLeq, s, t, k) <==> BytesBeforeAt(s, t, k) {}
  }
}
