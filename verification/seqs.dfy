/**
  Sequence operations with the meaning JavaScript's arrays give them:
  `indexOf`, `splice` (through its index normalisation), `filter`, `flat`,
  and the remove-then-insert `arrayMove` the drag handler relies on.
 */
module Seqs {

  /** No element occurs twice. */
  predicate Unique<T(==)>(xs: seq<T>)
  {
    forall i, j :: 0 <= i < j < |xs| ==> xs[i] != xs[j]
  }

  /** `Unique` is the same as "every element has multiplicity at most one". */
  lemma {:induction false} UniqueCounts<T>(xs: seq<T>)
    ensures Unique(xs) <==> forall x :: multiset(xs)[x] <= 1
  {
    if xs == [] {
    } else {
      var h, t := xs[0], xs[1..];
      assert xs == [h] + t;
      UniqueCounts(t);
      if Unique(xs) {
        assert Unique(t) by {
          forall i, j | 0 <= i < j < |t| ensures t[i] != t[j] {
            assert t[i] == xs[i + 1] && t[j] == xs[j + 1];
          }
        }
        assert h !in t by {
          forall j | 0 <= j < |t| ensures t[j] != h {
            assert t[j] == xs[j + 1];
          }
        }
        forall x ensures multiset(xs)[x] <= 1 {
          assert multiset(xs)[x] == multiset([h])[x] + multiset(t)[x];
        }
      } else {
        var i, j :| 0 <= i < j < |xs| && xs[i] == xs[j];
        var x := xs[i];
        if i == 0 {
          assert x in t by { assert t[j - 1] == x; }
          assert multiset(xs)[x] == 1 + multiset(t)[x];
        } else {
          assert t[i - 1] == t[j - 1];
          assert !Unique(t);
          var y :| multiset(t)[y] > 1;
          assert multiset(xs)[y] >= multiset(t)[y];
        }
      }
    }
  }

  /** Uniqueness survives any rearrangement. */
  lemma UniquePermutation<T>(xs: seq<T>, ys: seq<T>)
    requires Unique(xs) && multiset(xs) == multiset(ys)
    ensures Unique(ys)
  {
    UniqueCounts(xs);
    UniqueCounts(ys);
  }

  /** Every element of a sub-multiset of a unique sequence occurs once. */
  lemma UniqueSubMultiset<T>(xs: seq<T>, ys: seq<T>)
    requires Unique(xs) && multiset(ys) <= multiset(xs)
    ensures Unique(ys)
  {
    UniqueCounts(xs);
    UniqueCounts(ys);
    forall x ensures multiset(ys)[x] <= 1 {
      assert multiset(ys)[x] <= multiset(xs)[x];
    }
  }

  /** Sub-multisets add up. */
  lemma AddSubMultisets<T>(a: multiset<T>, b: multiset<T>, c: multiset<T>, d: multiset<T>)
    requires a <= c && b <= d
    ensures a + b <= c + d
  {
  }

  /** Swapping one part of a collection for another, seen through the counts. */
  lemma SwapPart<T>(t: seq<T>, t': seq<T>, p: seq<T>, out: seq<T>, inn: seq<T>)
    requires multiset(t') + multiset(out) == multiset(t) + multiset(inn)
    ensures multiset(t' + p) + multiset(out) == multiset(t + p) + multiset(inn)
    ensures multiset(p + t') + multiset(out) == multiset(p + t) + multiset(inn)
  {
    forall x ensures (multiset(t' + p) + multiset(out))[x] == (multiset(t + p) + multiset(inn))[x] {
      assert (multiset(t') + multiset(out))[x] == (multiset(t) + multiset(inn))[x];
    }
    assert multiset(p + t') == multiset(t' + p) && multiset(p + t) == multiset(t + p);
  }

  /** Cancelling a common part: what lost `d` on one side had it on the other. */
  lemma MultisetLose<T>(a: multiset<T>, b: multiset<T>, y: multiset<T>, d: multiset<T>)
    requires a + (y + d) == b + y
    ensures a + d == b
  {
    forall z ensures (a + d)[z] == b[z] {
      assert (a + (y + d))[z] == (b + y)[z];
    }
  }

  /** Cancelling a common part: what gained `d` on one side lacked it on the other. */
  lemma MultisetGain<T>(a: multiset<T>, b: multiset<T>, y: multiset<T>, d: multiset<T>)
    requires a + y == b + (y + d)
    ensures a == b + d
  {
    forall z ensures a[z] == (b + d)[z] {
      assert (a + y)[z] == (b + (y + d))[z];
    }
  }

  /** A sequence without repetitions holds `x` once, so filtering `x` out removes one copy. */
  lemma UniqueWithout<T>(xs: seq<T>, x: T)
    requires Unique(xs) && x in xs
    ensures multiset(Without(xs, x)) + multiset{x} == multiset(xs)
  {
    UniqueCounts(xs);
    forall z ensures (multiset(Without(xs, x)) + multiset{x})[z] == multiset(xs)[z] {
    }
  }

  /** Two parts of a sequence without repetitions share no element. */
  lemma DisjointParts<T>(xs: seq<T>, a: seq<T>, b: seq<T>)
    requires Unique(xs) && multiset(a) + multiset(b) <= multiset(xs)
    ensures forall x :: x in a ==> x !in b
  {
    UniqueCounts(xs);
    forall x | x in a ensures x !in b {
      assert (multiset(a) + multiset(b))[x] <= multiset(xs)[x];
    }
  }

  /** A proper subset is smaller. */
  lemma ProperSubsetSmaller<T>(a: set<T>, b: set<T>)
    requires a <= b && a != b
    ensures |a| < |b|
  {
    var y :| y in b && y !in a;
    assert b == a + (b - a) && a * (b - a) == {};
    assert y in b - a;
  }

  /** In a sequence without repetitions, an element occurs neither before nor after its position. */
  lemma UniqueSplit<T>(xs: seq<T>, i: nat)
    requires Unique(xs) && i < |xs|
    ensures xs == xs[..i] + [xs[i]] + xs[i + 1..]
    ensures xs[i] !in xs[..i] && xs[i] !in xs[i + 1..]
  {
    assert xs == xs[..i] + [xs[i]] + xs[i + 1..];
    var a, b := xs[..i], xs[i + 1..];
    forall j | 0 <= j < |a| ensures a[j] != xs[i] {
    }
    forall j | 0 <= j < |b| ensures b[j] != xs[i] {
      assert b[j] == xs[i + 1 + j];
    }
  }

  /** In a sequence without repetitions, no element occurs again later. */
  lemma UniqueNotLater<T>(xs: seq<T>)
    requires Unique(xs)
    ensures forall i :: 0 <= i < |xs| ==> xs[i] !in xs[i + 1..]
  {
    forall i | 0 <= i < |xs| ensures xs[i] !in xs[i + 1..] {
      UniqueSplit(xs, i);
    }
  }

  /** Appending an element that is not there keeps a sequence free of repetitions. */
  lemma UniqueAppend<T>(xs: seq<T>, x: T)
    requires Unique(xs) && x !in xs
    ensures Unique(xs + [x])
  {
    forall i, j | 0 <= i < j < |xs| + 1 ensures (xs + [x])[i] != (xs + [x])[j] {
      if j == |xs| {
        assert (xs + [x])[i] == xs[i];
      }
    }
  }

  /** JavaScript's `indexOf`: the first position of `x`, or -1. */
  function IndexOf<T(==)>(xs: seq<T>, x: T): (r: int)
    ensures -1 <= r < |xs|
    ensures r == -1 <==> x !in xs
    ensures 0 <= r ==> xs[r] == x && x !in xs[..r]
  {
    if xs == [] then -1
    else if xs[0] == x then 0
    else
      var k := IndexOf(xs[1..], x);
      if k == -1 then -1
      else
        assert xs[..k + 1] == [xs[0]] + xs[1..][..k];
        k + 1
  }

  /** `indexOf` finds the first occurrence. */
  lemma {:induction false} IndexOfFirst<T>(xs: seq<T>, i: nat, x: T)
    requires i < |xs| && xs[i] == x && x !in xs[..i]
    ensures IndexOf(xs, x) == i
  {
    if i > 0 {
      assert xs[..i][0] == xs[0];
      assert xs[1..][i - 1] == x;
      assert xs[1..][..i - 1] == xs[..i][1..];
      IndexOfFirst(xs[1..], i - 1, x);
    }
  }

  /** In a sequence without repetitions, the element at `i` is found at `i`. */
  lemma IndexOfUnique<T>(xs: seq<T>, i: nat)
    requires Unique(xs) && i < |xs|
    ensures IndexOf(xs, xs[i]) == i
  {
    assert xs[i] !in xs[..i] by {
      forall j | 0 <= j < i ensures xs[..i][j] != xs[i] {
        assert xs[..i][j] == xs[j];
      }
    }
    IndexOfFirst(xs, i, xs[i]);
  }

  /**
    The position `splice(start, …)` acts on in an array of length `len`:
    a negative start counts from the end, and both ends are clamped.
   */
  function SpliceStart(len: nat, start: int): (r: nat)
    ensures r <= len
    ensures 0 <= start <= len ==> r == start
    ensures -(len as int) <= start < 0 ==> r == len + start
  {
    if start < 0 then (if len + start < 0 then 0 else len + start)
    else if start > len then len
    else start
  }

  /** `splice(i, 1)` on a copy: the array without its element at `i`. */
  function RemoveAt<T>(xs: seq<T>, i: nat): (r: seq<T>)
    requires i < |xs|
    ensures |r| == |xs| - 1
    ensures forall k :: 0 <= k < i ==> r[k] == xs[k]
    ensures forall k :: i <= k < |r| ==> r[k] == xs[k + 1]
    ensures multiset(r) + multiset{xs[i]} == multiset(xs)
  {
    assert xs == xs[..i] + [xs[i]] + xs[i + 1..];
    xs[..i] + xs[i + 1..]
  }

  /** `splice(i, 0, x)` on a copy: the array with `x` inserted before position `i`. */
  function InsertAt<T>(xs: seq<T>, i: nat, x: T): (r: seq<T>)
    requires i <= |xs|
    ensures |r| == |xs| + 1
    ensures r[i] == x
    ensures forall k :: 0 <= k < i ==> r[k] == xs[k]
    ensures forall k :: i < k < |r| ==> r[k] == xs[k - 1]
    ensures multiset(r) == multiset(xs) + multiset{x}
  {
    assert xs == xs[..i] + xs[i..];
    xs[..i] + [x] + xs[i..]
  }

  /** Removing what was just inserted gives back the original. */
  lemma RemoveInserted<T>(xs: seq<T>, i: nat, x: T)
    requires i <= |xs|
    ensures RemoveAt(InsertAt(xs, i, x), i) == xs
  {
  }

  /** Inserting what was just removed, where it was, gives back the original. */
  lemma InsertRemoved<T>(xs: seq<T>, i: nat)
    requires i < |xs|
    ensures InsertAt(RemoveAt(xs, i), i, xs[i]) == xs
  {
  }

  /**
    `arrayMove(array, from, to)`: take the element at `from` out of a copy,
    then put it back in at `to`. A negative `from` counts from the end as in
    `splice`; a negative `to` is added to the length before the element is
    taken out, so `to == -1` puts the element back last. The element removed
    must exist.
   */
  function ArrayMove<T>(xs: seq<T>, from: int, to: int): (r: seq<T>)
    requires SpliceStart(|xs|, from) < |xs|
    ensures |r| == |xs|
    ensures multiset(r) == multiset(xs)
  {
    var f := SpliceStart(|xs|, from);
    var rest := RemoveAt(xs, f);
    var t := SpliceStart(|rest|, if to < 0 then |xs| + to else to);
    InsertAt(rest, t, xs[f])
  }

  /**
    Where `arrayMove` puts things: the moved element (the last one for
    `from == -1`) ends at `to`, the others keep their order; `to == -1`
    puts it last.
   */
  lemma ArrayMovePlaces<T>(xs: seq<T>, from: int, to: int)
    requires xs != [] && -1 <= from < |xs| && -1 <= to < |xs|
    ensures var f, r := SpliceStart(|xs|, from), ArrayMove(xs, from, to);
            && f == (if from < 0 then |xs| - 1 else from)
            && (0 <= to ==> r[to] == xs[f] && RemoveAt(r, to) == RemoveAt(xs, f))
            && (to == -1 ==> r == RemoveAt(xs, f) + [xs[f]])
  {
    var f := SpliceStart(|xs|, from);
    if to == -1 {
      ArrayMoveLast(xs, f);
    } else {
      ArrayMoveInside(xs, f, to);
    }
  }

  lemma ArrayMoveLast<T>(xs: seq<T>, f: nat)
    requires f < |xs|
    ensures ArrayMove(xs, f, -1) == RemoveAt(xs, f) + [xs[f]]
  {
    var rest := RemoveAt(xs, f);
    assert ArrayMove(xs, f, -1) == InsertAt(rest, |rest|, xs[f]);
    assert InsertAt(rest, |rest|, xs[f]) == rest + [xs[f]];
  }

  lemma ArrayMoveInside<T>(xs: seq<T>, f: nat, to: nat)
    requires f < |xs| && to < |xs|
    ensures ArrayMove(xs, f, to)[to] == xs[f] && RemoveAt(ArrayMove(xs, f, to), to) == RemoveAt(xs, f)
  {
    var rest := RemoveAt(xs, f);
    assert ArrayMove(xs, f, to) == InsertAt(rest, to, xs[f]);
    RemoveInserted(rest, to, xs[f]);
  }

  /** Moving an element back where it came from undoes a move. */
  lemma ArrayMoveInverse<T>(xs: seq<T>, from: nat, to: nat)
    requires from < |xs| && to < |xs|
    ensures ArrayMove(ArrayMove(xs, from, to), to, from) == xs
  {
    var r := ArrayMove(xs, from, to);
    var rest := RemoveAt(xs, from);
    assert r == InsertAt(rest, to, xs[from]);
    RemoveInserted(rest, to, xs[from]);
    InsertRemoved(xs, from);
  }

  /**
    In a sequence without repetitions, the element a move displaced from
    `i` is found at `i`, the moved one at `to`, and moving it back by those
    positions restores the sequence.
   */
  lemma ArrayMoveUndoUnique<T>(xs: seq<T>, i: nat, to: nat)
    requires Unique(xs) && i < |xs| && to < |xs| && i != to
    ensures var r := ArrayMove(xs, i, to);
            && r[i] != xs[i] && IndexOf(r, xs[i]) == to && IndexOf(r, r[i]) == i
            && ArrayMove(r, IndexOf(r, xs[i]), IndexOf(r, r[i])) == xs
  {
    var r := ArrayMove(xs, i, to);
    UniquePermutation(xs, r);
    IndexOfUnique(r, i);
    IndexOfUnique(r, to);
    ArrayMoveInverse(xs, i, to);
  }

  /** `filter(item => item !== x)`: every occurrence of `x` dropped, order kept. */
  function Without<T(==)>(xs: seq<T>, x: T): (r: seq<T>)
    ensures |r| <= |xs|
    ensures multiset(r) == multiset(xs)[x := 0]
  {
    if xs == [] then []
    else
      assert xs == [xs[0]] + xs[1..];
      (if xs[0] == x then [] else [xs[0]]) + Without(xs[1..], x)
  }

  /** Filtering a concatenation filters each part and joins the results, so the kept elements stay in order. */
  lemma {:induction false} WithoutAppend<T>(a: seq<T>, b: seq<T>, x: T)
    ensures Without(a + b, x) == Without(a, x) + Without(b, x)
  {
    if a == [] {
      assert a + b == b;
    } else {
      WithoutAppend(a[1..], b, x);
      WithoutAppendStep(a, b, x);
    }
  }

  /** The step of `WithoutAppend`: from the rest of `a` to all of it. */
  lemma WithoutAppendStep<T>(a: seq<T>, b: seq<T>, x: T)
    requires a != [] && Without(a[1..] + b, x) == Without(a[1..], x) + Without(b, x)
    ensures Without(a + b, x) == Without(a, x) + Without(b, x)
  {
    WithoutFirstOfAppend(a, b, x);
    WithoutFirst(a, x);
    var kept := if a[0] == x then [] else [a[0]];
    Regroup(kept, Without(a[1..], x), Without(b, x), Without(a + b, x), Without(a, x));
  }

  /** Concatenation regrouped, for sequences named by their parts. */
  lemma Regroup<T>(k: seq<T>, p: seq<T>, q: seq<T>, whole: seq<T>, first: seq<T>)
    requires whole == k + (p + q) && first == k + p
    ensures whole == first + q
  {
  }

  /** The first element of a concatenation comes from its nonempty first part. */
  lemma WithoutFirstOfAppend<T>(a: seq<T>, b: seq<T>, x: T)
    requires a != []
    ensures Without(a + b, x) == (if a[0] == x then [] else [a[0]]) + Without(a[1..] + b, x)
  {
    assert (a + b)[0] == a[0] && (a + b)[1..] == a[1..] + b;
  }

  /** Filtering keeps or drops the first element, then filters the rest. */
  lemma WithoutFirst<T>(xs: seq<T>, x: T)
    requires xs != []
    ensures Without(xs, x) == (if xs[0] == x then [] else [xs[0]]) + Without(xs[1..], x)
  {
  }

  /** One element is kept exactly when it is not the one filtered out. */
  lemma WithoutSingle<T>(y: T, x: T)
    ensures Without([y], x) == (if y == x then [] else [y])
  {
    assert [y][1..] == [];
  }

  /** In a sequence without repetitions, filtering `xs[i]` out removes position `i`. */
  lemma WithoutUniqueAt<T>(xs: seq<T>, i: nat)
    requires Unique(xs) && i < |xs|
    ensures Without(xs, xs[i]) == RemoveAt(xs, i)
  {
    UniqueSplit(xs, i);
    WithoutBetween(xs[..i], xs[i], xs[i + 1..]);
  }

  /** Filtering out an element that occurs only between two parts leaves the two parts. */
  lemma WithoutBetween<T>(a: seq<T>, x: T, b: seq<T>)
    requires x !in a && x !in b
    ensures Without(a + [x] + b, x) == a + b
  {
    WithoutAppend(a + [x], b, x);
    WithoutLast(a, x);
    WithoutAbsent(b, x);
  }

  /** Filtering out the last element, absent before it, leaves what comes before. */
  lemma WithoutLast<T>(a: seq<T>, x: T)
    requires x !in a
    ensures Without(a + [x], x) == a
  {
    WithoutAppend(a, [x], x);
    WithoutSingle(x, x);
    WithoutAbsent(a, x);
  }

  /** Filtering out an element that occurs once cuts the sequence around it. */
  lemma WithoutUniqueSplit<T>(xs: seq<T>, i: nat)
    requires Unique(xs) && i < |xs|
    ensures Without(xs, xs[i]) == xs[..i] + xs[i + 1..]
    ensures xs == xs[..i] + [xs[i]] + xs[i + 1..]
    ensures xs[i] !in xs[..i] && xs[i] !in xs[i + 1..]
  {
    WithoutUniqueAt(xs, i);
    UniqueSplit(xs, i);
  }

  /** Filtering the tail of a concatenation whose head lacks `x` drops every `x`. */
  lemma WithoutTail<T>(a: seq<T>, b: seq<T>, x: T)
    requires x !in a
    ensures multiset(a + Without(b, x)) == multiset(a + b)[x := 0]
    ensures multiset(a + Without(b, x)) <= multiset(a + b)
  {
    forall y ensures multiset(a + Without(b, x))[y] == multiset(a + b)[x := 0][y] {
    }
  }

  /** Filtering keeps exactly the other elements. */
  lemma WithoutSub<T>(xs: seq<T>, x: T)
    ensures multiset(Without(xs, x)) <= multiset(xs)
    ensures forall y :: y in Without(xs, x) <==> y in xs && y != x
  {
    var w := Without(xs, x);
    forall y ensures y in w <==> y in xs && y != x {
      assert y in w <==> y in multiset(w);
      assert y in xs <==> y in multiset(xs);
    }
  }

  /** Filtering out an absent element changes nothing. */
  lemma {:induction false} WithoutAbsent<T>(xs: seq<T>, x: T)
    requires x !in xs
    ensures Without(xs, x) == xs
  {
    if xs != [] {
      WithoutAbsent(xs[1..], x);
      assert xs == [xs[0]] + xs[1..];
    }
  }

  /** `flat()`: the concatenation of the inner sequences, in order. */
  function Flatten<T>(xss: seq<seq<T>>): (r: seq<T>)
    ensures |r| == 0 <==> forall i :: 0 <= i < |xss| ==> xss[i] == []
  {
    if xss == [] then [] else xss[0] + Flatten(xss[1..])
  }

  /** Flattening distributes over concatenation. */
  lemma {:induction false} FlattenAppend<T>(a: seq<seq<T>>, b: seq<seq<T>>)
    ensures Flatten(a + b) == Flatten(a) + Flatten(b)
  {
    if a == [] {
      assert a + b == b;
    } else {
      assert (a + b)[0] == a[0];
      assert (a + b)[1..] == a[1..] + b;
      FlattenAppend(a[1..], b);
    }
  }

  /** Every inner sequence is part of the flattening. */
  lemma {:induction false} FlattenContains<T>(xss: seq<seq<T>>, i: nat)
    requires i < |xss|
    ensures multiset(xss[i]) <= multiset(Flatten(xss))
  {
    if i > 0 {
      FlattenContains(xss[1..], i - 1);
    }
  }

  /** An element is in the flattening exactly when it is in one of the inner sequences. */
  lemma {:induction false} FlattenMember<T>(xss: seq<seq<T>>, x: T)
    ensures x in Flatten(xss) <==> exists i :: 0 <= i < |xss| && x in xss[i]
  {
    if xss != [] {
      FlattenMember(xss[1..], x);
      if x in Flatten(xss[1..]) {
        var i :| 0 <= i < |xss| - 1 && x in xss[1..][i];
        assert x in xss[i + 1];
      }
      if exists i :: 0 <= i < |xss| && x in xss[i] {
        var i :| 0 <= i < |xss| && x in xss[i];
        if i > 0 {
          assert x in xss[1..][i - 1];
        }
      }
    }
  }
}
