/** LINQ's `OrderBy`: a stable sort under a total preorder `le` ("may come
    before"), written as an insertion sort. */
module Sorting {

  ghost predicate TotalPreorder<T(!new)>(le: (T, T) -> bool) {
    && (forall a, b :: le(a, b) || le(b, a))
    && (forall a, b, c :: le(a, b) && le(b, c) ==> le(a, c))
  }

  /** `a` and `b` are tied under `le`. */
  predicate Tied<T>(le: (T, T) -> bool, a: T, b: T) {
    le(a, b) && le(b, a)
  }

  ghost predicate Sorted<T>(s: seq<T>, le: (T, T) -> bool) {
    forall i, j :: 0 <= i < j < |s| ==> le(s[i], s[j])
  }

  /** Places `x` in front of the first element it may precede, so in front of
      every element of `u` tied with it. */
  function Insert<T>(le: (T, T) -> bool, x: T, u: seq<T>): seq<T>
  {
    if u == [] then [x]
    else if le(x, u[0]) then [x] + u
    else [u[0]] + Insert(le, x, u[1..])
  }

  lemma {:induction false} InsertPermutes<T>(le: (T, T) -> bool, x: T, u: seq<T>)
    ensures |Insert(le, x, u)| == |u| + 1
    ensures multiset(Insert(le, x, u)) == multiset(u) + multiset{x}
  {
    if u != [] && !le(x, u[0]) {
      InsertPermutes(le, x, u[1..]);
      assert u == [u[0]] + u[1..];
    }
  }

  /** The sorted permutation of `s`. */
  function Sort<T>(s: seq<T>, le: (T, T) -> bool): (r: seq<T>)
    ensures |r| == |s|
    ensures multiset(r) == multiset(s)
  {
    if s == [] then []
    else
      assert s == [s[0]] + s[1..];
      InsertPermutes(le, s[0], Sort(s[1..], le));
      Insert(le, s[0], Sort(s[1..], le))
  }

  lemma {:induction false} InsertSorted<T(!new)>(le: (T, T) -> bool, x: T, u: seq<T>)
    requires TotalPreorder(le)
    requires Sorted(u, le)
    ensures Sorted(Insert(le, x, u), le)
  {
    var r := Insert(le, x, u);
    if u == [] {
    } else if le(x, u[0]) {
      assert r == [x] + u;
      forall i, j | 0 <= i < j < |r| ensures le(r[i], r[j]) {
        if i == 0 && j > 1 {
          assert le(x, u[0]) && le(u[0], u[j - 1]);
        }
      }
    } else {
      var t := Insert(le, x, u[1..]);
      InsertSorted(le, x, u[1..]);
      InsertLowerBound(le, u[0], x, u[1..]);
      assert r == [u[0]] + t;
      forall i, j | 0 <= i < j < |r| ensures le(r[i], r[j]) {
        if i > 0 { assert r[i] == t[i - 1] && r[j] == t[j - 1]; }
        else { assert r[j] == t[j - 1]; }
      }
    }
  }

  /** A lower bound of `x` and of every element of `u` bounds `Insert(le, x, u)`. */
  lemma {:induction false} InsertLowerBound<T>(le: (T, T) -> bool, b: T, x: T, u: seq<T>)
    requires le(b, x)
    requires forall i :: 0 <= i < |u| ==> le(b, u[i])
    ensures forall i :: 0 <= i < |Insert(le, x, u)| ==> le(b, Insert(le, x, u)[i])
  {
    if u != [] && !le(x, u[0]) {
      InsertLowerBound(le, b, x, u[1..]);
    }
  }

  /** The result of `Sort` is ordered by `le`. */
  lemma {:induction false} SortSorted<T(!new)>(s: seq<T>, le: (T, T) -> bool)
    requires TotalPreorder(le)
    ensures Sorted(Sort(s, le), le)
  {
    if s != [] {
      SortSorted(s[1..], le);
      InsertSorted(le, s[0], Sort(s[1..], le));
    }
  }

  /** The elements of `s` tied with `y`, in order. */
  function TiedWith<T>(s: seq<T>, le: (T, T) -> bool, y: T): seq<T>
  {
    if s == [] then []
    else if Tied(le, s[0], y) then [s[0]] + TiedWith(s[1..], le, y)
    else TiedWith(s[1..], le, y)
  }

  lemma {:induction false} TiedWithInsert<T(!new)>(le: (T, T) -> bool, x: T, u: seq<T>, y: T)
    requires TotalPreorder(le)
    ensures TiedWith(Insert(le, x, u), le, y) == (if Tied(le, x, y) then [x] + TiedWith(u, le, y) else TiedWith(u, le, y))
  {
    if u == [] {
      assert [x][1..] == [];
    } else if le(x, u[0]) {
      assert ([x] + u)[1..] == u;
    } else {
      TiedWithInsert(le, x, u[1..], y);
      NotBothTied(le, x, u[0], y);
      TiedWithInsertBehind(le, x, u, y);
    }
  }

  /** The step of `TiedWithInsert` where `x` goes behind the head of `u`. */
  lemma {:induction false} TiedWithInsertBehind<T>(le: (T, T) -> bool, x: T, u: seq<T>, y: T)
    requires u != [] && !le(x, u[0])
    requires !(Tied(le, x, y) && Tied(le, u[0], y))
    requires TiedWith(Insert(le, x, u[1..]), le, y)
          == (if Tied(le, x, y) then [x] + TiedWith(u[1..], le, y) else TiedWith(u[1..], le, y))
    ensures TiedWith(Insert(le, x, u), le, y) == (if Tied(le, x, y) then [x] + TiedWith(u, le, y) else TiedWith(u, le, y))
  {
    var t := Insert(le, x, u[1..]);
    TiedWithCons(u[0], t, le, y);
    if Tied(le, x, y) {
      assert TiedWith(u, le, y) == TiedWith(u[1..], le, y);
    } else {
      assert TiedWith(Insert(le, x, u), le, y) == TiedWith(u, le, y);
    }
  }

  lemma {:induction false} TiedWithCons<T>(h: T, t: seq<T>, le: (T, T) -> bool, y: T)
    ensures TiedWith([h] + t, le, y) == (if Tied(le, h, y) then [h] + TiedWith(t, le, y) else TiedWith(t, le, y))
  {
    assert ([h] + t)[1..] == t;
  }

  /** An element that may not precede `z` is not tied with anything `z` is tied with. */
  lemma {:induction false} NotBothTied<T(!new)>(le: (T, T) -> bool, x: T, z: T, y: T)
    requires TotalPreorder(le)
    requires !le(x, z)
    ensures !(Tied(le, x, y) && Tied(le, z, y))
  {
  }

  /** `Sort` is stable: the elements tied with any one element come out in the
      order they went in. */
  lemma {:induction false} SortStable<T(!new)>(s: seq<T>, le: (T, T) -> bool, y: T)
    requires TotalPreorder(le)
    ensures TiedWith(Sort(s, le), le, y) == TiedWith(s, le, y)
  {
    if s != [] {
      SortStable(s[1..], le, y);
      TiedWithInsert(le, s[0], Sort(s[1..], le), y);
    }
  }

  /** The opposite order: `OrderByDescending` for the `le` of `OrderBy`. */
  function Flip<T>(le: (T, T) -> bool): (T, T) -> bool {
    (a, b) => le(b, a)
  }

  lemma {:induction false} FlipTotalPreorder<T(!new)>(le: (T, T) -> bool)
    requires TotalPreorder(le)
    ensures TotalPreorder(Flip(le))
  {
  }

  function Reverse<T>(s: seq<T>): (r: seq<T>)
    ensures |r| == |s|
    ensures forall i :: 0 <= i < |s| ==> r[i] == s[|s| - 1 - i]
  {
    seq(|s|, i requires 0 <= i < |s| => s[|s| - 1 - i])
  }

  /** No two elements of `s` are tied. */
  ghost predicate NoTies<T>(s: seq<T>, le: (T, T) -> bool) {
    forall i, j :: 0 <= i < j < |s| ==> !Tied(le, s[i], s[j])
  }

  /** The position at which `Insert` places `x`. */
  function InsertionPoint<T>(le: (T, T) -> bool, x: T, u: seq<T>): (p: nat)
    ensures p <= |u|
    ensures forall i :: 0 <= i < p ==> !le(x, u[i])
    ensures p < |u| ==> le(x, u[p])
  {
    if u == [] || le(x, u[0]) then 0
    else 1 + InsertionPoint(le, x, u[1..])
  }

  /** `Insert` keeps the elements of `u` in order and puts `x` at its insertion point. */
  lemma {:induction false} InsertElements<T>(le: (T, T) -> bool, x: T, u: seq<T>)
    ensures |Insert(le, x, u)| == |u| + 1
    ensures Insert(le, x, u)[InsertionPoint(le, x, u)] == x
    ensures forall i :: 0 <= i < InsertionPoint(le, x, u) ==> Insert(le, x, u)[i] == u[i]
    ensures forall i :: InsertionPoint(le, x, u) < i <= |u| ==> Insert(le, x, u)[i] == u[i - 1]
  {
    if u != [] && !le(x, u[0]) {
      InsertElements(le, x, u[1..]);
    }
  }

  lemma {:induction false} InsertionPointUnique<T>(le: (T, T) -> bool, x: T, u: seq<T>, q: nat)
    requires q <= |u|
    requires forall i :: 0 <= i < q ==> !le(x, u[i])
    requires q < |u| ==> le(x, u[q])
    ensures InsertionPoint(le, x, u) == q
  {
    if u != [] && q > 0 {
      InsertionPointUnique(le, x, u[1..], q - 1);
    }
  }

  /** Inserting into the reversed list in the opposite order lands at the
      mirrored position, when `x` is tied with nothing in `u`. */
  lemma {:induction false} ReversedInsertionPoint<T(!new)>(le: (T, T) -> bool, x: T, u: seq<T>)
    requires TotalPreorder(le)
    requires Sorted(u, le)
    requires forall y :: y in u ==> !Tied(le, x, y)
    ensures InsertionPoint(Flip(le), x, Reverse(u)) == |u| - InsertionPoint(le, x, u)
  {
    var p := InsertionPoint(le, x, u);
    var v := Reverse(u);
    var q := |u| - p;
    forall i | 0 <= i < q ensures !Flip(le)(x, v[i]) {
      MirroredNotBefore(le, x, u, i);
    }
    if q < |u| {
      assert v[q] == u[p - 1];
      assert !le(x, u[p - 1]);
    }
    InsertionPointUnique(Flip(le), x, v, q);
  }

  /** Every element at or after the insertion point is strictly after `x`. */
  lemma {:induction false} MirroredNotBefore<T(!new)>(le: (T, T) -> bool, x: T, u: seq<T>, i: int)
    requires TotalPreorder(le)
    requires Sorted(u, le)
    requires forall y :: y in u ==> !Tied(le, x, y)
    requires 0 <= i < |u| - InsertionPoint(le, x, u)
    ensures !Flip(le)(x, Reverse(u)[i])
  {
    var p := InsertionPoint(le, x, u);
    var m := |u| - 1 - i;
    assert Reverse(u)[i] == u[m] && p <= m;
    assert le(x, u[m]) by {
      if m > p { assert le(x, u[p]) && le(u[p], u[m]); }
    }
    assert u[m] in u;
  }

  lemma {:induction false} ReverseOfInsert<T(!new)>(le: (T, T) -> bool, x: T, u: seq<T>)
    requires TotalPreorder(le)
    requires Sorted(u, le)
    requires forall y :: y in u ==> !Tied(le, x, y)
    ensures Insert(Flip(le), x, Reverse(u)) == Reverse(Insert(le, x, u))
  {
    ReversedInsertionPoint(le, x, u);
    InsertMirrored(le, Flip(le), x, u);
  }

  /** Inserting into the reversed list at the mirrored position gives the
      reversed insertion. */
  lemma {:induction false} InsertMirrored<T>(le: (T, T) -> bool, ge: (T, T) -> bool, x: T, u: seq<T>)
    requires InsertionPoint(ge, x, Reverse(u)) == |u| - InsertionPoint(le, x, u)
    ensures Insert(ge, x, Reverse(u)) == Reverse(Insert(le, x, u))
  {
    var p := InsertionPoint(le, x, u);
    var v := Reverse(u);
    var q := |u| - p;
    InsertElements(le, x, u);
    InsertElements(ge, x, v);
    var a := Insert(le, x, u);
    var b := Insert(ge, x, v);
    assert |a| == |b| == |u| + 1;
    forall i | 0 <= i < |b| ensures b[i] == Reverse(a)[i] {
      var j := |u| - i;
      assert Reverse(a)[i] == a[j];
      if i < q {
        assert b[i] == v[i] == u[j - 1] && p < j;
      } else if i > q {
        assert b[i] == v[i - 1] == u[j] && j < p;
      } else {
        assert b[i] == x && j == p;
      }
    }
  }

  /** When no two elements are tied, sorting in the opposite order gives exactly
      the reversed result. */
  lemma {:induction false} FlippedSortIsReversed<T(!new)>(s: seq<T>, le: (T, T) -> bool)
    requires TotalPreorder(le)
    requires NoTies(s, le)
    ensures Sort(s, Flip(le)) == Reverse(Sort(s, le))
  {
    if s != [] {
      var t := s[1..];
      assert NoTies(t, le) by {
        forall i, j | 0 <= i < j < |t| ensures !Tied(le, t[i], t[j]) {
          assert t[i] == s[i + 1] && t[j] == s[j + 1];
        }
      }
      FlippedSortIsReversed(t, le);
      var a := Sort(t, le);
      SortSorted(t, le);
      forall y | y in a ensures !Tied(le, s[0], y) {
        assert y in multiset(a);
        var m :| 0 <= m < |t| && t[m] == y;
        assert s[m + 1] == y;
      }
      ReverseOfInsert(le, s[0], a);
    }
  }
}
