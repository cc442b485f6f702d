/** Operations on a table held as a list of records keyed by an integer id:
    the `FirstOrDefault(x => x.Id == id)`, `Any(x => x.Id == id)`,
    `Max(x => x.Id)` and `Remove` calls both kinds of repository make. */
module Tables {
  import opened Numerics
  import opened Wrappers

  /** The exception `Max` throws on an empty sequence. */
  datatype TableError = SequenceContainsNoElements

  /** No two records of `s` share an id. */
  ghost predicate UniqueIds<T>(s: seq<T>, idOf: T -> Int32) {
    forall i, j :: 0 <= i < j < |s| ==> idOf(s[i]) != idOf(s[j])
  }

  /** Every record of `s` has a positive id. */
  ghost predicate PositiveIds<T>(s: seq<T>, idOf: T -> Int32) {
    forall i :: 0 <= i < |s| ==> idOf(s[i]) > 0
  }

  /** The position of the first record with id `id`, if any. */
  function IndexOfId<T>(s: seq<T>, idOf: T -> Int32, id: Int32): (r: Option<nat>)
    ensures r.None? <==> forall i :: 0 <= i < |s| ==> idOf(s[i]) != id
    ensures r.Some? ==> r.value < |s| && idOf(s[r.value]) == id
    ensures r.Some? ==> forall j :: 0 <= j < r.value ==> idOf(s[j]) != id
  {
    if s == [] then None
    else if idOf(s[0]) == id then Some(0)
    else match IndexOfId(s[1..], idOf, id)
      case None => None
      case Some(i) => Some(i + 1)
  }

  /** `x` is stored in `s` with id `id`, and no record before it has that id. */
  ghost predicate IsFirstWithId<T>(s: seq<T>, idOf: T -> Int32, id: Int32, x: T) {
    exists i :: 0 <= i < |s| && s[i] == x && idOf(x) == id && forall j :: 0 <= j < i ==> idOf(s[j]) != id
  }

  /** `FirstOrDefault(x => x.Id == id)`: the first record with that id, or null. */
  function FirstWithId<T>(s: seq<T>, idOf: T -> Int32, id: Int32): (r: Option<T>)
    ensures r.None? <==> forall x :: x in s ==> idOf(x) != id
    ensures r.Some? ==> r.value in s && idOf(r.value) == id
    ensures r.Some? ==> IsFirstWithId(s, idOf, id, r.value)
  {
    match IndexOfId(s, idOf, id)
    case None => None
    case Some(i) => Some(s[i])
  }

  /** `Any(x => x.Id == id)`. */
  predicate AnyWithId<T>(s: seq<T>, idOf: T -> Int32, id: Int32)
  {
    IndexOfId(s, idOf, id).Some?
  }

  lemma {:induction false} AnyWithIdMeaning<T>(s: seq<T>, idOf: T -> Int32, id: Int32)
    ensures AnyWithId(s, idOf, id) <==> exists x :: x in s && idOf(x) == id
  {
    if AnyWithId(s, idOf, id) {
      var i := IndexOfId(s, idOf, id).value;
      assert s[i] in s;
    }
  }

  /** `Max(x => x.Id)`, defined on a non-empty table only (it throws on an empty one). */
  function MaxId<T(==)>(s: seq<T>, idOf: T -> Int32): (r: Int32)
    requires |s| > 0
    ensures forall x :: x in s ==> idOf(x) <= r
    ensures exists x :: x in s && idOf(x) == r
  {
    if |s| == 1 then
      assert s[0] in s;
      idOf(s[0])
    else
      var m := MaxId(s[1..], idOf);
      assert forall x :: x in s ==> x == s[0] || x in s[1..];
      var w :| w in s[1..] && idOf(w) == m;
      assert w in s;
      if idOf(s[0]) >= m then idOf(s[0]) else m
  }

  /** The table without its `i`-th record. */
  function RemoveAt<T>(s: seq<T>, i: nat): (r: seq<T>)
    requires i < |s|
    ensures |r| == |s| - 1
    ensures multiset(r) + multiset{s[i]} == multiset(s)
    ensures forall j :: 0 <= j < i ==> r[j] == s[j]
    ensures forall j :: i <= j < |r| ==> r[j] == s[j + 1]
  {
    assert s == s[..i] + [s[i]] + s[i + 1..];
    s[..i] + s[i + 1..]
  }

  /** Removing the record that holds id `id` from a table with unique ids
      leaves no record with that id. */
  lemma {:induction false} RemovedIdIsGone<T>(s: seq<T>, idOf: T -> Int32, id: Int32)
    requires UniqueIds(s, idOf)
    requires IndexOfId(s, idOf, id).Some?
    ensures IndexOfId(RemoveAt(s, IndexOfId(s, idOf, id).value), idOf, id).None?
    ensures UniqueIds(RemoveAt(s, IndexOfId(s, idOf, id).value), idOf)
  {
    var i := IndexOfId(s, idOf, id).value;
    var r := RemoveAt(s, i);
    forall j | 0 <= j < |r| ensures idOf(r[j]) != id {
      if j < i { assert r[j] == s[j]; } else { assert r[j] == s[j + 1]; }
    }
    forall a, b | 0 <= a < b < |r| ensures idOf(r[a]) != idOf(r[b]) {
      var a' := if a < i then a else a + 1;
      var b' := if b < i then b else b + 1;
      assert r[a] == s[a'] && r[b] == s[b'] && a' < b';
    }
  }

  /** Replacing the `i`-th record by one with the same id keeps the ids unique
      and keeps `i` the position of that id. */
  lemma {:induction false} ReplaceKeepsIds<T>(s: seq<T>, idOf: T -> Int32, i: nat, x: T)
    requires i < |s| && idOf(x) == idOf(s[i])
    requires IndexOfId(s, idOf, idOf(x)) == Some(i)
    ensures UniqueIds(s, idOf) ==> UniqueIds(s[i := x], idOf)
    ensures IndexOfId(s[i := x], idOf, idOf(x)) == Some(i)
  {
    var r := s[i := x];
    assert forall j :: 0 <= j < |s| ==> idOf(r[j]) == idOf(s[j]);
    var k := IndexOfId(r, idOf, idOf(x));
    assert k.Some?;
  }

  /** A record whose id exceeds every id of the table is found at the end
      once appended, and appending it keeps the ids unique. */
  lemma {:induction false} AppendFreshId<T>(s: seq<T>, idOf: T -> Int32, x: T)
    requires forall y :: y in s ==> idOf(y) < idOf(x)
    ensures IndexOfId(s + [x], idOf, idOf(x)) == Some(|s|)
    ensures UniqueIds(s, idOf) ==> UniqueIds(s + [x], idOf)
  {
    var r := s + [x];
    forall j | 0 <= j < |s| ensures idOf(r[j]) != idOf(x) {
      assert r[j] == s[j] && s[j] in s;
    }
    assert r[|s|] == x;
    if UniqueIds(s, idOf) {
      forall a, b | 0 <= a < b < |r| ensures idOf(r[a]) != idOf(r[b]) {
        assert r[a] == s[a];
        if b < |s| { assert r[b] == s[b]; }
      }
    }
  }

  /** A record whose id no record of a table with unique ids holds is found,
      once appended, at the end, and the ids stay unique. */
  lemma {:induction false} FreshIdAppended<T>(s: seq<T>, idOf: T -> Int32, x: T)
    requires UniqueIds(s, idOf)
    requires IndexOfId(s, idOf, idOf(x)).None?
    ensures IndexOfId(s + [x], idOf, idOf(x)) == Some(|s|)
    ensures FirstWithId(s + [x], idOf, idOf(x)) == Some(x)
    ensures UniqueIds(s + [x], idOf)
  {
    var r := s + [x];
    forall j | 0 <= j < |s| ensures idOf(r[j]) != idOf(x) {
      assert r[j] == s[j];
    }
    assert r[|s|] == x;
    forall a, b | 0 <= a < b < |r| ensures idOf(r[a]) != idOf(r[b]) {
      assert r[a] == s[a];
      if b < |s| { assert r[b] == s[b]; }
    }
  }

  /** The id one past the largest is fresh: the record carrying it is found,
      once appended, and the ids stay unique and positive. */
  lemma {:induction false} NextIdIsFresh<T>(s: seq<T>, idOf: T -> Int32, x: T)
    requires |s| > 0 && MaxId(s, idOf) < INT32_MAX
    requires idOf(x) == MaxId(s, idOf) + 1
    ensures forall y :: y in s ==> idOf(y) < idOf(x)
    ensures FirstWithId(s + [x], idOf, idOf(x)) == Some(x)
    ensures UniqueIds(s, idOf) ==> UniqueIds(s + [x], idOf)
    ensures PositiveIds(s, idOf) ==> PositiveIds(s + [x], idOf)
  {
    AppendFreshId(s, idOf, x);
    if PositiveIds(s, idOf) {
      assert s[0] in s;
      assert idOf(s[0]) > 0;
      var r := s + [x];
      forall i | 0 <= i < |r| ensures idOf(r[i]) > 0 {
        if i < |s| { assert r[i] == s[i]; }
      }
    }
  }
}
