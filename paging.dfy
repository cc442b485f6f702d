/** The paging step of the stock listing: `Skip((PageNumber - 1) * PageSize)`
    followed by `Take(PageSize)`, with the offset computed in unchecked 32-bit
    arithmetic. */
module Paging {
  import opened Numerics

  function Min(a: int, b: int): int { if a <= b then a else b }

  /** LINQ `Skip(n)`: what is left after dropping the first `n` entries; a
      count of zero or less drops nothing. */
  function Skip<T>(s: seq<T>, n: int): (r: seq<T>)
    ensures |r| == if n <= 0 then |s| else if n < |s| then |s| - n else 0
    ensures forall i :: 0 <= i < |r| ==> r[i] == s[|s| - |r| + i]
  {
    if n <= 0 then s else s[Min(n, |s|)..]
  }

  /** LINQ `Take(n)`: the first `n` entries, or all when there are fewer; a
      count of zero or less takes nothing. */
  function Take<T>(s: seq<T>, n: int): (r: seq<T>)
    ensures |r| == if n <= 0 then 0 else if n < |s| then n else |s|
    ensures forall i :: 0 <= i < |r| ==> r[i] == s[i]
  {
    if n <= 0 then [] else s[..Min(n, |s|)]
  }

  /** The offset `(pageNumber - 1) * pageSize` as the C# `int` expression
      yields it: the exact product whenever that is an `int`. */
  function SkipCount(pageNumber: Int32, pageSize: Int32): (r: Int32)
    ensures INT32_MIN <= (pageNumber - 1) * pageSize <= INT32_MAX ==> r == (pageNumber - 1) * pageSize
  {
    if pageNumber == INT32_MIN && pageSize != 0 then
      MulOutOfRange(pageNumber - 1, pageSize);
      Wrap32(Wrap32(pageNumber - 1) * pageSize)
    else
      Wrap32(Wrap32(pageNumber - 1) * pageSize)
  }

  /** A factor below the `int` range times any other non-zero factor leaves it. */
  lemma {:induction false} MulOutOfRange(a: int, b: int)
    requires a < INT32_MIN && b != 0
    ensures a * b < INT32_MIN || INT32_MAX < a * b
  {
    if b >= 1 {
      MulNegative(a, b);
    } else {
      MulNegative(a, -b);
      assert a * b == -(a * -b);
    }
  }

  /** The page `pageNumber` of `s` with `pageSize` entries per page: never more
      than `s` holds nor than `pageSize`, and nothing for a size of zero or less. */
  function Page<T>(s: seq<T>, pageNumber: Int32, pageSize: Int32): (r: seq<T>)
    ensures |r| <= |s|
    ensures pageSize <= 0 ==> r == []
    ensures pageSize > 0 ==> |r| <= pageSize
  {
    Take(Skip(s, SkipCount(pageNumber, pageSize)), pageSize)
  }

  /** A page holds at most `pageSize` entries, none when `pageSize` is not
      positive, and every entry is one of `s`. */
  lemma {:induction false} PageBounds<T>(s: seq<T>, pageNumber: Int32, pageSize: Int32)
    ensures |Page(s, pageNumber, pageSize)| <= |s|
    ensures pageSize <= 0 ==> Page(s, pageNumber, pageSize) == []
    ensures pageSize > 0 ==> |Page(s, pageNumber, pageSize)| <= pageSize
    ensures forall x :: x in Page(s, pageNumber, pageSize) ==> x in s
  {
    var k := SkipCount(pageNumber, pageSize);
    forall x | x in Page(s, pageNumber, pageSize) ensures x in s {
      var p := Page(s, pageNumber, pageSize);
      var i :| 0 <= i < |p| && p[i] == x;
      if k <= 0 {
        assert x == s[i];
      } else {
        assert x == s[Min(k, |s|) + i];
      }
    }
  }

  /** Whatever the page number and size, a page is a contiguous run of `s`. */
  lemma {:induction false} PageRange<T>(s: seq<T>, pageNumber: Int32, pageSize: Int32) returns (i: nat, j: nat)
    ensures i <= j <= |s|
    ensures Page(s, pageNumber, pageSize) == s[i..j]
  {
    var k := SkipCount(pageNumber, pageSize);
    i := if k <= 0 then 0 else Min(k, |s|);
    j := if pageSize <= 0 then i else Min(i + pageSize, |s|);
    assert Skip(s, k) == s[i..];
  }

  /** The first page of a size that holds everything is everything. */
  lemma {:induction false} FirstPageIsWhole<T>(s: seq<T>, pageSize: Int32)
    requires pageSize >= |s|
    ensures Page(s, 1, pageSize) == s
  {
    assert SkipCount(1, pageSize) == 0;
  }

  /** When the offset does not overflow, page `n` is the contiguous slice
      starting at `(n - 1) * pageSize`. */
  lemma {:induction false} PageIsSlice<T>(s: seq<T>, pageNumber: Int32, pageSize: Int32)
    requires pageNumber >= 1 && pageSize >= 1
    requires (pageNumber - 1) * pageSize <= INT32_MAX
    ensures var a := (pageNumber - 1) * pageSize;
      Page(s, pageNumber, pageSize) == s[Min(a, |s|)..Min(a + pageSize, |s|)]
  {
    var a := (pageNumber - 1) * pageSize;
    assert a >= 0 by { MulNonNegative(pageNumber - 1, pageSize); }
    assert SkipCount(pageNumber, pageSize) == a;
  }

  lemma {:induction false} MulNonNegative(a: int, b: int)
    requires a >= 0 && b >= 0
    ensures a * b >= 0
  {
  }

  /** A page number of zero or less yields the first page, as long as the
      offset does not overflow: the offset is then negative, and `Skip`
      ignores it. */
  lemma {:induction false} NonPositivePageIsFirstPage<T>(s: seq<T>, pageNumber: Int32, pageSize: Int32)
    requires pageNumber <= 0 && pageSize >= 1
    requires (pageNumber - 1) * pageSize >= INT32_MIN
    ensures Page(s, pageNumber, pageSize) == Take(s, pageSize) == Page(s, 1, pageSize)
  {
    MulNegative(pageNumber - 1, pageSize);
    assert Wrap32(pageNumber - 1) == pageNumber - 1;
    assert SkipCount(pageNumber, pageSize) == (pageNumber - 1) * pageSize;
    assert SkipCount(1, pageSize) == 0;
  }

  lemma {:induction false} MulNegative(a: int, b: int)
    requires a < 0 && b >= 1
    ensures a * b < 0 && a * b <= a
  {
  }

  /** Pages 1 to `n` laid end to end are the first `n * pageSize` entries. */
  function Pages<T>(s: seq<T>, n: nat, pageSize: Int32): seq<T>
    requires n <= INT32_MAX
  {
    if n == 0 then [] else Pages(s, n - 1, pageSize) + Page(s, n, pageSize)
  }

  lemma {:induction false} PagesReassemble<T>(s: seq<T>, n: nat, pageSize: Int32)
    requires pageSize >= 1 && n * pageSize <= INT32_MAX
    ensures Pages(s, n, pageSize) == s[..Min(n * pageSize, |s|)]
  {
    if n > 0 {
      var a := (n - 1) * pageSize;
      MulStep(n, pageSize);
      assert n <= INT32_MAX;
      PagesReassemble(s, n - 1, pageSize);
      PageIsSlice(s, n, pageSize);
      SliceConcat(s, Min(a, |s|), Min(n * pageSize, |s|));
    }
  }

  lemma {:induction false} MulStep(n: int, k: int)
    requires n >= 1 && k >= 1
    ensures (n - 1) * k == n * k - k
    ensures 0 <= (n - 1) * k && n <= n * k
  {
  }

  lemma {:induction false} SliceConcat<T>(s: seq<T>, i: nat, j: nat)
    requires i <= j <= |s|
    ensures s[..i] + s[i..j] == s[..j]
  {
  }

  /** The page offset wraps around: page 107374184 of twenty entries computes
      the offset 2147483660, which as a C# `int` is negative, so that page
      repeats the first. */
  lemma {:induction false} OverflowingPageRepeatsFirst<T>(s: seq<T>)
    ensures SkipCount(107374184, 20) < 0
    ensures Page(s, 107374184, 20) == Page(s, 1, 20)
  {
  }
}
