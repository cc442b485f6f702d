/** The stock listing query: filter by company name and symbol, order by one
    key, then page. Two versions exist: the in-memory test double's (blank
    checks with `IsNullOrWhiteSpace`, case-insensitive filters, six sort keys)
    and the database repository's (non-empty checks, case-sensitive filters,
    two sort keys). Both are written as the source writes them and then shown
    to be instances of one generic listing. */
module StockQuery {
  import opened Wrappers
  import opened Numerics
  import opened Text
  import opened Models
  import opened Helpers
  import opened Sorting
  import opened Ordering
  import opened Paging

  /** LINQ `Where`: the elements satisfying `p`, in their original order. */
  function Where<T(!new)>(s: seq<T>, p: T -> bool): (r: seq<T>)
    ensures |r| <= |s|
    ensures forall x :: x in r <==> x in s && p(x)
  {
    if s == [] then []
    else
      assert forall x :: x in s <==> x == s[0] || x in s[1..];
      if p(s[0]) then [s[0]] + Where(s[1..], p) else Where(s[1..], p)
  }

  /** Two filters in a row are the one filter that asks for both. */
  lemma {:induction false} WhereWhere<T(!new)>(s: seq<T>, p: T -> bool, q: T -> bool, both: T -> bool)
    requires forall x :: both(x) == (p(x) && q(x))
    ensures Where(Where(s, p), q) == Where(s, both)
  {
    if s != [] {
      WhereWhere(s[1..], p, q, both);
      if p(s[0]) {
        assert Where(s, p) == [s[0]] + Where(s[1..], p);
        assert ([s[0]] + Where(s[1..], p))[1..] == Where(s[1..], p);
      }
    }
  }

  /** A filter every element passes keeps the whole sequence. */
  lemma {:induction false} WhereAll<T(!new)>(s: seq<T>, p: T -> bool)
    requires forall i :: 0 <= i < |s| ==> p(s[i])
    ensures Where(s, p) == s
  {
    if s != [] {
      WhereAll(s[1..], p);
    }
  }

  /** The order the listing applies, if any. */
  function Ordered(s: seq<Stock>, key: Option<SortKey>, desc: bool): seq<Stock> {
    match key
    case None => s
    case Some(k) => OrderBy(s, k, desc)
  }

  /** The generic listing: keep, order, page. */
  function Listing(s: seq<Stock>, keep: Stock -> bool, key: Option<SortKey>, q: QueryObject): seq<Stock> {
    Page(Ordered(Where(s, keep), key, q.isDescending), q.pageNumber, q.pageSize)
  }

  /** Every stock listed is stored and passes the filter; a page holds at most
      `pageSize` stocks and none when that is not positive. */
  lemma {:induction false} ListingSound(s: seq<Stock>, keep: Stock -> bool, key: Option<SortKey>, q: QueryObject)
    ensures forall x :: x in Listing(s, keep, key, q) ==> x in s && keep(x)
    ensures q.pageSize <= 0 ==> Listing(s, keep, key, q) == []
    ensures |Listing(s, keep, key, q)| <= |s|
    ensures q.pageSize > 0 ==> |Listing(s, keep, key, q)| <= q.pageSize
  {
    var f := Where(s, keep);
    var o := Ordered(f, key, q.isDescending);
    if key.Some? {
      OrderBySortedPermutation(f, key.value, q.isDescending);
      forall x | x in o ensures x in f {
        assert x in multiset(o);
      }
    }
    PageBounds(o, q.pageNumber, q.pageSize);
  }

  /** On the first page, when the page is large enough to hold every stock,
      every stock that passes the filter is listed, each as often as stored. */
  lemma {:induction false} ListingCompleteOnFirstPage(s: seq<Stock>, keep: Stock -> bool, key: Option<SortKey>, q: QueryObject)
    requires q.pageNumber == 1 && q.pageSize >= |s|
    ensures multiset(Listing(s, keep, key, q)) == multiset(Where(s, keep))
    ensures forall x :: x in Listing(s, keep, key, q) <==> x in s && keep(x)
  {
    var f := Where(s, keep);
    var o := Ordered(f, key, q.isDescending);
    if key.Some? {
      OrderBySortedPermutation(f, key.value, q.isDescending);
    }
    assert multiset(o) == multiset(f) && |o| <= |s|;
    FirstPageIsWhole(o, q.pageSize);
    forall x ensures x in o <==> x in f {
      assert x in o <==> x in multiset(o);
      assert x in f <==> x in multiset(f);
    }
  }

  /** With a sort key, the page lists its stocks in key order (reversed when
      descending). */
  lemma {:induction false} ListingSorted(s: seq<Stock>, keep: Stock -> bool, k: SortKey, q: QueryObject)
    ensures var r := Listing(s, keep, Some(k), q);
      forall i, j :: 0 <= i < j < |r| ==>
        if q.isDescending then KeyLe(k, r[j], r[i]) else KeyLe(k, r[i], r[j])
  {
    var o := OrderBy(Where(s, keep), k, q.isDescending);
    OrderBySortedPermutation(Where(s, keep), k, q.isDescending);
    var a, b := PageRange(o, q.pageNumber, q.pageSize);
    var r := Listing(s, keep, Some(k), q);
    forall i, j | 0 <= i < j < |r|
      ensures if q.isDescending then KeyLe(k, r[j], r[i]) else KeyLe(k, r[i], r[j])
    {
      assert r[i] == o[a + i] && r[j] == o[a + j];
    }
  }

  // ---------------------------------------------------------------------------
  // The in-memory test double's query.

  /** The names `Sortby` is matched against, one per key. */
  function KeyName(k: SortKey): string {
    match k
    case BySymbol => "Symbol"
    case ByCompanyName => "CompanyName"
    case ByIndustry => "Industry"
    case ByPurchase => "Purchase"
    case ByLastDiv => "LastDiv"
    case ByMarketCap => "MarketCap"
  }

  /** The company-name and symbol filters; a blank filter lets everything through. */
  predicate MockMatches(q: QueryObject, x: Stock) {
    && (IsBlank(q.companyName) || ContainsIgnoreCase(x.companyName, q.companyName))
    && (IsBlank(q.symbol) || ContainsIgnoreCase(x.symbol, q.symbol))
  }

  function MockFiltered(s: seq<Stock>, q: QueryObject): seq<Stock> {
    var byName :=
      if !IsBlank(q.companyName) then Where(s, (x: Stock) => ContainsIgnoreCase(x.companyName, q.companyName))
      else s;
    if !IsBlank(q.symbol) then Where(byName, (x: Stock) => ContainsIgnoreCase(x.symbol, q.symbol))
    else byName
  }

  /** The sort key a `Sortby` value selects: none when blank or unrecognised. */
  function MockSortKey(sortby: string): (r: Option<SortKey>)
    ensures r.Some? ==> EqualsIgnoreCase(sortby, KeyName(r.value))
    ensures r.None? ==> IsBlank(sortby) || forall k :: !EqualsIgnoreCase(sortby, KeyName(k))
  {
    if IsBlank(sortby) then None
    else if EqualsIgnoreCase(sortby, "Symbol") then Some(BySymbol)
    else if EqualsIgnoreCase(sortby, "CompanyName") then Some(ByCompanyName)
    else if EqualsIgnoreCase(sortby, "Industry") then Some(ByIndustry)
    else if EqualsIgnoreCase(sortby, "Purchase") then Some(ByPurchase)
    else if EqualsIgnoreCase(sortby, "LastDiv") then Some(ByLastDiv)
    else if EqualsIgnoreCase(sortby, "MarketCap") then Some(ByMarketCap)
    else None
  }

  function MockOrdered(s: seq<Stock>, q: QueryObject): seq<Stock> {
    if !IsBlank(q.sortby) then
      if EqualsIgnoreCase(q.sortby, "Symbol") then OrderBy(s, BySymbol, q.isDescending)
      else if EqualsIgnoreCase(q.sortby, "CompanyName") then OrderBy(s, ByCompanyName, q.isDescending)
      else if EqualsIgnoreCase(q.sortby, "Industry") then OrderBy(s, ByIndustry, q.isDescending)
      else if EqualsIgnoreCase(q.sortby, "Purchase") then OrderBy(s, ByPurchase, q.isDescending)
      else if EqualsIgnoreCase(q.sortby, "LastDiv") then OrderBy(s, ByLastDiv, q.isDescending)
      else if EqualsIgnoreCase(q.sortby, "MarketCap") then OrderBy(s, ByMarketCap, q.isDescending)
      else s
    else s
  }

  /** `MockStockRepository.GetAllAsync` on the stored list `s`. */
  function MockGetAll(s: seq<Stock>, q: QueryObject): (r: seq<Stock>)
    ensures |r| <= |s|
    ensures q.pageSize <= 0 ==> r == []
    ensures q.pageSize > 0 ==> |r| <= q.pageSize
  {
    var skipNumber := SkipCount(q.pageNumber, q.pageSize);
    Take(Skip(MockOrdered(MockFiltered(s, q), q), skipNumber), q.pageSize)
  }

  /** The two filters in a row are the one combined filter. */
  lemma {:induction false} MockFilteredIsWhere(s: seq<Stock>, q: QueryObject)
    ensures MockFiltered(s, q) == Where(s, (x: Stock) => MockMatches(q, x))
  {
    var pn := (x: Stock) => ContainsIgnoreCase(x.companyName, q.companyName);
    var ps := (x: Stock) => ContainsIgnoreCase(x.symbol, q.symbol);
    var keep := (x: Stock) => MockMatches(q, x);
    if !IsBlank(q.symbol) && !IsBlank(q.companyName) {
      WhereWhere(s, pn, ps, keep);
    } else if !IsBlank(q.symbol) {
      WhereSame(s, ps, keep);
    } else if !IsBlank(q.companyName) {
      WhereSame(s, pn, keep);
    } else {
      WhereAll(s, keep);
    }
  }

  /** The chain of name tests selects `MockSortKey`'s key. */
  lemma {:induction false} MockOrderedIsOrdered(s: seq<Stock>, q: QueryObject)
    ensures MockOrdered(s, q) == Ordered(s, MockSortKey(q.sortby), q.isDescending)
  {
    var key := MockSortKey(q.sortby);
    var d := q.isDescending;
    if IsBlank(q.sortby) {
      assert key == None;
    } else if EqualsIgnoreCase(q.sortby, "Symbol") {
      assert key == Some(BySymbol);
    } else if EqualsIgnoreCase(q.sortby, "CompanyName") {
      assert key == Some(ByCompanyName);
    } else if EqualsIgnoreCase(q.sortby, "Industry") {
      assert key == Some(ByIndustry);
    } else if EqualsIgnoreCase(q.sortby, "Purchase") {
      assert key == Some(ByPurchase);
    } else if EqualsIgnoreCase(q.sortby, "LastDiv") {
      assert key == Some(ByLastDiv);
    } else if EqualsIgnoreCase(q.sortby, "MarketCap") {
      assert key == Some(ByMarketCap);
    } else {
      assert key == None;
    }
  }

  /** The test double's query is the generic listing with its filter and key. */
  lemma {:induction false} MockGetAllIsListing(s: seq<Stock>, q: QueryObject)
    ensures MockGetAll(s, q) == Listing(s, (x: Stock) => MockMatches(q, x), MockSortKey(q.sortby), q)
  {
    MockFilteredIsWhere(s, q);
    MockOrderedIsOrdered(MockFiltered(s, q), q);
  }

  /** Filters that agree on every element select the same elements. */
  lemma {:induction false} WhereSame<T(!new)>(s: seq<T>, p: T -> bool, q: T -> bool)
    requires forall i :: 0 <= i < |s| ==> p(s[i]) == q(s[i])
    ensures Where(s, p) == Where(s, q)
  {
    if s != [] {
      WhereSame(s[1..], p, q);
    }
  }

  /** The listing holds exactly matching stocks, at most a page of them, in
      key order when a key is recognised and in stored order otherwise. */
  lemma {:induction false} MockGetAllSpec(s: seq<Stock>, q: QueryObject)
    ensures forall x :: x in MockGetAll(s, q) ==> x in s && MockMatches(q, x)
    ensures q.pageSize > 0 ==> |MockGetAll(s, q)| <= q.pageSize
    ensures q.pageSize <= 0 ==> MockGetAll(s, q) == []
    ensures q.pageNumber == 1 && q.pageSize >= |s| ==>
      forall x :: x in MockGetAll(s, q) <==> x in s && MockMatches(q, x)
    ensures MockSortKey(q.sortby).None? ==>
      MockGetAll(s, q) == Page(Where(s, (x: Stock) => MockMatches(q, x)), q.pageNumber, q.pageSize)
    ensures MockSortKey(q.sortby).Some? ==>
      var k := MockSortKey(q.sortby).value;
      var r := MockGetAll(s, q);
      forall i, j :: 0 <= i < j < |r| ==>
        if q.isDescending then KeyLe(k, r[j], r[i]) else KeyLe(k, r[i], r[j])
  {
    var keep := (x: Stock) => MockMatches(q, x);
    MockGetAllIsListing(s, q);
    ListingSound(s, keep, MockSortKey(q.sortby), q);
    if q.pageNumber == 1 && q.pageSize >= |s| {
      ListingCompleteOnFirstPage(s, keep, MockSortKey(q.sortby), q);
    }
    if MockSortKey(q.sortby).Some? {
      ListingSorted(s, keep, MockSortKey(q.sortby).value, q);
    }
  }

  /** The default query lists the first twenty stocks as stored. */
  lemma {:induction false} MockDefaultListingIsPrefix(s: seq<Stock>)
    ensures MockGetAll(s, DefaultQuery) == s[..Min(20, |s|)]
  {
    MockGetAllIsListing(s, DefaultQuery);
    WhereAll(s, (x: Stock) => MockMatches(DefaultQuery, x));
    assert SkipCount(1, 20) == 0;
  }

  // ---------------------------------------------------------------------------
  // The database repository's query.

  /** The filters with ordinal, case-sensitive `Contains`; an empty filter
      lets everything through. */
  predicate RepositoryMatches(q: QueryObject, x: Stock) {
    && (|q.companyName| == 0 || Contains(x.companyName, q.companyName))
    && (|q.symbol| == 0 || Contains(x.symbol, q.symbol))
  }

  function RepositoryFiltered(s: seq<Stock>, q: QueryObject): seq<Stock> {
    var byName :=
      if |q.companyName| > 0 then Where(s, (x: Stock) => Contains(x.companyName, q.companyName))
      else s;
    if |q.symbol| > 0 then Where(byName, (x: Stock) => Contains(x.symbol, q.symbol))
    else byName
  }

  /** Two independent tests, one per key, applied one after the other. */
  function RepositoryOrdered(s: seq<Stock>, q: QueryObject): seq<Stock> {
    if |q.sortby| > 0 then
      var bySymbol :=
        if EqualsIgnoreCase(q.sortby, "Symbol") then OrderBy(s, BySymbol, q.isDescending) else s;
      if EqualsIgnoreCase(q.sortby, "CompanyName") then OrderBy(bySymbol, ByCompanyName, q.isDescending)
      else bySymbol
    else s
  }

  /** The sort key the repository applies: only `Symbol` and `CompanyName`
      are recognised. */
  function RepositorySortKey(sortby: string): (r: Option<SortKey>)
    ensures r.Some? ==> r.value in {BySymbol, ByCompanyName} && EqualsIgnoreCase(sortby, KeyName(r.value))
    ensures r.None? ==> !EqualsIgnoreCase(sortby, "Symbol") && !EqualsIgnoreCase(sortby, "CompanyName")
  {
    if |sortby| > 0 && EqualsIgnoreCase(sortby, "Symbol") then Some(BySymbol)
    else if |sortby| > 0 && EqualsIgnoreCase(sortby, "CompanyName") then Some(ByCompanyName)
    else None
  }

  /** At most one of the two sorts fires, because no string equals both
      names (their lengths differ). */
  lemma {:induction false} RepositorySortIsSingleKey(s: seq<Stock>, q: QueryObject)
    ensures RepositoryOrdered(s, q) == Ordered(s, RepositorySortKey(q.sortby), q.isDescending)
  {
    if EqualsIgnoreCase(q.sortby, "Symbol") {
      EqualsIgnoreCaseSameLength(q.sortby, "Symbol");
      assert !EqualsIgnoreCase(q.sortby, "CompanyName") by {
        if EqualsIgnoreCase(q.sortby, "CompanyName") {
          EqualsIgnoreCaseSameLength(q.sortby, "CompanyName");
        }
      }
    }
  }

  /** The database's refusal of the paging clause, which the query raises as an exception. */
  datatype DatabaseError = InvalidOffsetOrFetch

  /** `Skip` and `Take` become SQL Server's `OFFSET … ROWS FETCH NEXT … ROWS ONLY`,
      which refuses a negative offset and a row count below one. */
  predicate PagingAccepted(q: QueryObject) {
    SkipCount(q.pageNumber, q.pageSize) >= 0 && q.pageSize >= 1
  }

  /** `StockRepository.GetAllAsync` on the stored rows `s`, in stored order:
      fails where the database refuses the paging clause. */
  function RepositoryGetAll(s: seq<Stock>, q: QueryObject): (r: Result<seq<Stock>, DatabaseError>)
    ensures r.Failure? <==> !PagingAccepted(q)
    ensures r.Success? ==> |r.value| <= |s| && |r.value| <= q.pageSize
  {
    var skipNumber := SkipCount(q.pageNumber, q.pageSize);
    if skipNumber < 0 || q.pageSize < 1 then Failure(InvalidOffsetOrFetch)
    else Success(Take(Skip(RepositoryOrdered(RepositoryFiltered(s, q), q), skipNumber), q.pageSize))
  }

  lemma {:induction false} RepositoryFilteredIsWhere(s: seq<Stock>, q: QueryObject)
    ensures RepositoryFiltered(s, q) == Where(s, (x: Stock) => RepositoryMatches(q, x))
  {
    var pn := (x: Stock) => Contains(x.companyName, q.companyName);
    var ps := (x: Stock) => Contains(x.symbol, q.symbol);
    var keep := (x: Stock) => RepositoryMatches(q, x);
    if |q.symbol| > 0 && |q.companyName| > 0 {
      WhereWhere(s, pn, ps, keep);
    } else if |q.symbol| > 0 {
      WhereSame(s, ps, keep);
    } else if |q.companyName| > 0 {
      WhereSame(s, pn, keep);
    } else {
      WhereAll(s, keep);
    }
  }

  /** Where the database accepts the paging clause, the repository's query is
      the generic listing with its filter and key; elsewhere it fails. */
  lemma {:induction false} RepositoryGetAllIsListing(s: seq<Stock>, q: QueryObject)
    ensures RepositoryGetAll(s, q) ==
      if PagingAccepted(q) then Success(Listing(s, (x: Stock) => RepositoryMatches(q, x), RepositorySortKey(q.sortby), q))
      else Failure(InvalidOffsetOrFetch)
  {
    RepositoryFilteredIsWhere(s, q);
    RepositorySortIsSingleKey(RepositoryFiltered(s, q), q);
  }

  lemma {:induction false} RepositoryGetAllSpec(s: seq<Stock>, q: QueryObject)
    ensures RepositoryGetAll(s, q).Failure? <==> !PagingAccepted(q)
    ensures RepositoryGetAll(s, q).Success? ==>
      forall x :: x in RepositoryGetAll(s, q).value ==> x in s && RepositoryMatches(q, x)
    ensures RepositoryGetAll(s, q).Success? ==> |RepositoryGetAll(s, q).value| <= q.pageSize
    ensures q.pageNumber == 1 && q.pageSize >= 1 && q.pageSize >= |s| ==>
      && RepositoryGetAll(s, q).Success?
      && forall x :: x in RepositoryGetAll(s, q).value <==> x in s && RepositoryMatches(q, x)
    ensures RepositorySortKey(q.sortby).None? && RepositoryGetAll(s, q).Success? ==>
      RepositoryGetAll(s, q).value == Page(Where(s, (x: Stock) => RepositoryMatches(q, x)), q.pageNumber, q.pageSize)
    ensures RepositorySortKey(q.sortby).Some? && RepositoryGetAll(s, q).Success? ==>
      var k := RepositorySortKey(q.sortby).value;
      var r := RepositoryGetAll(s, q).value;
      forall i, j :: 0 <= i < j < |r| ==>
        if q.isDescending then KeyLe(k, r[j], r[i]) else KeyLe(k, r[i], r[j])
  {
    RepositoryGetAllIsListing(s, q);
    if PagingAccepted(q) {
      var keep := (x: Stock) => RepositoryMatches(q, x);
      var key := RepositorySortKey(q.sortby);
      assert RepositoryGetAll(s, q).value == Listing(s, keep, key, q);
      ListingSound(s, keep, key, q);
      if q.pageNumber == 1 && q.pageSize >= |s| {
        ListingCompleteOnFirstPage(s, keep, key, q);
      }
      if key.Some? {
        ListingSorted(s, keep, key.value, q);
      }
    }
  }

  /** Which pages the database refuses: every page of size zero or less, every
      page number below one whose offset stays in range, and page 107374184 of
      twenty, whose offset wraps to a negative `int`; every page from one on
      whose offset stays in range is accepted. */
  lemma {:induction false} RepositoryPagingFailures(s: seq<Stock>, q: QueryObject)
    ensures q.pageSize < 1 ==> RepositoryGetAll(s, q).Failure?
    ensures q.pageNumber < 1 && q.pageSize >= 1 && (q.pageNumber - 1) * q.pageSize >= INT32_MIN ==>
      RepositoryGetAll(s, q).Failure?
    ensures q.pageNumber >= 1 && q.pageSize >= 1 && (q.pageNumber - 1) * q.pageSize <= INT32_MAX ==>
      RepositoryGetAll(s, q).Success?
    ensures RepositoryGetAll(s, q.(pageNumber := 107374184, pageSize := 20)).Failure?
  {
    if q.pageNumber < 1 && q.pageSize >= 1 && (q.pageNumber - 1) * q.pageSize >= INT32_MIN {
      MulNegative(q.pageNumber - 1, q.pageSize);
      assert SkipCount(q.pageNumber, q.pageSize) == (q.pageNumber - 1) * q.pageSize;
    }
    if q.pageNumber >= 1 && q.pageSize >= 1 && (q.pageNumber - 1) * q.pageSize <= INT32_MAX {
      MulNonNegative(q.pageNumber - 1, q.pageSize);
      assert SkipCount(q.pageNumber, q.pageSize) == (q.pageNumber - 1) * q.pageSize;
    }
    assert SkipCount(107374184, 20) < 0;
  }

  /** A case-sensitive match is also a case-insensitive one, so the repository
      never lists a stock the test double would filter out. */
  lemma {:induction false} RepositoryMatchImpliesMockMatch(q: QueryObject, x: Stock)
    requires RepositoryMatches(q, x)
    ensures MockMatches(q, x)
  {
    if !IsBlank(q.companyName) && |q.companyName| > 0 {
      ContainsImpliesContainsIgnoreCase(x.companyName, q.companyName);
    }
    if !IsBlank(q.symbol) && |q.symbol| > 0 {
      ContainsImpliesContainsIgnoreCase(x.symbol, q.symbol);
    }
  }

  /** The default query lists the first twenty rows as stored; its offset 0
      and row count 20 are ones the database accepts. */
  lemma {:induction false} RepositoryDefaultListingIsPrefix(s: seq<Stock>)
    ensures RepositoryGetAll(s, DefaultQuery) == Success(s[..Min(20, |s|)])
  {
    assert RepositoryFiltered(s, DefaultQuery) == s;
    assert SkipCount(1, 20) == 0;
  }
}
