/** The stock double's listing on its seed data, for the queries its tests make. */
module MockListingExamples {
  import opened Wrappers
  import opened Text
  import opened Models
  import opened Helpers
  import opened Ordering
  import Sorting
  import Paging
  import opened StockQuery
  import opened MockRepositories

  const AAPL := SeedStocks[0]
  const MSFT := SeedStocks[1]
  const GOOGL := SeedStocks[2]

  function Query(symbol: string, companyName: string, sortby: string, desc: bool, pageSize: int): QueryObject
    requires 0 <= pageSize <= 100
  {
    QueryObject(symbol, companyName, sortby, desc, 1, pageSize)
  }

  /** Blank filters keep the whole seed. */
  lemma {:induction false} SeedUnfiltered(q: QueryObject)
    requires q.symbol == "" && q.companyName == ""
    ensures MockFiltered(SeedStocks, q) == SeedStocks
  {
  }

  /** "Symbol", in either case, is a non-blank name of the symbol key. */
  lemma {:induction false} SymbolNameMatches(name: string)
    requires name == "Symbol" || name == "symbol"
    ensures !IsBlank(name) && EqualsIgnoreCase(name, "Symbol")
  {
    assert !IsWhiteSpace(name[0]);
    assert Fold(name) == "SYMBOL" == Fold("Symbol");
  }

  /** Ordering the seed by symbol. */
  lemma {:induction false} SeedAscendingBySymbol()
    ensures OrderBy(SeedStocks, BySymbol, false) == [AAPL, GOOGL, MSFT]
  {
    var up := Ascending(BySymbol);
    assert !StrLe("MSFT", "GOOGL") && StrLe("AAPL", "GOOGL");
    assert Sorting.Sort([GOOGL], up) == [GOOGL];
    assert Sorting.Sort([MSFT, GOOGL], up) == [GOOGL, MSFT];
  }

  /** The symbols of the seed are distinct, so the descending order is the
      ascending one reversed. */
  lemma {:induction false} SeedDescendingBySymbol()
    ensures OrderBy(SeedStocks, BySymbol, true) == [MSFT, GOOGL, AAPL]
  {
    SeedDistinctSymbols();
    SeedAscendingBySymbol();
    ReversedThree(SeedStocks, BySymbol, AAPL, GOOGL, MSFT);
  }

  lemma {:induction false} ReversedThree(s: seq<Stock>, k: SortKey, a: Stock, b: Stock, c: Stock)
    requires DistinctKeys(s, k)
    requires OrderBy(s, k, false) == [a, b, c]
    ensures OrderBy(s, k, true) == [c, b, a]
  {
    DescendingIsReversedAscending(s, k);
    ReverseOfThree(a, b, c);
  }

  lemma {:induction false} ReverseOfThree<T>(a: T, b: T, c: T)
    ensures Sorting.Reverse([a, b, c]) == [c, b, a]
  {
    var r := Sorting.Reverse([a, b, c]);
    assert r[0] == c && r[1] == b && r[2] == a;
  }

  lemma {:induction false} SeedDistinctSymbols()
    ensures DistinctKeys(SeedStocks, BySymbol)
  {
    assert AAPL.symbol[0] == 'A' && GOOGL.symbol[0] == 'G' && MSFT.symbol[0] == 'M';
  }

  /** The listing sorted by symbol, either way; the name matches in any case. */
  lemma {:induction false} SeedSortedBySymbol(name: string)
    requires name == "Symbol" || name == "symbol"
    ensures MockGetAll(SeedStocks, Query("", "", name, false, 10)) == [AAPL, GOOGL, MSFT]
    ensures MockGetAll(SeedStocks, Query("", "", name, true, 10)) == [MSFT, GOOGL, AAPL]
  {
    SeedListedBySymbol(name, false);
    SeedAscendingBySymbol();
    SeedListedBySymbol(name, true);
    SeedDescendingBySymbol();
  }

  lemma {:induction false} SeedListedBySymbol(name: string, desc: bool)
    requires name == "Symbol" || name == "symbol"
    ensures MockGetAll(SeedStocks, Query("", "", name, desc, 10)) == OrderBy(SeedStocks, BySymbol, desc)
  {
    var q := Query("", "", name, desc, 10);
    SymbolNameMatches(name);
    SeedUnfiltered(q);
    assert MockOrdered(SeedStocks, q) == OrderBy(SeedStocks, BySymbol, desc);
    assert Paging.SkipCount(1, 10) == 0;
  }

  /** The company-name filter "Apple" keeps Apple only. */
  lemma {:induction false} SeedFilteredByCompanyName()
    ensures MockGetAll(SeedStocks, Query("", "Apple", "", false, 10)) == [AAPL]
  {
    var q := Query("", "Apple", "", false, 10);
    var keep := (x: Stock) => MockMatches(q, x);
    AppleMatchesApple();
    assert keep(AAPL) && !keep(MSFT) && !keep(GOOGL);
    assert Where([GOOGL], keep) == [];
    assert Where([MSFT, GOOGL], keep) == [];
    assert Where(SeedStocks, keep) == [AAPL];
    MockGetAllIsListing(SeedStocks, q);
    assert MockSortKey("") == None;
    assert Paging.SkipCount(1, 10) == 0;
  }

  lemma {:induction false} AppleMatchesApple()
    ensures !IsBlank("Apple")
    ensures ContainsIgnoreCase(AAPL.companyName, "Apple")
    ensures !ContainsIgnoreCase(MSFT.companyName, "Apple")
    ensures !ContainsIgnoreCase(GOOGL.companyName, "Apple")
  {
    assert !IsWhiteSpace("Apple"[0]);
    PrefixIgnoreCase(AAPL.companyName, "Apple");
    NoOccurrenceIgnoreCase(MSFT.companyName, "Apple");
    AlphabetLacksApple();
    NoOccurrenceIgnoreCase(GOOGL.companyName, "Apple");
  }

  /** The symbol filter "MS", in either case, keeps Microsoft only. */
  lemma {:induction false} SeedFilteredBySymbol(sym: string)
    requires sym == "MS" || sym == "ms"
    ensures MockGetAll(SeedStocks, Query(sym, "", "", false, 10)) == [MSFT]
  {
    var q := Query(sym, "", "", false, 10);
    var keep := (x: Stock) => MockMatches(q, x);
    MsMatchesMicrosoft(sym);
    assert !keep(AAPL) && keep(MSFT) && !keep(GOOGL);
    assert Where([GOOGL], keep) == [];
    assert Where([MSFT, GOOGL], keep) == [MSFT];
    assert Where(SeedStocks, keep) == [MSFT];
    MockGetAllIsListing(SeedStocks, q);
    assert MockSortKey("") == None;
    assert Paging.SkipCount(1, 10) == 0;
  }

  lemma {:induction false} MsMatchesMicrosoft(sym: string)
    requires sym == "MS" || sym == "ms"
    ensures !IsBlank(sym)
    ensures !ContainsIgnoreCase(AAPL.symbol, sym)
    ensures ContainsIgnoreCase(MSFT.symbol, sym)
    ensures !ContainsIgnoreCase(GOOGL.symbol, sym)
  {
    assert !IsWhiteSpace(sym[0]);
    assert FoldChar(sym[0]) == 'M' && FoldChar(sym[1]) == 'S';
    PrefixIgnoreCase(MSFT.symbol, sym);
    NoOccurrenceIgnoreCase(AAPL.symbol, sym);
    NoOccurrenceIgnoreCase(GOOGL.symbol, sym);
  }

  /** Without filters or a sort key, a page of ten holds the whole seed and a
      page of two its first two stocks, in stored order. */
  lemma {:induction false} SeedUnsortedPages()
    ensures MockGetAll(SeedStocks, Query("", "", "", false, 10)) == SeedStocks
    ensures MockGetAll(SeedStocks, Query("", "", "", false, 2)) == [AAPL, MSFT]
  {
    SeedUnfiltered(Query("", "", "", false, 10));
    SeedUnfiltered(Query("", "", "", false, 2));
    assert Paging.SkipCount(1, 10) == 0;
    assert Paging.SkipCount(1, 2) == 0;
  }

  /** No "ap", in any case, occurs in "Alphabet Inc.": its two a's are followed
      by l and b. */
  lemma {:induction false} AlphabetLacksApple()
    ensures forall i :: 0 <= i < |GOOGL.companyName| - 1 ==>
      !(FoldChar(GOOGL.companyName[i]) == FoldChar("Apple"[0]) && FoldChar(GOOGL.companyName[i + 1]) == FoldChar("Apple"[1]))
  {
    var hay := GOOGL.companyName;
    assert FoldChar("Apple"[0]) == 'A' && FoldChar("Apple"[1]) == 'P';
    forall i | 0 <= i < |hay| - 1 ensures !(FoldChar(hay[i]) == 'A' && FoldChar(hay[i + 1]) == 'P') {
      if FoldChar(hay[i]) == 'A' {
        assert hay[i] == 'A' || hay[i] == 'a';
        assert i == 0 || i == 4;
      }
    }
  }

  /** `hay` starts with `needle`, ignoring case. */
  lemma {:induction false} PrefixIgnoreCase(hay: string, needle: string)
    requires |needle| <= |hay|
    requires forall i :: 0 <= i < |needle| ==> FoldChar(hay[i]) == FoldChar(needle[i])
    ensures ContainsIgnoreCase(hay, needle)
  {
    assert Fold(hay)[0..|needle|] == Fold(needle);
    assert OccursAt(Fold(hay), Fold(needle), 0);
  }

  /** `needle` occurs nowhere in `hay`, ignoring case, when its first two
      characters never appear side by side there. */
  lemma {:induction false} NoOccurrenceIgnoreCase(hay: string, needle: string)
    requires |needle| >= 2
    requires forall i :: 0 <= i < |hay| - 1 ==>
      !(FoldChar(hay[i]) == FoldChar(needle[0]) && FoldChar(hay[i + 1]) == FoldChar(needle[1]))
    ensures !ContainsIgnoreCase(hay, needle)
  {
    var h := Fold(hay);
    var n := Fold(needle);
    forall i | 0 <= i < |h| - 1 ensures !(h[i] == n[0] && h[i + 1] == n[1]) {
      assert h[i] == FoldChar(hay[i]) && h[i + 1] == FoldChar(hay[i + 1]);
    }
    forall i ensures !OccursAt(h, n, i) {
      if 0 <= i && i + |n| <= |h| {
        assert h[i..i + |n|][0] == h[i] && h[i..i + |n|][1] == h[i + 1];
      }
    }
  }
}
