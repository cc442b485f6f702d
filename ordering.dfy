/** The single-key orderings of the stock listing: LINQ's `OrderBy` and
    `OrderByDescending` over one of the six sortable fields. Strings are
    compared in ordinal order. */
module Ordering {
  import opened Models
  import opened Text
  import opened Sorting

  datatype SortKey = BySymbol | ByCompanyName | ByIndustry | ByPurchase | ByLastDiv | ByMarketCap

  /** The key of `a` sorts no later than the key of `b`. */
  predicate KeyLe(k: SortKey, a: Stock, b: Stock) {
    match k
    case BySymbol => StrLe(a.symbol, b.symbol)
    case ByCompanyName => StrLe(a.companyName, b.companyName)
    case ByIndustry => StrLe(a.industry, b.industry)
    case ByPurchase => a.purchase <= b.purchase
    case ByLastDiv => a.lastDiv <= b.lastDiv
    case ByMarketCap => a.marketCap <= b.marketCap
  }

  lemma {:induction false} KeyLeTotal(k: SortKey, a: Stock, b: Stock)
    ensures KeyLe(k, a, b) || KeyLe(k, b, a)
  {
    match k
    case BySymbol => StrLeTotal(a.symbol, b.symbol);
    case ByCompanyName => StrLeTotal(a.companyName, b.companyName);
    case ByIndustry => StrLeTotal(a.industry, b.industry);
    case _ =>
  }

  lemma {:induction false} KeyLeTransitive(k: SortKey, a: Stock, b: Stock, c: Stock)
    requires KeyLe(k, a, b) && KeyLe(k, b, c)
    ensures KeyLe(k, a, c)
  {
    match k
    case BySymbol => StrLeTransitive(a.symbol, b.symbol, c.symbol);
    case ByCompanyName => StrLeTransitive(a.companyName, b.companyName, c.companyName);
    case ByIndustry => StrLeTransitive(a.industry, b.industry, c.industry);
    case _ =>
  }

  /** Two stocks are tied under `k` exactly when their keys are equal. */
  lemma {:induction false} KeyTiedIffEqual(k: SortKey, a: Stock, b: Stock)
    ensures KeyLe(k, a, b) && KeyLe(k, b, a) <==> Key(k, a) == Key(k, b)
  {
    if KeyLe(k, a, b) && KeyLe(k, b, a) {
      match k
      case BySymbol => StrLeAntisymmetric(a.symbol, b.symbol);
      case ByCompanyName => StrLeAntisymmetric(a.companyName, b.companyName);
      case ByIndustry => StrLeAntisymmetric(a.industry, b.industry);
      case _ =>
    }
    if Key(k, a) == Key(k, b) {
      match k
      case BySymbol => StrLeRefl(a.symbol);
      case ByCompanyName => StrLeRefl(a.companyName);
      case ByIndustry => StrLeRefl(a.industry);
      case _ =>
    }
  }

  /** The value the key selector reads. */
  datatype KeyValue = StringKey(s: string) | DecimalKey(d: real) | LongKey(n: int)

  function Key(k: SortKey, a: Stock): KeyValue {
    match k
    case BySymbol => StringKey(a.symbol)
    case ByCompanyName => StringKey(a.companyName)
    case ByIndustry => StringKey(a.industry)
    case ByPurchase => DecimalKey(a.purchase)
    case ByLastDiv => DecimalKey(a.lastDiv)
    case ByMarketCap => LongKey(a.marketCap)
  }

  /** The "may come before" relation of `OrderBy(k)`. */
  function Ascending(k: SortKey): (Stock, Stock) -> bool {
    (a, b) => KeyLe(k, a, b)
  }

  /** The "may come before" relation of `OrderBy(k)` or `OrderByDescending(k)`. */
  function Direction(k: SortKey, desc: bool): (Stock, Stock) -> bool {
    if desc then Flip(Ascending(k)) else Ascending(k)
  }

  lemma {:induction false} AscendingTotalPreorder(k: SortKey)
    ensures TotalPreorder(Ascending(k))
  {
    forall a, b ensures KeyLe(k, a, b) || KeyLe(k, b, a) {
      KeyLeTotal(k, a, b);
    }
    forall a, b, c | KeyLe(k, a, b) && KeyLe(k, b, c) ensures KeyLe(k, a, c) {
      KeyLeTransitive(k, a, b, c);
    }
  }

  lemma {:induction false} DirectionTotalPreorder(k: SortKey, desc: bool)
    ensures TotalPreorder(Direction(k, desc))
  {
    AscendingTotalPreorder(k);
    if desc { FlipTotalPreorder(Ascending(k)); }
  }

  /** `OrderBy(k)` (or `OrderByDescending(k)` when `desc`). */
  function OrderBy(s: seq<Stock>, k: SortKey, desc: bool): (r: seq<Stock>)
    ensures |r| == |s|
    ensures multiset(r) == multiset(s)
  {
    Sort(s, Direction(k, desc))
  }

  /** The result is a permutation of the input, ordered by the key in the
      requested direction. */
  lemma {:induction false} OrderBySortedPermutation(s: seq<Stock>, k: SortKey, desc: bool)
    ensures |OrderBy(s, k, desc)| == |s|
    ensures multiset(OrderBy(s, k, desc)) == multiset(s)
    ensures forall i, j :: 0 <= i < j < |s| ==>
      (if desc then KeyLe(k, OrderBy(s, k, desc)[j], OrderBy(s, k, desc)[i])
       else KeyLe(k, OrderBy(s, k, desc)[i], OrderBy(s, k, desc)[j]))
  {
    DirectionTotalPreorder(k, desc);
    SortSorted(s, Direction(k, desc));
  }

  /** Stocks with equal keys keep their relative order, in either direction. */
  lemma {:induction false} OrderByStable(s: seq<Stock>, k: SortKey, desc: bool, y: Stock)
    ensures TiedWith(OrderBy(s, k, desc), Direction(k, desc), y) == TiedWith(s, Direction(k, desc), y)
  {
    DirectionTotalPreorder(k, desc);
    SortStable(s, Direction(k, desc), y);
  }

  /** No two stocks of `s` share a key. */
  ghost predicate DistinctKeys(s: seq<Stock>, k: SortKey) {
    forall i, j :: 0 <= i < j < |s| ==> Key(k, s[i]) != Key(k, s[j])
  }

  /** When the keys are distinct, the descending order is the ascending one
      reversed. */
  lemma {:induction false} DescendingIsReversedAscending(s: seq<Stock>, k: SortKey)
    requires DistinctKeys(s, k)
    ensures OrderBy(s, k, true) == Reverse(OrderBy(s, k, false))
  {
    AscendingTotalPreorder(k);
    forall i, j | 0 <= i < j < |s| ensures !Tied(Ascending(k), s[i], s[j]) {
      KeyTiedIffEqual(k, s[i], s[j]);
    }
    FlippedSortIsReversed(s, Ascending(k));
  }
}
