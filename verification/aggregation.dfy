/**
 The summary of the collected records (`analisar_dados`). Price parsing,
 `float()` after removing the pound sign, is a parameter `parse`. Both means
 are kept exactly, as (sum, count) pairs whose quotient is the mean.
 */
module Aggregation {
  import opened Wrappers
  import opened Text
  import opened Extraction
  import opened Page
  import opened Walk

  /** The currency symbol `str.replace('£', '')` removes. */
  const Currency: char := '£'

  /** One entry of `livros_por_pagina`. */
  datatype PageCount = PageCount(page: nat, count: nat)

  /** `preco_medio` before formatting: the prices' sum and how many there are. */
  datatype PriceMean = PriceMean(sum: real, count: nat)

  /** `avaliacao_media`: the ratings' sum and how many there are. */
  datatype RatingMean = RatingMean(sum: nat, count: nat)

  /** The dict `analisar_dados` returns. `NoData` is the empty dict. In a
      `Report`, `None` stands for the defaults the dict starts with:
      'N/A' for the price mean and 0 for the rating mean. */
  datatype Analysis =
    | NoData
    | Report(
        totalBooks: nat,
        averagePrice: Option<PriceMean>,
        averageRating: Option<RatingMean>,
        ratingDistribution: multiset<string>,
        booksPerPage: seq<PageCount>)

  /** The price text handed to `float()`. */
  function PriceText(b: CatalogBook): string {
    RemoveAll(b.info.price, Currency)
  }

  /** Every price converts. */
  ghost predicate PricesParse(books: seq<CatalogBook>, parse: string -> Option<real>) {
    forall k :: 0 <= k < |books| ==> parse(PriceText(books[k])).Some?
  }

  /** `df['preco'].str.replace('£', '').astype(float)`: the whole column
      converts, or the conversion fails. */
  function ParsePrices(books: seq<CatalogBook>, parse: string -> Option<real>): (r: Option<seq<real>>)
    ensures r.Some? <==> PricesParse(books, parse)
    ensures r.Some? ==> |r.value| == |books|
    ensures r.Some? ==> forall k :: 0 <= k < |books| ==> Some(r.value[k]) == parse(PriceText(books[k]))
  {
    if |books| == 0 then Some([])
    else
      assert forall k :: 0 <= k < |books| - 1 ==> books[1..][k] == books[k + 1];
      match parse(PriceText(books[0]))
      case None => None
      case Some(v) =>
        match ParsePrices(books[1..], parse)
        case None => None
        case Some(vs) => Some([v] + vs)
  }

  function Sum(xs: seq<real>): real {
    if |xs| == 0 then 0.0 else xs[0] + Sum(xs[1..])
  }

  /** The sum of `rating_numero`; at most 5 per well-formed record. */
  function RatingSum(books: seq<CatalogBook>): (r: nat)
    ensures (forall k :: 0 <= k < |books| ==> WellFormed(books[k].info)) ==> r <= 5 * |books|
  {
    if |books| == 0 then 0
    else
      assert forall k :: 0 <= k < |books| - 1 ==> books[1..][k] == books[k + 1];
      books[0].info.ratingNumber + RatingSum(books[1..])
  }

  /** The `rating_texto` column. */
  function Labels(books: seq<CatalogBook>): seq<string> {
    seq(|books|, k requires 0 <= k < |books| => books[k].info.ratingText)
  }

  /** `value_counts()` of the labels: each observed label counted once per
      record carrying it, the counts summing to the number of records. */
  function RatingTally(books: seq<CatalogBook>): (r: multiset<string>)
    ensures r == multiset(Labels(books))
    ensures |r| == |books|
  {
    if |books| == 0 then multiset{}
    else
      assert Labels(books) == [books[0].info.ratingText] + Labels(books[1..]);
      multiset{books[0].info.ratingText} + RatingTally(books[1..])
  }

  /** Pages strictly ascend along the list. */
  ghost predicate Ascending(cs: seq<PageCount>) {
    forall i, j :: 0 <= i < j < |cs| ==> cs[i].page < cs[j].page
  }

  /** No entry has a zero count. */
  ghost predicate Positive(cs: seq<PageCount>) {
    forall i :: 0 <= i < |cs| ==> cs[i].count > 0
  }

  /** The count the list holds for page `p` (0 when `p` has no entry). */
  function CountOf(cs: seq<PageCount>, p: nat): nat {
    if |cs| == 0 then 0
    else (if cs[0].page == p then cs[0].count else 0) + CountOf(cs[1..], p)
  }

  /** The pages that have an entry. */
  function Pages(cs: seq<PageCount>): set<nat> {
    if |cs| == 0 then {} else {cs[0].page} + Pages(cs[1..])
  }

  /** The sum of all counts. */
  function Total(cs: seq<PageCount>): nat {
    if |cs| == 0 then 0 else cs[0].count + Total(cs[1..])
  }

  lemma {:induction false} CountOfAbsent(cs: seq<PageCount>, p: nat)
    requires forall i :: 0 <= i < |cs| ==> cs[i].page != p
    ensures CountOf(cs, p) == 0
  {
    if |cs| > 0 {
      CountOfAbsent(cs[1..], p);
    }
  }

  /** Counts and total of a list with one more entry in front. */
  lemma Cons(x: PageCount, tail: seq<PageCount>)
    ensures forall q :: CountOf([x] + tail, q) == (if x.page == q then x.count else 0) + CountOf(tail, q)
    ensures Total([x] + tail) == x.count + Total(tail)
  {
    assert ([x] + tail)[1..] == tail;
  }

  /** One more record for page `p`, keeping the list ascending. */
  function Insert(cs: seq<PageCount>, p: nat): (r: seq<PageCount>)
    requires Ascending(cs)
    ensures Ascending(r)
    ensures |cs| > 0 ==> forall i :: 0 <= i < |r| ==> r[i].page == p || r[i].page >= cs[0].page
  {
    if |cs| == 0 then [PageCount(p, 1)]
    else if cs[0].page == p then [PageCount(p, cs[0].count + 1)] + cs[1..]
    else if p < cs[0].page then [PageCount(p, 1)] + cs
    else [cs[0]] + Insert(cs[1..], p)
  }

  /** The pages of the list after inserting `p` are the old ones and `p`:
      no other page is added and none is lost. */
  lemma {:induction false} InsertPages(cs: seq<PageCount>, p: nat)
    requires Ascending(cs)
    ensures Pages(Insert(cs, p)) == Pages(cs) + {p}
  {
    if |cs| > 0 {
      assert cs == [cs[0]] + cs[1..];
      var r := Insert(cs, p);
      assert r[1..] == if cs[0].page == p then cs[1..] else if p < cs[0].page then cs else Insert(cs[1..], p);
      if p > cs[0].page {
        InsertPages(cs[1..], p);
      }
    }
  }

  /** Inserting page `p` raises its count by one and leaves every other
      count alone. */
  lemma {:induction false} InsertCounts(cs: seq<PageCount>, p: nat)
    requires Ascending(cs)
    ensures forall q :: CountOf(Insert(cs, p), q) == CountOf(cs, q) + (if q == p then 1 else 0)
  {
    if |cs| == 0 {
      Cons(PageCount(p, 1), []);
    } else {
      Cons(cs[0], cs[1..]);
      assert cs == [cs[0]] + cs[1..];
      if cs[0].page == p {
        Cons(PageCount(p, cs[0].count + 1), cs[1..]);
        CountOfAbsent(cs[1..], p);
      } else if p < cs[0].page {
        Cons(PageCount(p, 1), cs);
        CountOfAbsent(cs, p);
      } else {
        InsertCounts(cs[1..], p);
        Cons(cs[0], Insert(cs[1..], p));
      }
    }
  }

  /** Inserting page `p` raises the total by one and keeps every count
      positive. */
  lemma {:induction false} InsertTotal(cs: seq<PageCount>, p: nat)
    requires Ascending(cs)
    ensures Positive(cs) ==> Positive(Insert(cs, p))
    ensures Total(Insert(cs, p)) == Total(cs) + 1
  {
    if |cs| == 0 {
      Cons(PageCount(p, 1), []);
    } else {
      Cons(cs[0], cs[1..]);
      if cs[0].page == p {
        Cons(PageCount(p, cs[0].count + 1), cs[1..]);
      } else if p < cs[0].page {
        Cons(PageCount(p, 1), cs);
      } else {
        InsertTotal(cs[1..], p);
        Cons(cs[0], Insert(cs[1..], p));
      }
    }
  }

  /** `df['pagina'].value_counts().sort_index()`: one entry per page that
      occurs, in ascending page order, holding its number of records. */
  function PageCounts(books: seq<CatalogBook>): (r: seq<PageCount>)
    ensures Ascending(r)
    ensures Positive(r)
    ensures forall p :: CountOf(r, p) == |BooksOfPage(books, p)|
    ensures Total(r) == |books|
  {
    if |books| == 0 then []
    else
      var rest := PageCounts(books[1..]);
      InsertCounts(rest, books[0].page);
      InsertTotal(rest, books[0].page);
      Insert(rest, books[0].page)
  }

  /** `analisar_dados`: the empty dict for no records; otherwise the total,
      and then either every statistic or none of them, depending on
      whether every price converts. */
  function Analyze(books: seq<CatalogBook>, parse: string -> Option<real>): (a: Analysis)
    ensures a.NoData? <==> books == []
    ensures a.Report? ==> a.totalBooks == |books|
    ensures a.Report? ==> (a.averagePrice.Some? <==> PricesParse(books, parse))
    ensures a.Report? && PricesParse(books, parse) ==>
      && a.averagePrice == Some(PriceMean(Sum(ParsePrices(books, parse).value), |books|))
      && a.averageRating == Some(RatingMean(RatingSum(books), |books|))
      && a.ratingDistribution == multiset(Labels(books))
      && |a.ratingDistribution| == a.totalBooks
      && Ascending(a.booksPerPage)
      && Positive(a.booksPerPage)
      && (forall p :: CountOf(a.booksPerPage, p) == |BooksOfPage(books, p)|)
      && Total(a.booksPerPage) == a.totalBooks
    ensures a.Report? && !PricesParse(books, parse) ==>
      && a.averagePrice == None
      && a.averageRating == None
      && a.ratingDistribution == multiset{}
      && a.booksPerPage == []
  {
    if |books| == 0 then NoData
    else
      match ParsePrices(books, parse)
      case None => Report(|books|, None, None, multiset{}, [])
      case Some(prices) =>
        Report(|books|,
               Some(PriceMean(Sum(prices), |books|)),
               Some(RatingMean(RatingSum(books), |books|)),
               RatingTally(books),
               PageCounts(books))
  }

  /** A record whose price node was missing carries the sentinel, which
      `float()` rejects; that one record voids every statistic. */
  lemma MissingPriceVoidsStatistics(books: seq<CatalogBook>, parse: string -> Option<real>, k: nat)
    requires k < |books| && books[k].info.price == Missing
    requires parse(Missing) == None
    ensures Analyze(books, parse) == Report(|books|, None, None, multiset{}, [])
  {
    assert Currency !in Missing;
    assert PriceText(books[k]) == Missing;
  }

  /** For the whole collection, the count `PageCounts` reports for page `p`
      is the number of records page `p` yielded, and the rating sum is at
      most 5 per record. */
  lemma CatalogStatistics(base: string, total: int, fetch: string -> Option<seq<Container>>, p: nat)
    ensures var books := Catalog(base, total, fetch).books;
            && CountOf(PageCounts(books), p) == (if 1 <= p <= total then |ScrapePage(fetch(PageUrl(base, p)))| else 0)
            && RatingSum(books) <= 5 * |books|
  {
    CatalogPages(base, total, fetch, p);
  }
}
