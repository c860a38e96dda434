/**
 The multi-page walk (`scrape_multiplas_paginas`). The walk is written over
 a page collector `collect`, the URL-to-records step; `Catalog` then
 instantiates it with `Page.ScrapePage` after a request `fetch`, whose result
 is None for a failed request and the page's containers otherwise. The walk
 also returns the URLs it handed to the collector, in order.
 */
module Walk {
  import opened Wrappers
  import opened Text
  import opened Extraction
  import opened Page

  /** A collected record with its `numero_sequencia` and its `pagina`. */
  datatype CatalogBook = CatalogBook(info: BookInfo, sequence: nat, page: nat)

  /** The records collected and the URLs requested, both in walk order. */
  datatype WalkResult = WalkResult(books: seq<CatalogBook>, requests: seq<string>)

  const PagePath: string := "/catalogue/page-"
  const PageExtension: string := ".html"

  /** `f"{url_base}/catalogue/page-{pagina}.html"` */
  function PageUrl(base: string, n: nat): string {
    base + PagePath + NatToDecimal(n) + PageExtension
  }

  /** A page URL is the base and the page path, then a digit string that
      reads back as the page number, then the extension. */
  lemma PageUrlShape(base: string, n: nat)
    ensures var u := PageUrl(base, n);
            var lo := |base| + |PagePath|;
            var hi := |u| - |PageExtension|;
            && lo < hi
            && u[..lo] == base + PagePath
            && u[hi..] == PageExtension
            && (forall k :: lo <= k < hi ==> IsDigit(u[k]))
            && DecimalValue(u[lo..hi]) == n
  {
    var u := PageUrl(base, n);
    assert u[|base| + |PagePath|..|u| - |PageExtension|] == NatToDecimal(n);
    DecimalRoundTrip(n);
  }

  /** What page `n` of the walk yields. */
  function PageYield(base: string, collect: string -> seq<PageBook>, n: nat): seq<PageBook> {
    collect(PageUrl(base, n))
  }

  /** The inner loop `livro['pagina'] = pagina`: every record of one page,
      in order, tagged with its page number. */
  function TagPage(books: seq<PageBook>, n: nat): (r: seq<CatalogBook>)
    ensures |r| == |books|
    ensures forall k :: 0 <= k < |r| ==>
      r[k].info == books[k].info && r[k].sequence == books[k].sequence && r[k].page == n
  {
    if |books| == 0 then []
    else [CatalogBook(books[0].info, books[0].sequence, n)] + TagPage(books[1..], n)
  }

  /** Records come in page order, and within a page in sequence order. */
  ghost predicate WalkOrdered(bs: seq<CatalogBook>) {
    forall k, l :: 0 <= k < l < |bs| ==>
      bs[k].page < bs[l].page || (bs[k].page == bs[l].page && bs[k].sequence < bs[l].sequence)
  }

  /** Page numbers never decrease along the records. */
  ghost predicate PageOrdered(bs: seq<CatalogBook>) {
    forall k, l :: 0 <= k < l < |bs| ==> bs[k].page <= bs[l].page
  }

  /** Appending the records of page `n`, tagged, after those of earlier
      pages keeps pages in range and in order, keeps the sequence order when
      the page's own result is increasing, and keeps records well formed. */
  lemma AppendPage(prev: seq<CatalogBook>, page: seq<PageBook>, n: nat)
    requires n >= 1
    requires forall k :: 0 <= k < |prev| ==> 1 <= prev[k].page < n
    requires PageOrdered(prev)
    ensures var books := prev + TagPage(page, n);
            && (forall k :: 0 <= k < |books| ==> 1 <= books[k].page <= n)
            && PageOrdered(books)
            && (WalkOrdered(prev) && Increasing(page) ==> WalkOrdered(books))
            && ((forall k :: 0 <= k < |prev| ==> WellFormed(prev[k].info)) &&
                (forall k :: 0 <= k < |page| ==> WellFormed(page[k].info)) ==>
                forall k :: 0 <= k < |books| ==> WellFormed(books[k].info))
  {
    var tagged := TagPage(page, n);
    var books := prev + tagged;
    assert forall k :: 0 <= k < |prev| ==> books[k] == prev[k];
    assert forall k :: |prev| <= k < |books| ==> books[k] == tagged[k - |prev|];
  }

  /** Every record the collector returns is well formed. */
  ghost predicate AllWellFormed(collect: string -> seq<PageBook>) {
    forall u, k :: 0 <= k < |collect(u)| ==> WellFormed(collect(u)[k].info)
  }

  /** The first `n` iterations of `for pagina in range(1, total_paginas + 1)`. */
  function WalkUpTo(base: string, n: nat, collect: string -> seq<PageBook>): (r: WalkResult)
    ensures |r.requests| == n
    ensures forall i :: 0 <= i < n ==> r.requests[i] == PageUrl(base, i + 1)
    ensures forall k :: 0 <= k < |r.books| ==> 1 <= r.books[k].page <= n
    ensures PageOrdered(r.books)
    ensures (forall u :: Increasing(collect(u))) ==> WalkOrdered(r.books)
    ensures AllWellFormed(collect) ==> forall k :: 0 <= k < |r.books| ==> WellFormed(r.books[k].info)
  {
    if n == 0 then WalkResult([], [])
    else
      var prev := WalkUpTo(base, n - 1, collect);
      var url := PageUrl(base, n);
      var page := collect(url);
      var tagged := TagPage(page, n);
      AppendPage(prev.books, page, n);
      WalkResult(prev.books + tagged, prev.requests + [url])
  }

  /** `scrape_multiplas_paginas(url_base, total_paginas)`: pages
      1..total_paginas are requested in increasing order whatever they
      return, none when `total_paginas` < 1. */
  function Walk(base: string, total: int, collect: string -> seq<PageBook>): (r: WalkResult)
    ensures |r.requests| == if total < 1 then 0 else total
    ensures forall i :: 0 <= i < |r.requests| ==> r.requests[i] == PageUrl(base, i + 1)
    ensures total < 1 ==> r.books == []
    ensures forall k :: 0 <= k < |r.books| ==> 1 <= r.books[k].page <= total
    ensures PageOrdered(r.books)
    ensures (forall u :: Increasing(collect(u))) ==> WalkOrdered(r.books)
    ensures AllWellFormed(collect) ==> forall k :: 0 <= k < |r.books| ==> WellFormed(r.books[k].info)
  {
    WalkUpTo(base, if total < 1 then 0 else total, collect)
  }

  /** The whole collection: each page requested with `fetch` and collected
      by `scrape_pagina_unica`. Every record is well formed and records
      come in page order, then sequence order. */
  function Catalog(base: string, total: int, fetch: string -> Option<seq<Container>>): (r: WalkResult)
    ensures |r.requests| == if total < 1 then 0 else total
    ensures forall i :: 0 <= i < |r.requests| ==> r.requests[i] == PageUrl(base, i + 1)
    ensures forall k :: 0 <= k < |r.books| ==> 1 <= r.books[k].page <= total
    ensures forall k :: 0 <= k < |r.books| ==> WellFormed(r.books[k].info)
    ensures WalkOrdered(r.books)
  {
    var collect := (url: string) => ScrapePage(fetch(url));
    assert AllWellFormed(collect) by {
      forall u, k | 0 <= k < |collect(u)|
        ensures WellFormed(collect(u)[k].info)
      {
        assert collect(u) == ScrapePage(fetch(u));
      }
    }
    assert forall u :: Increasing(collect(u)) by {
      forall u
        ensures Increasing(collect(u))
      {
        assert collect(u) == ScrapePage(fetch(u));
      }
    }
    Walk(base, total, collect)
  }

  /** The records of `bs` that carry page `p`, in order. */
  function BooksOfPage(bs: seq<CatalogBook>, p: nat): (r: seq<CatalogBook>)
    ensures |r| <= |bs|
    ensures forall k :: 0 <= k < |r| ==> r[k].page == p
  {
    if |bs| == 0 then []
    else (if bs[0].page == p then [bs[0]] else []) + BooksOfPage(bs[1..], p)
  }

  lemma {:induction false} BooksOfPageAppend(a: seq<CatalogBook>, b: seq<CatalogBook>, p: nat)
    ensures BooksOfPage(a + b, p) == BooksOfPage(a, p) + BooksOfPage(b, p)
  {
    if |a| == 0 {
      assert a + b == b;
    } else {
      assert (a + b)[1..] == a[1..] + b;
      BooksOfPageAppend(a[1..], b, p);
    }
  }

  lemma {:induction false} BooksOfTaggedPage(books: seq<PageBook>, n: nat, p: nat)
    ensures BooksOfPage(TagPage(books, n), p) == if p == n then TagPage(books, n) else []
  {
    if |books| > 0 {
      BooksOfTaggedPage(books[1..], n, p);
    }
  }

  /** The records of page `p` after one more page `n` is appended. */
  lemma BooksOfPageStep(prev: seq<CatalogBook>, page: seq<PageBook>, n: nat, p: nat)
    ensures BooksOfPage(prev + TagPage(page, n), p) ==
            BooksOfPage(prev, p) + if p == n then TagPage(page, n) else []
  {
    BooksOfPageAppend(prev, TagPage(page, n), p);
    BooksOfTaggedPage(page, n, p);
  }

  lemma {:induction false} WalkUpToPages(base: string, n: nat, collect: string -> seq<PageBook>, p: nat)
    ensures BooksOfPage(WalkUpTo(base, n, collect).books, p) ==
            if 1 <= p <= n then TagPage(PageYield(base, collect, p), p) else []
  {
    if n > 0 {
      var prev := WalkUpTo(base, n - 1, collect);
      var page := PageYield(base, collect, n);
      assert WalkUpTo(base, n, collect).books == prev.books + TagPage(page, n);
      BooksOfPageStep(prev.books, page, n, p);
      WalkUpToPages(base, n - 1, collect, p);
    }
  }

  /** The walk output is the per-page outputs concatenated in page order:
      the records of page `p` are exactly page `p`'s yield, tagged `p`, for
      every requested page, and there are none for any other page. */
  lemma WalkPages(base: string, total: int, collect: string -> seq<PageBook>, p: nat)
    ensures BooksOfPage(Walk(base, total, collect).books, p) ==
            if 1 <= p <= total then TagPage(PageYield(base, collect, p), p) else []
  {
    WalkUpToPages(base, if total < 1 then 0 else total, collect, p);
  }

  /** The same for the whole collection: page `p`'s records are what
      `scrape_pagina_unica` made of the response for page `p`'s URL. */
  lemma CatalogPages(base: string, total: int, fetch: string -> Option<seq<Container>>, p: nat)
    ensures BooksOfPage(Catalog(base, total, fetch).books, p) ==
            if 1 <= p <= total then TagPage(ScrapePage(fetch(PageUrl(base, p))), p) else []
  {
    var collect := (url: string) => ScrapePage(fetch(url));
    assert Catalog(base, total, fetch) == Walk(base, total, collect);
    WalkPages(base, total, collect, p);
  }

  /** The sum of the per-page yields of pages 1..n. */
  function YieldTotal(base: string, collect: string -> seq<PageBook>, n: nat): nat {
    if n == 0 then 0 else YieldTotal(base, collect, n - 1) + |PageYield(base, collect, n)|
  }

  /** The walk's length is the sum of the per-page lengths. */
  lemma {:induction false} WalkLength(base: string, total: int, collect: string -> seq<PageBook>)
    ensures |Walk(base, total, collect).books| == YieldTotal(base, collect, if total < 1 then 0 else total)
  {
    WalkUpToLength(base, if total < 1 then 0 else total, collect);
  }

  lemma {:induction false} WalkUpToLength(base: string, n: nat, collect: string -> seq<PageBook>)
    ensures |WalkUpTo(base, n, collect).books| == YieldTotal(base, collect, n)
  {
    if n > 0 {
      WalkUpToLength(base, n - 1, collect);
    }
  }

  /** A failed request contributes no records, and the walk still requests
      every later page. */
  lemma FailedPageSkipped(base: string, total: int, fetch: string -> Option<seq<Container>>, p: nat)
    requires 1 <= p <= total
    requires fetch(PageUrl(base, p)).None?
    ensures BooksOfPage(Catalog(base, total, fetch).books, p) == []
    ensures forall q :: p < q <= total ==> Catalog(base, total, fetch).requests[q - 1] == PageUrl(base, q)
  {
    CatalogPages(base, total, fetch, p);
  }

  /** Distinct page numbers give distinct URLs. */
  lemma PageUrlInjective(base: string, m: nat, n: nat)
    requires PageUrl(base, m) == PageUrl(base, n)
    ensures m == n
  {
    var u := PageUrl(base, m);
    var lo := |base| + |PagePath|;
    var dm := NatToDecimal(m);
    var dn := NatToDecimal(n);
    assert |dm| == |dn|;
    assert u == (base + PagePath) + dm + PageExtension;
    assert dm == u[lo..lo + |dm|];
    assert dn == u[lo..lo + |dn|];
    DecimalRoundTrip(m);
    DecimalRoundTrip(n);
  }

  /** The walk never requests the same URL twice. */
  lemma RequestsDistinct(base: string, total: int, collect: string -> seq<PageBook>)
    ensures var rs := Walk(base, total, collect).requests;
            forall i, j :: 0 <= i < j < |rs| ==> rs[i] != rs[j]
  {
    var rs := Walk(base, total, collect).requests;
    forall i, j | 0 <= i < j < |rs|
      ensures rs[i] != rs[j]
    {
      if rs[i] == rs[j] {
        PageUrlInjective(base, i + 1, j + 1);
      }
    }
  }
}
