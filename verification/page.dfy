/**
 Collection of one catalogue page (`scrape_pagina_unica`). The request and
 the HTML parse are replaced by their outcome: None when the request failed,
 otherwise the page's book containers in document order.
 */
module Page {
  import opened Wrappers
  import opened Extraction

  /** An extracted record with its `numero_sequencia`. */
  datatype PageBook = PageBook(info: BookInfo, sequence: nat)

  /** The sequence numbers used in a page result. */
  function Numbers(r: seq<PageBook>): set<nat> {
    set k | 0 <= k < |r| :: r[k].sequence
  }

  /** Every kept record carries the 1-based position of the container it
      was extracted from, and what `extract` made of that container. */
  ghost predicate Sound(cs: seq<Container>, extract: Container -> Option<BookInfo>, r: seq<PageBook>) {
    forall k :: 0 <= k < |r| ==>
      1 <= r[k].sequence <= |cs| && extract(cs[r[k].sequence - 1]) == Some(r[k].info)
  }

  /** Sequence numbers strictly increase along the result. */
  ghost predicate Increasing(r: seq<PageBook>) {
    forall k, l :: 0 <= k < l < |r| ==> r[k].sequence < r[l].sequence
  }

  /** Every container that `extract` accepts is represented. */
  ghost predicate Complete(cs: seq<Container>, extract: Container -> Option<BookInfo>, r: seq<PageBook>) {
    forall i :: 0 <= i < |cs| && extract(cs[i]).Some? ==> i + 1 in Numbers(r)
  }

  /** The `enumerate(livros, 1)` loop over the containers, with the
      per-container extraction as a parameter: each container that `extract`
      accepts, numbered by its position among all containers. */
  function Collect(cs: seq<Container>, extract: Container -> Option<BookInfo>): (r: seq<PageBook>)
    ensures |r| <= |cs|
    ensures Sound(cs, extract, r)
    ensures Increasing(r)
    ensures Complete(cs, extract, r)
  {
    if |cs| == 0 then []
    else
      var prefix := Collect(cs[..|cs| - 1], extract);
      match extract(cs[|cs| - 1])
      case Some(info) =>
        KeepLast(cs, extract, prefix, info);
        prefix + [PageBook(info, |cs|)]
      case None =>
        DropLast(cs, extract, prefix);
        prefix
  }

  /** Appending the last container's record, numbered |cs|, to a page
      result for the containers before it gives a page result for `cs`. */
  lemma KeepLast(cs: seq<Container>, extract: Container -> Option<BookInfo>, prefix: seq<PageBook>, info: BookInfo)
    requires |cs| > 0 && extract(cs[|cs| - 1]) == Some(info)
    requires |prefix| <= |cs| - 1
    requires Sound(cs[..|cs| - 1], extract, prefix) && Increasing(prefix) && Complete(cs[..|cs| - 1], extract, prefix)
    ensures var r := prefix + [PageBook(info, |cs|)];
            Sound(cs, extract, r) && Increasing(r) && Complete(cs, extract, r)
  {
    var n := |cs|;
    var front := cs[..n - 1];
    var r := prefix + [PageBook(info, n)];
    assert forall k :: 0 <= k < |prefix| ==> r[k] == prefix[k];
    assert r[|prefix|] == PageBook(info, n);
    forall k | 0 <= k < |r|
      ensures 1 <= r[k].sequence <= n && extract(cs[r[k].sequence - 1]) == Some(r[k].info)
    {
      if k < |prefix| {
        assert front[prefix[k].sequence - 1] == cs[prefix[k].sequence - 1];
      }
    }
    forall i | 0 <= i < n && extract(cs[i]).Some?
      ensures i + 1 in Numbers(r)
    {
      if i < n - 1 {
        assert front[i] == cs[i];
        var k :| 0 <= k < |prefix| && prefix[k].sequence == i + 1;
        assert r[k].sequence == i + 1;
      } else {
        assert r[|prefix|].sequence == i + 1;
      }
    }
  }

  /** A page result for the containers before the last one is a page
      result for `cs` when the last container is dropped. */
  lemma DropLast(cs: seq<Container>, extract: Container -> Option<BookInfo>, prefix: seq<PageBook>)
    requires |cs| > 0 && extract(cs[|cs| - 1]).None?
    requires |prefix| <= |cs| - 1
    requires Sound(cs[..|cs| - 1], extract, prefix) && Increasing(prefix) && Complete(cs[..|cs| - 1], extract, prefix)
    ensures Sound(cs, extract, prefix) && Complete(cs, extract, prefix)
  {
    var front := cs[..|cs| - 1];
    assert forall i :: 0 <= i < |cs| - 1 ==> front[i] == cs[i];
  }

  /** A sound and complete page result uses position i + 1 exactly when
      container i is accepted. */
  lemma Gaps(cs: seq<Container>, extract: Container -> Option<BookInfo>, r: seq<PageBook>)
    requires Sound(cs, extract, r) && Complete(cs, extract, r)
    ensures forall i :: 0 <= i < |cs| ==> (extract(cs[i]).Some? <==> i + 1 in Numbers(r))
  {
    forall i | 0 <= i < |cs| && i + 1 in Numbers(r)
      ensures extract(cs[i]).Some?
    {
      var k :| 0 <= k < |r| && r[k].sequence == i + 1;
    }
  }

  /** Every record of a sound page result is well formed. */
  lemma PageWellFormed(cs: seq<Container>, r: seq<PageBook>)
    requires Sound(cs, ExtractBook, r)
    ensures forall k :: 0 <= k < |r| ==> WellFormed(r[k].info)
  {
    forall k | 0 <= k < |r|
      ensures WellFormed(r[k].info)
    {
      assert ExtractBook(cs[r[k].sequence - 1]) == Some(r[k].info);
    }
  }

  /** `scrape_pagina_unica`: nothing for a failed request; otherwise the
      accepted containers in document order, numbered by position, with a
      gap exactly where a container was dropped. */
  function ScrapePage(fetched: Option<seq<Container>>): (r: seq<PageBook>)
    ensures fetched.None? ==> r == []
    ensures fetched.Some? ==> |r| <= |fetched.value| && Sound(fetched.value, ExtractBook, r)
    ensures Increasing(r)
    ensures forall k :: 0 <= k < |r| ==> WellFormed(r[k].info)
    ensures fetched.Some? ==> forall i :: 0 <= i < |fetched.value| ==>
      (ExtractBook(fetched.value[i]).Some? <==> i + 1 in Numbers(r))
  {
    match fetched
    case None => []
    case Some(cs) =>
      var r := Collect(cs, ExtractBook);
      Gaps(cs, ExtractBook, r);
      PageWellFormed(cs, r);
      r
  }

  /** Sound, increasing and complete pin the page result down: any list
      with these three properties is the one `Collect` builds. */
  lemma {:induction false} CollectUnique(cs: seq<Container>, extract: Container -> Option<BookInfo>, r: seq<PageBook>)
    requires Sound(cs, extract, r) && Increasing(r) && Complete(cs, extract, r)
    ensures r == Collect(cs, extract)
  {
    if |cs| > 0 {
      var front := cs[..|cs| - 1];
      match extract(cs[|cs| - 1])
      case Some(info) =>
        LastIsKept(cs, extract, r, info);
        var rest := r[..|r| - 1];
        BelowLast(cs, extract, r, rest);
        CollectUnique(front, extract, rest);
        assert r == rest + [PageBook(info, |cs|)];
      case None =>
        LastIsDropped(cs, extract, r);
        BelowLast(cs, extract, r, r);
        CollectUnique(front, extract, r);
    }
  }

  /** When the last container is accepted, the last record comes from it
      and every other record from an earlier container. */
  lemma LastIsKept(cs: seq<Container>, extract: Container -> Option<BookInfo>, r: seq<PageBook>, info: BookInfo)
    requires |cs| > 0 && extract(cs[|cs| - 1]) == Some(info)
    requires Sound(cs, extract, r) && Increasing(r) && Complete(cs, extract, r)
    ensures |r| > 0 && r[|r| - 1] == PageBook(info, |cs|)
    ensures forall j :: 0 <= j < |r| - 1 ==> r[j].sequence < |cs|
  {
    var n := |cs|;
    assert n in Numbers(r);
    var k :| 0 <= k < |r| && r[k].sequence == n;
    assert r[|r| - 1].sequence <= n;
    assert k == |r| - 1;
  }

  /** When the last container is dropped, no record comes from it. */
  lemma LastIsDropped(cs: seq<Container>, extract: Container -> Option<BookInfo>, r: seq<PageBook>)
    requires |cs| > 0 && extract(cs[|cs| - 1]).None?
    requires Sound(cs, extract, r)
    ensures forall j :: 0 <= j < |r| ==> r[j].sequence < |cs|
  {
  }

  /** A prefix of a page result whose numbers all lie before the last
      container is a page result for the containers before it. */
  lemma BelowLast(cs: seq<Container>, extract: Container -> Option<BookInfo>, r: seq<PageBook>, rest: seq<PageBook>)
    requires |cs| > 0
    requires Sound(cs, extract, r) && Increasing(r) && Complete(cs, extract, r)
    requires rest <= r
    requires forall j :: 0 <= j < |rest| ==> rest[j].sequence < |cs|
    requires forall j :: |rest| <= j < |r| ==> r[j].sequence == |cs|
    ensures Sound(cs[..|cs| - 1], extract, rest) && Increasing(rest) && Complete(cs[..|cs| - 1], extract, rest)
  {
    var front := cs[..|cs| - 1];
    assert forall j :: 0 <= j < |rest| ==> rest[j] == r[j];
    forall i | 0 <= i < |front| && extract(front[i]).Some?
      ensures i + 1 in Numbers(rest)
    {
      assert front[i] == cs[i];
      var j :| 0 <= j < |r| && r[j].sequence == i + 1;
      assert rest[j].sequence == i + 1;
    }
  }
}
