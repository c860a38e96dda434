/**
 Field extraction for one book container (`extrair_info_livro`). The parsed
 HTML element is replaced by what the extraction reads from it: the title
 attribute of its `h3 > a`, the texts of its price and availability
 paragraphs, and the class tokens of its star-rating paragraph, each absent
 when the node is missing.
 */
module Extraction {
  import opened Wrappers
  import opened Text

  /** The sentinel written into a field whose node is missing. */
  const Missing: string := "N/A"

  /** The generic class token every rating paragraph carries. */
  const RatingMarker: string := "star-rating"

  /** The rating labels, in the order of the numbers 1..5 they map to. */
  const RatingLabels: seq<string> := ["One", "Two", "Three", "Four", "Five"]

  /** One `article.product_pod` as seen by the extraction. */
  datatype Container = Container(
    title: Option<string>,              // `h3.a['title']`; None when h3, a or the attribute is missing
    price: Option<string>,              // text of `p.price_color`
    availability: Option<string>,       // text of `p.instock.availability`
    ratingClasses: Option<seq<string>>) // class tokens of `p.star-rating`

  /** The record `extrair_info_livro` returns, without its timestamp. */
  datatype BookInfo = BookInfo(
    title: string,
    price: string,
    availability: string,
    ratingText: string,
    ratingNumber: nat)

  /** `rating_map.get(name, 0)`: 1..5 for the five table labels, 0 otherwise. */
  function RatingNumber(name: string): (n: nat)
    ensures n <= 5
    ensures forall i :: 0 <= i < |RatingLabels| ==> (RatingLabels[i] == name <==> n == i + 1)
    ensures n == 0 <==> name !in RatingLabels
  {
    if name == "One" then 1
    else if name == "Two" then 2
    else if name == "Three" then 3
    else if name == "Four" then 4
    else if name == "Five" then 5
    else 0
  }

  /** Position `i` holds the first token that is not the generic marker. */
  ghost predicate FirstOther(classes: seq<string>, i: int) {
    && 0 <= i < |classes|
    && classes[i] != RatingMarker
    && forall j :: 0 <= j < i ==> classes[j] == RatingMarker
  }

  /** The first class token other than "star-rating", or the sentinel when
      there is none. */
  function RatingLabel(classes: seq<string>): (r: string)
    ensures (forall j :: 0 <= j < |classes| ==> classes[j] == RatingMarker) ==> r == Missing
    ensures forall i :: FirstOther(classes, i) ==> r == classes[i]
    ensures r == Missing || exists i :: FirstOther(classes, i)
  {
    if |classes| == 0 then Missing
    else if classes[0] != RatingMarker then
      assert FirstOther(classes, 0);
      classes[0]
    else
      var r := RatingLabel(classes[1..]);
      assert forall i :: FirstOther(classes, i) ==> i > 0 && FirstOther(classes[1..], i - 1);
      assert forall i :: FirstOther(classes[1..], i) ==> FirstOther(classes, i + 1);
      r
  }

  /** The field's text, or the sentinel when its node is missing. */
  function OrMissing(field: Option<string>): string {
    match field
    case Some(text) => text
    case None => Missing
  }

  /** The invariant every extracted record keeps: its number is the table
      value of its label, and its availability carries no edge whitespace. */
  ghost predicate WellFormed(info: BookInfo) {
    && info.ratingNumber == RatingNumber(info.ratingText)
    && (info.availability == [] || (!IsSpace(info.availability[0]) && !IsSpace(info.availability[|info.availability| - 1])))
  }

  /** `extrair_info_livro`: a record exactly when the title is present,
      missing price or availability becoming the sentinel. */
  function ExtractBook(c: Container): (r: Option<BookInfo>)
    ensures r.Some? <==> c.title.Some?
    ensures r.Some? ==> WellFormed(r.value)
    ensures r.Some? ==> r.value.title == c.title.value
    ensures r.Some? ==> r.value.price == OrMissing(c.price)
    ensures r.Some? && c.availability.None? ==> r.value.availability == Missing
    ensures r.Some? && c.availability.Some? ==> exists i :: CutFrom(c.availability.value, r.value.availability, i)
    ensures r.Some? && c.ratingClasses.None? ==> r.value.ratingText == Missing && r.value.ratingNumber == 0
    ensures r.Some? && c.ratingClasses.Some? ==> r.value.ratingText == RatingLabel(c.ratingClasses.value)
  {
    match c.title
    case None => None
    case Some(title) =>
      var availability := match c.availability
        case Some(text) => Strip(text)
        case None => Missing;
      var classes := match c.ratingClasses
        case Some(tokens) => tokens
        case None => [];
      var name := RatingLabel(classes);
      Some(BookInfo(title, OrMissing(c.price), availability, name, RatingNumber(name)))
  }
}
