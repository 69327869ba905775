/**
 * The semantic recommender's gallery: the catalogue rows a query retrieves and the
 * `(thumbnail, caption)` pair shown for each. The rows the similarity search brings back
 * (`candidates`) are an input.
 */
module Recommender {
  import opened Wrappers
  import opened Strings

  /** A catalogue row; `None` is a missing (NaN) cell. */
  datatype BookRow = BookRow(
    title: string, authors: Option<string>, description: Option<string>,
    category: string, thumbnail: Option<string>)

  const UnknownAuthor := "Unknown Author"
  const NoDescription := "No description available."
  const MissingCover := "cover-not-found.jpg"
  const AllCategories := "All"

  /** `str(cell) if pd.notna(cell) else ""` */
  function CellText(cell: Option<string>): string {
    cell.GetOr("")
  }

  /** The `large_thumbnail` column: the thumbnail asked for at width 800, or a stock cover. */
  function LargeThumbnail(thumbnail: Option<string>): (r: string)
    ensures thumbnail.None? ==> r == MissingCover
    ensures thumbnail.Some? ==> IsPrefix(thumbnail.value, r) && r[|thumbnail.value|..] == "&fife=w800"
  {
    if thumbnail.Some? then thumbnail.value + "&fife=w800" else MissingCover
  }

  function TrimAll(parts: seq<string>): (r: seq<string>)
    ensures |r| == |parts| && forall i :: 0 <= i < |parts| ==> r[i] == Trim(parts[i])
  {
    seq(|parts|, i requires 0 <= i < |parts| => Trim(parts[i]))
  }

  /** The authors part of a caption, from the `;`-separated authors cell. */
  function FormatAuthors(authors: Option<string>): (r: string)
    ensures CellText(authors) == "" ==> r == UnknownAuthor
  {
    var data := CellText(authors);
    if data == "" then UnknownAuthor else AuthorsOfParts(SplitOn(data, ';'))
  }

  /** The branch on the number of `;`-separated pieces of a non-empty authors cell. */
  function AuthorsOfParts(split: seq<string>): string {
    if |split| == 2 then split[0] + " and " + Trim(split[1])
    else if |split| > 2 then
      var stripped := TrimAll(split);
      Join(stripped[..|stripped| - 1], ", ") + ", and " + stripped[|stripped| - 1]
    else if |split| == 1 && split[0] != "" then Trim(split[0])
    else UnknownAuthor
  }

  /** One author: the cell, stripped. */
  lemma OneAuthor(a: string)
    requires a != "" && ';' !in a
    ensures FormatAuthors(Some(a)) == Trim(a)
  {
    SplitOnAbsent(a, ';');
  }

  /** Two authors: `"<first> and <second>"`, where only the second is stripped. */
  lemma TwoAuthors(a: string, b: string)
    requires ';' !in a && ';' !in b
    ensures FormatAuthors(Some(a + ";" + b)) == a + " and " + Trim(b)
  {
    assert Join([a, b], [';']) == a + ";" + b;
    SplitOnOfJoin([a, b], ';');
  }

  /** Three or more authors: all stripped, joined by `", "`, with `", and "` before the last. */
  lemma ManyAuthors(parts: seq<string>)
    requires |parts| > 2
    requires forall i :: 0 <= i < |parts| ==> ';' !in parts[i]
    ensures FormatAuthors(Some(Join(parts, ";"))) ==
              Join(TrimAll(parts)[..|parts| - 1], ", ") + ", and " + Trim(parts[|parts| - 1])
  {
    var cell := Join(parts, [';']);
    JoinCons(parts, [';']);
    assert |cell| > 0;
    SplitOnOfJoin(parts, ';');
    assert FormatAuthors(Some(cell)) == AuthorsOfParts(parts);
    AuthorsOfManyParts(parts);
  }

  lemma AuthorsOfManyParts(parts: seq<string>)
    requires |parts| > 2
    ensures AuthorsOfParts(parts) == Join(TrimAll(parts)[..|parts| - 1], ", ") + ", and " + Trim(parts[|parts| - 1])
  {
    var stripped := TrimAll(parts);
    assert stripped[|stripped| - 1] == Trim(parts[|parts| - 1]);
  }

  /**
   * The inner `"Unknown Author"` branch cannot be taken: a non-empty cell splits into two
   * or more pieces, or into one piece that is the whole (non-empty) cell.
   */
  lemma InnerFallbackUnreachable(a: string)
    requires a != ""
    ensures |SplitOn(a, ';')| >= 2 || SplitOn(a, ';')[0] == a
  {
    SplitOnJoin(a, ';');
  }

  /** The description part of a caption: its words re-joined by single spaces, then `"..."`. */
  function FormatDescription(description: Option<string>): (r: string)
    ensures CellText(description) == "" ==> r == NoDescription
  {
    var text := CellText(description);
    if text != "" then Join(Words(text), " ") + "..." else NoDescription
  }

  /**
   * A non-empty description keeps all its words, in order, separated by plain spaces only,
   * and ends in `"..."`.
   */
  lemma DescriptionKeepsWords(description: Option<string>)
    requires CellText(description) != ""
    ensures var r := FormatDescription(description);
      |r| >= 3 && r[|r| - 3..] == "..." &&
      Words(r[..|r| - 3]) == Words(CellText(description)) &&
      forall k :: 0 <= k < |r| - 3 && IsSpace(r[k]) ==> r[k] == ' '
  {
    var ws := Words(CellText(description));
    var body := Join(ws, " ");
    var r := body + "...";
    assert r[..|r| - 3] == body;
    WordsOfJoin(ws);
    JoinedWordsUsePlainSpaces(ws);
  }

  /** A description made only of whitespace is still truthy, and comes out as a bare `"..."`. */
  lemma BlankDescriptionIsEllipsis(description: Option<string>)
    requires CellText(description) != "" && AllSpace(CellText(description))
    ensures FormatDescription(description) == "..."
  {
    NoWordsIffAllSpace(CellText(description));
  }

  /** `f"{title} by {authors}: {description}"` */
  function Caption(row: BookRow): string {
    row.title + " by " + FormatAuthors(row.authors) + ": " + FormatDescription(row.description)
  }

  /** A caption starts with the title and the authors part, and ends with the description part. */
  lemma CaptionParts(row: BookRow)
    ensures IsPrefix(row.title + " by " + FormatAuthors(row.authors) + ": ", Caption(row))
    ensures var d := FormatDescription(row.description); var r := Caption(row);
      |d| <= |r| && r[|r| - |d|..] == d
  {
    var head := row.title + " by " + FormatAuthors(row.authors) + ": ";
    assert Caption(row)[..|head|] == head;
  }

  predicate InCategory(category: string, row: BookRow) {
    row.category == category
  }

  /**
   * The category step of `retrieve_semantic_recommendations`, before its tone sort: unless
   * the category is `"All"`, only rows of that category are kept; then the first
   * `finalTopK` rows, in candidate order.
   */
  function SelectRows(candidates: seq<BookRow>, category: string, finalTopK: nat): (r: seq<BookRow>)
    ensures |r| <= finalTopK
    ensures var kept := if category != AllCategories then Filter(candidates, row => InCategory(category, row)) else candidates;
      |r| == if |kept| < finalTopK then |kept| else finalTopK
    ensures IsPrefix(r, if category != AllCategories then Filter(candidates, row => InCategory(category, row)) else candidates)
    ensures forall x :: x in r ==> x in candidates
    ensures category != AllCategories ==> forall x :: x in r ==> x.category == category
    ensures category == AllCategories && |candidates| <= finalTopK ==> r == candidates
  {
    if category != AllCategories then
      var kept := Filter(candidates, row => InCategory(category, row));
      var r := Take(kept, finalTopK);
      assert forall x :: x in r ==> x in kept;
      r
    else Take(candidates, finalTopK)
  }

  /** A category-respecting list that is already short enough comes through whole. */
  lemma {:induction false} SelectKeepsMatchingRows(candidates: seq<BookRow>, category: string, finalTopK: nat)
    requires |candidates| <= finalTopK
    requires forall x :: x in candidates ==> x.category == category
    ensures SelectRows(candidates, category, finalTopK) == candidates
    decreases |candidates|
  {
    if category != AllCategories {
      FilterKeepsAll(candidates, row => InCategory(category, row));
    }
  }

  /** The gallery entry of one row. */
  function GalleryEntry(row: BookRow): (string, string) {
    (LargeThumbnail(row.thumbnail), Caption(row))
  }

  /** The gallery of a list of rows: one entry per row, in order. */
  function Gallery(rows: seq<BookRow>): (r: seq<(string, string)>)
    ensures |r| == |rows|
    decreases |rows|
  {
    if |rows| == 0 then [] else Gallery(rows[..|rows| - 1]) + [GalleryEntry(rows[|rows| - 1])]
  }

  /** Entry `i` of the gallery is the entry of row `i`. */
  lemma {:induction false} GalleryAt(rows: seq<BookRow>, i: nat)
    requires i < |rows|
    ensures Gallery(rows)[i] == GalleryEntry(rows[i])
    decreases |rows|
  {
    if i < |rows| - 1 {
      GalleryAt(rows[..|rows| - 1], i);
    }
  }

  /** `recommend_books`: one `(large thumbnail, caption)` pair per retrieved row, in row order. */
  method RecommendBooks(recommendations: seq<BookRow>) returns (results: seq<(string, string)>)
    ensures results == Gallery(recommendations)
    ensures |results| == |recommendations|
    ensures forall i :: 0 <= i < |recommendations| ==> results[i] == GalleryEntry(recommendations[i])
  {
    results := [];
    for i := 0 to |recommendations|
      invariant results == Gallery(recommendations[..i])
    {
      assert recommendations[..i + 1][..i] == recommendations[..i];
      results := results + [GalleryEntry(recommendations[i])];
    }
    assert recommendations[..|recommendations|] == recommendations;
    forall i | 0 <= i < |recommendations|
      ensures results[i] == GalleryEntry(recommendations[i])
    {
      GalleryAt(recommendations, i);
    }
  }
}
