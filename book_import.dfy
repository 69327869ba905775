/**
 * Saving one Google volume by id (`fetch_and_save_book_by_google_id`). The detail request's
 * reply is an input; `parses` says whether `strptime` accepts a published date with the
 * format its length selects (`%Y`, `%Y-%m` or `%Y-%m-%d`).
 */
module BookImport {
  import opened Wrappers
  import opened Strings
  import opened VolumeJson
  import opened BookStore
  import GoogleBooks

  /** The detail request's reply: its HTTP status and the `volumeInfo` of its body. */
  datatype DetailResponse = DetailResponse(status: int, volumeInfo: Option<VolumeInfo>)

  const TitleLength := 300
  const AuthorsLength := 500
  const CoverLength := 1000
  const IsbnLength := 200
  const PublisherLength := 300

  predicate DateShaped(pubDate: string) {
    |pubDate| == 4 || |pubDate| == 7 || |pubDate| == 10
  }

  /** `id.get('identifier', '')` for each entry. */
  function IdentifierValues(ids: seq<IndustryIdentifier>): (r: seq<string>)
    ensures |r| == |ids| && forall i :: 0 <= i < |ids| ==> r[i] == ids[i].identifier.GetOr("")
  {
    seq(|ids|, i requires 0 <= i < |ids| => ids[i].identifier.GetOr(""))
  }

  /** Every `identifier` of the volume (a missing one as `''`), joined by `", "`. */
  function AllIdentifiers(ids: seq<IndustryIdentifier>): (r: string)
    ensures forall i :: 0 <= i < |ids| ==> Contains(r, ids[i].identifier.GetOr(""))
  {
    var parts := IdentifierValues(ids);
    JoinContainsEach(parts, ", ");
    assert forall i :: 0 <= i < |ids| ==> Contains(Join(parts, ", "), parts[i]);
    Join(parts, ", ")
  }

  function Thumbnail(info: VolumeInfo): string {
    if info.imageLinks.Some? then info.imageLinks.value.thumbnail.GetOr("") else ""
  }

  /** The length `[:limit]` leaves of a value of length `n`. */
  function Clipped(n: nat, limit: nat): nat {
    if n < limit then n else limit
  }

  /** The date that `strptime` yields, in ISO form: a year or year-month means its first day. */
  function ParsedDate(pubDate: string, parses: string -> bool): (r: Option<string>)
    ensures r.Some? <==> DateShaped(pubDate) && parses(pubDate)
    ensures r.Some? ==> |r.value| == 10 && IsPrefix(pubDate, r.value)
  {
    if DateShaped(pubDate) && parses(pubDate) then GoogleBooks.ParseDate(Some(pubDate)) else None
  }

  /** The columns of the row created for volume `bookId`. */
  function ImportedData(bookId: string, info: VolumeInfo, parses: string -> bool): (d: BookData)
    ensures |d.title| == Clipped(|info.title.GetOr("")|, TitleLength) && IsPrefix(d.title, info.title.GetOr(""))
    ensures |d.authors| == Clipped(|Join(info.authors.GetOr([]), ", ")|, AuthorsLength)
    ensures IsPrefix(d.authors, Join(info.authors.GetOr([]), ", "))
    ensures |d.coverImageUrl| == Clipped(|Thumbnail(info)|, CoverLength) && IsPrefix(d.coverImageUrl, Thumbnail(info))
    ensures d.isbn.Some? && |d.isbn.value| == Clipped(|AllIdentifiers(info.industryIdentifiers.GetOr([]))|, IsbnLength)
    ensures IsPrefix(d.isbn.value, AllIdentifiers(info.industryIdentifiers.GetOr([])))
    ensures |d.publisher| == Clipped(|info.publisher.GetOr("")|, PublisherLength)
    ensures IsPrefix(d.publisher, info.publisher.GetOr(""))
    ensures d.description == info.description.GetOr("")
    ensures d.publicationDate == ParsedDate(info.publishedDate.GetOr(""), parses)
    ensures d.googleBookId == bookId
  {
    BookData(
      Take(info.title.GetOr(""), TitleLength),
      Take(Join(info.authors.GetOr([]), ", "), AuthorsLength),
      info.description.GetOr(""),
      ParsedDate(info.publishedDate.GetOr(""), parses),
      Take(Thumbnail(info), CoverLength),
      Some(Take(AllIdentifiers(info.industryIdentifiers.GetOr([])), IsbnLength)),
      Take(info.publisher.GetOr(""), PublisherLength),
      bookId)
  }

  /** A column that fits its limit is stored whole. */
  lemma ShortColumnsAreKept(bookId: string, info: VolumeInfo, parses: string -> bool)
    ensures |info.title.GetOr("")| <= TitleLength ==> ImportedData(bookId, info, parses).title == info.title.GetOr("")
    ensures |info.publisher.GetOr("")| <= PublisherLength ==>
              ImportedData(bookId, info, parses).publisher == info.publisher.GetOr("")
    ensures |Thumbnail(info)| <= CoverLength ==> ImportedData(bookId, info, parses).coverImageUrl == Thumbnail(info)
    ensures |Join(info.authors.GetOr([]), ", ")| <= AuthorsLength ==>
              ImportedData(bookId, info, parses).authors == Join(info.authors.GetOr([]), ", ")
  {
  }

  /** The stored isbn holds every identifier of the volume, not only the first, when it fits. */
  lemma IsbnKeepsEveryIdentifier(bookId: string, info: VolumeInfo, parses: string -> bool, i: nat)
    requires info.industryIdentifiers.Some? && i < |info.industryIdentifiers.value|
    requires |AllIdentifiers(info.industryIdentifiers.value)| <= IsbnLength
    ensures Contains(ImportedData(bookId, info, parses).isbn.value, info.industryIdentifiers.value[i].identifier.GetOr(""))
  {
  }

  /**
   * `fetch_and_save_book_by_google_id`: an existing row is returned untouched; a non-200
   * reply gives `None`; otherwise a new row built by `ImportedData`, with no owner, is
   * created and returned. `user` is accepted and not used, as in the source.
   */
  method FetchAndSave(table: BookTable, bookId: string, user: Option<UserId>, response: DetailResponse,
                      parses: string -> bool) returns (r: Option<Book>)
    requires table.Valid()
    modifies table
    ensures table.Valid()
    ensures bookId in old(table.rows) ==>
              r == Some(old(table.rows)[bookId]) && table.rows == old(table.rows) && table.nextId == old(table.nextId)
    ensures bookId !in old(table.rows) && response.status != 200 ==>
              r.None? && table.rows == old(table.rows) && table.nextId == old(table.nextId)
    ensures bookId !in old(table.rows) && response.status == 200 ==>
              r == Some(Book(old(table.nextId), ImportedData(bookId, response.volumeInfo.GetOr(EmptyVolume), parses), None)) &&
              table.rows == old(table.rows)[bookId := r.value] && table.nextId == old(table.nextId) + 1
  {
    if bookId in table.rows {
      return Some(table.rows[bookId]);
    }
    if response.status != 200 {
      return None;
    }
    var info := response.volumeInfo.GetOr(EmptyVolume);
    var pubDate := info.publishedDate.GetOr("");
    var parsedDate: Option<string> := None;
    if |pubDate| == 4 || |pubDate| == 7 || |pubDate| == 10 {
      if parses(pubDate) {
        parsedDate := GoogleBooks.ParseDate(Some(pubDate));
      }
    }
    var data := BookData(
      Take(info.title.GetOr(""), TitleLength),
      Take(Join(info.authors.GetOr([]), ", "), AuthorsLength),
      info.description.GetOr(""),
      parsedDate,
      Take(Thumbnail(info), CoverLength),
      Some(Take(AllIdentifiers(info.industryIdentifiers.GetOr([])), IsbnLength)),
      Take(info.publisher.GetOr(""), PublisherLength),
      bookId);
    var book := table.Create(data, None);
    return Some(book);
  }

  /** Asking twice for the same id creates one row: the second call returns the first call's row. */
  method SaveTwice(table: BookTable, bookId: string, response: DetailResponse, parses: string -> bool)
    returns (first: Option<Book>, second: Option<Book>)
    requires table.Valid()
    modifies table
    ensures first.Some? ==> second == first
    ensures |table.rows.Keys| <= |old(table.rows).Keys| + 1
  {
    first := FetchAndSave(table, bookId, None, response, parses);
    second := FetchAndSave(table, bookId, None, response, parses);
    assert table.rows.Keys <= old(table.rows).Keys + {bookId};
    assert |old(table.rows).Keys + {bookId}| <= |old(table.rows).Keys| + 1;
    SubsetCard(table.rows.Keys, old(table.rows).Keys + {bookId});
  }

  lemma SubsetCard<T>(a: set<T>, b: set<T>)
    requires a <= b
    ensures |a| <= |b|
  {
    if a != {} {
      var x :| x in a;
      SubsetCard(a - {x}, b - {x});
    }
  }
}
