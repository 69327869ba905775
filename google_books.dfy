/**
 * The backend's Google Books client: it turns a volume's `volumeInfo` into the columns of a
 * `Book` row, and walks the items of a search, saving unseen volumes when asked to.
 * The HTTP replies are inputs: `SearchReply` is what the search request produced, and
 * `details` holds the volumes whose detail request (`get_book`) succeeded.
 */
module GoogleBooks {
  import opened Wrappers
  import opened Strings
  import opened VolumeJson
  import opened BookStore

  /** `_parse_date`: a year or a year-month is padded to the first day of that period. */
  function ParseDate(date: Option<string>): (r: Option<string>)
    ensures r.None? <==> date.None? || date.value == ""
    ensures date.Some? && r.Some? ==> IsPrefix(date.value, r.value)
    ensures date.Some? && r.Some? && (|date.value| == 4 || |date.value| == 7 || |date.value| == 10) ==>
              |r.value| == 10
    ensures date.Some? && |date.value| == 4 ==> r == Some(date.value + "-01-01")
    ensures date.Some? && |date.value| == 7 ==> r == Some(date.value + "-01")
    ensures date.Some? && r.Some? && |date.value| != 4 && |date.value| != 7 ==> r == date
  {
    if date.None? || date.value == "" then None
    else if |date.value| == 4 then Some(date.value + "-01-01")
    else if |date.value| == 7 then Some(date.value + "-01")
    else date
  }

  /** `_extract_authors`: the authors joined by `", "`, or `""` when there are none. */
  function ExtractAuthors(authors: Option<seq<string>>): (r: string)
    ensures authors.None? || authors.value == [] ==> r == ""
    ensures authors.Some? && |authors.value| == 1 ==> r == authors.value[0]
    ensures authors.Some? && |authors.value| > 0 ==> r == Join(authors.value, ", ") && IsPrefix(authors.value[0], r)
    ensures authors.Some? ==> forall i :: 0 <= i < |authors.value| ==> Contains(r, authors.value[i])
  {
    if authors.None? || authors.value == [] then ""
    else
      JoinStartsWithFirst(authors.value, ", ");
      JoinContainsEach(authors.value, ", ");
      Join(authors.value, ", ")
  }

  /** An identifier whose `type` is `ISBN_13` or `ISBN_10`. */
  predicate IsIsbn(id: IndustryIdentifier) {
    id.kind == Some("ISBN_13") || id.kind == Some("ISBN_10")
  }

  /** The `identifier` of the first ISBN entry; it may itself be missing. */
  function FirstIsbn(ids: seq<IndustryIdentifier>): (r: Option<string>)
    ensures (forall i :: 0 <= i < |ids| ==> !IsIsbn(ids[i])) ==> r.None?
    ensures forall i :: 0 <= i < |ids| && IsIsbn(ids[i]) && (forall j :: 0 <= j < i ==> !IsIsbn(ids[j])) ==>
              r == ids[i].identifier
    ensures r.Some? ==> exists i :: 0 <= i < |ids| && IsIsbn(ids[i]) && ids[i].identifier == r
    decreases |ids|
  {
    if |ids| == 0 then None
    else if IsIsbn(ids[0]) then ids[0].identifier
    else
      var r := FirstIsbn(ids[1..]);
      assert forall i :: 1 <= i < |ids| ==> ids[i] == ids[1..][i - 1];
      r
  }

  /** `_extract_isbn` */
  function ExtractIsbn(ids: Option<seq<IndustryIdentifier>>): (r: Option<string>)
    ensures ids.None? ==> r.None?
    ensures ids.Some? ==> r == FirstIsbn(ids.value)
  {
    if ids.None? || ids.value == [] then None else FirstIsbn(ids.value)
  }

  /** `_format_book_data`: the columns of a row for volume `bookId`; missing keys become `''`. */
  function FormatBookData(info: VolumeInfo, bookId: string): (d: BookData)
    ensures d.googleBookId == bookId
    ensures d.title == info.title.GetOr("") && d.publisher == info.publisher.GetOr("")
    ensures d.description == info.description.GetOr("")
    ensures d.coverImageUrl == if info.imageLinks.Some? then info.imageLinks.value.thumbnail.GetOr("") else ""
    ensures d.authors == ExtractAuthors(info.authors) && d.publicationDate == ParseDate(info.publishedDate)
    ensures d.isbn == ExtractIsbn(info.industryIdentifiers)
    ensures d.publicationDate.None? <==> info.publishedDate.None? || info.publishedDate.value == ""
    ensures info.authors.Some? && |info.authors.value| > 0 ==> IsPrefix(info.authors.value[0], d.authors)
    ensures d.isbn.Some? ==>
              info.industryIdentifiers.Some? &&
              exists i :: 0 <= i < |info.industryIdentifiers.value| && IsIsbn(info.industryIdentifiers.value[i]) &&
                          info.industryIdentifiers.value[i].identifier == d.isbn
  {
    BookData(
      info.title.GetOr(""),
      ExtractAuthors(info.authors),
      info.description.GetOr(""),
      ParseDate(info.publishedDate),
      if info.imageLinks.Some? then info.imageLinks.value.thumbnail.GetOr("") else "",
      ExtractIsbn(info.industryIdentifiers),
      info.publisher.GetOr(""),
      bookId)
  }

  /** A volume without any `volumeInfo` keys formats to blank columns. */
  lemma EmptyVolumeFormatsBlank(bookId: string)
    ensures FormatBookData(EmptyVolume, bookId) == BookData("", "", "", None, "", None, "", bookId)
  {
  }

  /** One dictionary of the returned list: the formatted columns plus `exists_in_db` and `id`. */
  datatype SearchEntry = SearchEntry(data: BookData, existsInDb: bool, id: Option<nat>)

  /** What the search request produced: a transport failure, or a JSON payload. */
  datatype SearchReply = RequestFailed | Payload(payload: SearchPayload)

  /** The list built so far and the table it has been built against. */
  datatype SearchState = SearchState(books: seq<SearchEntry>, rows: map<string, Book>, nextId: nat)

  function ItemVolume(item: Item): VolumeInfo {
    item.volumeInfo.GetOr(EmptyVolume)
  }

  /** One turn of the loop over `data['items']`. */
  function SearchStep(st: SearchState, item: Item, autoSave: bool, details: map<string, VolumeInfo>): SearchState {
    if item.id.None? || item.id.value == "" then st
    else
      var bid := item.id.value;
      if bid in st.rows then
        st.(books := st.books + [SearchEntry(FormatBookData(ItemVolume(item), bid), true, Some(st.rows[bid].id))])
      else if !autoSave then
        st.(books := st.books + [SearchEntry(FormatBookData(ItemVolume(item), bid), false, None)])
      else if bid !in details then
        st  // `get_book` raised: the item is skipped
      else
        var data := FormatBookData(details[bid], bid);
        SearchState(st.books + [SearchEntry(data, true, Some(st.nextId))],
                    st.rows[bid := Book(st.nextId, data, None)], st.nextId + 1)
  }

  /** The loop over `items`, from the state it starts in. */
  function SearchRun(items: seq<Item>, st0: SearchState, autoSave: bool, details: map<string, VolumeInfo>): SearchState
    decreases |items|
  {
    if |items| == 0 then st0
    else SearchStep(SearchRun(items[..|items| - 1], st0, autoSave, details), items[|items| - 1], autoSave, details)
  }

  /**
   * Every entry names a volume by a non-empty id; the entries marked `exists_in_db` are
   * exactly those whose volume has a row, and they carry that row's primary key.
   */
  ghost predicate Coherent(st: SearchState, autoSave: bool) {
    WellKeyed(st.rows, st.nextId) &&
    forall e :: e in st.books ==>
      e.data.googleBookId != "" &&
      (e.existsInDb <==> e.data.googleBookId in st.rows) &&
      (if e.existsInDb then e.id == Some(st.rows[e.data.googleBookId].id) else e.id.None? && !autoSave)
  }

  lemma StepCoherent(st: SearchState, item: Item, autoSave: bool, details: map<string, VolumeInfo>)
    requires Coherent(st, autoSave)
    ensures Coherent(SearchStep(st, item, autoSave, details), autoSave)
  {
    if item.id.Some? && item.id.value != "" {
      var bid := item.id.value;
      if bid !in st.rows && autoSave && bid in details {
        var st' := SearchStep(st, item, autoSave, details);
        forall e | e in st'.books
          ensures e.data.googleBookId != ""
          ensures e.existsInDb <==> e.data.googleBookId in st'.rows
          ensures if e.existsInDb then e.id == Some(st'.rows[e.data.googleBookId].id) else e.id.None? && !autoSave
        {
          if e in st.books {
            assert e.data.googleBookId != bid;
          }
        }
      }
    }
  }

  /** The loop keeps the table well keyed and the list coherent with it. */
  lemma {:induction false} RunCoherent(items: seq<Item>, st0: SearchState, autoSave: bool, details: map<string, VolumeInfo>)
    requires Coherent(st0, autoSave)
    ensures Coherent(SearchRun(items, st0, autoSave, details), autoSave)
    decreases |items|
  {
    if |items| > 0 {
      RunCoherent(items[..|items| - 1], st0, autoSave, details);
      StepCoherent(SearchRun(items[..|items| - 1], st0, autoSave, details), items[|items| - 1], autoSave, details);
    }
  }

  /**
   * The loop adds at most one entry per item, never changes or drops a row that was
   * there, and without `auto_save` does not touch the table at all.
   */
  lemma {:induction false} RunGrows(items: seq<Item>, st0: SearchState, autoSave: bool, details: map<string, VolumeInfo>)
    ensures |SearchRun(items, st0, autoSave, details).books| <= |st0.books| + |items|
    ensures IsPrefix(st0.books, SearchRun(items, st0, autoSave, details).books)
    ensures forall k :: k in st0.rows ==>
              k in SearchRun(items, st0, autoSave, details).rows && SearchRun(items, st0, autoSave, details).rows[k] == st0.rows[k]
    ensures st0.nextId <= SearchRun(items, st0, autoSave, details).nextId
    ensures !autoSave ==> SearchRun(items, st0, autoSave, details).rows == st0.rows
    ensures !autoSave ==> SearchRun(items, st0, autoSave, details).nextId == st0.nextId
    decreases |items|
  {
    if |items| > 0 {
      var prev := SearchRun(items[..|items| - 1], st0, autoSave, details);
      RunGrows(items[..|items| - 1], st0, autoSave, details);
      var st := SearchStep(prev, items[|items| - 1], autoSave, details);
      assert IsPrefix(prev.books, st.books) by {
        if st.books != prev.books {
          assert st.books[..|prev.books|] == prev.books;
        }
      }
      assert st.books[..|st0.books|] == prev.books[..|st0.books|];
    }
  }

  function ItemsOf(p: SearchPayload): seq<Item> {
    p.items.GetOr([])
  }

  /** The list the search returns, and the table it leaves, for one reply. */
  function SearchOutcome(reply: SearchReply, rows: map<string, Book>, nextId: nat, autoSave: bool,
                         details: map<string, VolumeInfo>): SearchState
    requires reply.Payload?
  {
    SearchRun(ItemsOf(reply.payload), SearchState([], rows, nextId), autoSave, details)
  }

  /**
   * `search_books`: `None` when the request raised or Google answered with an error;
   * otherwise the list `SearchRun` builds, with the table changed as it says.
   */
  method SearchBooks(table: BookTable, reply: SearchReply, autoSave: bool, details: map<string, VolumeInfo>)
    returns (r: Option<seq<SearchEntry>>)
    requires table.Valid()
    modifies table
    ensures table.Valid()
    ensures reply.RequestFailed? || reply.payload.error.Some? ==>
              r.None? && table.rows == old(table.rows) && table.nextId == old(table.nextId)
    ensures reply.Payload? && reply.payload.error.None? ==>
              var st := SearchOutcome(reply, old(table.rows), old(table.nextId), autoSave, details);
              r == Some(st.books) && table.rows == st.rows && table.nextId == st.nextId
  {
    if reply.RequestFailed? || reply.payload.error.Some? {
      return None;
    }
    var items := ItemsOf(reply.payload);
    ghost var st0 := SearchState([], table.rows, table.nextId);
    var books: seq<SearchEntry> := [];
    var i := 0;
    while i < |items|
      invariant 0 <= i <= |items|
      invariant table.Valid()
      invariant SearchState(books, table.rows, table.nextId) == SearchRun(items[..i], st0, autoSave, details)
    {
      assert items[..i + 1][..i] == items[..i];
      var item := items[i];
      if item.id.Some? && item.id.value != "" {
        var bid := item.id.value;
        if bid in table.rows {
          books := books + [SearchEntry(FormatBookData(ItemVolume(item), bid), true, Some(table.rows[bid].id))];
        } else if autoSave {
          if bid in details {
            var data := FormatBookData(details[bid], bid);
            var book := table.Create(data, None);
            books := books + [SearchEntry(data, true, Some(book.id))];
          }
        } else {
          books := books + [SearchEntry(FormatBookData(ItemVolume(item), bid), false, None)];
        }
      }
      i := i + 1;
    }
    assert items[..|items|] == items;
    return Some(books);
  }

  /**
   * What a successful search promises: at most one entry per item, each marked as stored
   * exactly when its volume has a row, with that row's key; rows that were there are kept.
   */
  lemma SearchPromises(reply: SearchReply, rows: map<string, Book>, nextId: nat, autoSave: bool,
                       details: map<string, VolumeInfo>)
    requires reply.Payload? && WellKeyed(rows, nextId)
    ensures var st := SearchOutcome(reply, rows, nextId, autoSave, details);
      |st.books| <= |ItemsOf(reply.payload)| &&
      WellKeyed(st.rows, st.nextId) &&
      (forall k :: k in rows ==> k in st.rows && st.rows[k] == rows[k]) &&
      (!autoSave ==> st.rows == rows) &&
      (forall e :: e in st.books ==>
         e.data.googleBookId != "" &&
         (e.existsInDb <==> e.data.googleBookId in st.rows) &&
         (e.existsInDb ==> e.id == Some(st.rows[e.data.googleBookId].id)) &&
         (autoSave ==> e.existsInDb))
  {
    var st0 := SearchState([], rows, nextId);
    RunCoherent(ItemsOf(reply.payload), st0, autoSave, details);
    RunGrows(ItemsOf(reply.payload), st0, autoSave, details);
  }
}
