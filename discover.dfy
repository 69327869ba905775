/**
 * The discover page: a search box that asks the backend's Google search proxy, turns the
 * answer into result cards, and a set of genre chips that toggle on and off.
 */
module Discover {
  import opened Wrappers
  import opened Strings
  import opened VolumeJson

  /** `SearchResult`: one result card. */
  datatype SearchResult = SearchResult(
    id: string, title: string, author: string, cover: string, description: string,
    rating: real, reviewCount: int, publishedDate: Option<string>, publisher: Option<string>)

  const Untitled := "Untitled"
  const UnknownAuthor := "Unknown Author"
  const PlaceholderCover := "/placeholder-book.png"
  const NoDescription := "No description available"

  /** JavaScript truthiness of an optional string. */
  predicate Truthy(s: Option<string>) {
    s.Some? && s.value != ""
  }

  /** `volumeInfo.authors?.join(", ") || "Unknown Author"` */
  function DisplayAuthor(authors: Option<seq<string>>): (r: string)
    ensures r != ""
    ensures authors.None? || authors.value == [] ==> r == UnknownAuthor
    ensures authors.Some? && Join(authors.value, ", ") != "" ==> r == Join(authors.value, ", ")
    ensures authors.Some? && Join(authors.value, ", ") == "" ==> r == UnknownAuthor
    ensures authors.Some? && |authors.value| > 0 && authors.value[0] != "" ==> r == Join(authors.value, ", ")
  {
    if authors.None? || authors.value == [] then UnknownAuthor
    else
      JoinStartsWithFirst(authors.value, ", ");
      var joined := Join(authors.value, ", ");
      if joined != "" then joined else UnknownAuthor
  }

  /** The thumbnail, else the small thumbnail, else the placeholder image. */
  function DisplayCover(links: Option<ImageLinks>): (r: string)
    ensures r != ""
    ensures links.Some? && Truthy(links.value.thumbnail) ==> r == links.value.thumbnail.value
    ensures links.Some? && !Truthy(links.value.thumbnail) && Truthy(links.value.smallThumbnail) ==>
              r == links.value.smallThumbnail.value
    ensures links.None? || (!Truthy(links.value.thumbnail) && !Truthy(links.value.smallThumbnail)) ==>
              r == PlaceholderCover
  {
    if links.Some? && Truthy(links.value.thumbnail) then links.value.thumbnail.value
    else if links.Some? && Truthy(links.value.smallThumbnail) then links.value.smallThumbnail.value
    else PlaceholderCover
  }

  /** The card of one item; `fallbackId` stands for `String(Math.random())`. */
  function ToResult(id: Option<string>, info: VolumeInfo, fallbackId: string): (r: SearchResult)
    ensures r.id == if Truthy(id) then id.value else fallbackId
    ensures r.title != "" && (Truthy(info.title) ==> r.title == info.title.value)
    ensures !Truthy(info.title) ==> r.title == Untitled
    ensures r.author == DisplayAuthor(info.authors) && r.cover == DisplayCover(info.imageLinks)
    ensures r.description != "" && (!Truthy(info.description) ==> r.description == NoDescription)
    ensures Truthy(info.description) ==> r.description == info.description.value
    ensures info.ratingsCount.None? ==> r.reviewCount == 0
    ensures info.ratingsCount.Some? ==> r.reviewCount == info.ratingsCount.value
    ensures info.averageRating.None? ==> r.rating == 0.0
    ensures info.averageRating.Some? ==> r.rating == info.averageRating.value
    ensures r.publishedDate == info.publishedDate && r.publisher == info.publisher
  {
    SearchResult(
      if Truthy(id) then id.value else fallbackId,
      if Truthy(info.title) then info.title.value else Untitled,
      DisplayAuthor(info.authors),
      DisplayCover(info.imageLinks),
      if Truthy(info.description) then info.description.value else NoDescription,
      info.averageRating.GetOr(0.0),
      info.ratingsCount.GetOr(0),
      info.publishedDate,
      info.publisher)
  }

  predicate HasVolumeInfo(item: Item) {
    item.volumeInfo.Some?
  }

  /** The items that carry a `volumeInfo`, in their order. */
  function WithVolumeInfo(items: seq<Item>): (r: seq<Item>)
    ensures |r| <= |items|
    ensures forall i :: 0 <= i < |r| ==> r[i].volumeInfo.Some? && r[i] in items
  {
    var r := Filter(items, HasVolumeInfo);
    assert forall i :: 0 <= i < |r| ==> r[i] in r;
    r
  }

  /** Dropping items without `volumeInfo` keeps the rest in order, and appending an item appends at most its card. */
  lemma WithVolumeInfoOfConcat(xs: seq<Item>, ys: seq<Item>)
    ensures WithVolumeInfo(xs + ys) == WithVolumeInfo(xs) + WithVolumeInfo(ys)
  {
    FilterOfConcat(xs, ys, HasVolumeInfo);
  }

  lemma WithVolumeInfoKeepsComplete(items: seq<Item>)
    requires forall i :: 0 <= i < |items| ==> items[i].volumeInfo.Some?
    ensures WithVolumeInfo(items) == items
  {
    FilterKeepsAll(items, HasVolumeInfo);
  }

  /** The `filter`/`map` transform: one card per item with `volumeInfo`, in order. */
  function Transform(items: seq<Item>, fallbackId: nat -> string): (r: seq<SearchResult>)
    ensures |r| == |WithVolumeInfo(items)|
    ensures forall i :: 0 <= i < |r| ==>
              r[i] == ToResult(WithVolumeInfo(items)[i].id, WithVolumeInfo(items)[i].volumeInfo.value, fallbackId(i))
  {
    var kept := WithVolumeInfo(items);
    seq(|kept|, i requires 0 <= i < |kept| => ToResult(kept[i].id, kept[i].volumeInfo.value, fallbackId(i)))
  }

  /** What the `fetch` produced: a failure (network or unreadable body), a non-OK status, or a JSON body. */
  datatype FetchReply = FetchFailed | NotOk(status: int) | OkBody(payload: SearchPayload)

  /** The results a finished search leaves: empty on any failure or without `items`. */
  function ResultsOf(reply: FetchReply, fallbackId: nat -> string): (r: seq<SearchResult>)
    ensures !reply.OkBody? || reply.payload.items.None? ==> r == []
    ensures reply.OkBody? && reply.payload.items.Some? ==> r == Transform(reply.payload.items.value, fallbackId)
  {
    if reply.OkBody? && reply.payload.items.Some? then Transform(reply.payload.items.value, fallbackId) else []
  }

  /** `toggleGenre` as a function of the previous selection. */
  function Toggle(prev: seq<string>, genre: string): (r: seq<string>)
    ensures genre in r <==> genre !in prev
    ensures forall g :: g != genre ==> (g in r <==> g in prev)
  {
    if genre in prev then Filter(prev, g => g != genre) else prev + [genre]
  }

  /** An unselected genre is appended at the end; toggling it again restores the selection. */
  lemma ToggleTwiceRestores(prev: seq<string>, genre: string)
    requires genre !in prev
    ensures Toggle(prev, genre) == prev + [genre]
    ensures Toggle(Toggle(prev, genre), genre) == prev
  {
    FilterOfAppend(prev, genre, g => g != genre);
    FilterKeepsAll(prev, g => g != genre);
  }

  /** Toggling a selected genre twice moves it to the end. */
  lemma ToggleSelectedTwice(prev: seq<string>, genre: string)
    requires genre in prev
    ensures Toggle(Toggle(prev, genre), genre) == Filter(prev, g => g != genre) + [genre]
  {
  }

  class DiscoverPage {
    var searchQuery: string
    var selectedGenres: seq<string>
    var searchResults: seq<SearchResult>
    var isSearching: bool
    var showResults: bool

    constructor ()
      ensures searchQuery == "" && selectedGenres == [] && searchResults == []
      ensures !isSearching && !showResults
    {
      searchQuery := "";
      selectedGenres := [];
      searchResults := [];
      isSearching := false;
      showResults := false;
    }

    /** The input's `onChange`: a blank value clears the results and hides the panel. */
    method ChangeQuery(value: string)
      modifies this
      ensures searchQuery == value && selectedGenres == old(selectedGenres) && isSearching == old(isSearching)
      ensures Trim(value) == "" ==> searchResults == [] && !showResults
      ensures Trim(value) != "" ==> searchResults == old(searchResults) && showResults == old(showResults)
    {
      searchQuery := value;
      if Trim(value) == "" {
        searchResults := [];
        showResults := false;
      }
    }

    /** The input's `onFocus`: the panel reopens when there is something to search for. */
    method Focus()
      modifies this
      ensures showResults == (old(showResults) || Trim(searchQuery) != "")
      ensures searchQuery == old(searchQuery) && searchResults == old(searchResults)
      ensures selectedGenres == old(selectedGenres) && isSearching == old(isSearching)
    {
      if Trim(searchQuery) != "" {
        showResults := true;
      }
    }

    /** A mouse-down outside the search box hides the panel. */
    method ClickOutside()
      modifies this
      ensures !showResults
      ensures searchQuery == old(searchQuery) && searchResults == old(searchResults)
      ensures selectedGenres == old(selectedGenres) && isSearching == old(isSearching)
    {
      showResults := false;
    }

    /**
     * `handleSearch` up to its `await`. A blank query clears and hides without a request
     * (`request` is `None`); otherwise the panel shows, the search is marked as running and
     * the trimmed query is sent.
     */
    method HandleSearch() returns (request: Option<string>)
      modifies this
      ensures searchQuery == old(searchQuery) && selectedGenres == old(selectedGenres)
      ensures Trim(searchQuery) == "" ==>
                request.None? && searchResults == [] && !showResults && isSearching == old(isSearching)
      ensures Trim(searchQuery) != "" ==>
                request == Some(Trim(searchQuery)) && showResults && isSearching &&
                searchResults == old(searchResults)
    {
      var query := Trim(searchQuery);
      if query == "" {
        searchResults := [];
        showResults := false;
        return None;
      }
      showResults := true;
      isSearching := true;
      request := Some(query);
    }

    /**
     * The rest of `handleSearch`, once the reply is in: the results are `ResultsOf(reply)`
     * (a failed fetch, a non-OK status and a body without `items` all leave none), and the
     * `finally` turns `isSearching` off.
     */
    method ReceiveSearchReply(reply: FetchReply, fallbackId: nat -> string)
      modifies this
      ensures searchResults == ResultsOf(reply, fallbackId) && !isSearching
      ensures searchQuery == old(searchQuery) && selectedGenres == old(selectedGenres)
      ensures showResults == old(showResults)
    {
      searchResults := ResultsOf(reply, fallbackId);
      isSearching := false;
    }

    method ToggleGenre(genre: string)
      modifies this
      ensures selectedGenres == Toggle(old(selectedGenres), genre)
      ensures searchQuery == old(searchQuery) && searchResults == old(searchResults)
      ensures isSearching == old(isSearching) && showResults == old(showResults)
    {
      selectedGenres := Toggle(selectedGenres, genre);
    }
  }
}
