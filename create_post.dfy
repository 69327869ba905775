/**
 * The create-post page: a case-insensitive filter over a fixed list of books, the
 * post/review switch with its star rating, and the predicates that enable sharing and
 * show the preview. The page keeps its state locally; it sends nothing to the backend.
 */
module CreatePost {
  import opened Wrappers
  import opened Strings

  /** An entry of `mockBooks`. */
  datatype MockBook = MockBook(id: nat, title: string, author: string, cover: string)

  const MockBooks: seq<MockBook> := [
    MockBook(1, "The Seven Husbands of Evelyn Hugo", "Taylor Jenkins Reid",
             "http://books.google.com/books/content?id=njVpDQAAQBAJ&printsec=frontcover&img=1&zoom=5&edge=curl&source=gbs_api"),
    MockBook(2, "Project Hail Mary", "Andy Weir",
             "http://books.google.com/books/content?id=iEiHEAAAQBAJ&printsec=frontcover&img=1&zoom=5&source=gbs_api"),
    MockBook(3, "Klara and the Sun", "Kazuo Ishiguro",
             "http://books.google.com/books/content?id=SbjrDwAAQBAJ&printsec=frontcover&img=1&zoom=5&source=gbs_api")
  ]

  /** The lower-cased title or the lower-cased author contains the lower-cased query. */
  predicate MatchesQuery(query: string, book: MockBook) {
    Contains(ToLower(book.title), ToLower(query)) || Contains(ToLower(book.author), ToLower(query))
  }

  /** `filteredBooks`: the books that match the query, in their order. */
  function FilteredBooks(books: seq<MockBook>, query: string): (r: seq<MockBook>)
    ensures |r| <= |books|
    ensures forall b :: b in r <==> b in books && MatchesQuery(query, b)
  {
    Filter(books, b => MatchesQuery(query, b))
  }

  /** A book added at the end is listed at the end when it matches: the list is the books' subsequence. */
  lemma FilteredBooksOfAppend(books: seq<MockBook>, book: MockBook, query: string)
    ensures FilteredBooks(books + [book], query) ==
              FilteredBooks(books, query) + (if MatchesQuery(query, book) then [book] else [])
  {
    FilterOfAppend(books, book, b => MatchesQuery(query, b));
  }

  /** An empty query keeps every book. */
  lemma EmptyQueryKeepsAll(books: seq<MockBook>)
    ensures FilteredBooks(books, "") == books
  {
    forall b | b in books
      ensures MatchesQuery("", b)
    {
      EverythingContainsEmpty(ToLower(b.title));
    }
    FilterKeepsAll(books, b => MatchesQuery("", b));
  }

  /** The query's case does not matter: the filter sees only its lower-cased form. */
  lemma QueryCaseIsIgnored(books: seq<MockBook>, query: string)
    ensures FilteredBooks(books, ToLower(query)) == FilteredBooks(books, query)
  {
    ToLowerIdempotent(query);
    FilterCongruent(books, b => MatchesQuery(ToLower(query), b), b => MatchesQuery(query, b));
  }

  /** A book whose title holds the query in lower case is listed, whatever the case of the query. */
  lemma TitleMatchIsListed(books: seq<MockBook>, query: string, i: nat, at: nat)
    requires i < |books|
    requires at + |query| <= |books[i].title| && ToLower(books[i].title)[at..at + |query|] == ToLower(query)
    ensures books[i] in FilteredBooks(books, query)
  {
    ContainsAt(ToLower(books[i].title), ToLower(query), at);
  }

  datatype PostType = PlainPost | Review

  /**
   * The share button is enabled (`!selectedBook || !postContent.trim()` is false): exactly
   * when a book is chosen and the text has a non-whitespace character.
   */
  function ShareEnabled(selected: Option<MockBook>, content: string): (r: bool)
    ensures r <==> selected.Some? && exists i :: 0 <= i < |content| && !IsSpace(content[i])
  {
    TrimEmptyIffAllSpace(content);
    selected.Some? && Trim(content) != ""
  }

  /**
   * The preview shows once a book is chosen and the text is non-empty, blank or not, so
   * whatever can be shared has a preview.
   */
  function ShowPreview(selected: Option<MockBook>, content: string): (r: bool)
    ensures r <==> selected.Some? && |content| > 0
    ensures ShareEnabled(selected, content) ==> r
  {
    selected.Some? && content != ""
  }

  /** A text of spaces has a preview but cannot be shared. */
  lemma BlankPreviewCannotBeShared(selected: Option<MockBook>)
    requires selected.Some?
    ensures ShowPreview(selected, " ") && !ShareEnabled(selected, " ")
  {
    var blank := " ";
    assert AllSpace(blank) by {
      assert IsSpace(blank[0]);
    }
    TrimEmptyIffAllSpace(blank);
  }

  /** Star `star` is drawn filled when it is at most the rating. */
  predicate StarFilled(star: int, rating: int) {
    star <= rating
  }

  /** What the page renders: the loading placeholder, nothing (while the redirect happens), or the form. */
  datatype PageView = LoadingView | BlankView | FormView

  class CreatePostPage {
    var selectedBook: Option<MockBook>
    var postContent: string
    var searchQuery: string
    var postType: PostType
    var rating: int
    var reviewTitle: string
    var isLoadingData: bool
    /** The route last pushed, if any. */
    var lastRoute: Option<string>

    constructor ()
      ensures selectedBook.None? && postContent == "" && searchQuery == "" && postType == PlainPost
      ensures rating == 0 && reviewTitle == "" && isLoadingData && lastRoute.None?
    {
      selectedBook := None;
      postContent := "";
      searchQuery := "";
      postType := PlainPost;
      rating := 0;
      reviewTitle := "";
      isLoadingData := true;
      lastRoute := None;
    }

    /** The auth effect: wait while auth loads; then redirect to login or stop loading. */
    method AuthCheck(authLoading: bool, authenticated: bool)
      modifies this
      ensures authLoading ==> isLoadingData == old(isLoadingData) && lastRoute == old(lastRoute)
      ensures !authLoading && !authenticated ==>
                lastRoute == Some("/auth/login") && isLoadingData == old(isLoadingData)
      ensures !authLoading && authenticated ==> !isLoadingData && lastRoute == old(lastRoute)
      ensures selectedBook == old(selectedBook) && postContent == old(postContent) && searchQuery == old(searchQuery)
      ensures postType == old(postType) && rating == old(rating) && reviewTitle == old(reviewTitle)
    {
      if authLoading {
        return;
      }
      if !authenticated {
        lastRoute := Some("/auth/login");
      } else {
        isLoadingData := false;
      }
    }

    /** Which of the three renderings the page takes. */
    function View(authLoading: bool, hasUser: bool, authenticated: bool): (v: PageView)
      reads this
      ensures v == FormView <==> !authLoading && hasUser && !isLoadingData && authenticated
      ensures authLoading ==> v == LoadingView
    {
      if authLoading || (!hasUser && !authLoading) || isLoadingData then LoadingView
      else if !authenticated || !hasUser then BlankView
      else FormView
    }

    /**
     * The books listed under the search box: none while a book is chosen, otherwise the
     * filtered mock books.
     */
    function VisibleBooks(): (r: seq<MockBook>)
      reads this
      ensures selectedBook.Some? ==> r == []
      ensures selectedBook.None? ==> r == FilteredBooks(MockBooks, searchQuery)
      ensures selectedBook.None? ==> forall b :: b in r <==> b in MockBooks && MatchesQuery(searchQuery, b)
    {
      if selectedBook.Some? then [] else FilteredBooks(MockBooks, searchQuery)
    }

    method SetSearchQuery(q: string)
      modifies this
      ensures searchQuery == q
      ensures selectedBook == old(selectedBook) && postContent == old(postContent) && postType == old(postType)
      ensures rating == old(rating) && reviewTitle == old(reviewTitle)
      ensures isLoadingData == old(isLoadingData) && lastRoute == old(lastRoute)
    {
      searchQuery := q;
    }

    method SetContent(text: string)
      modifies this
      ensures postContent == text
      ensures selectedBook == old(selectedBook) && searchQuery == old(searchQuery) && postType == old(postType)
      ensures rating == old(rating) && reviewTitle == old(reviewTitle)
      ensures isLoadingData == old(isLoadingData) && lastRoute == old(lastRoute)
    {
      postContent := text;
    }

    method SetReviewTitle(title: string)
      modifies this
      ensures reviewTitle == title
      ensures selectedBook == old(selectedBook) && postContent == old(postContent) && searchQuery == old(searchQuery)
      ensures postType == old(postType) && rating == old(rating)
      ensures isLoadingData == old(isLoadingData) && lastRoute == old(lastRoute)
    {
      reviewTitle := title;
    }

    /** A click on one of the listed books chooses it and hides the list. */
    method SelectBook(book: MockBook)
      modifies this
      ensures selectedBook == Some(book) && VisibleBooks() == []
      ensures postContent == old(postContent) && searchQuery == old(searchQuery) && postType == old(postType)
      ensures rating == old(rating) && reviewTitle == old(reviewTitle)
      ensures isLoadingData == old(isLoadingData) && lastRoute == old(lastRoute)
    {
      selectedBook := Some(book);
    }

    /** The X button clears the choice, and the filtered list shows again. */
    method ClearSelection()
      modifies this
      ensures selectedBook.None? && VisibleBooks() == FilteredBooks(MockBooks, searchQuery)
      ensures postContent == old(postContent) && searchQuery == old(searchQuery) && postType == old(postType)
      ensures rating == old(rating) && reviewTitle == old(reviewTitle)
      ensures isLoadingData == old(isLoadingData) && lastRoute == old(lastRoute)
    {
      selectedBook := None;
    }

    /** The Post and Review buttons. */
    method SetPostType(kind: PostType)
      modifies this
      ensures postType == kind
      ensures selectedBook == old(selectedBook) && postContent == old(postContent) && searchQuery == old(searchQuery)
      ensures rating == old(rating) && reviewTitle == old(reviewTitle)
      ensures isLoadingData == old(isLoadingData) && lastRoute == old(lastRoute)
    {
      postType := kind;
    }

    /** A click on star `star` (one of 1 to 5) sets the rating, filling it and every star before it. */
    method ClickStar(star: int)
      requires 1 <= star <= 5
      modifies this
      ensures rating == star && 1 <= rating <= 5
      ensures forall j :: 1 <= j <= 5 ==> (StarFilled(j, rating) <==> j <= star)
      ensures selectedBook == old(selectedBook) && postContent == old(postContent) && searchQuery == old(searchQuery)
      ensures postType == old(postType) && reviewTitle == old(reviewTitle)
      ensures isLoadingData == old(isLoadingData) && lastRoute == old(lastRoute)
    {
      rating := star;
    }
  }
}
