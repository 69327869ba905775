/**
 * The profile page: once the signed-in user is known, it loads the user's reading statuses
 * and all posts, and derives the statistics, the user's own posts, the reviews and the
 * book being read.
 */
module Profile {
  import opened Wrappers
  import opened Strings
  import opened PostsApi

  /** The frontend's reading states, `'reading' | 'completed' | 'want_to_read'`. */
  datatype FrontStatus = Reading | Completed | WantToRead

  /** `UserBookStatus` as the client sees it; `book` is the Google volume id of its book. */
  datatype UserBookStatus = UserBookStatus(
    id: int, book: string, status: FrontStatus, progress: int, rating: Option<real>, review: Option<string>)

  datatype UserStats = UserStats(
    booksRead: nat, reviewsWritten: nat, postsCreated: nat, currentlyReading: nat, wantToRead: nat)

  const ZeroStats := UserStats(0, 0, 0, 0, 0)

  /** `status.review` is truthy. */
  predicate HasReview(s: UserBookStatus) {
    s.review.Some? && s.review.value != ""
  }

  predicate IsIn(state: FrontStatus, s: UserBookStatus) {
    s.status == state
  }

  predicate IsReview(s: UserBookStatus) {
    s.status == Completed && HasReview(s)
  }

  predicate ByUser(userId: int, post: Post) {
    post.user.id == userId
  }

  /** `statuses.filter(s => s.status === state).length` */
  function CountIn(statuses: seq<UserBookStatus>, state: FrontStatus): nat {
    |Filter(statuses, s => IsIn(state, s))|
  }

  /** The posts whose `user.id` is the current user's, in order. */
  function OwnPosts(posts: seq<Post>, userId: int): (r: seq<Post>)
    ensures |r| <= |posts|
    ensures forall p :: p in r <==> p in posts && p.user.id == userId
  {
    Filter(posts, p => ByUser(userId, p))
  }

  /** A post added at the end is listed at the end when it is the user's: the list keeps feed order. */
  lemma OwnPostsOfAppend(posts: seq<Post>, post: Post, userId: int)
    ensures OwnPosts(posts + [post], userId) == OwnPosts(posts, userId) + (if post.user.id == userId then [post] else [])
  {
    FilterOfAppend(posts, post, p => ByUser(userId, p));
  }

  /** The completed statuses with a review, in order. */
  function Reviews(statuses: seq<UserBookStatus>): (r: seq<UserBookStatus>)
    ensures forall s :: s in r <==> s in statuses && s.status == Completed && HasReview(s)
  {
    Filter(statuses, IsReview)
  }

  /** A status added at the end is listed at the end when it is a review: the tab keeps status order. */
  lemma ReviewsOfAppend(statuses: seq<UserBookStatus>, s: UserBookStatus)
    ensures Reviews(statuses + [s]) == Reviews(statuses) + (if IsReview(s) then [s] else [])
  {
    FilterOfAppend(statuses, s, IsReview);
  }

  /** `stats`: the three state counts, the statuses with a review in any state, and the user's posts. */
  function ComputeStats(statuses: seq<UserBookStatus>, ownPosts: seq<Post>): (r: UserStats)
    ensures r.booksRead == CountIn(statuses, Completed) && r.currentlyReading == CountIn(statuses, Reading)
    ensures r.wantToRead == CountIn(statuses, WantToRead)
    ensures r.reviewsWritten == |Filter(statuses, HasReview)| && r.reviewsWritten <= |statuses|
    ensures r.postsCreated == |ownPosts|
  {
    UserStats(
      CountIn(statuses, Completed),
      |Filter(statuses, HasReview)|,
      |ownPosts|,
      CountIn(statuses, Reading),
      CountIn(statuses, WantToRead))
  }

  /** Every status is in exactly one state, so the three state counts add up to the number of statuses. */
  lemma {:induction false} StateCountsAddUp(statuses: seq<UserBookStatus>, posts: seq<Post>)
    ensures var st := ComputeStats(statuses, posts);
      st.booksRead + st.currentlyReading + st.wantToRead == |statuses|
    decreases |statuses|
  {
    if |statuses| > 0 {
      var init := statuses[..|statuses| - 1];
      var last := statuses[|statuses| - 1];
      assert statuses == init + [last];
      StateCountsAddUp(init, posts);
      FilterOfAppend(init, last, s => IsIn(Completed, s));
      FilterOfAppend(init, last, s => IsIn(Reading, s));
      FilterOfAppend(init, last, s => IsIn(WantToRead, s));
    }
  }

  /**
   * `reviewsWritten` counts reviews in any state, while the reviews tab lists only finished
   * books: the list is never longer than either count.
   */
  lemma ReviewsWithinCounts(statuses: seq<UserBookStatus>, posts: seq<Post>)
    ensures |Reviews(statuses)| <= ComputeStats(statuses, posts).reviewsWritten
    ensures |Reviews(statuses)| <= ComputeStats(statuses, posts).booksRead
  {
    FilterMonotone(statuses, IsReview, HasReview);
    FilterMonotone(statuses, IsReview, s => IsIn(Completed, s));
  }

  /** The position of the first `reading` status, or `|statuses|` when there is none. */
  function FirstReadingIndex(statuses: seq<UserBookStatus>): (k: nat)
    ensures k <= |statuses|
    ensures forall j :: 0 <= j < k ==> statuses[j].status != Reading
    ensures k < |statuses| ==> statuses[k].status == Reading
    decreases |statuses|
  {
    if |statuses| == 0 || statuses[0].status == Reading then 0
    else
      var k := FirstReadingIndex(statuses[1..]);
      assert forall j :: 1 <= j < |statuses| ==> statuses[j] == statuses[1..][j - 1];
      k + 1
  }

  /** `statuses.find(s => s.status === "reading") || null`: the first `reading` status, if any. */
  function FirstReading(statuses: seq<UserBookStatus>): (r: Option<UserBookStatus>)
    ensures r.None? <==> forall i :: 0 <= i < |statuses| ==> statuses[i].status != Reading
    ensures r.Some? ==> r.value.status == Reading && r.value == statuses[FirstReadingIndex(statuses)]
  {
    var k := FirstReadingIndex(statuses);
    if k < |statuses| then Some(statuses[k]) else None
  }

  /** What the two list requests brought back, when both succeeded. */
  datatype Fetched = Fetched(statuses: seq<UserBookStatus>, posts: seq<Post>)

  /** `!user?.id || !isAuthenticated() || authLoading`: a missing or zero id skips too. */
  predicate SkipsFetch(userId: Option<int>, authenticated: bool, authLoading: bool) {
    userId.None? || userId.value == 0 || !authenticated || authLoading
  }

  class ProfilePage {
    var isLoadingData: bool
    var userStats: UserStats
    var posts: seq<Post>
    var reviews: seq<UserBookStatus>
    var readingStatus: seq<UserBookStatus>
    var currentlyReading: Option<UserBookStatus>
    var lastRoute: Option<string>

    constructor ()
      ensures isLoadingData && userStats == ZeroStats && posts == [] && reviews == []
      ensures readingStatus == [] && currentlyReading.None? && lastRoute.None?
    {
      isLoadingData := true;
      userStats := ZeroStats;
      posts := [];
      reviews := [];
      readingStatus := [];
      currentlyReading := None;
      lastRoute := None;
    }

    /**
     * The first effect: wait while auth loads; without a stored token go to the login page;
     * with a token but no user yet, wait; with both, stop showing the loader.
     */
    method AuthCheck(authLoading: bool, token: Option<string>, hasUser: bool)
      modifies this
      ensures userStats == old(userStats) && posts == old(posts) && reviews == old(reviews)
      ensures readingStatus == old(readingStatus) && currentlyReading == old(currentlyReading)
      ensures !authLoading && (token.None? || token.value == "") ==> lastRoute == Some("/auth/login")
      ensures authLoading || (token.Some? && token.value != "") ==> lastRoute == old(lastRoute)
      ensures isLoadingData == (old(isLoadingData) && !(!authLoading && token.Some? && token.value != "" && hasUser))
    {
      if authLoading {
        return;
      }
      if token.None? || token.value == "" {
        lastRoute := Some("/auth/login");
        return;
      }
      if !hasUser {
        return;
      }
      isLoadingData := false;
    }

    /**
     * `fetchUserData`: skipped entirely (`requested` false, nothing changes) without a user
     * id, without a token or while auth loads; otherwise both lists are requested, and on
     * success every derived field is set from them; the loader is off afterwards either way.
     */
    method FetchUserData(userId: Option<int>, authenticated: bool, authLoading: bool, fetched: Option<Fetched>)
      returns (requested: bool)
      modifies this
      ensures lastRoute == old(lastRoute)
      ensures requested <==> !SkipsFetch(userId, authenticated, authLoading)
      ensures !requested ==>
                isLoadingData == old(isLoadingData) && userStats == old(userStats) && posts == old(posts) &&
                reviews == old(reviews) && readingStatus == old(readingStatus) && currentlyReading == old(currentlyReading)
      ensures requested ==> !isLoadingData
      ensures requested && fetched.None? ==>
                userStats == old(userStats) && posts == old(posts) && reviews == old(reviews) &&
                readingStatus == old(readingStatus) && currentlyReading == old(currentlyReading)
      ensures requested && fetched.Some? ==>
                posts == OwnPosts(fetched.value.posts, userId.value) &&
                userStats == ComputeStats(fetched.value.statuses, posts) &&
                reviews == Reviews(fetched.value.statuses) &&
                readingStatus == fetched.value.statuses &&
                currentlyReading == FirstReading(fetched.value.statuses)
    {
      if SkipsFetch(userId, authenticated, authLoading) {
        return false;
      }
      isLoadingData := true;
      if fetched.Some? {
        var allStatuses := fetched.value.statuses;
        var allPosts := OwnPosts(fetched.value.posts, userId.value);
        userStats, posts, reviews := ComputeStats(allStatuses, allPosts), allPosts, Reviews(allStatuses);
        readingStatus, currentlyReading := allStatuses, FirstReading(allStatuses);
      }
      isLoadingData := false;
      return true;
    }
  }
}
