# Reading Room, modelled in Dafny

Reading Room is a book-centred social site. It has three parts:

- a Next.js frontend, with the pages, the session manager and the edge route guard;
- a Django backend, with book storage, Google Books proxying and per-user reading statuses;
- a small gradio recommender, which captions the books a similarity search returns.

This project models the logic those parts own and proves what that logic promises.

- **Route guard.** How the edge middleware decides on a request from its path and the `access_token` cookie (`RouteGuard`).
- **Session manager.** The session manager of the auth context, as a class over its stored state (`AuthSession`). Its state is:
  - the two tokens in local storage;
  - the cookie mirror;
  - the HTTP client's `Authorization` header;
  - the current user;
  - the loading flag;
  - the last route pushed.
- **Backend book table.** The table keyed by Google volume id, and the reading-status table (`BookStore`).
- **Google Books helper.** Its formatting functions and its search loop with `auto_save` (`GoogleBooks`).
- **Saving one volume.** `fetch_and_save_book_by_google_id` (`BookImport`).
- **Backend views** (`BookViews`):
  - the two search proxies, including the 20-item cap;
  - the owner checks on book create, update and delete;
  - the reading-status endpoints scoped to the requesting user.
- **API client.** How the frontend API client reshapes backend posts (`PostsApi`).
- **Frontend pages:**
  - the discover page's search and genre chips (`Discover`);
  - the profile page's statistics and selections (`Profile`);
  - the reading-lists page (`Lists`);
  - the create-post page (`CreatePost`);
  - the sidebar (`Sidebar`).
- **Recommender.** The category step and the gallery captions (`Recommender`).
- **Helper modules.** `Wrappers` holds `Option`. `Strings` holds the library string operations the code relies on: `startsWith`, `includes`, `join`, `split`, `trim`/`strip`, ASCII case mapping, slicing and filtering. These are restricted to ASCII.

## How the model treats inputs and state

- **Backend calls are inputs.**
  - A call to the backend or to Google is a parameter of the operation that makes it.
  - A reply is `Ok(body)`, `Unauthorized` (a 401) or `Failed`.
  - Session operations also return the list of endpoints they called, in order. That list is what the single-refresh promise is stated over.
- **State that changes in place.** Wherever the source keeps state that changes in place, the model uses a `class` whose methods state their whole new state:
  - the session;
  - the book and status tables;
  - the state hooks of each page.
- **Page fields.** A React `useState` hook becomes a field, and a navigation becomes the `lastRoute` field.
- **Truthiness.** JavaScript and Python truthiness is written out. An empty string, a missing value and the number 0 all count as absent.

Some of the code's behaviour is easy to misread. The model follows the code as written:

- `isAuthenticated()` is token-only, as the code returns `!!token`. It computes whether a user with an id is held, but does not require one.
- `register` writes the access token to storage and the header but not the cookie, and takes the identity without checking its id. As a result the route guard keeps sending a freshly registered user to login. `AuthSession.RegisteredButGuarded` shows this.
- `search_books` raises on a failed request or an error payload. `SearchBooks` returns `None` for both.
- A row saved from Google has no owner (`added_by` is never set). The `user` argument of `fetch_and_save_book_by_google_id` is accepted and ignored. So nobody passes the owner check on such rows (`BookViews.ImportedRowsAreLocked`).
- When `checkAuth` finds no access token, it clears the user and the access slots but keeps the refresh token. Every other failure path of the check clears both tokens.

## Model

| member | source | states |
|---|---|---|
| RouteGuard.Middleware | Frontend/middleware.ts:16-35 | Redirect to `/` exactly when a non-empty token cookie is present and the path starts with `/auth/login` or `/auth/register`. Redirect to login exactly when there is no token and the path starts with `/profile` or `/create-post`. A login redirect carries the original path. |
| RouteGuard.Location | Frontend/middleware.ts:24-31 | A pass-through has no redirect URL. A login redirect points to `/auth/login?from=<path>`. |
| RouteGuard.RedirectsNeedOppositeCookies | Frontend/middleware.ts:20-32 | The home redirect needs a token and the login redirect needs its absence. No path is both an auth page and a protected page, so at most one rule fires. |
| RouteGuard.OtherRequestsPassThrough | Frontend/middleware.ts:34 | Every request that neither rule matches goes through unchanged. |
| RouteGuard.EmptyCookieIsNoCookie | Frontend/middleware.ts:19-20 | An empty cookie value decides exactly like a missing cookie. |
| RouteGuard.SubpathsOfProtectedAreGuarded | Frontend/middleware.ts:28-31 | Any extension of a protected path, without a token, is sent to login with the whole path as `from`. |
| RouteGuard.SubpathsOfAuthPagesGoHome | Frontend/middleware.ts:23-24 | Any extension of an auth path, with a token, is sent to `/`. |
| RouteGuard.ProfileAndLoginExamples | Frontend/middleware.ts:23-31 | `/profile` without a cookie goes to `/auth/login?from=/profile`. `/auth/login` with a cookie goes to `/`. |
| AuthSession.Bearer | Frontend/lib/auth-context.tsx:49 | The header value is `"Bearer "` followed by exactly the token. |
| AuthSession.Session.constructor | Frontend/lib/auth-context.tsx:62-63 | A page load keeps storage and cookie. It starts with no header, no user and loading on. |
| AuthSession.Session.SetAuthToken | Frontend/lib/auth-context.tsx:42-59 | A truthy token is written to storage, the cookie and the header (as a bearer value). Anything else clears all three. The refresh token, the user, the loading flag and the route are unchanged. |
| AuthSession.Session.ClearAll | Frontend/lib/auth-context.tsx:188-196 | Both tokens, the cookie, the header and the user are cleared, and loading ends. |
| AuthSession.Session.CheckAuth | Frontend/lib/auth-context.tsx:80-198 | The calls made are a prefix of identity, refresh, identity: refresh happens at most once and is retried at most once. With no token, the user and the access slots are cleared and the refresh token is kept. A held user with an id is kept. Otherwise the end state follows the identity reply, the refresh reply and the retry reply. Any other outcome clears both tokens and the user. |
| AuthSession.Session.Login | Frontend/lib/auth-context.tsx:208-257 | Login succeeds exactly when the login reply has an access token and the identity has an id. The identity call is made only after a token arrived. The token is stored everywhere. A refresh token is stored only if one came back. On success the user is set, the route is `/` and the session is authenticated. Otherwise the user and the route are unchanged. |
| AuthSession.Session.Logout | Frontend/lib/auth-context.tsx:260-301 | Whatever the backend answers, logout ends with no tokens, no cookie, no header, no user and the route at `/auth/login`. The backend is called only when a refresh token was held. |
| AuthSession.Session.Register | Frontend/lib/auth-context.tsx:303-344 | Like login, but the cookie is left as it was and any identity body is accepted. |
| AuthSession.Session.CheckAuthStatus | Frontend/lib/auth-context.tsx:362-435 | States the single-refresh call sequence, and when the check answers true. A refreshed token survives a retry without id. A first identity reply with an id is the user held afterwards. A non-401 failure, or a reply without an id, keeps the tokens and the user. A refresh reply without a token keeps the tokens and the user. A failed refresh or failed retry clears everything. The loading flag is untouched. |
| AuthSession.Session.ClearTokens | Frontend/lib/auth-context.tsx:425-431 | Tokens, cookie, header and user are cleared, and the loading flag is kept. |
| AuthSession.Session.IsAuthenticated | Frontend/lib/auth-context.tsx:347-359 | Holding a user implies being authenticated. While storage, cookie and header are in step, the session is authenticated exactly when the route guard's cookie is truthy. |
| AuthSession.Session.GetAuthToken | Frontend/lib/auth-context.tsx:438-440 | While in step, a token it returns is the cookie's value, and the header is its bearer value. |
| AuthSession.LogoutTwice | Frontend/lib/auth-context.tsx:260-301 | A second logout ends in the same state as the first, whatever either backend call did. |
| AuthSession.RegisteredButGuarded | Frontend/lib/auth-context.tsx:309-319 | Starting without a cookie, a registration that returned a token leaves the client authenticated. The route guard still redirects `/profile` to login. |
| AuthSession.LoginThenToken | Frontend/lib/auth-context.tsx:218-237 | After a login with a token and an identity with an id: the session is authenticated, `getAuthToken()` is that token, the user is that identity, and the guard lets `/profile` through. |
| BookStore.BookTable.constructor | Backend/books/models.py:29-39 | The table starts empty, with the first primary key 1. |
| BookStore.BookTable.Create | Backend/books/models.py:29-39 | A row is created under an unused Google id with the next primary key. It is the only change to the table. |
| BookStore.StatusTable.constructor | Backend/books/models.py:14-20 | The status table starts empty and satisfies the unique (user, book) rule. |
| GoogleBooks.ParseDate | Backend/books/utils/google_books.py:12-25 | `None` exactly for a missing or empty date. A year gains `-01-01` and a year-month gains `-01`. Any other date is kept unchanged. A 4-, 7- or 10-character date always yields 10 characters. |
| GoogleBooks.ExtractAuthors | Backend/books/utils/google_books.py:28-32 | No authors give `""`. Otherwise the authors joined by `", "`: the result starts with the first author and contains every author. |
| GoogleBooks.FirstIsbn | Backend/books/utils/google_books.py:39-42 | The identifier of the first `ISBN_13`/`ISBN_10` entry. `None` when there is no such entry. Any result comes from an ISBN entry. |
| GoogleBooks.ExtractIsbn | Backend/books/utils/google_books.py:35-42 | A missing list has no ISBN. Otherwise the result is the first ISBN entry's identifier. |
| GoogleBooks.FormatBookData | Backend/books/utils/google_books.py:44-55 | The id column is `bookId`. Title, publisher, description and the cover thumbnail are taken as given, and default to `''`. The authors are `ExtractAuthors`, the date is `ParseDate` and the isbn is `ExtractIsbn`. A date is present exactly when one was given. Any isbn belongs to an ISBN entry of the volume. |
| GoogleBooks.EmptyVolumeFormatsBlank | Backend/books/utils/google_books.py:44-55 | A volume with no keys formats to blank columns and no date or isbn. |
| GoogleBooks.StepCoherent | Backend/books/utils/google_books.py:113-144 | One loop turn keeps the table well keyed. It adds no entry without an id. Every entry is marked `exists_in_db` exactly when its volume has a row, and carries that row's key. |
| GoogleBooks.RunCoherent | Backend/books/utils/google_books.py:112-146 | The whole loop keeps that coherence. |
| GoogleBooks.RunGrows | Backend/books/utils/google_books.py:112-146 | At most one entry per item. Earlier entries are kept as a prefix. Existing rows never change. Without `auto_save`, the table is untouched. |
| GoogleBooks.SearchBooks | Backend/books/utils/google_books.py:86-151 | A failed request or an error payload gives nothing and leaves the table as it was. Otherwise the loop over `items` returns the list `SearchRun` builds and leaves the table it describes. |
| GoogleBooks.SearchPromises | Backend/books/utils/google_books.py:112-146 | A successful search gives at most one entry per item. It keeps every old row. With `auto_save`, every entry is stored. Each entry is marked stored exactly when its row exists, and carries that row's key. |
| BookImport.AllIdentifiers | Backend/books/utils/utils.py:36 | The joined string contains every identifier of the volume. |
| BookImport.ParsedDate | Backend/books/utils/utils.py:18-28 | A date exactly when it is 4, 7 or 10 characters long and parses. The result is a 10-character ISO date extending the input. |
| BookImport.ImportedData | Backend/books/utils/utils.py:30-39 | Each column is the prefix of its source value whose length is the smaller of the source's length and the limit: title 300, authors 500, cover 1000, isbn 200, publisher 300. The description is kept whole. The date is `ParsedDate`. The Google id is `bookId`. |
| BookImport.ShortColumnsAreKept | Backend/books/utils/utils.py:31-37 | A title, authors string, publisher or cover that fits its limit is stored whole. |
| BookImport.IsbnKeepsEveryIdentifier | Backend/books/utils/utils.py:36 | When the joined identifiers fit, the isbn column holds every identifier, not only the ISBNs. |
| BookImport.FetchAndSave | Backend/books/utils/utils.py:7-41 | An existing row is returned untouched. A non-200 reply gives `None` and no change. Otherwise exactly one ownerless row with `ImportedData` is added and returned. |
| BookImport.SaveTwice | Backend/books/utils/utils.py:8-9 | A second request for the same id returns the first result. At most one row is added. |
| BookViews.FetchBooksFromApi | Backend/books/views.py:45-52 | A missing or empty `q` gives 400 with the fixed message. Otherwise Google's payload is returned as it came. |
| BookViews.RefusalIgnoresUpstream | Backend/books/views.py:46-48 | The 400 answer does not depend on any upstream reply. |
| BookViews.Capped | Backend/books/views.py:79-81 | With `items`: at most 20 items, a prefix of the upstream items, all of them when there are 20 or fewer, and `totalItems` = min(count or 0, 20). Without `items` the payload is unchanged. |
| BookViews.CappedIsIdempotent | Backend/books/views.py:79-81 | Capping twice equals capping once. |
| BookViews.SearchView | Backend/books/views.py:69-83 | 400 without a query. Otherwise the capped upstream payload. |
| BookViews.PerformCreate | Backend/books/views.py:116-117 | The new row is owned by the requester. A taken Google id is a conflict with no change. |
| BookViews.PerformUpdate | Backend/books/views.py:126-129 | A non-owner is refused with "You can only edit books you added" and nothing changes. The owner's edit replaces that row's columns only. |
| BookViews.PerformDestroy | Backend/books/views.py:131-134 | A non-owner is refused with "You can only delete books you added". The owner deletes exactly that row. |
| BookViews.ImportedRowsAreLocked | Backend/books/views.py:127-133 | A row without owner can be neither edited nor deleted by anyone. |
| BookViews.OwnStatuses | Backend/books/views.py:142-143 | The listed statuses are exactly the requester's. |
| BookViews.OwnStatusesOfAppend | Backend/books/views.py:142-143 | A later row is listed after the earlier ones, and only if it is the requester's. |
| BookViews.FindOwn | Backend/books/views.py:154-155 | Finds the requester's row with that key. When it finds nothing, no such row exists. |
| BookViews.CreateStatus | Backend/books/views.py:145-146 | The row is stamped with the requester and appended with a fresh key. A second row for the same (user, book) is refused and nothing changes. |
| BookViews.UpdateStatus | Backend/books/views.py:149-155 | Another user's row is not found. A duplicate (user, book) is refused. Otherwise exactly the found row changes, and rows of other users never change. |
| PostsApi.ListPosts | Frontend/lib/api-client.ts:153-177 | One post per backend post, in order. Each keeps the backend fields, has a `user` mirroring its author, zero counts and not liked. The status is the upstream one. |
| PostsApi.Originals | Frontend/lib/api-client.ts:48-57 | The backend part of each shaped post. |
| PostsApi.ListPostsKeepsBackendList | Frontend/lib/api-client.ts:163-172 | Dropping the added fields gives back the backend list exactly. |
| PostsApi.CreatePost | Frontend/lib/api-client.ts:180-194 | The backend post with its author mirrored, zero counts, not liked, and the upstream status. |
| PostsApi.UpdatePost | Frontend/lib/api-client.ts:219-233 | As for create. |
| PostsApi.LikePost | Frontend/lib/api-client.ts:242-256 | As for create, but marked liked. |
| PostsApi.UnlikePost | Frontend/lib/api-client.ts:259-273 | As for create, marked not liked. |
| PostsApi.LikeAndUnlikeDifferInFlagOnly | Frontend/lib/api-client.ts:242-273 | Liking and unliking the same reply differ only in `is_liked`. |
| PostsApi.CountOf | Frontend/lib/api-client.ts:211-212 | A failed sub-request or a missing count reads 0. Otherwise the count. |
| PostsApi.GetPost | Frontend/lib/api-client.ts:197-216 | The counts come from the likes and comments sub-requests. The rest is shaped as for create. |
| PostsApi.FailedCountIsZero | Frontend/lib/api-client.ts:199-202 | A caught failure is indistinguishable from a zero or missing count. |
| PostsApi.DeleteResult | Frontend/lib/api-client.ts:123-126 | No data, and the upstream status. |
| Discover.DisplayAuthor | Frontend/app/discover/page.tsx:300 | Never empty. No authors, or authors whose `", "`-join is empty, give "Unknown Author". A non-empty join is shown as it is, so `["", "B"]` shows `", B"`. |
| Discover.DisplayCover | Frontend/app/discover/page.tsx:301-304 | The thumbnail, else the small thumbnail, else the placeholder. Never empty. |
| Discover.ToResult | Frontend/app/discover/page.tsx:297-310 | A missing id takes the fallback. A title and a description are shown when truthy, else "Untitled" and "No description available". The rating and the review count are the volume's, or 0 when missing. Author and cover are `DisplayAuthor` and `DisplayCover`. Date and publisher are passed through. |
| Discover.WithVolumeInfo | Frontend/app/discover/page.tsx:285-291 | Only items with `volumeInfo` remain, each one of the input's. |
| Discover.WithVolumeInfoOfConcat | Frontend/app/discover/page.tsx:285-291 | The filter works piecewise: order is kept. |
| Discover.WithVolumeInfoKeepsComplete | Frontend/app/discover/page.tsx:285-291 | Items that all carry `volumeInfo` are kept as they are. |
| Discover.Transform | Frontend/app/discover/page.tsx:284-316 | One card per kept item, in order. |
| Discover.ResultsOf | Frontend/app/discover/page.tsx:264-278 | A failure, a non-OK status or a body without `items` leaves no results. |
| Discover.Toggle | Frontend/app/discover/page.tsx:343-347 | The genre is selected afterwards exactly when it was not before. Every other genre keeps its state. |
| Discover.ToggleTwiceRestores | Frontend/app/discover/page.tsx:343-347 | A new genre is appended. Toggling it again restores the selection. |
| Discover.ToggleSelectedTwice | Frontend/app/discover/page.tsx:343-347 | Toggling a selected genre twice moves it to the end. |
| Discover.DiscoverPage.constructor | Frontend/app/discover/page.tsx:222-226 | Empty query, selection and results. Not searching, panel hidden. |
| Discover.DiscoverPage.ChangeQuery | Frontend/app/discover/page.tsx:375-381 | The query is set. A blank value clears the results and hides the panel. |
| Discover.DiscoverPage.Focus | Frontend/app/discover/page.tsx:383-387 | The panel opens when the query is not blank. Otherwise nothing changes. |
| Discover.DiscoverPage.ClickOutside | Frontend/app/discover/page.tsx:230-236 | The panel closes. Nothing else changes. |
| Discover.DiscoverPage.HandleSearch | Frontend/app/discover/page.tsx:243-262 | A blank query sends nothing and clears and hides. Otherwise the panel shows, searching starts, and the trimmed query is sent. |
| Discover.DiscoverPage.ReceiveSearchReply | Frontend/app/discover/page.tsx:264-333 | The results become `ResultsOf` the reply, so any failure leaves none. Searching ends. Query, genres and panel are unchanged. |
| Discover.DiscoverPage.ToggleGenre | Frontend/app/discover/page.tsx:343-347 | The selection becomes `Toggle` of the old one. Nothing else changes. |
| Profile.OwnPosts | Frontend/app/profile/page.tsx:152-154 | Exactly the posts whose `user.id` is the user's. |
| Profile.OwnPostsOfAppend | Frontend/app/profile/page.tsx:152-154 | A post appended to the feed is appended to the user's posts exactly when it is theirs. With the empty feed this fixes the list by induction: the user's posts in feed order, each as often as in the feed. |
| Profile.Reviews | Frontend/app/profile/page.tsx:177-181 | Exactly the completed statuses with a non-empty review. |
| Profile.ReviewsOfAppend | Frontend/app/profile/page.tsx:177-181 | A status appended at the end is appended to the reviews exactly when it is a completed status with a review. By induction the tab lists the reviews in status order, each as often as it occurs. |
| Profile.ComputeStats | Frontend/app/profile/page.tsx:157-169 | Books read, currently reading and want to read count the statuses in each state. Reviews written counts the statuses with a truthy review, and is at most the number of statuses. Posts created is the number of the user's posts. |
| Profile.StateCountsAddUp | Frontend/app/profile/page.tsx:157-169 | Read, reading and want-to-read counts add up to the number of statuses. |
| Profile.ReviewsWithinCounts | Frontend/app/profile/page.tsx:157-181 | The reviews tab never lists more than `reviewsWritten` or `booksRead`. |
| Profile.FirstReadingIndex | Frontend/app/profile/page.tsx:172-173 | The first position holding a `reading` status, or the length when there is none. |
| Profile.FirstReading | Frontend/app/profile/page.tsx:172-173 | `None` exactly when no status is `reading`. Otherwise the first such status. |
| Profile.ProfilePage.constructor | Frontend/app/profile/page.tsx:70-82 | Loading, zero stats, all lists empty, nothing being read. |
| Profile.ProfilePage.AuthCheck | Frontend/app/profile/page.tsx:85-122 | Waits while auth loads. Without a token, goes to `/auth/login`. Stops loading only with both token and user. |
| Profile.ProfilePage.FetchUserData | Frontend/app/profile/page.tsx:126-195 | Skipped with no change exactly when the id is missing or zero, or the user is not authenticated, or auth is loading. On success every derived field is set from the fetched lists. A failure keeps them. Loading is off afterwards. |
| Lists.DefaultLists | Frontend/app/lists/page.tsx:124 | Exactly the `default` lists. |
| Lists.CustomLists | Frontend/app/lists/page.tsx:125 | Exactly the `custom` lists. |
| Lists.CustomListsStat | Frontend/app/lists/page.tsx:187 | The card shows a non-empty string of decimal digits. Fewer than ten custom lists show as that one digit. |
| Lists.SectionsPartitionLists | Frontend/app/lists/page.tsx:124-125 | The two sections together hold every list exactly as often as `lists` does. |
| Lists.SectionsOfOrderedLists | Frontend/app/lists/page.tsx:124-125 | Default lists followed by custom lists split back into those two sections. |
| Lists.InitialSections | Frontend/app/lists/page.tsx:56-107 | The page opens with three default and two custom lists. The Custom Lists card reads "2". |
| Lists.NewListItem | Frontend/app/lists/page.tsx:130-139 | A custom list with 0 books, "Just now", the form's fields, and an id starting `list-`. |
| Lists.WithoutId | Frontend/app/lists/page.tsx:159 | Exactly the lists whose id differs from the chosen one. When no list has that id, the lists are unchanged. |
| Lists.WithoutIdOfAppend | Frontend/app/lists/page.tsx:159 | A list appended at the end is kept at the end exactly when its id differs. By induction this fixes the result: the other lists, in order and with their multiplicity. |
| Lists.CreatedListIsLastCustom | Frontend/app/lists/page.tsx:141-187 | A created list becomes the last custom list. The default section is unchanged. The stat card counts one more. |
| Lists.ListsPage.constructor | Frontend/app/lists/page.tsx:110-122 | The initial lists, both dialogs closed, nothing chosen, and the blank form. |
| Lists.ListsPage.SetDialogOpen | Frontend/app/lists/page.tsx:338 | Only the create dialog's flag changes. |
| Lists.ListsPage.EditForm | Frontend/app/lists/page.tsx:117-122 | Only the form changes. |
| Lists.ListsPage.CreateList | Frontend/app/lists/page.tsx:127-149 | A blank title changes nothing. Otherwise exactly one new custom list is appended, the form is reset and the dialog closes. |
| Lists.ListsPage.DeleteClick | Frontend/app/lists/page.tsx:152-155 | The list is chosen and the confirmation opens. Lists and form are unchanged. |
| Lists.ListsPage.DeleteConfirm | Frontend/app/lists/page.tsx:157-163 | With a choice, the lists with its id go, the choice is cleared and the confirmation closes. Without one, nothing changes. |
| Lists.ListsPage.SetDeleteDialogOpen | Frontend/app/lists/page.tsx:417 | Only the confirmation's flag changes. |
| Lists.ListsPage.DeleteCancel | Frontend/app/lists/page.tsx:165-168 | The choice is cleared and the confirmation closes. The lists are unchanged. |
| CreatePost.FilteredBooks | Frontend/app/create-post/page.tsx:53-57 | Exactly the books whose lower-cased title or author contains the lower-cased query. |
| CreatePost.FilteredBooksOfAppend | Frontend/app/create-post/page.tsx:53-57 | A book appended to the list is appended to the result exactly when it matches. By induction the result is the subsequence of matching books. |
| CreatePost.EmptyQueryKeepsAll | Frontend/app/create-post/page.tsx:53-57 | An empty query lists every book, in order. |
| CreatePost.QueryCaseIsIgnored | Frontend/app/create-post/page.tsx:53-57 | Lower-casing the query first changes nothing. |
| CreatePost.TitleMatchIsListed | Frontend/app/create-post/page.tsx:55 | A book whose lower-cased title holds the lower-cased query is listed. |
| CreatePost.ShareEnabled | Frontend/app/create-post/page.tsx:315 | Sharing is enabled exactly when a book is chosen and the text has a non-whitespace character. |
| CreatePost.ShowPreview | Frontend/app/create-post/page.tsx:315-325 | The preview shows exactly when a book is chosen and the text is non-empty. Whatever can be shared has a preview. |
| CreatePost.BlankPreviewCannotBeShared | Frontend/app/create-post/page.tsx:315-325 | With a book chosen, a text of one space has a preview but cannot be shared. |
| CreatePost.CreatePostPage.constructor | Frontend/app/create-post/page.tsx:21-27 | No book, empty texts, plain post, rating 0, loading. |
| CreatePost.CreatePostPage.AuthCheck | Frontend/app/create-post/page.tsx:60-91 | Waits while auth loads. Unauthenticated goes to `/auth/login`. Authenticated stops loading. |
| CreatePost.CreatePostPage.View | Frontend/app/create-post/page.tsx:94-125 | The form shows exactly when auth is done, a user is present, loading is off and the session is authenticated. While auth loads, the loader shows. |
| CreatePost.CreatePostPage.VisibleBooks | Frontend/app/create-post/page.tsx:159-213 | Nothing is listed while a book is chosen. Otherwise the list is `FilteredBooks` of the mock books, in their order. |
| CreatePost.CreatePostPage.SetSearchQuery | Frontend/app/create-post/page.tsx:154 | Only the query changes. |
| CreatePost.CreatePostPage.SetContent | Frontend/app/create-post/page.tsx:299 | Only the content changes. |
| CreatePost.CreatePostPage.SetReviewTitle | Frontend/app/create-post/page.tsx:280 | Only the review title changes. |
| CreatePost.CreatePostPage.SelectBook | Frontend/app/create-post/page.tsx:193 | The book is chosen and the list is hidden. |
| CreatePost.CreatePostPage.ClearSelection | Frontend/app/create-post/page.tsx:180 | The choice is cleared and the filtered list shows again. |
| CreatePost.CreatePostPage.SetPostType | Frontend/app/create-post/page.tsx:227-239 | Only the post type changes. |
| CreatePost.CreatePostPage.ClickStar | Frontend/app/create-post/page.tsx:258-266 | Star k in 1..5 sets the rating to k. Star j is filled exactly when j ≤ k. |
| Sidebar.IsActive | Frontend/components/sidebar.tsx:90-92 | An item's href is always a prefix of the path that highlights it, and the item is highlighted on its own href. |
| Sidebar.HomeActiveOnlyAtRoot | Frontend/components/sidebar.tsx:90-92 | Home is highlighted on `/` and nowhere else. |
| Sidebar.OtherItemActiveByPrefix | Frontend/components/sidebar.tsx:90-92 | Any other item is highlighted exactly on paths starting with its href. |
| Sidebar.NavItems | Frontend/components/sidebar.tsx:23-58 | With a user, the public menu followed by Profile. Without one, the public menu, which has no Profile. |
| Sidebar.ProfileListedIffUser | Frontend/components/sidebar.tsx:32-58 | Profile is listed exactly when there is a user, and last. |
| Sidebar.ActiveItems | Frontend/components/sidebar.tsx:89-92 | Exactly the items highlighted for the path. |
| Sidebar.ProfilePagesHighlightProfile | Frontend/components/sidebar.tsx:89-92 | Under `/profile`, the signed-in menu highlights Profile alone. |
| Sidebar.AvatarFallback | Frontend/components/sidebar.tsx:137 | At most the first two characters of the username, upper-cased. |
| Sidebar.FooterView | Frontend/components/sidebar.tsx:116-173 | Loading takes precedence. Then the user card with its fallback. Otherwise the sign-in buttons. |
| Recommender.TrimAll | Semantic-book-recommender/gradio-dashboard.py:89 | Each part stripped, in order. |
| Recommender.FormatAuthors | Semantic-book-recommender/gradio-dashboard.py:81-96 | A missing or empty authors cell gives "Unknown Author". |
| Recommender.OneAuthor | Semantic-book-recommender/gradio-dashboard.py:91-92 | A single author is the cell, stripped. |
| Recommender.TwoAuthors | Semantic-book-recommender/gradio-dashboard.py:86-87 | Two authors give `"<first> and <second>"`, with only the second stripped. |
| Recommender.ManyAuthors | Semantic-book-recommender/gradio-dashboard.py:88-90 | Three or more authors are each stripped and joined by `", "`, with `", and "` before the last. |
| Recommender.InnerFallbackUnreachable | Semantic-book-recommender/gradio-dashboard.py:91-94 | A non-empty cell never reaches the inner "Unknown Author" branch. |
| Recommender.LargeThumbnail | Semantic-book-recommender/gradio-dashboard.py:15-20 | A thumbnail gains the `&fife=w800` suffix. A missing one becomes the stock cover. |
| Recommender.CaptionParts | Semantic-book-recommender/gradio-dashboard.py:98 | The caption starts with the title, `" by "`, the authors part and `": "`. It ends with the description part. |
| Recommender.FormatDescription | Semantic-book-recommender/gradio-dashboard.py:74-79 | A missing or empty description gives "No description available.". |
| Recommender.DescriptionKeepsWords | Semantic-book-recommender/gradio-dashboard.py:74-77 | The result ends in `"..."`. Before that it has the same words as the description, separated by plain spaces only. |
| Recommender.BlankDescriptionIsEllipsis | Semantic-book-recommender/gradio-dashboard.py:76-77 | An all-whitespace description is truthy and comes out as `"..."`. |
| Recommender.SelectRows | Semantic-book-recommender/gradio-dashboard.py:44-47 | A prefix of the category-filtered candidates (of all of them under "All"). Its length is the smaller of `final_top_k` and the number of those candidates. Every row is of the category. |
| Recommender.SelectKeepsMatchingRows | Semantic-book-recommender/gradio-dashboard.py:44-47 | Short enough candidates all of the category come through whole. |
| Recommender.Gallery | Semantic-book-recommender/gradio-dashboard.py:70-100 | The gallery of a list of rows has one entry per row. |
| Recommender.GalleryAt | Semantic-book-recommender/gradio-dashboard.py:73-99 | Entry i of the gallery is the `(large thumbnail, caption)` pair of row i. |
| Recommender.RecommendBooks | Semantic-book-recommender/gradio-dashboard.py:63-100 | The loop builds exactly `Gallery` of the rows: one `(large thumbnail, caption)` pair per row, in row order. |

## Left out

- The Chroma/HuggingFace similarity search, the `isin` lookup and the `head(initial_top_k)` step, because they depend on external models and data frames. The candidate rows are an input of `SelectRows`.
- The tone sorts, because they depend on float emotion scores. `RecommendBooks` takes the rows in their final order.
- `recommend_books` reading `row['title']` as text: a missing title would print as `nan`. This is not modelled, because titles are taken as strings.
- The `large_thumbnail` column is computed once over the data frame. Here it is `LargeThumbnail` applied per row.
- Floating point. Ratings are `real` values, and the reading-goal percentage is not modelled.
- Calendar validation by `strptime`. It is an abstract `parses` predicate, and an accepted date is represented as its zero-padded ISO string. So `BookImport.ParsedDate` assumes a 10-character date is already zero-padded.
- Only the HTTP status and `volumeInfo` of Google replies are used. `get_book` failures inside the search loop (network errors, error payloads) are a missing key in the `details` map, and that item is skipped.
- Database failures of `Book.objects.create`, such as an overlong column on a strict database, because they are not visible in this code. `BookStore.BookTable.Create` always succeeds on an unused id.
- `BookViews.PerformUpdate` keeps the row's Google id when an edit is applied. Serializer validation and other column constraints are not modelled.
- Unicode. `toLowerCase`, `toUpperCase`, `trim`, `split()` and `strip()` are ASCII-only here, so non-ASCII whitespace and letters are kept as they are.
- IsSpace: Python's `split()` and `strip()` also treat the ASCII separators `\x1c`, `\x1d`, `\x1e` and `\x1f` as whitespace, and JavaScript's `trim` does not. `IsSpace` follows JavaScript, so `Recommender.FormatDescription` and `Recommender.FormatAuthors` keep these four characters where the recommender would split or strip at them (a description `"a\x1fb"` gives `"a b..."` in Python).
- `encodeURIComponent`, cookie attributes (path, max-age, SameSite) and cookie expiry.
- Concurrency and the `isMounted` guards. Each operation runs to completion with its replies given.
- Toasts, console logging and the exceptions re-thrown to callers.
- The backend logout endpoint's own behaviour.
- `Math.random()` and `Date.now()`. They are the `fallbackId` and `now` parameters.
- The other side of the merge conflict in the lists page. Only the side that carries the delete handlers is modelled.
- The create-post page's Share button has no click handler, and "Add Image" does nothing, so neither is modelled beyond `ShareEnabled`.
- Presentational markup: class names, icons and images.
