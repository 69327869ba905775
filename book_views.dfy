/**
 * The backend's book endpoints: the two Google search proxies, the owner checks on book
 * update and delete, and the reading statuses scoped to the requesting user. The upstream
 * reply of a proxy is an input; the `requester` is the authenticated user.
 */
module BookViews {
  import opened Wrappers
  import opened Strings
  import opened VolumeJson
  import opened BookStore

  /** A response: an error object with its HTTP status, or the (possibly edited) Google payload. */
  datatype ApiResponse = ErrorResponse(status: int, error: string) | JsonResponse(payload: SearchPayload)

  const QueryRequired := "Query parameter \"q\" is required"
  const MaxSearchItems := 20

  /** `not request.GET.get('q', '')`: a missing and an empty `q` are refused alike. */
  predicate QueryMissing(q: Option<string>) {
    q.None? || q.value == ""
  }

  /** `fetch_books_from_api`: 400 without a query, otherwise Google's payload as it came. */
  function FetchBooksFromApi(q: Option<string>, upstream: SearchPayload): (r: ApiResponse)
    ensures QueryMissing(q) ==> r == ErrorResponse(400, QueryRequired)
    ensures !QueryMissing(q) ==> r == JsonResponse(upstream)
  {
    if QueryMissing(q) then ErrorResponse(400, QueryRequired) else JsonResponse(upstream)
  }

  /** The 400 answer does not depend on what Google would have said: no request is needed for it. */
  lemma RefusalIgnoresUpstream(q: Option<string>, u1: SearchPayload, u2: SearchPayload)
    requires QueryMissing(q)
    ensures FetchBooksFromApi(q, u1) == FetchBooksFromApi(q, u2)
  {
  }

  function Min(a: int, b: int): int {
    if a <= b then a else b
  }

  /**
   * The payload `GoogleBooksSearchView.get` answers with: when `items` is present it keeps
   * the first 20 in order and caps `totalItems` at 20 (a missing count reads as 0); a
   * payload without `items` is passed on unchanged.
   */
  function Capped(u: SearchPayload): (p: SearchPayload)
    ensures u.items.None? ==> p == u
    ensures u.items.Some? ==> p.items.Some? && |p.items.value| <= MaxSearchItems && IsPrefix(p.items.value, u.items.value)
    ensures u.items.Some? && |u.items.value| <= MaxSearchItems ==> p.items == u.items
    ensures u.items.Some? && MaxSearchItems <= |u.items.value| ==> |p.items.value| == MaxSearchItems
    ensures u.items.Some? ==> p.totalItems == Some(Min(u.totalItems.GetOr(0), MaxSearchItems))
    ensures p.kind == u.kind && p.error == u.error
  {
    if u.items.None? then u
    else u.(items := Some(Take(u.items.value, MaxSearchItems)),
            totalItems := Some(Min(u.totalItems.GetOr(0), MaxSearchItems)))
  }

  /** Capping an already capped payload changes nothing. */
  lemma CappedIsIdempotent(u: SearchPayload)
    ensures Capped(Capped(u)) == Capped(u)
  {
  }

  /** `GoogleBooksSearchView.get`: edits the upstream `data` in place before answering with it. */
  method SearchView(q: Option<string>, upstream: SearchPayload) returns (r: ApiResponse)
    ensures QueryMissing(q) ==> r == ErrorResponse(400, QueryRequired)
    ensures !QueryMissing(q) ==> r == JsonResponse(Capped(upstream))
  {
    if QueryMissing(q) {
      return ErrorResponse(400, QueryRequired);
    }
    var data := upstream;
    if data.items.Some? {
      data := data.(items := Some(Take(data.items.value, MaxSearchItems)));
      data := data.(totalItems := Some(Min(data.totalItems.GetOr(0), MaxSearchItems)));
    }
    return JsonResponse(data);
  }

  /** How a write on a book ends. */
  datatype Outcome = Done | PermissionDenied(message: string) | Conflict

  /** Python `instance.added_by != request.user` is false only for the owner; a row without owner is nobody's. */
  predicate MayModify(book: Book, requester: UserId) {
    book.addedBy == Some(requester)
  }

  /** `BookListCreateAPIView.perform_create`: the new row is stamped with its creator. */
  method PerformCreate(table: BookTable, requester: UserId, data: BookData) returns (o: Outcome, b: Option<Book>)
    requires table.Valid()
    modifies table
    ensures table.Valid()
    ensures data.googleBookId in old(table.rows) ==>
              o == Conflict && b.None? && table.rows == old(table.rows) && table.nextId == old(table.nextId)
    ensures data.googleBookId !in old(table.rows) ==>
              o == Done && b == Some(Book(old(table.nextId), data, Some(requester))) &&
              table.rows == old(table.rows)[data.googleBookId := b.value] && MayModify(b.value, requester)
  {
    if data.googleBookId in table.rows {
      return Conflict, None;
    }
    var book := table.Create(data, Some(requester));
    return Done, Some(book);
  }

  /**
   * `perform_update` on the row stored under `key`: refused unless the requester owns it;
   * otherwise that one row takes the edited columns and nothing else changes.
   */
  method PerformUpdate(table: BookTable, requester: UserId, key: string, edit: BookData) returns (o: Outcome)
    requires table.Valid() && key in table.rows
    modifies table
    ensures table.Valid() && table.nextId == old(table.nextId)
    ensures !MayModify(old(table.rows)[key], requester) ==>
              o == PermissionDenied("You can only edit books you added") && table.rows == old(table.rows)
    ensures MayModify(old(table.rows)[key], requester) ==>
              o == Done && table.rows == old(table.rows)[key := old(table.rows)[key].(fields := edit.(googleBookId := key))]
  {
    if table.rows[key].addedBy != Some(requester) {
      return PermissionDenied("You can only edit books you added");
    }
    table.rows := table.rows[key := table.rows[key].(fields := edit.(googleBookId := key))];
    return Done;
  }

  /** `perform_destroy` on the row stored under `key`: refused unless the requester owns it; otherwise just that row goes. */
  method PerformDestroy(table: BookTable, requester: UserId, key: string) returns (o: Outcome)
    requires table.Valid() && key in table.rows
    modifies table
    ensures table.Valid() && table.nextId == old(table.nextId)
    ensures !MayModify(old(table.rows)[key], requester) ==>
              o == PermissionDenied("You can only delete books you added") && table.rows == old(table.rows)
    ensures MayModify(old(table.rows)[key], requester) ==> o == Done && table.rows == old(table.rows) - {key}
  {
    if table.rows[key].addedBy != Some(requester) {
      return PermissionDenied("You can only delete books you added");
    }
    table.rows := table.rows - {key};
    return Done;
  }

  /** Rows saved from Google carry no owner, so nobody can edit or delete them afterwards. */
  lemma ImportedRowsAreLocked(id: nat, fields: BookData, requester: UserId)
    ensures !MayModify(Book(id, fields, None), requester)
  {
  }

  predicate BelongsTo(user: UserId, row: StatusRow) {
    row.user == user
  }

  /** The queryset `UserBookStatus.objects.filter(user=request.user)`, in table order. */
  function OwnStatuses(rows: seq<StatusRow>, user: UserId): (r: seq<StatusRow>)
    ensures |r| <= |rows|
    ensures forall x :: x in r <==> x in rows && x.user == user
  {
    Filter(rows, row => BelongsTo(user, row))
  }

  /** A row created later is listed after the ones already there: the list keeps table order. */
  lemma OwnStatusesOfAppend(rows: seq<StatusRow>, row: StatusRow, user: UserId)
    ensures OwnStatuses(rows + [row], user) == OwnStatuses(rows, user) + (if row.user == user then [row] else [])
  {
    FilterOfAppend(rows, row, r => BelongsTo(user, r));
  }

  /** The index of `user`'s row with primary key `pk`, if there is one. */
  function FindOwn(rows: seq<StatusRow>, user: UserId, pk: nat): (r: Option<nat>)
    ensures r.Some? ==> r.value < |rows| && rows[r.value].id == pk && rows[r.value].user == user
    ensures r.None? ==> forall i :: 0 <= i < |rows| ==> !(rows[i].id == pk && rows[i].user == user)
    decreases |rows|
  {
    if |rows| == 0 then None
    else if rows[|rows| - 1].id == pk && rows[|rows| - 1].user == user then Some(|rows| - 1)
    else FindOwn(rows[..|rows| - 1], user, pk)
  }

  /** Whether `user` already has a row for `book` (the `unique_together` pair). */
  predicate HasPair(rows: seq<StatusRow>, user: UserId, book: nat) {
    exists i :: 0 <= i < |rows| && rows[i].user == user && rows[i].book == book
  }

  /**
   * `UserBookStatusListCreateView.perform_create`: the row is stamped with the requester;
   * a second row for the same user and book violates `unique_together`.
   */
  method CreateStatus(table: StatusTable, requester: UserId, book: nat, status: ReadingStatus)
    returns (o: Outcome, row: Option<StatusRow>)
    requires table.Valid()
    modifies table
    ensures table.Valid()
    ensures HasPair(old(table.rows), requester, book) ==>
              o == Conflict && row.None? && table.rows == old(table.rows) && table.nextId == old(table.nextId)
    ensures !HasPair(old(table.rows), requester, book) ==>
              o == Done && row == Some(StatusRow(old(table.nextId), requester, book, status)) &&
              table.rows == old(table.rows) + [row.value] && table.nextId == old(table.nextId) + 1
  {
    if exists i :: 0 <= i < |table.rows| && table.rows[i].user == requester && table.rows[i].book == book {
      return Conflict, None;
    }
    var r := StatusRow(table.nextId, requester, book, status);
    table.rows := table.rows + [r];
    table.nextId := table.nextId + 1;
    return Done, Some(r);
  }

  /** How an update through the user-scoped queryset ends. */
  datatype UpdateOutcome = Updated(row: StatusRow) | NotFound | Duplicate

  /**
   * `UserBookStatusUpdateView`: the row is looked up among the requester's own rows only,
   * so another user's row is "not found"; moving it onto a book the requester already has
   * a row for violates `unique_together`. Only the found row changes.
   */
  method UpdateStatus(table: StatusTable, requester: UserId, pk: nat, book: nat, status: ReadingStatus)
    returns (o: UpdateOutcome)
    requires table.Valid()
    modifies table
    ensures table.Valid() && table.nextId == old(table.nextId) && |table.rows| == |old(table.rows)|
    ensures FindOwn(old(table.rows), requester, pk).None? ==> o == NotFound && table.rows == old(table.rows)
    ensures forall j :: 0 <= j < |table.rows| && old(table.rows)[j].user != requester ==> table.rows[j] == old(table.rows)[j]
    ensures o.Updated? ==>
              var i := FindOwn(old(table.rows), requester, pk).value;
              o.row == old(table.rows)[i].(book := book, status := status) &&
              table.rows == old(table.rows)[i := o.row]
    ensures o.Duplicate? ==> table.rows == old(table.rows)
    ensures FindOwn(old(table.rows), requester, pk).Some? ==>
              var i := FindOwn(old(table.rows), requester, pk).value;
              (o.Duplicate? <==> exists j :: 0 <= j < |old(table.rows)| && j != i &&
                                  old(table.rows)[j].user == requester && old(table.rows)[j].book == book) &&
              (o.Updated? <==> !o.Duplicate?)
  {
    var found := FindOwn(table.rows, requester, pk);
    if found.None? {
      return NotFound;
    }
    var i := found.value;
    if exists j :: 0 <= j < |table.rows| && j != i && table.rows[j].user == requester && table.rows[j].book == book {
      return Duplicate;
    }
    var updated := table.rows[i].(book := book, status := status);
    table.rows := table.rows[i := updated];
    return Updated(updated);
  }
}
