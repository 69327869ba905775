/**
 * The `Book` table, keyed by Google volume id (the column is unique). `addedBy` stands
 * for the `added_by` owner that the views read; the Django model does not declare it.
 */
module BookStore {
  import opened Wrappers

  type UserId = nat

  /** The columns a caller supplies when a row is created. */
  datatype BookData = BookData(
    title: string,
    authors: string,
    description: string,
    publicationDate: Option<string>,
    coverImageUrl: string,
    isbn: Option<string>,
    publisher: string,
    googleBookId: string)

  /** A stored row: its primary key, its columns and its owner. */
  datatype Book = Book(id: nat, fields: BookData, addedBy: Option<UserId>)

  /** Every row sits under its own Google id and has a primary key below the next one to hand out. */
  ghost predicate WellKeyed(rows: map<string, Book>, nextId: nat) {
    forall k :: k in rows ==> rows[k].fields.googleBookId == k && rows[k].id < nextId
  }

  class BookTable {
    var rows: map<string, Book>
    var nextId: nat

    ghost predicate Valid()
      reads this
    {
      WellKeyed(rows, nextId)
    }

    constructor ()
      ensures Valid() && rows == map[] && nextId == 1
    {
      rows := map[];
      nextId := 1;
    }

    /** `Book.objects.create(...)`: a new row under a Google id that is not yet taken. */
    method Create(data: BookData, owner: Option<UserId>) returns (b: Book)
      requires Valid() && data.googleBookId !in rows
      modifies this
      ensures Valid()
      ensures b == Book(old(nextId), data, owner)
      ensures rows == old(rows)[data.googleBookId := b] && nextId == old(nextId) + 1
    {
      b := Book(nextId, data, owner);
      rows := rows[data.googleBookId := b];
      nextId := nextId + 1;
    }
  }

  /** `ReadingStatus`: the backend's three states of a user's book. */
  datatype ReadingStatus = ToRead | Reading | Finished

  /** A `UserBookStatus` row: `book` is the primary key of a `Book`. */
  datatype StatusRow = StatusRow(id: nat, user: UserId, book: nat, status: ReadingStatus)

  /** The primary keys are distinct and below `nextId`, and no user has two rows for one book. */
  ghost predicate StatusTableOk(rows: seq<StatusRow>, nextId: nat) {
    (forall i :: 0 <= i < |rows| ==> rows[i].id < nextId) &&
    (forall i, j :: 0 <= i < j < |rows| ==> rows[i].id != rows[j].id) &&
    (forall i, j :: 0 <= i < j < |rows| ==> rows[i].user != rows[j].user || rows[i].book != rows[j].book)
  }

  class StatusTable {
    var rows: seq<StatusRow>
    var nextId: nat

    ghost predicate Valid()
      reads this
    {
      StatusTableOk(rows, nextId)
    }

    constructor ()
      ensures Valid() && rows == [] && nextId == 1
    {
      rows := [];
      nextId := 1;
    }
  }
}
