/**
 * The reading-lists page: three default lists and the user's custom lists, a dialog that
 * creates a custom list, and a confirmation dialog that deletes one. All of it is page
 * state; nothing is sent to the backend.
 */
module Lists {
  import opened Wrappers
  import opened Strings

  datatype ListKind = DefaultList | CustomList

  /** `ReadingList` */
  datatype ReadingList = ReadingList(
    id: string, title: string, description: string, bookCount: nat, lastUpdated: string,
    kind: ListKind, icon: string, iconColor: string)

  /** The create dialog's fields. */
  datatype ListForm = ListForm(title: string, description: string, iconColor: string, icon: string)

  const BlankForm := ListForm("", "", "bg-blue-500", "fas fa-book")

  /** The lists the page starts with. */
  const InitialLists: seq<ReadingList> := [
    ReadingList("want-to-read", "Want to Read", "Books you want to read", 12, "Yesterday",
                DefaultList, "fas fa-clock", "bg-blue-500"),
    ReadingList("currently-reading", "Currently Reading", "Books you are currently reading", 3, "Today",
                DefaultList, "fas fa-book-open", "bg-orange-500"),
    ReadingList("completed", "Completed", "Books you have finished reading", 24, "Today",
                DefaultList, "fas fa-check-circle", "bg-green-500"),
    ReadingList("list-1", "Sci-Fi Adventures", "A collection of thrilling sci-fi novels", 8, "2 days ago",
                CustomList, "fas fa-rocket", "bg-purple-500"),
    ReadingList("list-2", "Fantasy Epics", "Epic fantasy books with magic and mythical creatures", 5, "3 days ago",
                CustomList, "fas fa-dragon", "bg-red-500")
  ]

  predicate IsDefault(l: ReadingList) {
    l.kind == DefaultList
  }

  predicate IsCustom(l: ReadingList) {
    l.kind == CustomList
  }

  function DefaultLists(lists: seq<ReadingList>): (r: seq<ReadingList>)
    ensures forall l :: l in r <==> l in lists && l.kind == DefaultList
  {
    Filter(lists, IsDefault)
  }

  function CustomLists(lists: seq<ReadingList>): (r: seq<ReadingList>)
    ensures forall l :: l in r <==> l in lists && l.kind == CustomList
  {
    Filter(lists, IsCustom)
  }

  /** Every list is in exactly one of the two sections, as often as it occurs in `lists`. */
  lemma {:induction false} SectionsPartitionLists(lists: seq<ReadingList>)
    ensures multiset(DefaultLists(lists)) + multiset(CustomLists(lists)) == multiset(lists)
    ensures |DefaultLists(lists)| + |CustomLists(lists)| == |lists|
    decreases |lists|
  {
    if |lists| > 0 {
      var init := lists[..|lists| - 1];
      var last := lists[|lists| - 1];
      assert lists == init + [last];
      SectionsPartitionLists(init);
      FilterOfAppend(init, last, IsDefault);
      FilterOfAppend(init, last, IsCustom);
      assert multiset(lists) == multiset(init) + multiset{last};
      if last.kind == DefaultList {
        assert DefaultLists(lists) == DefaultLists(init) + [last] && CustomLists(lists) == CustomLists(init);
      } else {
        assert CustomLists(lists) == CustomLists(init) + [last] && DefaultLists(lists) == DefaultLists(init);
      }
    }
  }

  /** The value of the "Custom Lists" stat card, `customLists.length.toString()`. */
  function CustomListsStat(lists: seq<ReadingList>): (r: string)
    ensures |r| > 0 && forall i :: 0 <= i < |r| ==> '0' <= r[i] <= '9'
    ensures |CustomLists(lists)| < 10 ==> r == [DigitChar(|CustomLists(lists)|)]
  {
    Decimal(|CustomLists(lists)|)
  }

  /** Default lists followed by custom lists split back into the two sections. */
  lemma SectionsOfOrderedLists(d: seq<ReadingList>, c: seq<ReadingList>)
    requires forall l :: l in d ==> l.kind == DefaultList
    requires forall l :: l in c ==> l.kind == CustomList
    ensures DefaultLists(d + c) == d && CustomLists(d + c) == c
  {
    FilterOfConcat(d, c, IsDefault);
    FilterOfConcat(d, c, IsCustom);
    FilterKeepsAll(d, IsDefault);
    FilterKeepsAll(c, IsCustom);
    FilterDropsAll(d, IsCustom);
    FilterDropsAll(c, IsDefault);
  }

  /** The page opens with three default lists and two custom ones. */
  lemma InitialSections()
    ensures |DefaultLists(InitialLists)| == 3 && |CustomLists(InitialLists)| == 2
    ensures CustomListsStat(InitialLists) == "2"
  {
    var d := InitialLists[..3];
    var c := InitialLists[3..];
    assert InitialLists == d + c;
    SectionsOfOrderedLists(d, c);
  }

  /** The list `handleCreateList` appends; `now` stands for `Date.now()`. */
  function NewListItem(form: ListForm, now: nat): (l: ReadingList)
    ensures l.kind == CustomList && l.bookCount == 0 && l.lastUpdated == "Just now"
    ensures l.title == form.title && l.description == form.description
    ensures l.icon == form.icon && l.iconColor == form.iconColor
    ensures IsPrefix("list-", l.id)
  {
    ReadingList("list-" + Decimal(now), form.title, form.description, 0, "Just now", CustomList, form.icon, form.iconColor)
  }

  /** `lists.filter(list => list.id !== id)` */
  function WithoutId(lists: seq<ReadingList>, id: string): (r: seq<ReadingList>)
    ensures |r| <= |lists|
    ensures forall l :: l in r <==> l in lists && l.id != id
    ensures (forall l :: l in lists ==> l.id != id) ==> r == lists
  {
    if forall l :: l in lists ==> l.id != id then
      FilterKeepsAll(lists, (l: ReadingList) => l.id != id);
      Filter(lists, (l: ReadingList) => l.id != id)
    else Filter(lists, (l: ReadingList) => l.id != id)
  }

  /** A list added at the end stays at the end unless it carries the id: the rest keep their order. */
  lemma WithoutIdOfAppend(lists: seq<ReadingList>, list: ReadingList, id: string)
    ensures WithoutId(lists + [list], id) == WithoutId(lists, id) + (if list.id != id then [list] else [])
  {
    FilterOfAppend(lists, list, (l: ReadingList) => l.id != id);
  }

  /** A created list lands in the custom section, at its end, and the stat card counts it. */
  lemma CreatedListIsLastCustom(lists: seq<ReadingList>, form: ListForm, now: nat)
    ensures CustomLists(lists + [NewListItem(form, now)]) == CustomLists(lists) + [NewListItem(form, now)]
    ensures DefaultLists(lists + [NewListItem(form, now)]) == DefaultLists(lists)
    ensures CustomListsStat(lists + [NewListItem(form, now)]) == Decimal(|CustomLists(lists)| + 1)
  {
    FilterOfAppend(lists, NewListItem(form, now), IsCustom);
    FilterOfAppend(lists, NewListItem(form, now), IsDefault);
  }

  class ListsPage {
    var lists: seq<ReadingList>
    var isDialogOpen: bool
    var deleteDialogOpen: bool
    var listToDelete: Option<ReadingList>
    var newList: ListForm

    constructor ()
      ensures lists == InitialLists && !isDialogOpen && !deleteDialogOpen
      ensures listToDelete.None? && newList == BlankForm
    {
      lists := InitialLists;
      isDialogOpen := false;
      deleteDialogOpen := false;
      listToDelete := None;
      newList := BlankForm;
    }

    /** The "Create List" button and the dialog's `onOpenChange` and Cancel button. */
    method SetDialogOpen(open: bool)
      modifies this
      ensures isDialogOpen == open
      ensures lists == old(lists) && newList == old(newList)
      ensures deleteDialogOpen == old(deleteDialogOpen) && listToDelete == old(listToDelete)
    {
      isDialogOpen := open;
    }

    /** The dialog's inputs, each replacing one field of the form. */
    method EditForm(form: ListForm)
      modifies this
      ensures newList == form
      ensures lists == old(lists) && isDialogOpen == old(isDialogOpen)
      ensures deleteDialogOpen == old(deleteDialogOpen) && listToDelete == old(listToDelete)
    {
      newList := form;
    }

    /**
     * `handleCreateList`: a blank title does nothing; otherwise one custom list is appended,
     * the form goes back to its defaults and the dialog closes.
     */
    method CreateList(now: nat)
      modifies this
      ensures deleteDialogOpen == old(deleteDialogOpen) && listToDelete == old(listToDelete)
      ensures Trim(old(newList).title) == "" ==>
                lists == old(lists) && newList == old(newList) && isDialogOpen == old(isDialogOpen)
      ensures Trim(old(newList).title) != "" ==>
                lists == old(lists) + [NewListItem(old(newList), now)] && newList == BlankForm && !isDialogOpen
    {
      var form := newList;
      if Trim(form.title) == "" {
        return;
      }
      var item := NewListItem(form, now);
      lists := lists + [item];
      newList := BlankForm;
      isDialogOpen := false;
    }

    /** `handleDeleteClick`: remember the list and open the confirmation. */
    method DeleteClick(list: ReadingList)
      modifies this
      ensures listToDelete == Some(list) && deleteDialogOpen
      ensures lists == old(lists) && newList == old(newList) && isDialogOpen == old(isDialogOpen)
    {
      listToDelete := Some(list);
      deleteDialogOpen := true;
    }

    /**
     * `handleDeleteConfirm`: with a list chosen, every list with its id goes and the choice
     * is cleared; with none chosen nothing happens.
     */
    method DeleteConfirm()
      modifies this
      ensures newList == old(newList) && isDialogOpen == old(isDialogOpen)
      ensures old(listToDelete).None? ==>
                lists == old(lists) && listToDelete.None? && deleteDialogOpen == old(deleteDialogOpen)
      ensures old(listToDelete).Some? ==>
                lists == WithoutId(old(lists), old(listToDelete).value.id) && listToDelete.None? && !deleteDialogOpen
    {
      if listToDelete.Some? {
        lists := WithoutId(lists, listToDelete.value.id);
        listToDelete := None;
        deleteDialogOpen := false;
      }
    }

    /** The confirmation's `onOpenChange`: only the open flag changes, the chosen list stays. */
    method SetDeleteDialogOpen(open: bool)
      modifies this
      ensures deleteDialogOpen == open && listToDelete == old(listToDelete)
      ensures lists == old(lists) && newList == old(newList) && isDialogOpen == old(isDialogOpen)
    {
      deleteDialogOpen := open;
    }

    /** `handleDeleteCancel` */
    method DeleteCancel()
      modifies this
      ensures listToDelete.None? && !deleteDialogOpen
      ensures lists == old(lists) && newList == old(newList) && isDialogOpen == old(isDialogOpen)
    {
      listToDelete := None;
      deleteDialogOpen := false;
    }
  }
}
