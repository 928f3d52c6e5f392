/**
 * src/components/file-browser.tsx: the selection state of the file browser.
 * The component keeps two lists, the items shown and the ids selected, and
 * replaces them through toggleItemSelection, selectAllItems, deleteItems and
 * handleAction. Toasts and rendering are not modelled.
 */
module FileBrowserState {

  /** Array.prototype.filter: the elements of `s` that `keep` accepts, in order. */
  function Filter<T(!new)>(s: seq<T>, keep: T -> bool): (r: seq<T>)
    ensures |r| <= |s|
    ensures forall x :: x in r <==> x in s && keep(x)
    ensures forall i :: 0 <= i < |r| ==> keep(r[i])
  {
    if s == [] then []
    else if keep(s[0]) then [s[0]] + Filter(s[1..], keep)
    else Filter(s[1..], keep)
  }

  /** `a` is `b` with some elements left out, the rest in their order. */
  ghost predicate SubsequenceOf<T>(a: seq<T>, b: seq<T>)
    decreases |b|
  {
    if a == [] then true
    else if b == [] then false
    else if a[0] == b[0] then SubsequenceOf(a[1..], b[1..])
    else SubsequenceOf(a, b[1..])
  }

  /** Filtering keeps the relative order of what it keeps. */
  lemma {:induction false} FilterIsSubsequence<T(!new)>(s: seq<T>, keep: T -> bool)
    ensures SubsequenceOf(Filter(s, keep), s)
    decreases |s|
  {
    if s != [] {
      FilterIsSubsequence(s[1..], keep);
      if keep(s[0]) {
        assert Filter(s, keep)[1..] == Filter(s[1..], keep);
      } else if Filter(s, keep) != [] {
        SubsequenceSkip(Filter(s, keep), s);
      }
    }
  }

  lemma SubsequenceSkip<T>(a: seq<T>, b: seq<T>)
    requires a != [] && b != [] && SubsequenceOf(a, b[1..])
    ensures SubsequenceOf(a, b)
    decreases |a| + |b|
  {
    if a[0] == b[0] {
      SubsequenceTail(a, b[1..]);
    }
  }

  lemma SubsequenceTail<T>(a: seq<T>, b: seq<T>)
    requires a != [] && SubsequenceOf(a, b)
    ensures SubsequenceOf(a[1..], b)
    decreases |a| + |b|
  {
    if a[0] != b[0] {
      if a[1..] != [] {
        SubsequenceTail(a, b[1..]);
        SubsequenceSkip(a[1..], b);
      }
    }
  }

  lemma FilterConcat<T(!new)>(a: seq<T>, b: seq<T>, keep: T -> bool)
    ensures Filter(a + b, keep) == Filter(a, keep) + Filter(b, keep)
    decreases |a|
  {
    if a != [] {
      assert (a + b)[0] == a[0];
      assert (a + b)[1..] == a[1..] + b;
      FilterConcat(a[1..], b, keep);
    } else {
      assert a + b == b;
    }
  }

  /** Filtering with a test every element passes changes nothing. */
  lemma FilterAll<T(!new)>(s: seq<T>, keep: T -> bool)
    requires forall i :: 0 <= i < |s| ==> keep(s[i])
    ensures Filter(s, keep) == s
    decreases |s|
  {
    if s != [] {
      FilterAll(s[1..], keep);
    }
  }

  predicate Distinct<T(==)>(s: seq<T>) {
    forall i, j :: 0 <= i < j < |s| ==> s[i] != s[j]
  }

  /** Putting a new element in front of a duplicate-free list keeps it so. */
  lemma DistinctCons<T>(x: T, t: seq<T>)
    requires x !in t && Distinct(t)
    ensures Distinct([x] + t)
  {
    forall i, j | 0 <= i < j < |[x] + t| ensures ([x] + t)[i] != ([x] + t)[j] {
      assert ([x] + t)[j] == t[j - 1];
      if i > 0 {
        assert ([x] + t)[i] == t[i - 1];
      }
    }
  }

  lemma TailDistinct<T>(s: seq<T>)
    requires s != [] && Distinct(s)
    ensures Distinct(s[1..]) && s[0] !in s[1..]
  {
    forall i, j | 0 <= i < j < |s[1..]| ensures s[1..][i] != s[1..][j] {
      assert s[1..][i] == s[i + 1] && s[1..][j] == s[j + 1];
    }
    forall k | 0 <= k < |s[1..]| ensures s[1..][k] != s[0] {
      assert s[1..][k] == s[k + 1];
    }
  }

  lemma {:induction false} FilterDistinct<T(!new)>(s: seq<T>, keep: T -> bool)
    requires Distinct(s)
    ensures Distinct(Filter(s, keep))
    decreases |s|
  {
    if s != [] {
      TailDistinct(s);
      FilterDistinct(s[1..], keep);
      if keep(s[0]) {
        DistinctCons(s[0], Filter(s[1..], keep));
      }
    }
  }

  /** The elements of a list as a set; it has as many elements as the list when the list is duplicate-free. */
  function ToSet<T(==,!new)>(s: seq<T>): (r: set<T>)
    ensures forall x :: x in r <==> x in s
    ensures |r| <= |s|
    ensures Distinct(s) ==> |r| == |s|
  {
    if s == [] then {}
    else
      var rest := ToSet(s[1..]);
      assert Distinct(s) ==> Distinct(s[1..]) && s[0] !in rest by {
        if Distinct(s) {
          forall i, j | 0 <= i < j < |s[1..]| ensures s[1..][i] != s[1..][j] {
            assert s[1..][i] == s[i + 1] && s[1..][j] == s[j + 1];
          }
          forall k | 0 <= k < |s[1..]| ensures s[1..][k] != s[0] {
            assert s[1..][k] == s[k + 1];
          }
        }
      }
      {s[0]} + rest
  }

  lemma {:induction false} SubsetCard<T>(a: set<T>, b: set<T>)
    requires a <= b
    ensures |a| <= |b|
    decreases |a|
  {
    if a != {} {
      var x :| x in a;
      SubsetCard(a - {x}, b - {x});
    }
  }

  /** A subset as large as the set is the set. */
  lemma SubsetSameCard<T>(a: set<T>, b: set<T>)
    requires a <= b && |a| == |b|
    ensures a == b
  {
    if a != b {
      var x :| x in b && x !in a;
      SubsetCard(a, b - {x});
    }
  }

  datatype ItemKind = Folder | File

  /** An entry of the browser. */
  datatype Item = Item(id: string, name: string, kind: ItemKind, size: string, modified: string)

  /** The mock entries the browser starts with. */
  const INITIAL_ITEMS: seq<Item> := [
    Item("1", "Documents", Folder, "-", "May 10, 2023"),
    Item("2", "Images", Folder, "-", "Apr 25, 2023"),
    Item("3", "Project Proposal.docx", File, "2.3 MB", "May 12, 2023"),
    Item("4", "Budget.xlsx", File, "1.5 MB", "May 5, 2023"),
    Item("5", "Presentation.pptx", File, "5.7 MB", "Apr 28, 2023"),
    Item("6", "Report.pdf", File, "3.2 MB", "May 14, 2023")
  ]

  /** `items.map((item) => item.id)`. */
  function Ids(items: seq<Item>): (ids: seq<string>)
    ensures |ids| == |items|
    ensures forall i :: 0 <= i < |items| ==> ids[i] == items[i].id
  {
    if items == [] then [] else [items[0].id] + Ids(items[1..])
  }

  /** The selection after toggleItemSelection(id). */
  function Toggle(selected: seq<string>, id: string): (r: seq<string>)
    ensures id in selected ==> id !in r && forall x :: x != id ==> (x in r <==> x in selected)
    ensures id in selected ==> SubsequenceOf(r, selected)
    ensures id !in selected ==> r == selected + [id]
  {
    if id in selected then
      FilterIsSubsequence(selected, x => x != id);
      Filter(selected, x => x != id)
    else selected + [id]
  }

  /** Toggling twice keeps the same set of selected ids. */
  lemma ToggleTwice(selected: seq<string>, id: string)
    ensures ToSet(Toggle(Toggle(selected, id), id)) == ToSet(selected)
  {
  }

  /** Toggling an unselected id twice gives back the very same list. */
  lemma ToggleTwiceExact(selected: seq<string>, id: string)
    requires id !in selected
    ensures Toggle(Toggle(selected, id), id) == selected
  {
    var keep := (x: string) => x != id;
    FilterConcat(selected, [id], keep);
    FilterAll(selected, keep);
    assert Filter([id], keep) == [];
  }

  /**
   * The selection after selectAllItems: cleared when the header checkbox is
   * checked, otherwise every item, in item order.
   */
  function SelectAll(items: seq<Item>, selected: seq<string>): (r: seq<string>)
    ensures HeaderChecked(items, selected) ==> r == []
    ensures !HeaderChecked(items, selected) ==> r == Ids(items)
  {
    if |selected| == |items| then [] else Ids(items)
  }

  /** Whether the header checkbox is shown checked. */
  predicate HeaderChecked(items: seq<Item>, selected: seq<string>) {
    |selected| > 0 && |selected| == |items|
  }

  /** Items with distinct ids, and a selection of distinct ids of those items. */
  predicate ValidState(items: seq<Item>, selected: seq<string>) {
    Distinct(Ids(items)) && Distinct(selected) && forall id :: id in selected ==> id in Ids(items)
  }

  /**
   * In a valid state the header checkbox, which only compares lengths, is
   * checked exactly when there are items and every one of them is selected.
   */
  lemma HeaderCheckedIff(items: seq<Item>, selected: seq<string>)
    requires ValidState(items, selected)
    ensures HeaderChecked(items, selected) <==> |items| > 0 && forall i :: 0 <= i < |items| ==> items[i].id in selected
  {
    var ids := Ids(items);
    var sel := ToSet(selected);
    var all := ToSet(ids);
    assert sel <= all;
    if HeaderChecked(items, selected) {
      SubsetSameCard(sel, all);
      forall i | 0 <= i < |items| ensures items[i].id in selected {
        assert ids[i] in all;
      }
    }
    if |items| > 0 && forall i :: 0 <= i < |items| ==> items[i].id in selected {
      forall x | x in all ensures x in sel {
        var i :| 0 <= i < |ids| && ids[i] == x;
      }
      assert sel == all;
    }
  }

  /** The items after deleteItems(ids): those whose id is not in `ids`. */
  function KeepItems(items: seq<Item>, ids: seq<string>): (r: seq<Item>)
    ensures forall x :: x in r <==> x in items && x.id !in ids
    ensures SubsequenceOf(r, items)
  {
    FilterIsSubsequence(items, (item: Item) => item.id !in ids);
    Filter(items, (item: Item) => item.id !in ids)
  }

  /** The selection after deleteItems(ids). */
  function Unselect(selected: seq<string>, ids: seq<string>): (r: seq<string>)
    ensures forall x :: x in r <==> x in selected && x !in ids
    ensures SubsequenceOf(r, selected)
  {
    FilterIsSubsequence(selected, (id: string) => id !in ids);
    Filter(selected, (id: string) => id !in ids)
  }

  /** Deleting the whole selection (the bulk delete button) leaves nothing selected. */
  lemma DeleteSelectionClearsIt(selected: seq<string>)
    ensures Unselect(selected, selected) == []
  {
  }

  lemma IdsOfFilter(items: seq<Item>, ids: seq<string>, x: string)
    ensures x in Ids(KeepItems(items, ids)) <==> x in Ids(items) && x !in ids
  {
    var kept := KeepItems(items, ids);
    if x in Ids(kept) {
      var i :| 0 <= i < |kept| && Ids(kept)[i] == x;
      assert kept[i] in items;
      var j :| 0 <= j < |items| && items[j] == kept[i];
      assert Ids(items)[j] == x;
    }
    if x in Ids(items) && x !in ids {
      var j :| 0 <= j < |items| && Ids(items)[j] == x;
      assert items[j] in kept;
      var i :| 0 <= i < |kept| && kept[i] == items[j];
      assert Ids(kept)[i] == x;
    }
  }

  lemma IdsOfFilterDistinct(items: seq<Item>, ids: seq<string>)
    requires Distinct(Ids(items))
    ensures Distinct(Ids(KeepItems(items, ids)))
  {
    var kept := KeepItems(items, ids);
    var keep := (item: Item) => item.id !in ids;
    assert kept == Filter(items, keep);
    assert Ids(Filter(items, keep)) == Filter(Ids(items), (id: string) => id !in ids) by {
      FilterIdsCommute(items, keep, (id: string) => id !in ids);
    }
    FilterDistinct(Ids(items), (id: string) => id !in ids);
  }

  lemma IdsCons(item: Item, rest: seq<Item>)
    ensures Ids([item] + rest) == [item.id] + Ids(rest)
  {
    assert ([item] + rest)[1..] == rest;
  }

  lemma IdsTail(items: seq<Item>)
    requires items != []
    ensures Ids(items)[0] == items[0].id && Ids(items)[1..] == Ids(items[1..])
  {
  }

  lemma {:induction false} FilterIdsCommute(items: seq<Item>, keepItem: Item -> bool, keepId: string -> bool)
    requires forall item :: keepItem(item) == keepId(item.id)
    ensures Ids(Filter(items, keepItem)) == Filter(Ids(items), keepId)
    decreases |items|
  {
    if items != [] {
      var ids := Ids(items);
      IdsTail(items);
      FilterIdsCommute(items[1..], keepItem, keepId);
      var rest := Filter(items[1..], keepItem);
      if keepItem(items[0]) {
        assert Filter(items, keepItem) == [items[0]] + rest;
        assert Filter(ids, keepId) == [ids[0]] + Filter(ids[1..], keepId);
        IdsCons(items[0], rest);
      } else {
        assert Filter(items, keepItem) == rest;
        assert Filter(ids, keepId) == Filter(ids[1..], keepId);
      }
    }
  }

  /** toggleItemSelection on a shown item keeps the state valid. */
  lemma ToggleKeepsValid(items: seq<Item>, selected: seq<string>, id: string)
    requires ValidState(items, selected)
    requires id in Ids(items)
    ensures ValidState(items, Toggle(selected, id))
  {
    if id in selected {
      FilterDistinct(selected, x => x != id);
    }
  }

  /** selectAllItems keeps the state valid. */
  lemma SelectAllKeepsValid(items: seq<Item>, selected: seq<string>)
    requires ValidState(items, selected)
    ensures ValidState(items, SelectAll(items, selected))
  {
  }

  /** On a non-empty list, selectAllItems flips the header checkbox. */
  lemma SelectAllFlipsHeader(items: seq<Item>, selected: seq<string>)
    requires |items| > 0
    ensures HeaderChecked(items, SelectAll(items, selected)) <==> !HeaderChecked(items, selected)
  {
  }

  /** deleteItems keeps the state valid and leaves none of the deleted ids selected or shown. */
  lemma DeleteKeepsValid(items: seq<Item>, selected: seq<string>, ids: seq<string>)
    requires ValidState(items, selected)
    ensures ValidState(KeepItems(items, ids), Unselect(selected, ids))
    ensures forall id :: id in ids ==> id !in Ids(KeepItems(items, ids)) && id !in Unselect(selected, ids)
  {
    IdsOfFilterDistinct(items, ids);
    FilterDistinct(selected, (id: string) => id !in ids);
    forall x ensures x in Ids(KeepItems(items, ids)) <==> x in Ids(items) && x !in ids {
      IdsOfFilter(items, ids, x);
    }
  }

  /** The initial state is valid, with nothing selected. */
  lemma InitialStateValid()
    ensures ValidState(INITIAL_ITEMS, [])
  {
    assert Ids(INITIAL_ITEMS) == ["1", "2", "3", "4", "5", "6"];
  }

  /** The component's state. */
  class FileBrowser {
    var items: seq<Item>
    var selectedItems: seq<string>

    ghost predicate Valid()
      reads this
    {
      ValidState(items, selectedItems)
    }

    constructor ()
      ensures items == INITIAL_ITEMS && selectedItems == []
      ensures Valid()
    {
      items := INITIAL_ITEMS;
      selectedItems := [];
      InitialStateValid();
    }

    /** Whether the header checkbox is checked. */
    function IsHeaderChecked(): (checked: bool)
      reads this
      ensures Valid() ==> (checked <==> |items| > 0 && forall i :: 0 <= i < |items| ==> items[i].id in selectedItems)
    {
      if ValidState(items, selectedItems) then
        HeaderCheckedIff(items, selectedItems);
        HeaderChecked(items, selectedItems)
      else HeaderChecked(items, selectedItems)
    }

    method ToggleItemSelection(id: string)
      modifies this
      ensures items == old(items) && selectedItems == Toggle(old(selectedItems), id)
      ensures old(Valid()) && id in Ids(items) ==> Valid()
    {
      if Valid() && id in Ids(items) {
        ToggleKeepsValid(items, selectedItems, id);
      }
      selectedItems := Toggle(selectedItems, id);
    }

    method SelectAllItems()
      modifies this
      ensures items == old(items) && selectedItems == SelectAll(old(items), old(selectedItems))
      ensures old(Valid()) ==> Valid()
    {
      if |selectedItems| == |items| {
        selectedItems := [];
      } else {
        selectedItems := Ids(items);
      }
    }

    method DeleteItems(ids: seq<string>)
      modifies this
      ensures items == KeepItems(old(items), ids) && selectedItems == Unselect(old(selectedItems), ids)
      ensures old(Valid()) ==> Valid()
    {
      if Valid() {
        DeleteKeepsValid(items, selectedItems, ids);
      }
      items := KeepItems(items, ids);
      selectedItems := Unselect(selectedItems, ids);
    }

    /** handleAction: only "delete" changes the state; the other actions only show a toast. */
    method HandleAction(action: string, id: string)
      modifies this
      ensures action == "delete" ==> items == KeepItems(old(items), [id]) && selectedItems == Unselect(old(selectedItems), [id])
      ensures action != "delete" ==> items == old(items) && selectedItems == old(selectedItems)
      ensures old(Valid()) ==> Valid()
    {
      if action == "delete" {
        DeleteItems([id]);
      }
    }
  }
}
