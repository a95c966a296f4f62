/**
 * Items and the Catalogue: an ordered list of items meant to hold no two items
 * that are the same item, with case-insensitive lookup by name.
 */
module Catalogues {
  import opened Wrappers
  import opened Text
  import opened Saturation

  /** An item: its name and the points one unit of it awards. */
  datatype Item = Item(name: string, points: Int32)

  /** Item.isSameItem: the two items have the same name, ignoring case. */
  predicate IsSameItem(a: Item, b: Item) {
    EqualsIgnoreCase(a.name, b.name)
  }

  /** The lookup test of hasItem, findItem and removeItem. */
  predicate NamedLike(item: Item, name: string) {
    EqualsIgnoreCase(item.name, name)
  }

  /** The catalogue's intended invariant: no two entries are the same item. */
  predicate NoSameItems(items: seq<Item>) {
    forall i, j :: 0 <= i < j < |items| ==> !IsSameItem(items[i], items[j])
  }

  /** What itemsAreUnique tests: no two entries have equal names, case counting. */
  predicate NamesDistinct(items: seq<Item>) {
    forall i, j :: 0 <= i < j < |items| ==> items[i].name != items[j].name
  }

  predicate HasSameItem(items: seq<Item>, newItem: Item) {
    exists i :: 0 <= i < |items| && IsSameItem(items[i], newItem)
  }

  predicate HasName(items: seq<Item>, name: string) {
    exists i :: 0 <= i < |items| && NamedLike(items[i], name)
  }

  /** The position of the first item named `name` ignoring case, if any. */
  function IndexOfName(items: seq<Item>, name: string): (r: Option<nat>)
    ensures r.Some? ==> r.value < |items| && NamedLike(items[r.value], name)
    ensures r.Some? ==> forall j :: 0 <= j < r.value ==> !NamedLike(items[j], name)
    ensures r.None? <==> !HasName(items, name)
  {
    if items == [] then None
    else if NamedLike(items[0], name) then Some(0)
    else
      match IndexOfName(items[1..], name)
      case None =>
        assert forall j :: 1 <= j < |items| ==> items[j] == items[1..][j - 1];
        None
      case Some(k) => Some(k + 1)
  }

  /** The first item named `name` ignoring case, as findItem returns it, or None. */
  function FirstNamed(items: seq<Item>, name: string): (r: Option<Item>)
    ensures r.Some? <==> HasName(items, name)
    ensures r.Some? ==> r.value in items && NamedLike(r.value, name)
  {
    match IndexOfName(items, name)
    case None => None
    case Some(k) => Some(items[k])
  }

  /** The list addItem leaves behind. */
  function WithItem(items: seq<Item>, newItem: Item): seq<Item> {
    if HasSameItem(items, newItem) then items else items + [newItem]
  }

  lemma {:induction false} RemoveAtKeepsNoSameItems(items: seq<Item>, k: nat)
    requires k < |items| && NoSameItems(items)
    ensures NoSameItems(items[..k] + items[k + 1..])
  {
    var rest := items[..k] + items[k + 1..];
    forall i, j | 0 <= i < j < |rest|
      ensures !IsSameItem(rest[i], rest[j])
    {
      var i' := if i < k then i else i + 1;
      var j' := if j < k then j else j + 1;
      assert rest[i] == items[i'] && rest[j] == items[j'];
    }
  }

  class Catalogue {
    var items: seq<Item>

    constructor ()
      ensures items == []
    {
      items := [];
    }

    /** Appends `newItem` unless an existing entry is the same item; reports whether it did. */
    method AddItem(newItem: Item) returns (added: bool)
      modifies this
      ensures added <==> !HasSameItem(old(items), newItem)
      ensures items == WithItem(old(items), newItem)
      ensures added ==> |items| == |old(items)| + 1
      ensures NoSameItems(old(items)) ==> NoSameItems(items)
    {
      for i := 0 to |items|
        invariant forall j :: 0 <= j < i ==> !IsSameItem(items[j], newItem)
      {
        if IsSameItem(items[i], newItem) {
          return false;
        }
      }
      items := items + [newItem];
      return true;
    }

    /** Whether some item is named `name`, ignoring case. */
    method HasItem(name: string) returns (found: bool)
      ensures found <==> HasName(items, name)
    {
      for i := 0 to |items|
        invariant forall j :: 0 <= j < i ==> !NamedLike(items[j], name)
      {
        if Lower(items[i].name) == Lower(name) {
          return true;
        }
      }
      return false;
    }

    /**
     * A copy of the first item named `name`, ignoring case, or None.
     * The name is lower-cased first, which changes nothing since the comparison ignores case.
     */
    method FindItem(name: string) returns (found: Option<Item>)
      ensures found == FirstNamed(items, name)
    {
      var lowered := Lower(name);
      LowerIdempotent(name);
      for i := 0 to |items|
        invariant forall j :: 0 <= j < i ==> !NamedLike(items[j], name)
      {
        if EqualsIgnoreCase(items[i].name, lowered) {
          return Some(items[i]);
        }
      }
      return None;
    }

    /**
     * Removes and returns the first item named `name`, ignoring case, keeping
     * the order of the rest; with no such item nothing changes.
     */
    method RemoveItem(name: string) returns (removed: Option<Item>)
      modifies this
      ensures match IndexOfName(old(items), name)
              case None => removed.None? && items == old(items)
              case Some(k) => removed == Some(old(items)[k]) && items == old(items)[..k] + old(items)[k + 1..]
      ensures NoSameItems(old(items)) ==> NoSameItems(items)
    {
      for i := 0 to |items|
        invariant forall j :: 0 <= j < i ==> !NamedLike(items[j], name)
      {
        if EqualsIgnoreCase(items[i].name, name) {
          removed := Some(items[i]);
          if NoSameItems(items) {
            RemoveAtKeepsNoSameItems(items, i);
          }
          items := items[..i] + items[i + 1..];
          return;
        }
      }
      return None;
    }

    /** itemsAreUnique: no two entries of `list` have equal names (case-sensitive). */
    method ItemsAreUnique(list: seq<Item>) returns (unique: bool)
      ensures unique <==> NamesDistinct(list)
    {
      for i := 0 to |list|
        invariant forall a, b :: 0 <= a < i && a < b < |list| ==> list[a].name != list[b].name
      {
        for j := i + 1 to |list|
          invariant forall b :: i < b < j ==> list[i].name != list[b].name
        {
          if list[i].name == list[j].name {
            return false;
          }
        }
      }
      return true;
    }

    /**
     * The uniqueness test the class promises: no two entries are the same item,
     * names compared ignoring case.
     */
    method ItemsAreUniqueBySameItem(list: seq<Item>) returns (unique: bool)
      ensures unique <==> NoSameItems(list)
    {
      for i := 0 to |list|
        invariant forall a, b :: 0 <= a < i && a < b < |list| ==> !IsSameItem(list[a], list[b])
      {
        for j := i + 1 to |list|
          invariant forall b :: i < b < j ==> !IsSameItem(list[i], list[b])
        {
          if EqualsIgnoreCase(list[i].name, list[j].name) {
            return false;
          }
        }
      }
      return true;
    }

    /** setItems(List): refuses a list with two equal names, otherwise takes the list as it is. */
    method SetItems(list: seq<Item>) returns (outcome: Outcome<CatalogueError>)
      modifies this
      ensures outcome.Pass? <==> NamesDistinct(list)
      ensures outcome.Fail? ==> outcome.error == DuplicateItem
      ensures items == if outcome.Pass? then list else old(items)
    {
      var unique := ItemsAreUnique(list);
      if !unique {
        return Fail(DuplicateItem);
      }
      items := list;
      return Pass;
    }

    /** setItems(Catalogue): copies the replacement's list with no check. */
    method SetItemsFrom(replacement: Catalogue)
      modifies this
      ensures items == old(replacement.items)
    {
      items := replacement.items;
    }
  }

  datatype CatalogueError = DuplicateItem

  /**
   * itemsAreUnique counts case, so setItems(List) accepts two entries that
   * are the same item, and the resulting list breaks NoSameItems.
   */
  lemma CaseVariantsPassSetItems()
    ensures NamesDistinct([Item("Cookies", 10), Item("cookies", 10)])
    ensures !NoSameItems([Item("Cookies", 10), Item("cookies", 10)])
  {
    var list := [Item("Cookies", 10), Item("cookies", 10)];
    assert Lower("Cookies") == "cookies";
    assert Lower("cookies") == "cookies";
    assert IsSameItem(list[0], list[1]);
  }

  /** The intended test is the stricter one: a list it accepts passes itemsAreUnique too. */
  lemma {:induction false} SameItemFreeIsStricter(list: seq<Item>)
    requires NoSameItems(list)
    ensures NamesDistinct(list)
  {
    forall i, j | 0 <= i < j < |list|
      ensures list[i].name != list[j].name
    {
      assert !IsSameItem(list[i], list[j]);
    }
  }

  /** Lookup ignores case both ways: "cookies" and "Cookies" find the same entry. */
  lemma FindIgnoresCase()
    ensures IndexOfName([Item("Cookies", 10)], "cookies") == Some(0)
    ensures IndexOfName([Item("Cookies", 10)], "Cookies") == Some(0)
  {
    assert Lower("Cookies") == "cookies";
    assert Lower("cookies") == "cookies";
  }
}
