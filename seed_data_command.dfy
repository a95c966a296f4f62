/**
 * SeedDataCommand: add every sample member and sample item that the address
 * book did not already hold before the command started.
 */
module SeedData {
  import opened Wrappers
  import opened Text
  import opened Catalogues
  import opened Persons
  import opened Lookup
  import opened Outcomes

  /** The parts of the application model the command reads and changes. */
  class AppModel {
    var persons: seq<Person>
    const catalogue: Catalogue

    constructor (persons: seq<Person>, catalogue: Catalogue)
      ensures this.persons == persons && this.catalogue == catalogue
    {
      this.persons := persons;
      this.catalogue := catalogue;
    }

    /** Model.addPerson: the member joins the end of the list. */
    method AddPerson(person: Person)
      modifies this
      ensures persons == old(persons) + [person]
    {
      persons := persons + [person];
    }

    /** Model.addItem: delegates to Catalogue.addItem, which may refuse a same item. */
    method AddItem(item: Item)
      modifies catalogue
      ensures catalogue.items == WithItem(old(catalogue.items), item)
    {
      var _ := catalogue.AddItem(item);
    }
  }

  /** The sample members whose names the snapshot lacks, in sample order. */
  function PersonsToAdd(snapshot: seq<string>, samples: seq<Person>): (r: seq<Person>)
    ensures forall p :: p in r ==> p in samples && p.name !in snapshot
    ensures forall p :: p in samples && p.name !in snapshot ==> p in r
    ensures r == [] <==> forall p :: p in samples ==> p.name in snapshot
    decreases |samples|
  {
    if samples == [] then []
    else
      var last := samples[|samples| - 1];
      var init := samples[..|samples| - 1];
      assert forall p :: p in samples ==> p in init || p == last;
      PersonsToAdd(snapshot, init) + (if last.name in snapshot then [] else [last])
  }

  /** The sample items whose names the snapshot's catalogue lacks (ignoring case), in sample order. */
  function ItemsToAdd(snapshot: seq<Item>, samples: seq<Item>): (r: seq<Item>)
    ensures forall x :: x in r ==> x in samples && !HasName(snapshot, x.name)
    ensures forall x :: x in samples && !HasName(snapshot, x.name) ==> x in r
    ensures r == [] <==> forall x :: x in samples ==> HasName(snapshot, x.name)
    decreases |samples|
  {
    if samples == [] then []
    else
      var last := samples[|samples| - 1];
      var init := samples[..|samples| - 1];
      assert forall x :: x in samples ==> x in init || x == last;
      ItemsToAdd(snapshot, init) + (if HasName(snapshot, last.name) then [] else [last])
  }

  /** The catalogue after Catalogue.addItem is applied to each of `toAdd` in turn. */
  function AddAll(items: seq<Item>, toAdd: seq<Item>): seq<Item>
    decreases |toAdd|
  {
    if toAdd == [] then items
    else WithItem(AddAll(items, toAdd[..|toAdd| - 1]), toAdd[|toAdd| - 1])
  }

  /** The first loop of execute: add each sample member whose name the snapshot lacks. */
  method SeedPersons(model: AppModel, snapshotNames: seq<string>, samplePersons: seq<Person>)
    returns (added: bool)
    modifies model
    ensures model.persons == old(model.persons) + PersonsToAdd(snapshotNames, samplePersons)
    ensures added <==> PersonsToAdd(snapshotNames, samplePersons) != []
  {
    added := false;
    for i := 0 to |samplePersons|
      invariant model.persons == old(model.persons) + PersonsToAdd(snapshotNames, samplePersons[..i])
      invariant added <==> PersonsToAdd(snapshotNames, samplePersons[..i]) != []
    {
      assert samplePersons[..i + 1][..i] == samplePersons[..i];
      var person := samplePersons[i];
      if person.name !in snapshotNames {
        model.AddPerson(person);
        added := true;
      }
    }
    assert samplePersons[..|samplePersons|] == samplePersons;
  }

  /** The second loop of execute: add each sample item whose name the snapshot's catalogue lacks. */
  method SeedItems(model: AppModel, snapshot: Catalogue, sampleItems: seq<Item>) returns (added: bool)
    requires snapshot != model.catalogue
    modifies model.catalogue
    ensures model.catalogue.items == AddAll(old(model.catalogue.items), ItemsToAdd(snapshot.items, sampleItems))
    ensures added <==> ItemsToAdd(snapshot.items, sampleItems) != []
  {
    added := false;
    ghost var snapshotItems := snapshot.items;
    ghost var start := model.catalogue.items;
    for j := 0 to |sampleItems|
      invariant snapshot.items == snapshotItems
      invariant model.catalogue.items == AddAll(start, ItemsToAdd(snapshotItems, sampleItems[..j]))
      invariant added <==> ItemsToAdd(snapshotItems, sampleItems[..j]) != []
    {
      assert sampleItems[..j + 1][..j] == sampleItems[..j];
      var item := sampleItems[j];
      ghost var before := ItemsToAdd(snapshotItems, sampleItems[..j]);
      var present := snapshot.HasItem(item.name);
      if !present {
        assert ItemsToAdd(snapshotItems, sampleItems[..j + 1]) == before + [item];
        assert (before + [item])[..|before|] == before;
        model.AddItem(item);
        added := true;
      } else {
        assert ItemsToAdd(snapshotItems, sampleItems[..j + 1]) == before;
      }
    }
    assert sampleItems[..|sampleItems|] == sampleItems;
  }

  method Execute(model: AppModel, samplePersons: seq<Person>, sampleItems: seq<Item>)
    returns (r: Result<CommandResult, CommandError>)
    modifies model, model.catalogue
    ensures model.persons == old(model.persons) + PersonsToAdd(old(Names(model.persons)), samplePersons)
    ensures model.catalogue.items ==
              AddAll(old(model.catalogue.items), ItemsToAdd(old(model.catalogue.items), sampleItems))
    ensures r.Success? <==>
              PersonsToAdd(old(Names(model.persons)), samplePersons) != [] ||
              ItemsToAdd(old(model.catalogue.items), sampleItems) != []
    ensures r == Success(DataSeeded) || r == Failure(NothingToSeed)
    ensures r.Failure? ==> model.persons == old(model.persons) && model.catalogue.items == old(model.catalogue.items)
  {
    // The copy of the address book taken before anything is added.
    var snapshotNames := Names(model.persons);
    var snapshot := new Catalogue();
    snapshot.SetItemsFrom(model.catalogue);

    var personsAdded := SeedPersons(model, snapshotNames, samplePersons);
    var itemsAdded := SeedItems(model, snapshot, sampleItems);

    if personsAdded || itemsAdded {
      r := Success(DataSeeded);
    } else {
      r := Failure(NothingToSeed);
    }
  }

  lemma {:induction false} HasNameExtends(items: seq<Item>, more: seq<Item>, name: string)
    requires HasName(items, name)
    ensures HasName(items + more, name)
  {
    var i :| 0 <= i < |items| && NamedLike(items[i], name);
    assert (items + more)[i] == items[i];
  }

  /** addItem leaves a same-named entry for the item whether or not it appends it. */
  lemma WithItemHasName(items: seq<Item>, item: Item)
    ensures HasName(WithItem(items, item), item.name)
  {
    if !HasSameItem(items, item) {
      assert WithItem(items, item)[|items|] == item;
    }
  }

  /** After AddAll, every added item, and every name already present, can be found by name. */
  lemma {:induction false} AddAllCovers(items: seq<Item>, toAdd: seq<Item>, name: string)
    requires HasName(items, name) || exists x :: x in toAdd && x.name == name
    ensures HasName(AddAll(items, toAdd), name)
    decreases |toAdd|
  {
    if toAdd != [] {
      var init, last := toAdd[..|toAdd| - 1], toAdd[|toAdd| - 1];
      var before := AddAll(items, init);
      if last.name == name {
        WithItemHasName(before, last);
      } else {
        assert forall x :: x in toAdd ==> x in init || x == last;
        AddAllCovers(items, init, name);
        if !HasSameItem(before, last) {
          HasNameExtends(before, [last], name);
        }
      }
    }
  }

  /**
   * Right after a run, a second run finds every sample member's name and
   * every sample item's name already present, so it adds nothing and fails.
   */
  lemma {:induction false} SecondRunAddsNothing(persons: seq<Person>, items: seq<Item>,
                                                samplePersons: seq<Person>, sampleItems: seq<Item>)
    ensures PersonsToAdd(Names(persons + PersonsToAdd(Names(persons), samplePersons)), samplePersons) == []
    ensures ItemsToAdd(AddAll(items, ItemsToAdd(items, sampleItems)), sampleItems) == []
  {
    var added := PersonsToAdd(Names(persons), samplePersons);
    var after := persons + added;
    forall p | p in samplePersons
      ensures p.name in Names(after)
    {
      if p.name in Names(persons) {
        var k :| 0 <= k < |persons| && Names(persons)[k] == p.name;
        assert Names(after)[k] == p.name;
      } else {
        var k :| 0 <= k < |added| && added[k] == p;
        assert after[|persons| + k] == p;
        assert Names(after)[|persons| + k] == p.name;
      }
    }

    var toAdd := ItemsToAdd(items, sampleItems);
    var itemsAfter := AddAll(items, toAdd);
    forall x | x in sampleItems
      ensures HasName(itemsAfter, x.name)
    {
      if !HasName(items, x.name) {
        assert x in toAdd;
      }
      AddAllCovers(items, toAdd, x.name);
    }
  }

  /**
   * Presence is judged against the snapshot, not the live catalogue: two
   * samples with the same name are both scheduled for adding, and the
   * catalogue itself then refuses the second.
   */
  lemma SnapshotNotLive(first: Item, second: Item)
    requires IsSameItem(first, second)
    ensures ItemsToAdd([], [first, second]) == [first, second]
    ensures AddAll([], [first, second]) == [first]
  {
    var both := [first, second];
    assert both[..1] == [first];
    assert [first][..0] == [];
    assert AddAll([], [first]) == WithItem([], first) == [first];
    assert [first][0] == first;
    assert HasSameItem([first], second);
  }
}
