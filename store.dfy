/** The prompt store: the shared state record `{prompts, selectedID}` and the
    storage slot it is persisted to, with the operations the page's buttons
    and list trigger (save, new, remove, select) and the persist/load pair. */
module PromptStore {
  import opened Text
  import opened Prompts

  /** The storage slot under the store's key, seen through `getItem` and
      `JSON.parse`: no value yet, a saved list, or a value that cannot be
      read back (storage disabled or text that does not parse). */
  datatype Slot = Absent | Stored(prompts: seq<Prompt>) | Unreadable

  /** What `save` reports: the validation alert or the success alert. */
  datatype SaveOutcome = Rejected | Saved

  /** JavaScript truthiness of `state.selectedID` (null or a string; the
      empty string is falsy). */
  predicate Truthy(sel: Option<string>) {
    sel.Some? && sel.value != ""
  }

  /** The slot after `setItem`: the list when the write succeeds, the old
      value when it throws (the error is only logged). */
  function Written(slot: Slot, ps: seq<Prompt>, storageOk: bool): Slot {
    if storageOk then Stored(ps) else slot
  }

  class Store {
    var prompts: seq<Prompt>
    var selectedID: Option<string>
    var slot: Slot

    /** Ids are unique in the list and in the saved copy. */
    ghost predicate Valid()
      reads this
    {
      DistinctIds(prompts) && (slot.Stored? ==> DistinctIds(slot.prompts))
    }

    /** The selection is empty or names a prompt of the list. The code as
        written does not keep this: see Remove and RemoveAndDeselect. */
    ghost predicate SelectionResolves()
      reads this
    {
      selectedID.Some? ==> selectedID.value in Ids(prompts)
    }

    /** The page's initial state, with whatever the slot holds from an
        earlier session. */
    constructor (stored: Slot)
      ensures prompts == [] && selectedID == None && slot == stored
      ensures (stored.Stored? ==> DistinctIds(stored.prompts)) ==> Valid()
      ensures SelectionResolves()
    {
      prompts := [];
      selectedID := None;
      slot := stored;
    }

    /** `persist`: write the whole list to the slot. */
    method Persist(storageOk: bool)
      modifies this`slot
      ensures slot == Written(old(slot), prompts, storageOk)
      ensures old(Valid()) ==> Valid()
    {
      if storageOk {
        slot := Stored(prompts);
      }
    }

    /** `load`: read the slot back. A missing value gives the empty list; an
        unreadable one leaves the state as it was. */
    method Load()
      modifies this`prompts, this`selectedID
      ensures old(slot).Absent? ==> prompts == [] && selectedID == None
      ensures old(slot).Stored? ==> prompts == old(slot).prompts && selectedID == None
      ensures old(slot).Unreadable? ==> prompts == old(prompts) && selectedID == old(selectedID)
      ensures old(Valid()) ==> Valid()
      ensures old(SelectionResolves()) ==> SelectionResolves()
    {
      match slot
      case Absent =>
        prompts := [];
        selectedID := None;
      case Stored(ps) =>
        prompts := ps;
        selectedID := None;
      case Unreadable =>
    }

    /** `save`: validate the trimmed title and content, then overwrite the
        selected prompt, or create a prompt with id `freshId` at the front of
        the list and select it; then persist. */
    method Save(rawTitle: string, rawContent: string, freshId: string, storageOk: bool)
      returns (outcome: SaveOutcome)
      modifies this
      ensures outcome == Rejected <==> AllSpace(rawTitle) || AllSpace(rawContent)
      ensures outcome == Rejected ==>
        prompts == old(prompts) && selectedID == old(selectedID) && slot == old(slot)
      ensures outcome == Saved && Truthy(old(selectedID)) ==>
        && prompts == UpdateFirst(old(prompts), old(selectedID).value, Trim(rawTitle), Trim(rawContent))
        && selectedID == old(selectedID)
      ensures outcome == Saved && Truthy(old(selectedID)) && old(selectedID).value !in Ids(old(prompts)) ==>
        prompts == old(prompts)
      ensures outcome == Saved && !Truthy(old(selectedID)) ==>
        && prompts == [Prompt(freshId, Trim(rawTitle), Trim(rawContent))] + old(prompts)
        && selectedID == Some(freshId)
      ensures outcome == Saved ==> slot == Written(old(slot), prompts, storageOk)
      ensures old(Valid()) && freshId !in Ids(old(prompts)) ==> Valid()
      ensures old(SelectionResolves()) ==> SelectionResolves()
    {
      var title := Trim(rawTitle);
      var content := Trim(rawContent);
      if title == [] || content == [] {
        return Rejected;
      }
      if Truthy(selectedID) {
        var updated := UpdateFirst(prompts, selectedID.value, title, content);
        UpdateFirstChangesOnlyFound(prompts, selectedID.value, title, content);
        UpdateFirstKeepsIds(prompts, selectedID.value, title, content);
        prompts := updated;
      } else {
        var created := Prompt(freshId, title, content);
        if DistinctIds(prompts) && freshId !in Ids(prompts) {
          PrependDistinct(created, prompts);
        }
        IdsCons(created, prompts);
        prompts := [created] + prompts;
        selectedID := Some(freshId);
      }
      Persist(storageOk);
      outcome := Saved;
    }

    /** `newPrompt`: clear the selection. */
    method NewPrompt()
      modifies this`selectedID
      ensures selectedID == None
      ensures SelectionResolves()
    {
      selectedID := None;
    }

    /** The remove branch of the list's click handler: drop every prompt with
        that id, then persist. The selection is left as it was. */
    method Remove(id: string, storageOk: bool)
      modifies this`prompts, this`slot
      ensures prompts == RemoveId(old(prompts), id)
      ensures slot == Written(old(slot), prompts, storageOk)
      ensures old(Valid()) ==> Valid()
    {
      prompts := RemoveId(prompts, id);
      Persist(storageOk);
    }

    /** Remove as it evidently should behave: it also clears a selection
        naming the removed id, and so keeps the selection resolving. */
    method RemoveAndDeselect(id: string, storageOk: bool)
      modifies this`prompts, this`selectedID, this`slot
      ensures prompts == RemoveId(old(prompts), id)
      ensures selectedID == if old(selectedID) == Some(id) then None else old(selectedID)
      ensures slot == Written(old(slot), prompts, storageOk)
      ensures old(Valid()) ==> Valid()
      ensures old(SelectionResolves()) ==> SelectionResolves()
    {
      Remove(id, storageOk);
      if selectedID == Some(id) {
        selectedID := None;
      }
      if old(SelectionResolves()) && selectedID.Some? {
        var q :| q in old(prompts) && q.id == selectedID.value;
        assert q in prompts;
      }
    }

    /** The select branch of the list's click handler: look up the first
        prompt with that id to show it; nothing in the store changes. */
    method Select(id: string) returns (found: Option<Prompt>)
      ensures found.None? <==> id !in Ids(prompts)
      ensures found.Some? ==>
        exists i :: 0 <= i < |prompts| && prompts[i] == found.value
          && found.value.id == id && forall j :: 0 <= j < i ==> prompts[j].id != id
    {
      match FindIndex(prompts, id)
      case None =>
        found := None;
      case Some(i) =>
        found := Some(prompts[i]);
    }

    /** The select click as it evidently should behave: the shown prompt also
        becomes the selection, so the next save overwrites it. */
    method SelectForEdit(id: string) returns (found: Option<Prompt>)
      modifies this`selectedID
      ensures found.None? <==> id !in Ids(prompts)
      ensures found.Some? ==>
        exists i :: 0 <= i < |prompts| && prompts[i] == found.value
          && found.value.id == id && forall j :: 0 <= j < i ==> prompts[j].id != id
      ensures selectedID == if found.Some? then Some(id) else old(selectedID)
      ensures old(SelectionResolves()) ==> SelectionResolves()
    {
      found := Select(id);
      if found.Some? {
        selectedID := Some(id);
      }
    }

    /** Persisting and loading again gives back the same ordered list and
        an empty selection. */
    method PersistThenLoad()
      modifies this
      ensures prompts == old(prompts) && selectedID == None
      ensures slot == Stored(prompts)
    {
      Persist(true);
      Load();
    }
  }

  /** Saving after the selected prompt was removed: the page reports success
      and writes the list, but creates no prompt, and the selection keeps
      naming a removed prompt. */
  method StaleSelectionAfterRemove() returns (outcome: SaveOutcome, ps: seq<Prompt>, sel: Option<string>, stored: Slot)
    ensures outcome == Saved && ps == [] && sel == Some("a") && stored == Stored([])
  {
    var store := new Store(Absent);
    TrimUnpadded("T");
    TrimUnpadded("C");
    var created := store.Save("T", "C", "a", true);
    assert store.prompts == [Prompt("a", "T", "C")];
    store.Remove("a", true);
    assert store.prompts == [];
    outcome := store.Save("T", "C", "b", true);
    ps, sel, stored := store.prompts, store.selectedID, store.slot;
  }

  /** The same steps with the corrected removal: the second save creates a
      prompt again. */
  method SaveAfterRemoveAndDeselect() returns (outcome: SaveOutcome, ps: seq<Prompt>, sel: Option<string>)
    ensures outcome == Saved && ps == [Prompt("b", "T", "C")] && sel == Some("b")
  {
    var store := new Store(Absent);
    TrimUnpadded("T");
    TrimUnpadded("C");
    var created := store.Save("T", "C", "a", true);
    assert store.prompts == [Prompt("a", "T", "C")];
    store.RemoveAndDeselect("a", true);
    assert store.prompts == [] && store.selectedID == None;
    outcome := store.Save("T", "C", "b", true);
    ps, sel := store.prompts, store.selectedID;
  }

  /** The single-letter fields of the scenarios below are their own trim. */
  lemma LettersTrimmed()
    ensures Trim("A") == "A" && Trim("B") == "B" && Trim("C") == "C"
    ensures Trim("X") == "X" && Trim("Y") == "Y"
  {
    TrimUnpadded("A");
    TrimUnpadded("B");
    TrimUnpadded("C");
    TrimUnpadded("X");
    TrimUnpadded("Y");
  }

  /** The list the scenarios below build before the click. */
  function TwoPrompts(): seq<Prompt> {
    [Prompt("b", "B", "C"), Prompt("a", "A", "C")]
  }

  /** Overwriting either prompt of that list. */
  lemma TwoPromptsUpdated()
    ensures UpdateFirst(TwoPrompts(), "b", "X", "Y") == [Prompt("b", "X", "Y"), Prompt("a", "A", "C")]
    ensures UpdateFirst(TwoPrompts(), "a", "X", "Y") == [Prompt("b", "B", "C"), Prompt("a", "X", "Y")]
    ensures "a" in Ids(TwoPrompts())
  {
    assert TwoPrompts()[1] in TwoPrompts();
  }

  /** Create "a", start a new prompt, create "b". */
  method CreateTwo() returns (store: Store)
    ensures fresh(store)
    ensures store.prompts == TwoPrompts() && store.selectedID == Some("b")
  {
    LettersTrimmed();
    store := new Store(Absent);
    var first := store.Save("A", "C", "a", true);
    assert store.prompts == [Prompt("a", "A", "C")];
    store.NewPrompt();
    var second := store.Save("B", "C", "b", true);
  }

  /** Editing a prompt picked from the list: create "a", start a new prompt,
      create "b", click "a", save. Because the click does not select "a", the
      save overwrites "b", the last prompt created. */
  method SaveAfterSelect() returns (outcome: SaveOutcome, ps: seq<Prompt>, sel: Option<string>)
    ensures outcome == Saved && ps == [Prompt("b", "X", "Y"), Prompt("a", "A", "C")] && sel == Some("b")
  {
    LettersTrimmed();
    TwoPromptsUpdated();
    var store := CreateTwo();
    var shown := store.Select("a");
    outcome := store.Save("X", "Y", "c", true);
    ps, sel := store.prompts, store.selectedID;
  }

  /** The same steps with the corrected click: the save overwrites "a". */
  method SaveAfterSelectForEdit() returns (outcome: SaveOutcome, ps: seq<Prompt>, sel: Option<string>)
    ensures outcome == Saved && ps == [Prompt("b", "B", "C"), Prompt("a", "X", "Y")] && sel == Some("a")
  {
    LettersTrimmed();
    TwoPromptsUpdated();
    var store := CreateTwo();
    var shown := store.SelectForEdit("a");
    outcome := store.Save("X", "Y", "c", true);
    ps, sel := store.prompts, store.selectedID;
  }
}
