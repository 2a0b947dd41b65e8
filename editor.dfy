/** The category settings dialog (src/components/CategoryEditor.tsx): add, rename, remove
    with confirmation, and moving a category one place up or down. */
module Editor {
  import opened Wrappers
  import opened Strings
  import opened Guards

  /** Positions `i` and `j` exchanged. */
  function Swapped(s: seq<string>, i: nat, j: nat): seq<string>
    requires i < |s| && j < |s|
  {
    s[i := s[j]][j := s[i]]
  }

  /** A swap is a permutation that exchanges the two positions and keeps every other. */
  lemma SwappedEffect(s: seq<string>, i: nat, j: nat)
    requires i < |s| && j < |s|
    ensures var r := Swapped(s, i, j);
      && |r| == |s| && multiset(r) == multiset(s)
      && r[i] == s[j] && r[j] == s[i]
      && forall k :: 0 <= k < |s| && k != i && k != j ==> r[k] == s[k]
  {
    var t := s[i := s[j]];
    var r := t[j := s[i]];
    UpdateMultiset(s, i, s[j]);
    UpdateMultiset(t, j, s[i]);
    assert t[j] == s[j];
    assert multiset(r) + multiset{s[j]} == multiset(s) + multiset{s[j]};
  }

  /** Overwriting one position trades that element for the new one in the multiset. */
  lemma UpdateMultiset(s: seq<string>, k: nat, v: string)
    requires k < |s|
    ensures multiset(s[k := v]) + multiset{s[k]} == multiset(s) + multiset{v}
  {
    assert s == s[..k] + [s[k]] + s[k + 1..];
    assert s[k := v] == s[..k] + [v] + s[k + 1..];
  }

  /** Swapping the same two positions again restores the order. */
  lemma SwappedTwice(s: seq<string>, i: nat, j: nat)
    requires i < |s| && j < |s|
    ensures Swapped(Swapped(s, i, j), i, j) == s
  {
    SwappedEffect(s, i, j);
    SwappedEffect(Swapped(s, i, j), i, j);
  }

  /** Why removing a category was refused: it still lists this many skills. */
  datatype Notice = StillHasSkills(category: string, count: nat)

  /** The dialog's own state. */
  class EditorState {
    var newCategoryName: string
    var editingCategory: Option<string>
    var editValue: string
    var confirmDelete: Option<string>
    var errorMessage: Option<Notice>

    constructor ()
      ensures newCategoryName == "" && editingCategory.None? && editValue == ""
      ensures confirmDelete.None? && errorMessage.None?
    {
      newCategoryName := "";
      editingCategory := None;
      editValue := "";
      confirmDelete := None;
      errorMessage := None;
    }

    /** `handleAdd`: a name the add guard accepts is added and the input cleared. */
    method HandleAdd(categories: seq<string>) returns (added: Option<string>)
      modifies this
      ensures added == AddGuard(categories, old(newCategoryName))
      ensures newCategoryName == if added.Some? then "" else old(newCategoryName)
      ensures editingCategory == old(editingCategory) && editValue == old(editValue)
      ensures confirmDelete == old(confirmDelete) && errorMessage == old(errorMessage)
    {
      added := AddGuard(categories, newCategoryName);
      if added.Some? {
        newCategoryName := "";
      }
    }

    /** `startEditing`: the input starts from the current name. */
    method StartEditing(category: string)
      modifies this
      ensures editingCategory == Some(category) && editValue == category
      ensures newCategoryName == old(newCategoryName)
      ensures confirmDelete == old(confirmDelete) && errorMessage == old(errorMessage)
    {
      editingCategory := Some(category);
      editValue := category;
    }

    /** The cancel button and Escape: leave edit mode. */
    method CancelEditing()
      modifies this
      ensures editingCategory.None? && editValue == old(editValue)
      ensures newCategoryName == old(newCategoryName)
      ensures confirmDelete == old(confirmDelete) && errorMessage == old(errorMessage)
    {
      editingCategory := None;
    }

    /** `handleRename` as written: the rename goes ahead through `RenameGuardAsWritten`,
        which does not look at the other categories, and edit mode ends in every case. */
    method HandleRename(oldName: string) returns (renamed: Option<string>)
      modifies this
      ensures renamed == RenameGuardAsWritten(oldName, old(editValue))
      ensures editingCategory.None? && editValue == old(editValue)
      ensures newCategoryName == old(newCategoryName)
      ensures confirmDelete == old(confirmDelete) && errorMessage == old(errorMessage)
    {
      renamed := RenameGuardAsWritten(oldName, editValue);
      editingCategory := None;
    }

    /** `handleRename` with the collision check it evidently intends (`Guards.RenameGuard`):
        a name that is already another category is not forwarded. */
    method HandleRenameChecked(categories: seq<string>, oldName: string) returns (renamed: Option<string>)
      modifies this
      ensures renamed == RenameGuard(categories, oldName, old(editValue))
      ensures editingCategory.None? && editValue == old(editValue)
      ensures newCategoryName == old(newCategoryName)
      ensures confirmDelete == old(confirmDelete) && errorMessage == old(errorMessage)
    {
      renamed := RenameGuard(categories, oldName, editValue);
      editingCategory := None;
    }

    /** `handleRemove`: a category that still lists existing skills is refused with a
        notice; otherwise it awaits confirmation. */
    method HandleRemove(skillCounts: map<string, nat>, category: string)
      modifies this
      ensures var count := if category in skillCounts then skillCounts[category] else 0;
        && (count > 0 ==> errorMessage == Some(StillHasSkills(category, count)) &&
                          confirmDelete == old(confirmDelete))
        && (count == 0 ==> confirmDelete == Some(category) && errorMessage == old(errorMessage))
      ensures newCategoryName == old(newCategoryName)
      ensures editingCategory == old(editingCategory) && editValue == old(editValue)
    {
      var count := if category in skillCounts then skillCounts[category] else 0;
      if count > 0 {
        errorMessage := Some(StillHasSkills(category, count));
        return;
      }
      confirmDelete := Some(category);
    }

    /** `confirmRemove`: a pending, non-empty name is removed once and the confirmation
        closed; an empty name is falsy and does nothing. */
    method ConfirmRemove() returns (removed: Option<string>)
      modifies this
      ensures old(confirmDelete).Some? && old(confirmDelete).value != "" ==>
        removed == old(confirmDelete) && confirmDelete.None?
      ensures old(confirmDelete).None? || old(confirmDelete).value == "" ==>
        removed.None? && confirmDelete == old(confirmDelete)
      ensures newCategoryName == old(newCategoryName) && errorMessage == old(errorMessage)
      ensures editingCategory == old(editingCategory) && editValue == old(editValue)
    {
      removed := None;
      if confirmDelete.Some? && confirmDelete.value != "" {
        removed := confirmDelete;
        confirmDelete := None;
      }
    }

    /** The cancel button of the confirmation. */
    method CancelRemove()
      modifies this
      ensures confirmDelete.None?
      ensures newCategoryName == old(newCategoryName) && errorMessage == old(errorMessage)
      ensures editingCategory == old(editingCategory) && editValue == old(editValue)
    {
      confirmDelete := None;
    }

    /** `moveCategory`: nothing past either end; otherwise the category changes places
        with its neighbour. `index` is the position of a shown category. */
    method MoveCategory(categories: seq<string>, index: nat, up: bool) returns (reorder: Option<seq<string>>)
      requires index < |categories|
      ensures var newIndex := if up then index - 1 else index + 1;
        && (newIndex < 0 || newIndex >= |categories| ==> reorder.None?)
        && (0 <= newIndex < |categories| ==> reorder == Some(Swapped(categories, index, newIndex)))
    {
      var newIndex := if up then index - 1 else index + 1;
      if newIndex < 0 || newIndex >= |categories| {
        return None;
      }
      var a := new string[|categories|](i requires 0 <= i < |categories| => categories[i]);
      assert a[..] == categories;
      a[index], a[newIndex] := a[newIndex], a[index];
      reorder := Some(a[..]);
    }
  }
}
