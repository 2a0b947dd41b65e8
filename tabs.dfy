/** The category tab bar (src/components/CategoryTabs.tsx): adding a category and
    reordering the tabs by drag and drop onto the zones between them. */
module Tabs {
  import opened Wrappers
  import opened Strings
  import opened Guards

  /** The keys the add input reacts to. */
  datatype Key = Enter | Escape | OtherKey

  /** `handleDropZoneDrop`'s reorder: take the dragged tab out, then insert it before the
      zone's position among the remaining tabs (one less when the zone lay after the tab);
      a position past the end appends, as `splice` does. */
  method DropOrder(categories: seq<string>, dragIndex: nat, index: nat) returns (newOrder: seq<string>)
    requires dragIndex < |categories|
    ensures |newOrder| == |categories|
    ensures multiset(newOrder) == multiset(categories)
    ensures var target := if index > dragIndex then index - 1 else index;
      var at := if target > |categories| - 1 then |categories| - 1 else target;
      && newOrder[at] == categories[dragIndex]
      && newOrder[..at] + newOrder[at + 1..] == categories[..dragIndex] + categories[dragIndex + 1..]
  {
    newOrder := categories;
    var removed := newOrder[dragIndex];
    newOrder := newOrder[..dragIndex] + newOrder[dragIndex + 1..];
    TakeOut(categories, dragIndex);
    var insertIndex := if index > dragIndex then index - 1 else index;
    if insertIndex > |newOrder| {
      insertIndex := |newOrder|;
    }
    PutIn(newOrder, insertIndex, removed);
    newOrder := newOrder[..insertIndex] + [removed] + newOrder[insertIndex..];
  }

  /** Taking element `i` out of `s` leaves the rest of its multiset. */
  lemma TakeOut(s: seq<string>, i: nat)
    requires i < |s|
    ensures multiset(s) == multiset(s[..i] + s[i + 1..]) + multiset{s[i]}
  {
    assert s == s[..i] + [s[i]] + s[i + 1..];
  }

  /** Inserting `x` at position `k` of `s` puts it there and keeps the rest in order. */
  lemma PutIn(s: seq<string>, k: nat, x: string)
    requires k <= |s|
    ensures var t := s[..k] + [x] + s[k..];
      && |t| == |s| + 1 && t[k] == x
      && t[..k] + t[k + 1..] == s
      && multiset(t) == multiset(s) + multiset{x}
  {
    var t := s[..k] + [x] + s[k..];
    assert t[..k] == s[..k];
    assert t[k + 1..] == s[k..];
    assert s == s[..k] + s[k..];
  }

  /** The tab bar's own state. */
  class TabsState {
    var isAdding: bool
    var newName: string
    var draggedIndex: Option<int>
    var dropIndex: Option<int>

    constructor ()
      ensures !isAdding && newName == "" && draggedIndex.None? && dropIndex.None?
    {
      isAdding := false;
      newName := "";
      draggedIndex := None;
      dropIndex := None;
    }

    /** `handleAdd`: a name the add guard accepts is added, and the input is cleared and
        closed; otherwise nothing happens. */
    method HandleAdd(categories: seq<string>) returns (added: Option<string>)
      modifies this
      ensures added == AddGuard(categories, old(newName))
      ensures added.Some? ==> newName == "" && !isAdding
      ensures added.None? ==> newName == old(newName) && isAdding == old(isAdding)
      ensures draggedIndex == old(draggedIndex) && dropIndex == old(dropIndex)
    {
      added := AddGuard(categories, newName);
      if added.Some? {
        newName := "";
        isAdding := false;
      }
    }

    /** `handleKeyDown`: Enter adds, Escape closes and clears the input. */
    method HandleKeyDown(key: Key, categories: seq<string>) returns (added: Option<string>)
      modifies this
      ensures key == Enter ==> added == AddGuard(categories, old(newName))
      ensures key == Enter && added.Some? ==> newName == "" && !isAdding
      ensures key == Enter && added.None? ==> newName == old(newName) && isAdding == old(isAdding)
      ensures key != Enter ==> added.None?
      ensures key == Escape ==> !isAdding && newName == ""
      ensures key == OtherKey ==> isAdding == old(isAdding) && newName == old(newName)
      ensures draggedIndex == old(draggedIndex) && dropIndex == old(dropIndex)
    {
      added := None;
      if key == Enter {
        added := HandleAdd(categories);
      }
      if key == Escape {
        isAdding := false;
        newName := "";
      }
    }

    /** `handleDragStart`. The index also goes into the drag data, which `HandleDrop`
        receives parsed. */
    method HandleDragStart(index: int)
      modifies this
      ensures draggedIndex == Some(index) && dropIndex == old(dropIndex)
      ensures isAdding == old(isAdding) && newName == old(newName)
    {
      draggedIndex := Some(index);
    }

    /** `handleDragEnd`: no drag in progress any more. */
    method HandleDragEnd()
      modifies this
      ensures draggedIndex.None? && dropIndex.None?
      ensures isAdding == old(isAdding) && newName == old(newName)
    {
      draggedIndex := None;
      dropIndex := None;
    }

    /** `handleDropZoneDragOver`: without a drag nothing changes; the zones right before
        and right after the dragged tab show no marker; any other zone is marked. */
    method HandleDropZoneDragOver(index: int)
      modifies this
      ensures old(draggedIndex).None? ==> dropIndex == old(dropIndex)
      ensures old(draggedIndex).Some? ==>
        dropIndex == if index == old(draggedIndex).value || index == old(draggedIndex).value + 1
          then None else Some(index)
      ensures draggedIndex == old(draggedIndex) && isAdding == old(isAdding) && newName == old(newName)
    {
      if draggedIndex.None? {
        return;
      }
      var d := draggedIndex.value;
      if index == d || index == d + 1 {
        dropIndex := None;
      } else {
        dropIndex := Some(index);
      }
    }

    /** `handleDropZoneDragLeave`. */
    method HandleDropZoneDragLeave()
      modifies this
      ensures dropIndex.None? && draggedIndex == old(draggedIndex)
      ensures isAdding == old(isAdding) && newName == old(newName)
    {
      dropIndex := None;
    }

    /** `handleDropZoneDrop` on zone `index` (0 before the first tab, `|categories|` after
        the last). The dragged index is the state's, or else the drag data parsed
        (`None` for NaN). A drop onto either zone next to the dragged tab, or with no
        index, reorders nothing; the drag state is cleared in every case. */
    method HandleDrop(categories: seq<string>, index: nat, transferred: Option<int>)
      returns (reorder: Option<seq<string>>)
      requires index <= |categories|
      modifies this
      ensures var d := if old(draggedIndex).Some? then old(draggedIndex) else transferred;
        && (d.None? || d.value == index || index == d.value + 1 ==> reorder.None?)
        && (reorder.Some? ==> multiset(reorder.value) == multiset(categories) &&
                              |reorder.value| == |categories|)
        && (d.Some? && 0 <= d.value < |categories| && d.value != index && index != d.value + 1 ==>
              var at := if index > d.value then index - 1 else index;
              && reorder.Some?
              && reorder.value[at] == categories[d.value]
              && reorder.value[..at] + reorder.value[at + 1..] ==
                 categories[..d.value] + categories[d.value + 1..])
      ensures draggedIndex.None? && dropIndex.None?
      ensures isAdding == old(isAdding) && newName == old(newName)
    {
      var d := if draggedIndex.Some? then draggedIndex else transferred;
      reorder := None;
      if d.Some? && d.value != index && index != d.value + 1 && 0 <= d.value < |categories| {
        var newOrder := DropOrder(categories, d.value, index);
        reorder := Some(newOrder);
      }
      draggedIndex := None;
      dropIndex := None;
    }
  }
}
