/**
 * `performDelete` of ChatDetailView: a `grid-` id is expanded to the ids of
 * the grid's images; the ids are removed from the working set, tombstoned in
 * the store and dropped from the starred list.
 */
module Deletion {
  import opened Wrappers
  import opened Messages
  import opened Grouping
  import CS = ChatStore

  /** The `id` a display row is rendered with. */
  function DisplayId(d: DisplayItem): string
  {
    match d
    case Single(m) => m.id
    case Grid(entry, _) => entry.id
  }

  /** `displayMessages.find(m => m.id === id)`, as the index of the row found. */
  function RowIndex(ds: seq<DisplayItem>, id: string): (r: Option<nat>)
    ensures r.Some? ==> r.value < |ds| && DisplayId(ds[r.value]) == id
    ensures r.Some? ==> forall k :: 0 <= k < r.value ==> DisplayId(ds[k]) != id
    ensures r.None? ==> forall k :: 0 <= k < |ds| ==> DisplayId(ds[k]) != id
  {
    if ds == [] then None
    else if DisplayId(ds[0]) == id then Some(0)
    else match RowIndex(ds[1..], id)
      case None => None
      case Some(k) => Some(k + 1)
  }

  /** `targetId` starts with `grid-` and the first row rendered with it is a grid. */
  predicate TargetsGrid(display: seq<DisplayItem>, targetId: string)
  {
    && GridPrefix <= targetId
    && RowIndex(display, targetId).Some?
    && display[RowIndex(display, targetId).value].Grid?
  }

  /** `idsToDelete`: the grid's image ids when `targetId` names a grid, else just `targetId`. */
  function DeleteTargets(display: seq<DisplayItem>, targetId: string): seq<string>
  {
    if TargetsGrid(display, targetId) then Ids(display[RowIndex(display, targetId).value].images)
    else [targetId]
  }

  /** `idsToDelete.forEach(id => addDeletedMessageId(id))` */
  function AddTombstones(d: seq<string>, ids: seq<string>): (r: seq<string>)
    ensures d <= r
    ensures forall x :: x in r <==> x in d || x in ids
    ensures NoDuplicates(d) ==> NoDuplicates(r)
    decreases |ids|
  {
    if ids == [] then d
    else
      var prefix := AddTombstones(d, ids[..|ids| - 1]);
      CS.AddTombstoneProperties(prefix, ids[|ids| - 1]);
      assert forall x :: x in ids <==> x in ids[..|ids| - 1] || x == ids[|ids| - 1] by {
        assert ids == ids[..|ids| - 1] + [ids[|ids| - 1]];
      }
      CS.AddTombstone(prefix, ids[|ids| - 1])
  }

  /** `for (const id of idsToDelete) deleteMessageFromStore(id)` */
  function UnstarAll(s: seq<CS.StarredEntry>, ids: seq<string>): (r: seq<CS.StarredEntry>)
    ensures forall e :: e in r <==> e in s && e.id !in ids
    decreases |ids|
  {
    if ids == [] then s
    else
      assert forall x :: x in ids <==> x in ids[..|ids| - 1] || x == ids[|ids| - 1] by {
        assert ids == ids[..|ids| - 1] + [ids[|ids| - 1]];
      }
      CS.Unstar(UnstarAll(s, ids[..|ids| - 1]), ids[|ids| - 1])
  }

  /** `idsToDelete.forEach(id => addDeletedMessageId(id))` */
  method TombstoneAll(store: CS.ChatStore, ids: seq<string>)
    requires store.Valid()
    modifies store`deletedMessageIds
    ensures store.Valid()
    ensures store.deletedMessageIds == AddTombstones(old(store.deletedMessageIds), ids)
  {
    var k := 0;
    while k < |ids|
      invariant 0 <= k <= |ids|
      invariant store.Valid()
      invariant store.deletedMessageIds == AddTombstones(old(store.deletedMessageIds), ids[..k])
    {
      assert ids[..k + 1][..k] == ids[..k];
      store.AddDeletedMessageId(ids[k]);
      k := k + 1;
    }
    assert ids[..k] == ids;
  }

  /** `for (const id of idsToDelete) deleteMessageFromStore(id)` */
  method UnstarEach(store: CS.ChatStore, ids: seq<string>)
    requires store.Valid()
    modifies store`starredMessages
    ensures store.Valid()
    ensures store.starredMessages == UnstarAll(old(store.starredMessages), ids)
  {
    var k := 0;
    while k < |ids|
      invariant 0 <= k <= |ids|
      invariant store.Valid()
      invariant store.starredMessages == UnstarAll(old(store.starredMessages), ids[..k])
    {
      assert ids[..k + 1][..k] == ids[..k];
      store.DeleteMessageFromStore(ids[k]);
      k := k + 1;
    }
    assert ids[..k] == ids;
  }

  /**
   * `performDelete(targetId)` on the working set `localMessages`: returns the
   * new working set and tombstones and unstars every target in the store.
   */
  method PerformDelete(store: CS.ChatStore, localMessages: seq<Message>, targetId: string) returns (next: seq<Message>)
    requires store.Valid()
    modifies store`deletedMessageIds, store`starredMessages
    ensures store.Valid()
    ensures next == WithoutIds(localMessages, DeleteTargets(Group(localMessages), targetId))
    ensures store.deletedMessageIds == AddTombstones(old(store.deletedMessageIds), DeleteTargets(Group(localMessages), targetId))
    ensures store.starredMessages == UnstarAll(old(store.starredMessages), DeleteTargets(Group(localMessages), targetId))
    ensures forall id :: id in DeleteTargets(Group(localMessages), targetId) ==>
              id in store.deletedMessageIds && forall m :: m in next ==> m.id != id
  {
    var display := DisplayMessages(localMessages);
    var idsToDelete := DeleteTargets(display, targetId);
    next := WithoutIds(localMessages, idsToDelete);
    TombstoneAll(store, idsToDelete);
    UnstarEach(store, idsToDelete);
  }

  /**
   * Deleting a grid row by its id targets exactly the ids of its images and
   * removes exactly the working-set entries carrying them.
   */
  lemma DeleteGridRow(local: seq<Message>, k: nat)
    requires k < |Group(local)| && Group(local)[k].Grid?
    requires forall j :: 0 <= j < k ==> DisplayId(Group(local)[j]) != DisplayId(Group(local)[k])
    ensures DeleteTargets(Group(local), DisplayId(Group(local)[k])) == Ids(Group(local)[k].images)
    ensures forall m :: m in WithoutIds(local, DeleteTargets(Group(local), DisplayId(Group(local)[k]))) <==>
              m in local && m.id !in Ids(Group(local)[k].images)
  {
    var ds := Group(local);
    GroupRowsWellFormed(local);
    assert ds[k] in ds;
    assert GridPrefix <= DisplayId(ds[k]);
    var r := RowIndex(ds, DisplayId(ds[k]));
    assert r == Some(k);
  }

  /**
   * Only a grid target expands: the delete targets just `targetId` exactly
   * when `targetId` does not name a grid row.
   */
  lemma DeleteTargetsSingle(local: seq<Message>, targetId: string)
    ensures DeleteTargets(Group(local), targetId) == [targetId] <==> !TargetsGrid(Group(local), targetId)
  {
    var ds := Group(local);
    if TargetsGrid(ds, targetId) {
      GroupRowsWellFormed(local);
      assert ds[RowIndex(ds, targetId).value] in ds;
      assert |DeleteTargets(ds, targetId)| >= 2;
    }
  }

  /** Replaying the same tombstones changes nothing. */
  lemma {:induction false} AddTombstonesPresent(d: seq<string>, ids: seq<string>)
    requires forall x :: x in ids ==> x in d
    ensures AddTombstones(d, ids) == d
    decreases |ids|
  {
    if ids != [] {
      assert ids[|ids| - 1] in ids;
      forall x | x in ids[..|ids| - 1] ensures x in d {
        assert x in ids;
      }
      AddTombstonesPresent(d, ids[..|ids| - 1]);
    }
  }

  lemma AddTombstonesIdempotent(d: seq<string>, ids: seq<string>)
    ensures AddTombstones(AddTombstones(d, ids), ids) == AddTombstones(d, ids)
  {
    AddTombstonesPresent(AddTombstones(d, ids), ids);
  }
}
