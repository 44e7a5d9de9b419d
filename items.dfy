/** The pure logic of the item store: id assignment, lookup by id, and the
    reference definition of a bulk patch and of the ids it reports. */
module ItemStore {
  import opened Types

  predicate HasId(items: seq<Item>, id: nat) {
    exists i :: 0 <= i < |items| && items[i].id == id
  }

  /** No two items share an id. */
  ghost predicate UniqueIds(items: seq<Item>) {
    forall i, j :: 0 <= i < j < |items| ==> items[i].id != items[j].id
  }

  /** Ids grow strictly with the position: what a store built by creates looks like. */
  ghost predicate IncreasingIds(items: seq<Item>) {
    forall i, j :: 0 <= i < j < |items| ==> items[i].id < items[j].id
  }

  /** Two stores that hold the same ids at the same positions. */
  ghost predicate SameIds(a: seq<Item>, b: seq<Item>) {
    |a| == |b| && forall i :: 0 <= i < |a| ==> a[i].id == b[i].id
  }

  /** The greatest id in the store, 0 when it is empty
      (`items.iter().map(|i| i.id).max().unwrap_or(0)`). */
  function MaxId(items: seq<Item>): (m: nat)
    ensures forall i :: 0 <= i < |items| ==> items[i].id <= m
    ensures items == [] ==> m == 0
    ensures items != [] ==> exists i :: 0 <= i < |items| && items[i].id == m
    decreases |items|
  {
    if items == [] then 0
    else
      var rest := MaxId(items[..|items| - 1]);
      var last := items[|items| - 1].id;
      if last >= rest then last else rest
  }

  /** The id `create_item` assigns: 1 in an empty store, otherwise one more
      than the greatest id present. */
  function NextId(items: seq<Item>): (id: nat)
    ensures items == [] ==> id == 1
    ensures forall i :: 0 <= i < |items| ==> items[i].id < id
    ensures items != [] ==> exists i :: 0 <= i < |items| && items[i].id + 1 == id
  {
    MaxId(items) + 1
  }

  /** The item `create_item` stores and answers: the caller's item with the
      caller's id discarded and the assigned one put in its place. */
  function Created(items: seq<Item>, candidate: Item): Item {
    candidate.(id := NextId(items))
  }

  /** The position of the first item with the given id (`items.iter().find(..)`). */
  function Find(items: seq<Item>, id: nat): (r: Option<nat>)
    ensures r.Some? ==> r.value < |items| && items[r.value].id == id
    ensures r.Some? ==> forall j :: 0 <= j < r.value ==> items[j].id != id
    ensures r.None? <==> !HasId(items, id)
    decreases |items|
  {
    if items == [] then None
    else if items[0].id == id then Some(0)
    else match Find(items[1..], id)
      case None => None
      case Some(k) => Some(k + 1)
  }

  /** One item with the present fields of a patch written over it. */
  function Patched(item: Item, patch: UpdateItem): Item {
    var named := if patch.name.Some? then item.(name := patch.name.value) else item;
    if patch.price.Some? then named.(price := patch.price.value) else named
  }

  /** Reference definition of a bulk patch: the item at position j is patched
      exactly when its id was requested and it is the first item with that id. */
  function BulkPatched(items: seq<Item>, ids: seq<nat>, patch: UpdateItem): seq<Item> {
    seq(|items|, j requires 0 <= j < |items| =>
      if items[j].id in ids && Find(items, items[j].id) == Some(j)
      then Patched(items[j], patch) else items[j])
  }

  /** One id of a bulk update: the first item with that id takes the patch. */
  function PatchFirst(items: seq<Item>, id: nat, patch: UpdateItem): seq<Item> {
    match Find(items, id)
    case None => items
    case Some(i) => items[i := Patched(items[i], patch)]
  }

  /** The bulk update as the handler performs it: the ids one by one, in request order. */
  function ApplyPatch(items: seq<Item>, ids: seq<nat>, patch: UpdateItem): seq<Item>
    decreases |ids|
  {
    if ids == [] then items
    else PatchFirst(ApplyPatch(items, ids[..|ids| - 1], patch), ids[|ids| - 1], patch)
  }

  /** The requested ids that name an item, in request order, repeats kept. */
  function FoundIds(items: seq<Item>, ids: seq<nat>): seq<nat>
    decreases |ids|
  {
    if ids == [] then []
    else
      var last := ids[|ids| - 1];
      FoundIds(items, ids[..|ids| - 1]) + (if HasId(items, last) then [last] else [])
  }

  // ----- id assignment -----

  /** The assigned id is not already in use. */
  lemma NextIdIsFresh(items: seq<Item>)
    ensures !HasId(items, NextId(items))
  {
  }

  /** A create keeps the ids unique. */
  lemma CreatePreservesUniqueIds(items: seq<Item>, candidate: Item)
    requires UniqueIds(items)
    ensures UniqueIds(items + [Created(items, candidate)])
  {
    var s := items + [Created(items, candidate)];
    forall i, j | 0 <= i < j < |s| ensures s[i].id != s[j].id {
      if j == |items| {
        assert s[i] == items[i];
      } else {
        assert s[i] == items[i] && s[j] == items[j];
      }
    }
  }

  lemma IncreasingIdsAreUnique(items: seq<Item>)
    requires IncreasingIds(items)
    ensures UniqueIds(items)
  {
  }

  /** In a store whose ids increase, the next id is one more than the last one. */
  lemma {:induction false} NextIdAfterLast(items: seq<Item>)
    requires items != [] && IncreasingIds(items)
    ensures NextId(items) == items[|items| - 1].id + 1
  {
    var init := items[..|items| - 1];
    if init != [] {
      var j :| 0 <= j < |init| && init[j].id == MaxId(init);
      assert init[j] == items[j];
    }
  }

  /** A create keeps the ids increasing. */
  lemma CreatePreservesIncreasingIds(items: seq<Item>, candidate: Item)
    requires IncreasingIds(items)
    ensures IncreasingIds(items + [Created(items, candidate)])
  {
    var s := items + [Created(items, candidate)];
    forall i, j | 0 <= i < j < |s| ensures s[i].id < s[j].id {
      assert s[i] == items[i];
      if j < |items| {
        assert s[j] == items[j];
      }
    }
  }

  /** The store after creating the candidates one after another. */
  function CreateAll(items: seq<Item>, candidates: seq<Item>): (r: seq<Item>)
    ensures |r| == |items| + |candidates|
    ensures r[..|items|] == items
    decreases |candidates|
  {
    if candidates == [] then items
    else CreateAll(items + [Created(items, candidates[0])], candidates[1..])
  }

  /** Creates continue an increasing store with consecutive ids, and starting
      from an empty store the k-th created item gets id k + 1. */
  lemma {:induction false} CreateAllIds(items: seq<Item>, candidates: seq<Item>)
    requires forall i :: 0 <= i < |items| ==> items[i].id == i + 1
    ensures forall i :: 0 <= i < |items| + |candidates| ==> CreateAll(items, candidates)[i].id == i + 1
    decreases |candidates|
  {
    if candidates != [] {
      var next := items + [Created(items, candidates[0])];
      if items != [] {
        NextIdAfterLast(items);
      }
      CreatePreservesIncreasingIds(items, candidates[0]);
      assert forall i :: 0 <= i < |next| ==> next[i].id == i + 1;
      CreateAllIds(next, candidates[1..]);
    }
  }

  /** n creates on an empty store give ids 1..n. */
  lemma CreatesFromEmpty(candidates: seq<Item>)
    ensures forall i :: 0 <= i < |candidates| ==> CreateAll([], candidates)[i].id == i + 1
  {
    CreateAllIds([], candidates);
  }

  // ----- lookup -----

  /** Lookup depends only on the ids at each position. */
  lemma FindSameIds(a: seq<Item>, b: seq<Item>, id: nat)
    requires SameIds(a, b)
    ensures Find(a, id) == Find(b, id)
  {
  }

  // ----- bulk patch -----

  lemma PatchedIdempotent(item: Item, patch: UpdateItem)
    ensures Patched(Patched(item, patch), patch) == Patched(item, patch)
  {
  }

  /** A bulk patch changes no id, no length and no order. */
  lemma BulkPatchedKeepsIds(items: seq<Item>, ids: seq<nat>, patch: UpdateItem)
    ensures SameIds(items, BulkPatched(items, ids, patch))
  {
  }

  /** Items whose id was not requested are untouched. */
  lemma BulkPatchedUntouched(items: seq<Item>, ids: seq<nat>, patch: UpdateItem, j: nat)
    requires j < |items| && items[j].id !in ids
    ensures BulkPatched(items, ids, patch)[j] == items[j]
  {
  }

  /** Only present fields are written: an absent name keeps every name and an
      absent price keeps every price. */
  lemma BulkPatchedAbsentFields(items: seq<Item>, ids: seq<nat>, patch: UpdateItem, j: nat)
    requires j < |items|
    ensures patch.name.None? ==> BulkPatched(items, ids, patch)[j].name == items[j].name
    ensures patch.price.None? ==> BulkPatched(items, ids, patch)[j].price == items[j].price
  {
  }

  /** Every requested id that exists has its first item patched with the fields present. */
  lemma BulkPatchedHit(items: seq<Item>, ids: seq<nat>, patch: UpdateItem, id: nat)
    requires id in ids && HasId(items, id)
    ensures Find(items, id).Some?
    ensures var j := Find(items, id).value;
      && (patch.name.Some? ==> BulkPatched(items, ids, patch)[j].name == patch.name.value)
      && (patch.price.Some? ==> BulkPatched(items, ids, patch)[j].price == patch.price.value)
  {
  }

  /** Requesting one more id patches at most the first item with that id,
      and patching an item twice with one patch is patching it once. */
  lemma {:induction false} BulkPatchedStep(items: seq<Item>, ids: seq<nat>, patch: UpdateItem, id: nat)
    ensures Find(items, id).None? ==>
      BulkPatched(items, ids + [id], patch) == BulkPatched(items, ids, patch)
    ensures Find(items, id).Some? ==>
      var cur := BulkPatched(items, ids, patch);
      var i := Find(items, id).value;
      BulkPatched(items, ids + [id], patch) == cur[i := Patched(cur[i], patch)]
  {
    var cur := BulkPatched(items, ids, patch);
    var nxt := BulkPatched(items, ids + [id], patch);
    assert forall x :: x in ids + [id] <==> x in ids || x == id;
    match Find(items, id)
    case None =>
      assert forall j :: 0 <= j < |items| ==> nxt[j] == cur[j];
    case Some(i) =>
      PatchedIdempotent(items[i], patch);
      assert forall j :: 0 <= j < |items| ==> nxt[j] == cur[i := Patched(cur[i], patch)][j];
  }

  lemma ApplyPatchStep(items: seq<Item>, ids: seq<nat>, patch: UpdateItem, k: nat)
    requires k < |ids|
    ensures ApplyPatch(items, ids[..k + 1], patch) == PatchFirst(ApplyPatch(items, ids[..k], patch), ids[k], patch)
  {
    assert ids[..k + 1][..k] == ids[..k];
  }

  /** Patching the ids one by one changes no id, no length and no order. */
  lemma ApplyPatchKeepsIds(items: seq<Item>, ids: seq<nat>, patch: UpdateItem)
    ensures SameIds(items, ApplyPatch(items, ids, patch))
  {
    ApplyPatchMeetsSpec(items, ids, patch);
    BulkPatchedKeepsIds(items, ids, patch);
  }

  lemma FoundIdsStep(items: seq<Item>, ids: seq<nat>, k: nat)
    requires k < |ids|
    ensures FoundIds(items, ids[..k + 1]) == FoundIds(items, ids[..k]) + (if HasId(items, ids[k]) then [ids[k]] else [])
  {
    assert ids[..k + 1][..k] == ids[..k];
  }

  /** Patching the ids one by one, each on the store the previous ones left,
      meets the reference definition. */
  lemma {:induction false} ApplyPatchMeetsSpec(items: seq<Item>, ids: seq<nat>, patch: UpdateItem)
    ensures ApplyPatch(items, ids, patch) == BulkPatched(items, ids, patch)
    decreases |ids|
  {
    if ids != [] {
      var init, last := ids[..|ids| - 1], ids[|ids| - 1];
      ApplyPatchMeetsSpec(items, init, patch);
      BulkPatchedKeepsIds(items, init, patch);
      FindSameIds(items, BulkPatched(items, init, patch), last);
      BulkPatchedStep(items, init, patch, last);
      assert ids == init + [last];
    }
  }

  /** With unique ids, every item whose id was requested is patched. */
  lemma BulkPatchedUnique(items: seq<Item>, ids: seq<nat>, patch: UpdateItem, j: nat)
    requires UniqueIds(items) && j < |items| && items[j].id in ids
    ensures BulkPatched(items, ids, patch)[j] == Patched(items[j], patch)
  {
  }

  // ----- the ids a bulk update reports -----

  /** An id is reported exactly when it was requested and names an item. */
  lemma {:induction false} FoundIdsMembers(items: seq<Item>, ids: seq<nat>, x: nat)
    ensures x in FoundIds(items, ids) <==> x in ids && HasId(items, x)
    decreases |ids|
  {
    if ids != [] {
      var init := ids[..|ids| - 1];
      FoundIdsMembers(items, init, x);
      assert ids == init + [ids[|ids| - 1]];
    }
  }

  /** A requested id that names an item is reported as often as it was requested. */
  lemma {:induction false} FoundIdsMultiplicity(items: seq<Item>, ids: seq<nat>, x: nat)
    requires HasId(items, x)
    ensures multiset(FoundIds(items, ids))[x] == multiset(ids)[x]
    decreases |ids|
  {
    if ids != [] {
      var init := ids[..|ids| - 1];
      var last := ids[|ids| - 1];
      FoundIdsMultiplicity(items, init, x);
      assert ids == init + [last];
      assert multiset(ids) == multiset(init) + multiset{last};
      assert FoundIds(items, ids) == FoundIds(items, init) + (if HasId(items, last) then [last] else []);
    }
  }

  /** The report is no longer than the request; it is the whole request when
      every id exists and empty when none does. */
  lemma {:induction false} FoundIdsLength(items: seq<Item>, ids: seq<nat>)
    ensures |FoundIds(items, ids)| <= |ids|
    ensures (forall k :: 0 <= k < |ids| ==> HasId(items, ids[k])) ==> FoundIds(items, ids) == ids
    ensures (forall k :: 0 <= k < |ids| ==> !HasId(items, ids[k])) ==> FoundIds(items, ids) == []
    decreases |ids|
  {
    if ids != [] {
      var init := ids[..|ids| - 1];
      FoundIdsLength(items, init);
      assert ids == init + [ids[|ids| - 1]];
    }
  }

  lemma HasIdSameIds(a: seq<Item>, b: seq<Item>, id: nat)
    requires SameIds(a, b)
    ensures HasId(a, id) <==> HasId(b, id)
  {
    FindSameIds(a, b, id);
  }

  /** The reported ids depend only on the ids in the store. */
  lemma {:induction false} FoundIdsSameIds(a: seq<Item>, b: seq<Item>, ids: seq<nat>)
    requires SameIds(a, b)
    ensures FoundIds(a, ids) == FoundIds(b, ids)
    decreases |ids|
  {
    if ids != [] {
      var last := ids[|ids| - 1];
      FoundIdsSameIds(a, b, ids[..|ids| - 1]);
      FindSameIds(a, b, last);
    }
  }
}
