/** The tag reconciliation performed when the library form is saved. The
    component collects the repository calls it will make in a dictionary keyed
    by strings; here that dictionary is a map from the same keys to the call it
    stands for, so the plan is data rather than a fired request. */
module TagPlan {

  /** A tag assigned to a node: the tag entry's id and its text. */
  datatype TagEntry = TagEntry(id: string, tag: string)

  /** One repository call of the save: remove one tag entry from the node, or
      assign the whole list of tags to it. */
  datatype TagOp = RemoveTag(nodeId: string, tagId: string) | AssignTags(nodeId: string, tags: seq<string>)

  const RemovingSuffix: string := "Removing"
  const AssignKey: string := "tagsAssigning"

  /** The dictionary key of the removal of tag entry `tagId`. */
  function RemovalKey(tagId: string): (k: string)
    ensures |k| == |tagId| + |RemovingSuffix|
    ensures k[..|tagId|] == tagId && k[|tagId|..] == RemovingSuffix
  {
    tagId + RemovingSuffix
  }

  /** Different tag entries get different removal keys. */
  lemma RemovalKeyInjective()
    ensures forall a, b :: RemovalKey(a) == RemovalKey(b) ==> a == b
  {
  }

  /** The key of the bulk assignment never clashes with a removal key. */
  lemma AssignKeyIsNoRemovalKey()
    ensures forall id :: RemovalKey(id) != AssignKey
  {
  }

  /** The tag texts of a list of tag entries, in order. */
  function TagNames(entries: seq<TagEntry>): (names: seq<string>)
    ensures |names| == |entries|
    ensures forall i :: 0 <= i < |entries| ==> names[i] == entries[i].tag
  {
    if entries == [] then [] else [entries[0].tag] + TagNames(entries[1..])
  }

  /** Whether some assigned entry with id `id` carries a tag that is no longer
      in the edited list. */
  ghost predicate Dropped(entries: seq<TagEntry>, tags: seq<string>, id: string) {
    exists e :: e in entries && e.id == id && e.tag !in tags
  }

  /** The assigned entries whose tag was dropped from the edited list, in their
      original order. */
  function DroppedEntries(entries: seq<TagEntry>, tags: seq<string>): (r: seq<TagEntry>)
    ensures forall e :: e in r <==> e in entries && e.tag !in tags
    ensures |r| <= |entries|
  {
    if entries == [] then []
    else
      var last := entries[|entries| - 1];
      var front := entries[..|entries| - 1];
      assert entries == front + [last];
      DroppedEntries(front, tags) + (if last.tag in tags then [] else [last])
  }

  /** A single entry is dropped exactly when its tag is gone. */
  lemma DroppedSingle(e: TagEntry, tags: seq<string>)
    ensures DroppedEntries([e], tags) == if e.tag in tags then [] else [e]
  {
  }

  /** Dropping entries keeps their original order and multiplicity: the
      dropped entries of a concatenation are those of each part, in turn. */
  lemma {:induction false} DroppedEntriesInOrder(a: seq<TagEntry>, b: seq<TagEntry>, tags: seq<string>)
    ensures DroppedEntries(a + b, tags) == DroppedEntries(a, tags) + DroppedEntries(b, tags)
  {
    if b == [] {
      assert a + b == a;
    } else {
      var front := b[..|b| - 1];
      var last := b[|b| - 1];
      var tail := if last.tag in tags then [] else [last];
      assert (a + b)[..|a + b| - 1] == a + front;
      assert (a + b)[|a + b| - 1] == last;
      assert DroppedEntries(a + b, tags) == DroppedEntries(a + front, tags) + tail;
      assert DroppedEntries(b, tags) == DroppedEntries(front, tags) + tail;
      DroppedEntriesInOrder(a, front, tags);
    }
  }

  /** The removals the `forEach` over the assigned entries puts into the
      dictionary, entry by entry: a dropped tag adds (or overwrites) the key of
      its entry's id. */
  function Removals(entries: seq<TagEntry>, tags: seq<string>, nodeId: string): (r: map<string, TagOp>)
    ensures |r| <= |entries|
    ensures forall k :: k in r ==> r[k].RemoveTag? && r[k].nodeId == nodeId && k == RemovalKey(r[k].tagId)
  {
    if entries == [] then map[]
    else
      var m := Removals(entries[..|entries| - 1], tags, nodeId);
      var e := entries[|entries| - 1];
      if e.tag in tags then m else m[RemovalKey(e.id) := RemoveTag(nodeId, e.id)]
  }

  /** The whole dictionary `saveTags` returns: the removals, plus one bulk
      assignment of every current tag when the list is not empty. */
  function SavePlan(entries: seq<TagEntry>, tags: seq<string>, nodeId: string): (r: map<string, TagOp>)
    ensures |r| <= |entries| + (if |tags| > 0 then 1 else 0)
    ensures forall k :: k in r ==> r[k].nodeId == nodeId
  {
    var removals := Removals(entries, tags, nodeId);
    if |tags| > 0 then removals[AssignKey := AssignTags(nodeId, tags)] else removals
  }

  /** The removal part of the plan: a removal key is present exactly for the
      ids of dropped entries, every key is a removal key, and each removal
      targets the node and carries its own entry id. */
  lemma {:induction false} RemovalsExact(entries: seq<TagEntry>, tags: seq<string>, nodeId: string)
    ensures forall id :: RemovalKey(id) in Removals(entries, tags, nodeId) <==> Dropped(entries, tags, id)
    ensures forall k :: k in Removals(entries, tags, nodeId) ==>
              exists id :: k == RemovalKey(id) && Removals(entries, tags, nodeId)[k] == RemoveTag(nodeId, id)
  {
    if entries != [] {
      var front := entries[..|entries| - 1];
      var e := entries[|entries| - 1];
      assert entries == front + [e];
      RemovalsExact(front, tags, nodeId);
      RemovalKeyInjective();
      forall id ensures RemovalKey(id) in Removals(entries, tags, nodeId) <==> Dropped(entries, tags, id) {
        if Dropped(entries, tags, id) {
          var d :| d in entries && d.id == id && d.tag !in tags;
          if d != e {
            assert d in front;
            assert Dropped(front, tags, id);
          }
        }
        if Dropped(front, tags, id) {
          var d :| d in front && d.id == id && d.tag !in tags;
          assert d in entries;
        }
      }
      var r := Removals(entries, tags, nodeId);
      forall k | k in r
        ensures exists id :: k == RemovalKey(id) && r[k] == RemoveTag(nodeId, id)
      {
        if e.tag !in tags && k == RemovalKey(e.id) {
          assert r[k] == RemoveTag(nodeId, e.id);
        }
      }
    }
  }

  /** Every assigned entry whose tag was dropped has its removal in the plan,
      aimed at the node and carrying the entry's id. */
  lemma DroppedTagIsRemoved(entries: seq<TagEntry>, tags: seq<string>, nodeId: string, e: TagEntry)
    requires e in entries && e.tag !in tags
    ensures RemovalKey(e.id) in SavePlan(entries, tags, nodeId)
    ensures SavePlan(entries, tags, nodeId)[RemovalKey(e.id)] == RemoveTag(nodeId, e.id)
  {
    RemovalsExact(entries, tags, nodeId);
    AssignKeyIsNoRemovalKey();
    assert Dropped(entries, tags, e.id);
    RemovalKeyInjective();
  }

  /** Tag entry ids are distinct (the repository gives each assignment its own id). */
  ghost predicate UniqueIds(entries: seq<TagEntry>) {
    forall i, j :: 0 <= i < j < |entries| ==> entries[i].id != entries[j].id
  }

  /** An entry whose tag is still in the edited list is not removed. */
  lemma KeptTagIsNotRemoved(entries: seq<TagEntry>, tags: seq<string>, nodeId: string, e: TagEntry)
    requires UniqueIds(entries) && e in entries && e.tag in tags
    ensures RemovalKey(e.id) !in SavePlan(entries, tags, nodeId)
  {
    RemovalsExact(entries, tags, nodeId);
    AssignKeyIsNoRemovalKey();
  }

  /** A plan key other than the assignment key is always a removal. */
  lemma OnlyRemovalsBesideAssign(entries: seq<TagEntry>, tags: seq<string>, nodeId: string, k: string)
    requires k in SavePlan(entries, tags, nodeId) && k != AssignKey
    ensures SavePlan(entries, tags, nodeId)[k].RemoveTag?
    ensures SavePlan(entries, tags, nodeId)[k].nodeId == nodeId
    ensures Dropped(entries, tags, SavePlan(entries, tags, nodeId)[k].tagId)
  {
    RemovalsExact(entries, tags, nodeId);
    var id :| k == RemovalKey(id) && SavePlan(entries, tags, nodeId)[k] == RemoveTag(nodeId, id);
  }

  /** The assignment is planned exactly when the edited list is not empty, and
      then it carries every current tag in order, not only the new ones. */
  lemma AssignPlannedIffTags(entries: seq<TagEntry>, tags: seq<string>, nodeId: string)
    ensures AssignKey in SavePlan(entries, tags, nodeId) <==> |tags| > 0
    ensures |tags| > 0 ==> SavePlan(entries, tags, nodeId)[AssignKey] == AssignTags(nodeId, tags)
  {
  }

  /** With distinct ids there is exactly one removal per dropped entry. */
  lemma {:induction false} RemovalCount(entries: seq<TagEntry>, tags: seq<string>, nodeId: string)
    requires UniqueIds(entries)
    ensures |Removals(entries, tags, nodeId)| == |DroppedEntries(entries, tags)|
  {
    if entries != [] {
      var front := entries[..|entries| - 1];
      var e := entries[|entries| - 1];
      assert entries == front + [e];
      RemovalCount(front, tags, nodeId);
      if e.tag !in tags {
        RemovalsExact(front, tags, nodeId);
      }
    }
  }

  /** Saving the tags exactly as they were loaded removes nothing; the plan is
      only the bulk re-assignment (or empty when there are no tags). */
  lemma UnchangedTagsOnlyReassign(entries: seq<TagEntry>, nodeId: string)
    ensures SavePlan(entries, TagNames(entries), nodeId) ==
              if entries == [] then map[] else map[AssignKey := AssignTags(nodeId, TagNames(entries))]
  {
    var names := TagNames(entries);
    RemovalsExact(entries, names, nodeId);
    var r := Removals(entries, names, nodeId);
    assert r == map[];
  }

  /** Replacing one tag: with t1, t2, t3 assigned and t2, t3, t4 edited, only
      t1 is removed, and all of t2, t3, t4 are (re)assigned in one call. */
  lemma ReplaceOneTagPlan(nodeId: string)
    ensures SavePlan([TagEntry("1", "t1"), TagEntry("2", "t2"), TagEntry("3", "t3")], ["t2", "t3", "t4"], nodeId)
         == map[RemovalKey("1") := RemoveTag(nodeId, "1"), AssignKey := AssignTags(nodeId, ["t2", "t3", "t4"])]
  {
    var tags := ["t2", "t3", "t4"];
    assert "t1" !in tags by {
      assert "t1"[1] != "t2"[1] && "t1"[1] != "t3"[1] && "t1"[1] != "t4"[1];
    }
    assert tags[0] == "t2" && tags[1] == "t3";
    var es := [TagEntry("1", "t1"), TagEntry("2", "t2"), TagEntry("3", "t3")];
    var one := map[RemovalKey("1") := RemoveTag(nodeId, "1")];
    assert es[..1] == [TagEntry("1", "t1")] && es[..1][..0] == [];
    assert Removals(es[..1], tags, nodeId) == one;
    assert es[..2] == [TagEntry("1", "t1"), TagEntry("2", "t2")] && es[..2][..1] == es[..1];
    assert Removals(es[..2], tags, nodeId) == one;
    assert es[..3][..2] == es[..2];
    assert Removals(es, tags, nodeId) == one;
  }

  /** Nothing to save on either side gives an empty plan. */
  lemma EmptyPlan(nodeId: string)
    ensures SavePlan([], [], nodeId) == map[]
  {
  }
}
