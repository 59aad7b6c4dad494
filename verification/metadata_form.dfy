/** The library metadata form component: its mutable state (the edit flag,
    the form values, the edited and the assigned tags, the collision flag) and
    the operations that change it. Results of repository calls, which the
    component receives in callbacks, are parameters of the methods that model
    those callbacks; the calls the component would fire are returned as data. */
module MetadataForm {
  import opened FormRules
  import opened TagPlan

  /** The payload of the update action: the form's value without the disabled
      `id` control. */
  datatype LibraryUpdate = LibraryUpdate(title: string, description: string, visibility: string)

  class LibraryMetadataForm {
    /** The library being shown (the `node` input); it may be missing. */
    var node: Option<SiteEntry>
    /** Whether the form is in edit mode. */
    var edit: bool
    /** Whether the edited title collides with another library. */
    var libraryTitleExists: bool
    /** The values of the four form controls. */
    var form: FormValue
    /** The form group's dirty flag. */
    var dirty: bool
    /** The edited tag list. */
    var tags: seq<string>
    /** The tag list as it was when edit mode was last toggled or the tags loaded. */
    var assignedTags: seq<string>
    /** The tag entries the node had when its tags were last loaded. */
    var assignedTagsEntries: seq<TagEntry>

    /** The edited tags are the loaded ones: nothing was changed since the load. */
    ghost predicate TagsUnedited()
      reads this
    {
      tags == assignedTags && tags == TagNames(assignedTagsEntries)
    }

    /** The component as created, with the `node` input bound: view mode, no
        collision, empty tag lists, and the form at its initial values with the
        first visibility type selected. */
    constructor (node: Option<SiteEntry>)
      ensures this.node == node && !edit && !libraryTitleExists && !dirty
      ensures form == FormValue("", "", "", LibraryTypes[0].value)
      ensures tags == [] && assignedTags == [] && assignedTagsEntries == []
      ensures TagsUnedited()
    {
      this.node := node;
      edit := false;
      libraryTitleExists := false;
      form := FormValue("", "", "", LibraryTypes[0].value);
      dirty := false;
      tags := [];
      assignedTags := [];
      assignedTagsEntries := [];
    }

    /** The library title the collision rule compares with. */
    function NodeTitle(): string
      reads this
      requires HasEntry(node)
    {
      node.value.entry.value.title
    }

    /** `updateForm`: copy the library entry into the form and request its
        tags; `requested` is the node id whose tags are asked for. The tags
        arrive later, in `TagsLoaded`. */
    method UpdateForm(n: SiteEntry) returns (requested: string)
      requires n.entry.Some?
      modifies this`form
      ensures form == FormOf(n.entry.value)
      ensures requested == n.entry.value.guid
    {
      var entry := n.entry.value;
      form := FormOf(entry);
      requested := entry.guid;
    }

    /** `ngOnInit` and `ngOnChanges`: refresh the form from the current node. */
    method Refresh() returns (requested: string)
      requires HasEntry(node)
      modifies this`form
      ensures form == FormOf(node.value.entry.value)
      ensures requested == node.value.entry.value.guid
    {
      requested := UpdateForm(node.value);
    }

    /** The callback of `loadTagsForNode`: the loaded entries become the
        assigned entries, their tag texts the edited list and its snapshot. */
    method TagsLoaded(entries: seq<TagEntry>)
      modifies this`assignedTagsEntries, this`tags, this`assignedTags
      ensures assignedTagsEntries == entries
      ensures tags == TagNames(entries) && assignedTags == tags
      ensures TagsUnedited()
    {
      assignedTagsEntries := entries;
      tags := TagNames(entries);
      assignedTags := tags;
    }

    /** `toggleEdit`: flip edit mode and snapshot the edited tags. */
    method ToggleEdit()
      modifies this`edit, this`assignedTags
      ensures edit == !old(edit)
      ensures assignedTags == tags
      ensures old(TagsUnedited()) ==> TagsUnedited()
    {
      edit := !edit;
      assignedTags := tags;
    }

    /** `cancel`: restore the form from the node, request its tags again (the
        edited tags are replaced once they arrive, in `TagsLoaded`), and flip
        edit mode. */
    method Cancel() returns (requested: string)
      requires HasEntry(node)
      modifies this`form, this`edit, this`assignedTags
      ensures form == FormOf(node.value.entry.value)
      ensures requested == node.value.entry.value.guid
      ensures edit == !old(edit)
      ensures tags == old(tags) && assignedTags == tags
    {
      requested := UpdateForm(node.value);
      ToggleEdit();
    }

    /** `storeTagsToAssign`: replace the edited tags and mark the form dirty;
        the assigned snapshot and entries stay as they were. */
    method StoreTagsToAssign(t: seq<string>)
      modifies this`tags, this`dirty
      ensures tags == t && dirty
      ensures assignedTags == old(assignedTags) && assignedTagsEntries == old(assignedTagsEntries)
    {
      tags := t;
      dirty := true;
    }

    /** The subscription callback of the title lookup, given what the search
        delivered (a failed search counts as no hits). It compares the title
        the form holds when the result arrives. */
    method TitleLookupCompleted(outcome: SearchOutcome)
      requires |PageOrEmpty(outcome).entries| > 0 ==> HasEntry(node)
      modifies this`libraryTitleExists
      ensures libraryTitleExists ==> HasEntry(node)
      ensures libraryTitleExists == (|PageOrEmpty(outcome).entries| > 0 &&
                                     TitleExists(form.title, NodeTitle(), PageOrEmpty(outcome)))
    {
      var entries := PageOrEmpty(outcome).entries;
      if |entries| > 0 {
        if form.title == NodeTitle() {
          libraryTitleExists := false;
        } else {
          libraryTitleExists := form.title == entries[0].title;
        }
      } else {
        libraryTitleExists := false;
      }
    }

    /** `saveTags`: walk the assigned entries and plan one removal per entry
        whose tag was dropped, then the bulk assignment of all edited tags. */
    method SaveTags() returns (ops: map<string, TagOp>)
      requires HasEntry(node)
      ensures ops == SavePlan(assignedTagsEntries, tags, node.value.entry.value.guid)
    {
      var guid := node.value.entry.value.guid;
      ops := map[];
      var i := 0;
      while i < |assignedTagsEntries|
        invariant 0 <= i <= |assignedTagsEntries|
        invariant ops == Removals(assignedTagsEntries[..i], tags, guid)
      {
        var e := assignedTagsEntries[i];
        assert assignedTagsEntries[..i + 1][..i] == assignedTagsEntries[..i];
        if e.tag !in tags {
          ops := ops[RemovalKey(e.id) := RemoveTag(guid, e.id)];
        }
        i := i + 1;
      }
      assert assignedTagsEntries[..i] == assignedTagsEntries;
      if |tags| > 0 {
        ops := ops[AssignKey := AssignTags(guid, tags)];
      }
    }

    /** `update`: only a library manager with a valid form saves; the save is
        the update action with the form's values and the tag plan. Otherwise
        nothing happens. */
    method Update() returns (action: Option<LibraryUpdate>, ops: map<string, TagOp>)
      ensures action.Some? <==> CanUpdateLibrary(node) && FormValid(form)
      ensures action.Some? ==> action.value == LibraryUpdate(form.title, form.description, form.visibility)
      ensures action.Some? ==> ops == SavePlan(assignedTagsEntries, tags, node.value.entry.value.guid)
      ensures action.None? ==> ops == map[]
      ensures action.Some? && TagsUnedited() ==> forall k :: k in ops ==> k == AssignKey
    {
      if CanUpdateLibrary(node) && FormValid(form) {
        action := Some(LibraryUpdate(form.title, form.description, form.visibility));
        ops := SaveTags();
        UnchangedTagsOnlyReassign(assignedTagsEntries, node.value.entry.value.guid);
      } else {
        action := None;
        ops := map[];
      }
    }
  }

  /** Toggling edit mode twice restores the mode and leaves the snapshot equal
      to the edited tags. */
  method ToggleTwice(f: LibraryMetadataForm)
    modifies f`edit, f`assignedTags
    ensures f.edit == old(f.edit)
    ensures f.tags == old(f.tags) && f.assignedTags == f.tags
  {
    f.ToggleEdit();
    f.ToggleEdit();
  }
}
