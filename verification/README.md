# Library metadata form — a Dafny model

This project models the library metadata form of the content application's
info drawer (`LibraryMetadataFormComponent`). The form shows a library's
title, description and visibility. A library manager can edit these fields
and the library's tags. The model covers:

- which fields show their validation error (`InstantErrorStateMatcher`);
- who may save, and when the form is valid;
- the visibility labels;
- the title-collision rule applied to the library search result;
- the edit lifecycle (toggle, cancel, tags loaded, tags edited);
- the tag reconciliation plan built on save.

It has three modules:

- `FormRules` (`form_rules.dfy`) holds the pure rules. These are the error
  matcher, the role gate, the validators, the visibility labels and the
  collision rule.
- `TagPlan` (`tag_plan.dfy`) holds the save plan. `saveTags` builds a
  dictionary of repository calls keyed by strings. The model makes it a
  `map` from the same keys (`<tag entry id>Removing`, `tagsAssigning`) to
  the call each key stands for. The plan is returned as data; no call is
  fired.
- `MetadataForm` (`metadata_form.dfy`) holds the component as a class. Its
  fields are those the component overwrites: `edit`, the form values, the
  form's dirty flag, `tags`, `assignedTags`, `assignedTagsEntries` and
  `libraryTitleExists`. `SaveTags` is the `forEach` loop, proved against
  `TagPlan.SavePlan`.

Results of repository calls reach the component in subscription callbacks.
In the model they are method parameters: `TagsLoaded` takes the loaded tag
entries, and `TitleLookupCompleted` takes the outcome of the library search.
The calls the component would fire are returned as values: `UpdateForm`
returns the node id whose tags it requests, and `Update` returns the update
action and the tag plan.

Points where the model follows the code:

- The update action carries the form's value. That value leaves out the
  disabled `id` control, so `LibraryUpdate` has only the title, the
  description and the visibility.
- The collision callback compares the title the form holds when the search
  result arrives. That need not be the title that was searched.
- Removals come from `assignedTagsEntries`, the entries loaded with the
  node. They do not come from the `assignedTags` snapshot.
- A failed library search is replaced by an empty page, so it never reports
  a collision.
- The length limits count UTF-16 code units, as a string's `length` does in
  the source's runtime. A character outside the Basic Multilingual Plane
  counts twice.

## Model

| member | source | states |
|---|---|---|
| `FormRules.IsErrorState` | projects/aca-content/src/lib/components/info-drawer/library-metadata-tab/library-metadata-form.component.ts:37-42 | an error shows exactly when a control exists, is invalid, and is dirty, touched or its form is submitted; a valid, pending or disabled control never shows one |
| `FormRules.CanUpdateLibrary` | projects/aca-content/src/lib/components/info-drawer/library-metadata-tab/library-metadata-form.component.ts:88-90 | true exactly when the node and its entry exist and the entry's role is `SiteManager` |
| `FormRules.AllPass` | projects/aca-content/src/lib/components/info-drawer/library-metadata-tab/library-metadata-form.component.ts:72-73 | a value passes a control's validator list exactly when it passes each validator |
| `FormRules.Utf16Length` | projects/aca-content/src/lib/components/info-drawer/library-metadata-tab/library-metadata-form.component.ts:72-73 | the length the validators compare is the UTF-16 length: at least the character count, at most twice it, and zero only for the empty string |
| `FormRules.BmpLength` | projects/aca-content/src/lib/components/info-drawer/library-metadata-tab/library-metadata-form.component.ts:72-73 | a string with no character outside the Basic Multilingual Plane has a UTF-16 length equal to its character count |
| `FormRules.AstralLength` | projects/aca-content/src/lib/components/info-drawer/library-metadata-tab/library-metadata-form.component.ts:72-73 | a string of characters outside the Basic Multilingual Plane has a UTF-16 length of twice its character count |
| `FormRules.Passes` | projects/aca-content/src/lib/components/info-drawer/library-metadata-tab/library-metadata-form.component.ts:72-73 | `required` passes exactly a non-empty value; a value passing `maxLength(n)` has at most n characters, and every value of at most n/2 characters passes it |
| `FormRules.FormValid` | projects/aca-content/src/lib/components/info-drawer/library-metadata-tab/library-metadata-form.component.ts:70-75 | the form is valid exactly when the title has 1 to 256 UTF-16 code units and the description at most 512; the disabled `id` and the unvalidated visibility do not take part |
| `FormRules.AstralTitleTooLong` | projects/aca-content/src/lib/components/info-drawer/library-metadata-tab/library-metadata-form.component.ts:72 | a title of 129 characters outside the Basic Multilingual Plane (258 code units) makes the form invalid |
| `FormRules.ErrorsFollowValidity` | projects/aca-content/src/lib/components/info-drawer/library-metadata-tab/library-metadata-form.component.ts:37-42 | on a valid form neither the title nor the description control shows an error; an invalid title shows its error once the form is submitted |
| `FormRules.FormOf` | projects/aca-content/src/lib/components/info-drawer/library-metadata-tab/library-metadata-form.component.ts:166-171 | the form takes the entry's id, title and visibility; a missing description becomes the empty string |
| `FormRules.FindType` | projects/aca-content/src/lib/components/info-drawer/library-metadata-tab/library-metadata-form.component.ts:105 | `find` returns the first library type with that value, and nothing exactly when no type has it |
| `FormRules.GetVisibilityLabel` | projects/aca-content/src/lib/components/info-drawer/library-metadata-tab/library-metadata-form.component.ts:104-106 | a label exists exactly for PUBLIC, PRIVATE and MODERATED, and it is `LIBRARY.VISIBILITY.` followed by the value |
| `FormRules.VisibilityLabelsDistinct` | projects/aca-content/src/lib/components/info-drawer/library-metadata-tab/library-metadata-form.component.ts:64-68 | two visibility values with the same label are the same value |
| `FormRules.PageOrEmpty` | projects/aca-content/src/lib/components/info-drawer/library-metadata-tab/library-metadata-form.component.ts:176-185 | a failed search yields a page with no entries; a successful one yields its own page |
| `FormRules.TitleExists` | projects/aca-content/src/lib/components/info-drawer/library-metadata-tab/library-metadata-form.component.ts:127-139 | a collision exactly when there is a hit, the form title is not the node's own title, and the first hit's title equals the form title; a collision means some hit carries the form title |
| `FormRules.OwnTitleNeverCollides` | projects/aca-content/src/lib/components/info-drawer/library-metadata-tab/library-metadata-form.component.ts:131-132 | keeping the node's own title never collides, whatever the search delivers |
| `FormRules.FailedSearchNeverCollides` | projects/aca-content/src/lib/components/info-drawer/library-metadata-tab/library-metadata-form.component.ts:183 | a failed search never reports a collision |
| `TagPlan.RemovalKey` | projects/aca-content/src/lib/components/info-drawer/library-metadata-tab/library-metadata-form.component.ts:200 | a removal key is the entry id followed by `Removing` |
| `TagPlan.RemovalKeyInjective` | projects/aca-content/src/lib/components/info-drawer/library-metadata-tab/library-metadata-form.component.ts:200 | different entry ids give different removal keys |
| `TagPlan.AssignKeyIsNoRemovalKey` | projects/aca-content/src/lib/components/info-drawer/library-metadata-tab/library-metadata-form.component.ts:200-204 | the `tagsAssigning` key never overwrites a removal |
| `TagPlan.TagNames` | projects/aca-content/src/lib/components/info-drawer/library-metadata-tab/library-metadata-form.component.ts:190 | the tag list has one text per entry, in order, each the entry's tag |
| `TagPlan.DroppedEntries` | projects/aca-content/src/lib/components/info-drawer/library-metadata-tab/library-metadata-form.component.ts:198-202 | the dropped entries are exactly the assigned entries whose tag is not in the edited list |
| `TagPlan.DroppedSingle` | projects/aca-content/src/lib/components/info-drawer/library-metadata-tab/library-metadata-form.component.ts:199-201 | a single assigned entry is dropped exactly when its tag is no longer in the edited list |
| `TagPlan.DroppedEntriesInOrder` | projects/aca-content/src/lib/components/info-drawer/library-metadata-tab/library-metadata-form.component.ts:198-202 | the dropped entries of a concatenation are those of each part, in turn, so they keep their original order and multiplicity |
| `TagPlan.Removals` | projects/aca-content/src/lib/components/info-drawer/library-metadata-tab/library-metadata-form.component.ts:198-202 | the `forEach` puts at most one removal per assigned entry; each value removes a tag entry from the node and sits under that entry's `Removing` key |
| `TagPlan.SavePlan` | projects/aca-content/src/lib/components/info-drawer/library-metadata-tab/library-metadata-form.component.ts:195-215 | the dictionary holds at most one call per assigned entry plus the assignment, and every call targets the node |
| `TagPlan.RemovalsExact` | projects/aca-content/src/lib/components/info-drawer/library-metadata-tab/library-metadata-form.component.ts:198-202 | the loop puts a removal key for an id exactly when an entry with that id has a dropped tag; each key is a removal key, and its call removes that id from the node |
| `TagPlan.DroppedTagIsRemoved` | projects/aca-content/src/lib/components/info-drawer/library-metadata-tab/library-metadata-form.component.ts:198-202 | each entry whose tag was dropped has its removal in the plan, carrying the node guid and the entry id |
| `TagPlan.KeptTagIsNotRemoved` | projects/aca-content/src/lib/components/info-drawer/library-metadata-tab/library-metadata-form.component.ts:199 | with distinct entry ids, no removal is planned for an entry whose tag is still in the list |
| `TagPlan.OnlyRemovalsBesideAssign` | projects/aca-content/src/lib/components/info-drawer/library-metadata-tab/library-metadata-form.component.ts:195-215 | every plan entry other than `tagsAssigning` removes a dropped entry from the node |
| `TagPlan.AssignPlannedIffTags` | projects/aca-content/src/lib/components/info-drawer/library-metadata-tab/library-metadata-form.component.ts:203-212 | the bulk assignment is planned exactly when the edited list is non-empty; it targets the node and carries every edited tag in order |
| `TagPlan.RemovalCount` | projects/aca-content/src/lib/components/info-drawer/library-metadata-tab/library-metadata-form.component.ts:198-202 | with distinct entry ids, there is exactly one removal per dropped entry |
| `TagPlan.UnchangedTagsOnlyReassign` | projects/aca-content/src/lib/components/info-drawer/library-metadata-tab/library-metadata-form.component.ts:195-215 | saving the tags as loaded plans no removal: only the bulk re-assignment, or nothing when there are no tags |
| `TagPlan.ReplaceOneTagPlan` | projects/aca-content/src/lib/components/info-drawer/library-metadata-tab/library-metadata-form.component.ts:195-215 | with t1, t2, t3 assigned and t2, t3, t4 edited, the plan removes only t1 and assigns all of t2, t3, t4 in one call |
| `TagPlan.EmptyPlan` | projects/aca-content/src/lib/components/info-drawer/library-metadata-tab/library-metadata-form.component.ts:197-213 | no assigned entries and no tags give an empty plan |
| `MetadataForm.LibraryMetadataForm.constructor` | projects/aca-content/src/lib/components/info-drawer/library-metadata-tab/library-metadata-form.component.ts:57-84 | the component starts in view mode, with no collision, a clean form whose visibility is the first library type, and empty tag lists |
| `MetadataForm.LibraryMetadataForm.UpdateForm` | projects/aca-content/src/lib/components/info-drawer/library-metadata-tab/library-metadata-form.component.ts:163-174 | the form holds the entry's values and the entry's guid is the node whose tags are requested |
| `MetadataForm.LibraryMetadataForm.Refresh` | projects/aca-content/src/lib/components/info-drawer/library-metadata-tab/library-metadata-form.component.ts:147-149 | `ngOnChanges` (and the first step of `ngOnInit`) reset the form from the current node and request its tags |
| `MetadataForm.LibraryMetadataForm.TagsLoaded` | projects/aca-content/src/lib/components/info-drawer/library-metadata-tab/library-metadata-form.component.ts:187-192 | after the load, the assigned entries are the loaded ones, `tags` is their tag texts in order, and `assignedTags` equals `tags` |
| `MetadataForm.LibraryMetadataForm.ToggleEdit` | projects/aca-content/src/lib/components/info-drawer/library-metadata-tab/library-metadata-form.component.ts:108-111 | edit mode is negated and `assignedTags` equals `tags`; unedited tags stay unedited |
| `MetadataForm.LibraryMetadataForm.Cancel` | projects/aca-content/src/lib/components/info-drawer/library-metadata-tab/library-metadata-form.component.ts:113-116 | the form is restored from the node, its tags are requested again, edit mode is negated, and the snapshot equals the still-unreloaded `tags` |
| `MetadataForm.LibraryMetadataForm.StoreTagsToAssign` | projects/aca-content/src/lib/components/info-drawer/library-metadata-tab/library-metadata-form.component.ts:158-161 | `tags` becomes the given list and the form is dirty; the snapshot and the assigned entries are unchanged |
| `MetadataForm.LibraryMetadataForm.TitleLookupCompleted` | projects/aca-content/src/lib/components/info-drawer/library-metadata-tab/library-metadata-form.component.ts:127-139 | the collision flag becomes the collision rule applied to the current form title, the node's title and the delivered page; an empty or failed search clears it |
| `MetadataForm.LibraryMetadataForm.SaveTags` | projects/aca-content/src/lib/components/info-drawer/library-metadata-tab/library-metadata-form.component.ts:195-215 | the dictionary the loop builds is the save plan for the assigned entries, the edited tags and the node guid |
| `MetadataForm.LibraryMetadataForm.Update` | projects/aca-content/src/lib/components/info-drawer/library-metadata-tab/library-metadata-form.component.ts:151-156 | an update happens exactly when the user manages the library and the form is valid; it carries title, description and visibility plus the save plan; otherwise nothing is planned; with unedited tags the plan holds only the assignment |
| `MetadataForm.ToggleTwice` | projects/aca-content/src/lib/components/info-drawer/library-metadata-tab/library-metadata-form.component.ts:108-111 | toggling edit mode twice restores the original mode |

## Left out

- Timing of the title lookup is not modelled. This covers the 300 ms debounce, `mergeMap` and the `takeUntil` teardown in `ngOnDestroy`. `mergeMap` does not cancel earlier lookups, so results may arrive in any order. Each arrival is one `TitleLookupCompleted` call, and nothing claims that the latest title wins.
- The repository calls are not modelled: `findSites`, `getTagsByNodeId`, `removeTag`, `assignTagsToNode`, the store dispatch and `forkJoin`. Their results are method parameters and their requests are returned values.
- The lazily created `queriesApi` getter is not modelled. It only builds the API client.
- The order of keys in the `observables` dictionary is not modelled. That order decides which call `forkJoin` subscribes to first. The plan is a `map`, and the order of removals is stated separately by `TagPlan.DroppedEntries` together with `TagPlan.DroppedEntriesInOrder`.
- `saveTags` guards on `if (this.tags)`. `tags` is always a list in the model, so the guard always holds. An array is truthy in the source even when empty.
- Angular form machinery is not modelled beyond the validators, the form values and the form's dirty flag. This includes control objects, the controls' own dirty flags, `touched` tracking and the disabled `id` control's status.
- The title and description controls start with the object `{ value: '' }`, which is not a boxed form state. The constructor starts them as empty strings instead. `updateForm` overwrites them before any use.
- `edit` has no initial value in the source, so it starts as `undefined`, which is falsy. The model starts it as `false`.
- `MetadataForm.LibraryMetadataForm.UpdateForm`, `Refresh` and `Cancel` require the node and its entry to exist. `TitleLookupCompleted` requires them whenever the search delivered a hit. On a missing node the source throws a `TypeError` while dereferencing it.
- `FormRules.GetVisibilityLabel`: an unknown value makes the source throw. The model returns `None` instead.
- `tagNameControlVisible` and the constant `tagsCreatorMode` getter are not modelled. Neither holds logic.
- The info drawer's node resolution is not modelled.
