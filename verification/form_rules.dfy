/** Pure rules of the library metadata form: when a field shows its error,
    who may update a library, what makes the form valid, which label a
    visibility value has, and when an edited title collides with an existing
    library. */
module FormRules {

  datatype Option<+T> = None | Some(value: T)

  // ---------------------------------------------------------------------------
  // Error display

  /** Validation status of a form control; only INVALID makes it `invalid`. */
  datatype ControlStatus = Valid | Invalid | Pending | Disabled

  /** The flags of a form control that the error-state matcher reads. */
  datatype Control = Control(status: ControlStatus, dirty: bool, touched: bool)
  {
    predicate IsInvalid() { status == Invalid }
  }

  /** The form directive around a control; only its `submitted` flag is read. */
  datatype FormDirective = FormDirective(submitted: bool)

  /** `InstantErrorStateMatcher.isErrorState`: an error is shown for a control
      that exists and is invalid once the user changed it, left it, or the
      form was submitted. Either argument may be absent (null). */
  function IsErrorState(control: Option<Control>, form: Option<FormDirective>): (r: bool)
    ensures r <==> control.Some? && control.value.status == Invalid &&
                   (control.value.dirty || control.value.touched || (form.Some? && form.value.submitted))
    ensures r ==> control.Some? && control.value.status !in {Valid, Pending, Disabled}
  {
    var isSubmitted := form.Some? && form.value.submitted;
    match control
    case None => false
    case Some(c) => c.IsInvalid() && (c.dirty || c.touched || isSubmitted)
  }

  // ---------------------------------------------------------------------------
  // The library node

  /** A library (site) entry as the repository returns it. `description` and
      `role` may be missing; `role` is the current user's role in the library. */
  datatype Site = Site(id: string, guid: string, title: string, description: Option<string>,
                       visibility: string, role: Option<string>)

  /** The `SiteEntry` wrapper; its `entry` may be missing. */
  datatype SiteEntry = SiteEntry(entry: Option<Site>)

  const SiteManager: string := "SiteManager"

  predicate HasEntry(node: Option<SiteEntry>) {
    node.Some? && node.value.entry.Some?
  }

  /** The `canUpdateLibrary` getter: only the manager of an existing library
      may update it. */
  function CanUpdateLibrary(node: Option<SiteEntry>): (r: bool)
    ensures r <==> node.Some? && node.value.entry.Some? && node.value.entry.value.role == Some(SiteManager)
    ensures r ==> HasEntry(node)
  {
    match node
    case None => false
    case Some(n) =>
      match n.entry
      case None => false
      case Some(site) => site.role.Some? && site.role.value == SiteManager
  }

  // ---------------------------------------------------------------------------
  // Form fields and their validators

  /** The values of the form's four controls. */
  datatype FormValue = FormValue(id: string, title: string, description: string, visibility: string)

  /** The two validator kinds the form uses. */
  datatype Validator = Required | MaxLength(limit: nat)

  /** The number of UTF-16 code units a character takes: two for a character
      outside the Basic Multilingual Plane, one otherwise. */
  function CodeUnits(c: char): nat {
    if c as int >= 0x1_0000 then 2 else 1
  }

  /** The `length` of a string in the source's runtime, which counts UTF-16
      code units rather than characters. */
  function Utf16Length(s: string): (n: nat)
    ensures |s| <= n <= 2 * |s|
    ensures n == 0 <==> s == []
  {
    if s == [] then 0 else CodeUnits(s[0]) + Utf16Length(s[1..])
  }

  /** A string without characters outside the Basic Multilingual Plane has as
      many code units as characters. */
  lemma {:induction false} BmpLength(s: string)
    requires forall i :: 0 <= i < |s| ==> s[i] as int < 0x1_0000
    ensures Utf16Length(s) == |s|
  {
    if s != [] {
      BmpLength(s[1..]);
    }
  }

  /** A string made only of characters outside the Basic Multilingual Plane
      has twice as many code units as characters. */
  lemma {:induction false} AstralLength(s: string)
    requires forall i :: 0 <= i < |s| ==> s[i] as int >= 0x1_0000
    ensures Utf16Length(s) == 2 * |s|
  {
    if s != [] {
      AstralLength(s[1..]);
    }
  }

  /** Whether a string value passes one validator. `required` rejects exactly
      the empty string; `maxLength(n)` compares the UTF-16 length with n, so a
      value of at most n/2 characters always passes and one of more than n
      characters never does. */
  function Passes(v: Validator, s: string): (r: bool)
    ensures v.Required? ==> (r <==> s != [])
    ensures v.MaxLength? && r ==> |s| <= v.limit
    ensures v.MaxLength? && 2 * |s| <= v.limit ==> r
  {
    match v
    case Required => Utf16Length(s) != 0
    case MaxLength(n) => Utf16Length(s) <= n
  }

  /** Whether a value passes every validator of a control. */
  function AllPass(vs: seq<Validator>, s: string): (r: bool)
    ensures r <==> forall i :: 0 <= i < |vs| ==> Passes(vs[i], s)
  {
    if vs == [] then true else Passes(vs[0], s) && AllPass(vs[1..], s)
  }

  const TitleValidators: seq<Validator> := [Required, MaxLength(256)]
  const DescriptionValidators: seq<Validator> := [MaxLength(512)]

  /** Whether the form group is valid. The `id` control is disabled and so does
      not take part; `visibility` has no validators. Lengths are UTF-16 lengths. */
  function FormValid(f: FormValue): (r: bool)
    ensures r <==> 0 < Utf16Length(f.title) <= 256 && Utf16Length(f.description) <= 512
    ensures r ==> 0 < |f.title| <= 256 && |f.description| <= 512
  {
    assert Passes(TitleValidators[0], f.title) && Passes(TitleValidators[1], f.title)
        <==> 0 < Utf16Length(f.title) <= 256;
    assert Passes(DescriptionValidators[0], f.description) <==> Utf16Length(f.description) <= 512;
    AllPass(TitleValidators, f.title) && AllPass(DescriptionValidators, f.description)
  }

  /** A title of 129 characters outside the Basic Multilingual Plane is too
      long: it takes 258 code units, over the limit of 256. */
  lemma AstralTitleTooLong(f: FormValue)
    requires |f.title| == 129
    requires forall i :: 0 <= i < |f.title| ==> f.title[i] as int >= 0x1_0000
    ensures !FormValid(f)
  {
    AstralLength(f.title);
  }

  /** A control as the validators leave it: INVALID when the value fails one of
      them, VALID otherwise. */
  function ControlOf(vs: seq<Validator>, value: string, dirty: bool, touched: bool): Control {
    Control(if AllPass(vs, value) then Valid else Invalid, dirty, touched)
  }

  /** The matcher and the validators agree: on a valid form neither the title
      nor the description shows an error; an invalid title shows its error as
      soon as the form is submitted, whatever the control's own flags. */
  lemma ErrorsFollowValidity(f: FormValue, dirty: bool, touched: bool, form: Option<FormDirective>)
    ensures FormValid(f) ==>
              !IsErrorState(Some(ControlOf(TitleValidators, f.title, dirty, touched)), form) &&
              !IsErrorState(Some(ControlOf(DescriptionValidators, f.description, dirty, touched)), form)
    ensures !(0 < Utf16Length(f.title) <= 256) && form == Some(FormDirective(true)) ==>
              IsErrorState(Some(ControlOf(TitleValidators, f.title, dirty, touched)), form)
  {
    assert AllPass(TitleValidators, f.title) <==> 0 < Utf16Length(f.title) <= 256 by {
      assert Passes(TitleValidators[0], f.title) && Passes(TitleValidators[1], f.title)
          <==> 0 < Utf16Length(f.title) <= 256;
    }
    assert AllPass(DescriptionValidators, f.description) <==> Utf16Length(f.description) <= 512 by {
      assert Passes(DescriptionValidators[0], f.description) <==> Utf16Length(f.description) <= 512;
    }
  }

  /** The form values `updateForm` copies from a library entry; a missing
      description becomes the empty string. */
  function FormOf(site: Site): (f: FormValue)
    ensures f.id == site.id && f.title == site.title && f.visibility == site.visibility
    ensures site.description.Some? ==> f.description == site.description.value
    ensures site.description.None? ==> f.description == ""
  {
    FormValue(site.id, site.title, if site.description.Some? then site.description.value else "", site.visibility)
  }

  // ---------------------------------------------------------------------------
  // Visibility labels

  /** One entry of the `libraryType` list: a visibility value and its label key. */
  datatype LibraryType = LibraryType(value: string, labelKey: string)

  const LibraryTypes: seq<LibraryType> := [
    LibraryType("PUBLIC", "LIBRARY.VISIBILITY.PUBLIC"),
    LibraryType("PRIVATE", "LIBRARY.VISIBILITY.PRIVATE"),
    LibraryType("MODERATED", "LIBRARY.VISIBILITY.MODERATED")
  ]

  const LabelPrefix: string := "LIBRARY.VISIBILITY."

  /** `Array.prototype.find`: the first type whose value is `value`, if any. */
  function FindType(types: seq<LibraryType>, value: string): (r: Option<LibraryType>)
    ensures r.None? <==> forall i :: 0 <= i < |types| ==> types[i].value != value
    ensures r.Some? ==> exists i :: 0 <= i < |types| && types[i] == r.value && r.value.value == value &&
                                   forall j :: 0 <= j < i ==> types[j].value != value
  {
    if types == [] then None
    else if types[0].value == value then Some(types[0])
    else
      var r := FindType(types[1..], value);
      if r.Some? then
        ghost var i :| 0 <= i < |types| - 1 && types[1..][i] == r.value && r.value.value == value &&
                       forall j :: 0 <= j < i ==> types[1..][j].value != value;
        assert types[i + 1] == r.value;
        assert forall j :: 0 <= j < i + 1 ==> types[j].value != value by {
          forall j | 0 <= j < i + 1 ensures types[j].value != value {
            if j > 0 { assert types[j] == types[1..][j - 1]; }
          }
        }
        r
      else
        assert forall i :: 1 <= i < |types| ==> types[i] == types[1..][i - 1];
        r
  }

  /** `getVisibilityLabel`: the label of a visibility value. An unknown value
      makes the source dereference `undefined` and throw; that is `None` here. */
  function GetVisibilityLabel(value: string): (r: Option<string>)
    ensures r.Some? <==> value in {"PUBLIC", "PRIVATE", "MODERATED"}
    ensures r.Some? ==> r.value == LabelPrefix + value
  {
    var t := FindType(LibraryTypes, value);
    assert LibraryTypes[0].labelKey == LabelPrefix + LibraryTypes[0].value;
    assert LibraryTypes[1].labelKey == LabelPrefix + LibraryTypes[1].value;
    assert LibraryTypes[2].labelKey == LabelPrefix + LibraryTypes[2].value;
    if t.Some? then Some(t.value.labelKey) else None
  }

  /** Distinct visibility values have distinct labels. */
  lemma VisibilityLabelsDistinct(a: string, b: string)
    requires GetVisibilityLabel(a).Some? && GetVisibilityLabel(a) == GetVisibilityLabel(b)
    ensures a == b
  {
  }

  // ---------------------------------------------------------------------------
  // Title collision

  /** One hit of the library search (only `title` is requested). */
  datatype SiteHit = SiteHit(title: string)

  /** The `list.entries` of a search result page. */
  datatype SitePage = SitePage(entries: seq<SiteHit>)

  /** What the library search delivers: a page, or a failure. */
  datatype SearchOutcome = Found(page: SitePage) | Failed

  /** `findLibraryByTitle`: a failed search reads as a page with no entries. */
  function PageOrEmpty(outcome: SearchOutcome): (p: SitePage)
    ensures outcome.Failed? ==> p.entries == []
    ensures outcome.Found? ==> p == outcome.page
  {
    match outcome
    case Found(page) => page
    case Failed => SitePage([])
  }

  /** The title-collision rule: the edited title collides when the first hit
      of the search carries exactly that title, unless it is the library's own
      current title. */
  function TitleExists(formTitle: string, nodeTitle: string, page: SitePage): (r: bool)
    ensures r ==> formTitle != nodeTitle && exists h :: h in page.entries && h.title == formTitle
    ensures r <==> |page.entries| > 0 && formTitle != nodeTitle && page.entries[0].title == formTitle
  {
    if |page.entries| > 0 then
      if formTitle == nodeTitle then false else formTitle == page.entries[0].title
    else false
  }

  /** Keeping the library's own title never collides, whatever the search says. */
  lemma OwnTitleNeverCollides(title: string, outcome: SearchOutcome)
    ensures !TitleExists(title, title, PageOrEmpty(outcome))
  {
  }

  /** A failed search never reports a collision. */
  lemma FailedSearchNeverCollides(formTitle: string, nodeTitle: string)
    ensures !TitleExists(formTitle, nodeTitle, PageOrEmpty(Failed))
  {
  }
}
