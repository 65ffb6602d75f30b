/**
 * The publishing store behind the HTTP handlers in app.py: three tables
 * (categories, preset tools, uploaded components) kept in row order, the
 * upload directory as a map from file name to bytes, and one method per
 * handler that checks its request in the handler's order and then changes
 * the tables and the directory.
 */
module Store {
  import opened Wrappers
  import opened Text
  import opened Tables

  newtype byte = x: int | 0 <= x < 256

  datatype Category = Category(id: int, name: string, displayName: string)

  datatype PresetTool = PresetTool(
    id: int, title: string, description: string, categoryId: int, publishDate: string)

  /**
   * An uploaded component. `categoryId` is what the INTEGER column holds for
   * the submitted text: Some(n) for an integer text, None for any other
   * text, which SQLite keeps as text and which equals no category id.
   */
  datatype Component = Component(
    id: int, title: string, pathName: string, fileName: string, categoryId: Option<int>, uploadDate: string)

  /** The multipart `file` field: the client's file name and the bytes sent. */
  datatype FilePart = FilePart(filename: string, content: seq<byte>)

  /**
   * The fields of an upload form as the handler reads them: `title` and
   * `path_name` stripped, a missing one reading as "". `categoryId` is the
   * raw text of the `category_id` field, None when the field is missing.
   */
  datatype UploadForm = UploadForm(
    file: Option<FilePart>, title: Stripped, pathName: Stripped, categoryId: Option<string>)

  /** Every refusal the handlers return, with its HTTP status. */
  datatype Failure =
    // upload_component
    | NoFile | NoTitle | NoPathName | BadPathName | PathNameTaken | NoCategory | NotHtml
    // category handlers
    | EmptyCategoryField | BadCategoryName | CategoryNameTaken | CategoryInUse(count: nat)
    // preset-tool handlers
    | EmptyToolField | UnknownCategory
    // missing rows
    | CategoryNotFound | ToolNotFound | ComponentNotFound
  {
    function Status(): int {
      if CategoryNotFound? || ToolNotFound? || ComponentNotFound? then 404 else 400
    }
  }

  datatype Response<T> = Ok(value: T) | Fail(failure: Failure)

  /** What GET /<path_name> answers: the file, or one of three distinct 404s. */
  datatype ServeResult = Served(content: seq<byte>) | InvalidPathName | NoSuchComponent | FileMissing
  {
    function Status(): int { if Served? then 200 else 404 }
  }

  // ---------------------------------------------------------------------
  // Queries on the tables
  // ---------------------------------------------------------------------

  /** `secure_filename(f"{path_name}.html")`, which on a POSIX host is the identity on an alphanumeric slug. */
  function FileNameFor(pathName: string): string { pathName + ".html" }

  function FindPath(cs: seq<Component>, pathName: string): Option<nat> {
    FirstIndex(cs, (c: Component) => c.pathName == pathName)
  }

  function FindComponent(cs: seq<Component>, id: int): Option<nat> {
    FirstIndex(cs, (c: Component) => c.id == id)
  }

  function FindCategory(cats: seq<Category>, id: int): Option<nat> {
    FirstIndex(cats, (c: Category) => c.id == id)
  }

  function FindCategoryName(cats: seq<Category>, name: string): Option<nat> {
    FirstIndex(cats, (c: Category) => c.name == name)
  }

  /** `SELECT id FROM categories WHERE name = ? AND id != ?`. */
  function FindCategoryNameElsewhere(cats: seq<Category>, name: string, id: int): Option<nat> {
    FirstIndex(cats, (c: Category) => c.name == name && c.id != id)
  }

  function FindTool(ts: seq<PresetTool>, id: int): Option<nat> {
    FirstIndex(ts, (t: PresetTool) => t.id == id)
  }

  function ToolsIn(ts: seq<PresetTool>, categoryId: int): nat {
    CountWhere(ts, (t: PresetTool) => t.categoryId == categoryId)
  }

  function ComponentsIn(cs: seq<Component>, categoryId: int): nat {
    CountWhere(cs, (c: Component) => c.categoryId == Some(categoryId))
  }

  function ComponentId(c: Component): int { c.id }
  function ComponentPath(c: Component): string { c.pathName }
  function CategoryId(c: Category): int { c.id }
  function CategoryName(c: Category): string { c.name }
  function ToolId(t: PresetTool): int { t.id }

  /** `not category_id or category_id == '0'` is false: a test on the text, not on its value. */
  predicate CategoryGiven(categoryId: Option<string>) {
    categoryId.Some? && categoryId.value != "" && categoryId.value != "0"
  }

  /** `SELECT id FROM categories WHERE id = ?` with a text parameter. */
  function CategoryOf(cats: seq<Category>, text: string): (r: Option<nat>)
    ensures r.Some? ==> IntegerText(text).Some? && r.value < |cats| && cats[r.value].id == IntegerText(text).value
    ensures r.None? <==> IntegerText(text).None? || FindCategory(cats, IntegerText(text).value).None?
  {
    match IntegerText(text)
    case None => None
    case Some(n) => FindCategory(cats, n)
  }

  /** "00" passes the `'0'` test but names category 0; "0" itself does not pass. */
  lemma ZeroSpellingIsACategory()
    ensures CategoryGiven(Some("00")) && IntegerText("00") == Some(0)
    ensures !CategoryGiven(Some("0")) && !CategoryGiven(Some(""))
  {
    ZeroSpellings();
  }

  // ---------------------------------------------------------------------
  // Table invariants
  // ---------------------------------------------------------------------

  /** A stored component: its slug is `[A-Za-z0-9]+` and its file is `<slug>.html`. */
  predicate WellFormedComponent(c: Component) {
    IsPathName(c.pathName) && c.fileName == FileNameFor(c.pathName)
  }

  /** A stored category: its name is `[A-Za-z0-9_]+` and its label is not empty. */
  predicate WellFormedCategory(c: Category) {
    IsCategoryName(c.name) && c.displayName != ""
  }

  /** The invariant over uploaded components: well-formed slugs, UNIQUE(path_name), primary key. */
  predicate ComponentsValid(cs: seq<Component>, next: int) {
    && AllRows(cs, WellFormedComponent)
    && KeysDistinct(cs, ComponentPath)
    && KeysAscending(cs, ComponentId, next)
  }

  predicate CategoriesValid(cats: seq<Category>, next: int) {
    && AllRows(cats, WellFormedCategory)
    && KeysDistinct(cats, CategoryName)
    && KeysAscending(cats, CategoryId, next)
  }

  /** Every preset tool names a category that exists. */
  predicate ToolsValid(ts: seq<PresetTool>, cats: seq<Category>, next: int) {
    && KeysAscending(ts, ToolId, next)
    && forall i :: 0 <= i < |ts| ==> FindCategory(cats, ts[i].categoryId).Some?
  }

  /** Every component's file is in the upload directory. */
  predicate FilesPresent(cs: seq<Component>, files: map<string, seq<byte>>) {
    forall i :: 0 <= i < |cs| ==> cs[i].fileName in files
  }

  // ---------------------------------------------------------------------
  // The upload validation chain
  // ---------------------------------------------------------------------

  /**
   * The checks of upload_component, in their order: file field, title,
   * path name present, path name format, path name free, category chosen,
   * file name present, extension. None when the upload may proceed.
   */
  function UploadCheck(form: UploadForm, cs: seq<Component>): (r: Option<Failure>)
    ensures r.None? <==>
              && form.file.Some? && form.title != ""
              && IsPathName(form.pathName) && FindPath(cs, form.pathName).None?
              && CategoryGiven(form.categoryId)
              && form.file.value.filename != "" && AllowedFile(form.file.value.filename)
  {
    StrippedPathName(form.pathName);
    if form.file.None? then Some(NoFile)
    else if form.title == "" then Some(NoTitle)
    else if form.pathName == "" then Some(NoPathName)
    else if !ValidatePathName(form.pathName) then Some(BadPathName)
    else if FindPath(cs, form.pathName).Some? then Some(PathNameTaken)
    else if !CategoryGiven(form.categoryId) then Some(NoCategory)
    else if form.file.value.filename == "" then Some(NoFile)
    else if !AllowedFile(form.file.value.filename) then Some(NotHtml)
    else None
  }

  /** Every refusal of the upload chain is a 400. */
  lemma UploadFailuresAre400(form: UploadForm, cs: seq<Component>)
    requires UploadCheck(form, cs).Some?
    ensures UploadCheck(form, cs).value.Status() == 400
  {
  }

  /** Format before uniqueness: a malformed slug is refused the same way whatever is stored. */
  lemma UploadFormatBeforeUniqueness(form: UploadForm, cs: seq<Component>)
    requires form.file.Some? && form.title != "" && form.pathName != ""
    requires !IsPathName(form.pathName)
    ensures UploadCheck(form, cs) == Some(BadPathName)
  {
    StrippedPathName(form.pathName);
  }

  /** A taken slug is only reported for a well-formed slug that some record holds. */
  lemma UploadTakenMeansStored(form: UploadForm, cs: seq<Component>)
    requires UploadCheck(form, cs) == Some(PathNameTaken)
    ensures IsPathName(form.pathName)
    ensures exists i :: 0 <= i < |cs| && cs[i].pathName == form.pathName
  {
    StrippedPathName(form.pathName);
    var i := FindPath(cs, form.pathName).value;
    assert cs[i].pathName == form.pathName;
  }

  /** The extension is judged last: a NotHtml refusal means every other check passed. */
  lemma UploadExtensionLast(form: UploadForm, cs: seq<Component>)
    requires UploadCheck(form, cs) == Some(NotHtml)
    ensures && form.file.Some? && form.title != ""
            && IsPathName(form.pathName) && FindPath(cs, form.pathName).None?
            && CategoryGiven(form.categoryId) && form.file.value.filename != ""
            && !AllowedFile(form.file.value.filename)
  {
    StrippedPathName(form.pathName);
  }

  /** The field checks create_category and update_category share, in their order. */
  function CategoryFieldsCheck(name: Stripped, displayName: Stripped): (r: Option<Failure>)
    ensures r.None? <==> name != "" && displayName != "" && IsCategoryName(name)
    ensures r == Some(EmptyCategoryField) <==> name == "" || displayName == ""
    ensures r.None? || r == Some(EmptyCategoryField) || r == Some(BadCategoryName)
  {
    StrippedCategoryName(name);
    if name == "" || displayName == "" then Some(EmptyCategoryField)
    else if !ValidCategoryName(name) then Some(BadCategoryName)
    else None
  }

  /** The field checks create_preset_tool and update_preset_tool share, in their order. */
  function ToolFieldsCheck(title: Stripped, description: Stripped, categoryId: Option<string>): (r: Option<Failure>)
    ensures r.None? <==> title != "" && description != "" && CategoryGiven(categoryId)
    ensures r == Some(EmptyToolField) <==> title == "" || description == ""
    ensures r.None? || r == Some(EmptyToolField) || r == Some(NoCategory)
  {
    if title == "" || description == "" then Some(EmptyToolField)
    else if !CategoryGiven(categoryId) then Some(NoCategory)
    else None
  }

  /** GET /<path_name> over given tables and directory. */
  function ServeFrom(cs: seq<Component>, files: map<string, seq<byte>>, segment: string): (r: ServeResult)
    ensures r == InvalidPathName <==> !ValidatePathName(segment)
    ensures r == NoSuchComponent <==>
              ValidatePathName(segment) && forall i :: 0 <= i < |cs| ==> cs[i].pathName != segment
    ensures r.FileMissing? || r.Served? ==>
              exists i :: 0 <= i < |cs| && cs[i].pathName == segment
                          && (r.FileMissing? <==> cs[i].fileName !in files)
                          && (r.Served? ==> r.content == files[cs[i].fileName])
  {
    if !ValidatePathName(segment) then InvalidPathName
    else match FindPath(cs, segment)
      case None => NoSuchComponent
      case Some(i) =>
        if cs[i].fileName in files then Served(files[cs[i].fileName]) else FileMissing
  }

  /** With unique slugs, serving looks at the one component that has the slug. */
  lemma ServeUnique(cs: seq<Component>, files: map<string, seq<byte>>, k: nat)
    requires KeysDistinct(cs, ComponentPath) && k < |cs| && ValidatePathName(cs[k].pathName)
    ensures ServeFrom(cs, files, cs[k].pathName)
            == if cs[k].fileName in files then Served(files[cs[k].fileName]) else FileMissing
  {
    var i := FindPath(cs, cs[k].pathName).value;
    assert ComponentPath(cs[i]) == ComponentPath(cs[k]);
  }

  /** A slug that passes the format check but is not stored still draws the "no such component" 404. */
  lemma ServeUnstoredSlug(cs: seq<Component>, files: map<string, seq<byte>>)
    requires AllRows(cs, WellFormedComponent)
    ensures ServeFrom(cs, files, "abc123\n") == NoSuchComponent
  {
    TrailingNewlineAccepted();
    forall i | 0 <= i < |cs| ensures cs[i].pathName != "abc123\n" {
      assert WellFormedComponent(cs[i]);
    }
  }

  /** Only a strict `[A-Za-z0-9]+` segment can reach a stored component. */
  lemma ServeNeedsSlug(cs: seq<Component>, files: map<string, seq<byte>>, segment: string)
    requires AllRows(cs, WellFormedComponent)
    requires ServeFrom(cs, files, segment).Served? || ServeFrom(cs, files, segment).FileMissing?
    ensures IsPathName(segment)
  {
    var i :| 0 <= i < |cs| && cs[i].pathName == segment;
    assert WellFormedComponent(cs[i]);
  }

  // ---------------------------------------------------------------------
  // What each accepted request does to the invariants
  // ---------------------------------------------------------------------

  /**
   * Appending a well-formed component with a free slug and the next id keeps
   * the invariant; after writing its file, serving the slug returns the file.
   */
  lemma UploadKeepsInvariant(cs: seq<Component>, next: int, files: map<string, seq<byte>>,
                             c: Component, content: seq<byte>)
    requires ComponentsValid(cs, next) && WellFormedComponent(c) && c.id == next
    requires FindPath(cs, c.pathName).None?
    ensures ComponentsValid(cs + [c], next + 1)
    ensures FilesPresent(cs, files) ==> FilesPresent(cs + [c], files[c.fileName := content])
    ensures ServeFrom(cs + [c], files[c.fileName := content], c.pathName) == Served(content)
  {
    AllAppend(cs, WellFormedComponent, c);
    DistinctAppend(cs, ComponentPath, c);
    AscendingAppend(cs, ComponentId, next, c);
    var t := cs + [c];
    assert forall i :: 0 <= i < |cs| ==> t[i] == cs[i];
    assert t[|cs|] == c;
    assert FindPath(t, c.pathName) == Some(|cs|);
  }

  /**
   * Deleting row `k` and its file keeps the invariant and every other file,
   * and the deleted slug then draws the "no such component" 404.
   */
  lemma DeleteComponentKeepsInvariant(cs: seq<Component>, next: int, files: map<string, seq<byte>>, k: nat)
    requires ComponentsValid(cs, next) && k < |cs|
    ensures ComponentsValid(RemoveAt(cs, k), next)
    ensures FilesPresent(cs, files) ==> FilesPresent(RemoveAt(cs, k), files - {cs[k].fileName})
    ensures ServeFrom(RemoveAt(cs, k), files - {cs[k].fileName}, cs[k].pathName) == NoSuchComponent
  {
    var t := RemoveAt(cs, k);
    AllRemove(cs, WellFormedComponent, k);
    DistinctRemove(cs, ComponentPath, k);
    AscendingRemove(cs, ComponentId, next, k);
    RemovedKeyAbsent(cs, ComponentPath, k);
    assert WellFormedComponent(cs[k]);
    forall i | 0 <= i < |t| ensures t[i].fileName != cs[k].fileName {
      var j := if i < k then i else i + 1;
      assert t[i] == cs[j] && WellFormedComponent(cs[j]);
      SuffixInjective(cs[j].pathName, cs[k].pathName, ".html");
    }
  }

  /** A new category with a free name and the next id keeps both invariants. */
  lemma CreateCategoryKeepsInvariant(cats: seq<Category>, ts: seq<PresetTool>, nextC: int, nextT: int,
                                     c: Category)
    requires CategoriesValid(cats, nextC) && ToolsValid(ts, cats, nextT)
    requires WellFormedCategory(c) && c.id == nextC && FindCategoryName(cats, c.name).None?
    ensures CategoriesValid(cats + [c], nextC + 1) && ToolsValid(ts, cats + [c], nextT)
  {
    AllAppend(cats, WellFormedCategory, c);
    DistinctAppend(cats, CategoryName, c);
    AscendingAppend(cats, CategoryId, nextC, c);
    var after := cats + [c];
    forall i | 0 <= i < |ts| ensures FindCategory(after, ts[i].categoryId).Some? {
      var j := FindCategory(cats, ts[i].categoryId).value;
      assert after[j] == cats[j];
    }
  }

  /**
   * Overwriting row `k` with a well-formed category of the same id, whose
   * name no other row holds, keeps both invariants.
   */
  lemma UpdateCategoryKeepsInvariant(cats: seq<Category>, ts: seq<PresetTool>, nextC: int, nextT: int,
                                     k: nat, c: Category)
    requires CategoriesValid(cats, nextC) && ToolsValid(ts, cats, nextT)
    requires k < |cats| && c.id == cats[k].id && WellFormedCategory(c)
    requires FindCategoryNameElsewhere(cats, c.name, c.id).None?
    ensures CategoriesValid(cats[k := c], nextC) && ToolsValid(ts, cats[k := c], nextT)
  {
    assert forall i :: 0 <= i < |cats| && i != k ==> CategoryName(cats[i]) != CategoryName(c);
    DistinctReplace(cats, CategoryName, k, c);
    AscendingReplace(cats, CategoryId, nextC, k, c);
    var after := cats[k := c];
    forall i | 0 <= i < |ts| ensures FindCategory(after, ts[i].categoryId).Some? {
      var j := FindCategory(cats, ts[i].categoryId).value;
      assert after[j].id == cats[j].id;
    }
  }

  /** With unique names, a category being renamed to its own name clashes with no other. */
  lemma OwnNameNeverClashes(cats: seq<Category>, k: nat)
    requires KeysDistinct(cats, CategoryName) && k < |cats|
    ensures FindCategoryNameElsewhere(cats, cats[k].name, cats[k].id).None?
  {
    forall i | 0 <= i < |cats| && cats[i].name == cats[k].name ensures cats[i].id == cats[k].id {
      assert CategoryName(cats[i]) == CategoryName(cats[k]);
    }
  }

  /** Deleting a category no preset tool refers to keeps both invariants. */
  lemma DeleteCategoryKeepsInvariant(cats: seq<Category>, ts: seq<PresetTool>, nextC: int, nextT: int, k: nat)
    requires CategoriesValid(cats, nextC) && ToolsValid(ts, cats, nextT)
    requires k < |cats| && ToolsIn(ts, cats[k].id) == 0
    ensures CategoriesValid(RemoveAt(cats, k), nextC) && ToolsValid(ts, RemoveAt(cats, k), nextT)
  {
    AllRemove(cats, WellFormedCategory, k);
    DistinctRemove(cats, CategoryName, k);
    AscendingRemove(cats, CategoryId, nextC, k);
    var after := RemoveAt(cats, k);
    forall i | 0 <= i < |ts| ensures FindCategory(after, ts[i].categoryId).Some? {
      var j := FindCategory(cats, ts[i].categoryId).value;
      assert ts[i].categoryId != cats[k].id;
      var j' := if j < k then j else j - 1;
      assert after[j'] == cats[j];
    }
  }

  /** A new preset tool with the next id and an existing category keeps the invariant. */
  lemma CreateToolKeepsInvariant(ts: seq<PresetTool>, cats: seq<Category>, next: int, t: PresetTool)
    requires ToolsValid(ts, cats, next) && t.id == next && FindCategory(cats, t.categoryId).Some?
    ensures ToolsValid(ts + [t], cats, next + 1)
  {
    AscendingAppend(ts, ToolId, next, t);
    assert forall i :: 0 <= i < |ts| ==> (ts + [t])[i] == ts[i];
  }

  /** Overwriting a preset tool, keeping its id, with one whose category exists keeps the invariant. */
  lemma UpdateToolKeepsInvariant(ts: seq<PresetTool>, cats: seq<Category>, next: int, k: nat, t: PresetTool)
    requires ToolsValid(ts, cats, next) && k < |ts| && t.id == ts[k].id
    requires FindCategory(cats, t.categoryId).Some?
    ensures ToolsValid(ts[k := t], cats, next)
  {
    AscendingReplace(ts, ToolId, next, k, t);
  }

  /** Deleting a preset tool keeps the invariant. */
  lemma DeleteToolKeepsInvariant(ts: seq<PresetTool>, cats: seq<Category>, next: int, k: nat)
    requires ToolsValid(ts, cats, next) && k < |ts|
    ensures ToolsValid(RemoveAt(ts, k), cats, next)
  {
    AscendingRemove(ts, ToolId, next, k);
  }

  // ---------------------------------------------------------------------
  // The store
  // ---------------------------------------------------------------------

  class Site {
    var categories: seq<Category>
    var tools: seq<PresetTool>
    var components: seq<Component>
    /** The upload directory, one for writing, removing and serving alike. */
    var files: map<string, seq<byte>>
    var nextCategoryId: int
    var nextToolId: int
    var nextComponentId: int

    predicate Valid()
      reads this
    {
      && ComponentsValid(components, nextComponentId)
      && CategoriesValid(categories, nextCategoryId)
      && ToolsValid(tools, categories, nextToolId)
    }

    /** Every component's backing file is present. */
    predicate Consistent()
      reads this
    {
      FilesPresent(components, files)
    }

    /**
     * GET /<path_name> (serve_component). Only a slug reaches a record, and
     * while every record's file is present none is reported missing.
     */
    function Serve(segment: string): (r: ServeResult)
      reads this
      ensures r == InvalidPathName <==> !ValidatePathName(segment)
      ensures Consistent() ==> !r.FileMissing?
      ensures Valid() && (r.Served? || r.FileMissing?) ==> IsPathName(segment)
    {
      ServeFrom(components, files, segment)
    }

    /** A fresh database (init_db) and an empty upload directory. */
    constructor ()
      ensures Valid() && Consistent()
      ensures categories == [] && tools == [] && components == [] && files == map[]
    {
      categories, tools, components, files := [], [], [], map[];
      nextCategoryId, nextToolId, nextComponentId := 1, 1, 1;
    }

    /**
     * POST /api/upload (upload_component). A refused upload changes nothing.
     * An accepted one writes the payload to `<slug>.html`, appends one
     * record dated `today`, answers `/<slug>`, and from then on serving the
     * slug returns exactly the uploaded bytes.
     */
    method Upload(form: UploadForm, today: string) returns (r: Response<string>)
      requires Valid()
      modifies this
      ensures Valid()
      ensures old(Consistent()) ==> Consistent()
      ensures r.Fail? <==> UploadCheck(form, old(components)).Some?
      ensures r.Fail? ==> r.failure == UploadCheck(form, old(components)).value && unchanged(this)
      ensures r.Ok? ==>
                var pathName := form.pathName;
                var content := form.file.value.content;
                && r.value == "/" + pathName
                && components == old(components) + [Component(old(nextComponentId), form.title,
                                                       pathName, FileNameFor(pathName),
                                                       IntegerText(form.categoryId.value), today)]
                && files == old(files)[FileNameFor(pathName) := content]
                && categories == old(categories) && tools == old(tools)
                && nextCategoryId == old(nextCategoryId) && nextToolId == old(nextToolId)
                && nextComponentId == old(nextComponentId) + 1
                && Serve(pathName) == Served(content)
    {
      var check := UploadCheck(form, components);
      if check.Some? {
        return Fail(check.value);
      }
      var pathName := form.pathName;
      WriteAndInsert(Component(nextComponentId, form.title, pathName, FileNameFor(pathName),
                               IntegerText(form.categoryId.value), today),
                     form.file.value.content);
      r := Ok("/" + pathName);
    }

    /**
     * The accepted half of upload_component: write the payload to the
     * component's file, then insert its record with the next id.
     */
    method WriteAndInsert(c: Component, content: seq<byte>)
      requires Valid() && WellFormedComponent(c) && c.id == nextComponentId
      requires FindPath(components, c.pathName).None?
      modifies this
      ensures Valid()
      ensures old(Consistent()) ==> Consistent()
      ensures components == old(components) + [c] && files == old(files)[c.fileName := content]
      ensures categories == old(categories) && tools == old(tools)
      ensures nextCategoryId == old(nextCategoryId) && nextToolId == old(nextToolId)
      ensures nextComponentId == old(nextComponentId) + 1
      ensures Serve(c.pathName) == Served(content)
    {
      UploadKeepsInvariant(components, nextComponentId, files, c, content);
      ghost var cats, ts, nc, nt := categories, tools, nextCategoryId, nextToolId;
      assert CategoriesValid(cats, nc) && ToolsValid(ts, cats, nt);
      files, components, nextComponentId := files[c.fileName := content], components + [c], nextComponentId + 1;
      assert categories == cats && tools == ts && nextCategoryId == nc && nextToolId == nt;
    }

    /**
     * DELETE /api/uploaded-components/<id> (delete_uploaded_component).
     * An unknown id answers 404 and changes nothing. Otherwise the record is
     * removed, then its file; every other record and file stays, and the
     * slug no longer serves.
     */
    method DeleteComponent(id: int) returns (r: Response<string>)
      requires Valid()
      modifies this
      ensures Valid()
      ensures old(Consistent()) ==> Consistent()
      ensures r.Fail? <==> FindComponent(old(components), id).None?
      ensures r.Fail? ==> r.failure == ComponentNotFound && unchanged(this)
      ensures r.Ok? ==>
                var k := FindComponent(old(components), id).value;
                var c := old(components)[k];
                && r.value == c.title
                && components == RemoveAt(old(components), k)
                && files == old(files) - {c.fileName}
                && categories == old(categories) && tools == old(tools)
                && nextCategoryId == old(nextCategoryId) && nextToolId == old(nextToolId)
                && nextComponentId == old(nextComponentId)
                && Serve(c.pathName) == NoSuchComponent
    {
      var found := FindComponent(components, id);
      if found.None? {
        return Fail(ComponentNotFound);
      }
      var k := found.value;
      var c := components[k];
      DeleteComponentKeepsInvariant(components, nextComponentId, files, k);
      components := RemoveAt(components, k);
      if c.fileName in files {
        files := files - {c.fileName};
      } else {
        assert files == files - {c.fileName};
      }
      r := Ok(c.title);
    }

    /** POST /api/categories (create_category). */
    method CreateCategory(name: Stripped, displayName: Stripped) returns (r: Response<Category>)
      requires Valid()
      modifies this
      ensures Valid()
      ensures CategoryFieldsCheck(name, displayName).Some? ==>
                r == Fail(CategoryFieldsCheck(name, displayName).value)
      ensures CategoryFieldsCheck(name, displayName).None? ==>
                (r == Fail(CategoryNameTaken) <==> FindCategoryName(old(categories), name).Some?)
      ensures r.Fail? <==>
                CategoryFieldsCheck(name, displayName).Some? || FindCategoryName(old(categories), name).Some?
      ensures r.Fail? ==> unchanged(this)
      ensures r.Ok? ==>
                && r.value == Category(old(nextCategoryId), name, displayName)
                && categories == old(categories) + [r.value]
                && tools == old(tools) && components == old(components) && files == old(files)
                && nextCategoryId == old(nextCategoryId) + 1
                && nextToolId == old(nextToolId) && nextComponentId == old(nextComponentId)
    {
      var check := CategoryFieldsCheck(name, displayName);
      if check.Some? {
        return Fail(check.value);
      }
      if FindCategoryName(categories, name).Some? {
        return Fail(CategoryNameTaken);
      }
      var c := Category(nextCategoryId, name, displayName);
      CreateCategoryKeepsInvariant(categories, tools, nextCategoryId, nextToolId, c);
      categories := categories + [c];
      nextCategoryId := nextCategoryId + 1;
      r := Ok(c);
    }

    /**
     * PUT /api/categories/<id> (update_category). The fields are checked
     * before the id is looked up; a name held by another category is
     * refused, keeping one's own name is not.
     */
    method UpdateCategory(id: int, name: Stripped, displayName: Stripped) returns (r: Response<Category>)
      requires Valid()
      modifies this
      ensures Valid()
      ensures CategoryFieldsCheck(name, displayName).Some? ==>
                r == Fail(CategoryFieldsCheck(name, displayName).value)
      ensures CategoryFieldsCheck(name, displayName).None? ==>
                && (r == Fail(CategoryNotFound) <==> FindCategory(old(categories), id).None?)
                && (r == Fail(CategoryNameTaken) <==>
                      && FindCategory(old(categories), id).Some?
                      && exists j :: 0 <= j < |old(categories)| && old(categories)[j].name == name
                                     && old(categories)[j].id != id)
      ensures r.Fail? <==>
                || CategoryFieldsCheck(name, displayName).Some?
                || FindCategory(old(categories), id).None?
                || FindCategoryNameElsewhere(old(categories), name, id).Some?
      ensures r.Fail? ==> unchanged(this)
      ensures r.Ok? ==>
                var k := FindCategory(old(categories), id).value;
                && r.value == Category(id, name, displayName)
                && categories == old(categories)[k := r.value]
                && tools == old(tools) && components == old(components) && files == old(files)
                && nextCategoryId == old(nextCategoryId) && nextToolId == old(nextToolId)
                && nextComponentId == old(nextComponentId)
    {
      var check := CategoryFieldsCheck(name, displayName);
      if check.Some? {
        return Fail(check.value);
      }
      var found := FindCategory(categories, id);
      if found.None? {
        return Fail(CategoryNotFound);
      }
      var k := found.value;
      var clash := FindCategoryNameElsewhere(categories, name, id);
      if clash.Some? {
        assert categories[clash.value].name == name && categories[clash.value].id != id;
        return Fail(CategoryNameTaken);
      }
      var c := Category(id, name, displayName);
      UpdateCategoryKeepsInvariant(categories, tools, nextCategoryId, nextToolId, k, c);
      categories := categories[k := c];
      r := Ok(c);
    }

    /**
     * DELETE /api/categories/<id> (delete_category). Refused while any
     * preset tool or uploaded component refers to the category; the failure
     * carries how many do.
     */
    method DeleteCategory(id: int) returns (r: Response<string>)
      requires Valid()
      modifies this
      ensures Valid()
      ensures r == Fail(CategoryNotFound) <==> FindCategory(old(categories), id).None?
      ensures r.Fail? && r.failure.CategoryInUse? <==>
                FindCategory(old(categories), id).Some?
                && ToolsIn(old(tools), id) + ComponentsIn(old(components), id) > 0
      ensures r.Fail? && r.failure.CategoryInUse? ==>
                r.failure.count == ToolsIn(old(tools), id) + ComponentsIn(old(components), id)
      ensures r.Fail? <==>
                FindCategory(old(categories), id).None?
                || ToolsIn(old(tools), id) + ComponentsIn(old(components), id) > 0
      ensures r.Fail? ==> unchanged(this)
      ensures r.Ok? ==>
                var k := FindCategory(old(categories), id).value;
                && r.value == old(categories)[k].displayName
                && categories == RemoveAt(old(categories), k)
                && tools == old(tools) && components == old(components) && files == old(files)
                && nextCategoryId == old(nextCategoryId) && nextToolId == old(nextToolId)
                && nextComponentId == old(nextComponentId)
    {
      var found := FindCategory(categories, id);
      if found.None? {
        return Fail(CategoryNotFound);
      }
      var k := found.value;
      var toolsCount := ToolsIn(tools, id);
      var uploadedCount := ComponentsIn(components, id);
      if toolsCount > 0 || uploadedCount > 0 {
        return Fail(CategoryInUse(toolsCount + uploadedCount));
      }
      var display := categories[k].displayName;
      DeleteCategoryKeepsInvariant(categories, tools, nextCategoryId, nextToolId, k);
      categories := RemoveAt(categories, k);
      r := Ok(display);
    }

    /**
     * POST /api/preset-tools (create_preset_tool); the category must exist.
     * `categoryId` is the JSON `category_id` as text, None when absent; the
     * stored value is what the INTEGER column makes of it.
     */
    method CreateTool(title: Stripped, description: Stripped, categoryId: Option<string>, today: string)
      returns (r: Response<PresetTool>)
      requires Valid()
      modifies this
      ensures Valid()
      ensures ToolFieldsCheck(title, description, categoryId).Some? ==>
                r == Fail(ToolFieldsCheck(title, description, categoryId).value)
      ensures ToolFieldsCheck(title, description, categoryId).None? ==>
                (r == Fail(UnknownCategory) <==> CategoryOf(old(categories), categoryId.value).None?)
      ensures r.Fail? <==>
                ToolFieldsCheck(title, description, categoryId).Some?
                || CategoryOf(old(categories), categoryId.value).None?
      ensures r.Fail? ==> unchanged(this)
      ensures r.Ok? ==>
                && r.value == PresetTool(old(nextToolId), title, description,
                                         IntegerText(categoryId.value).value, today)
                && tools == old(tools) + [r.value]
                && categories == old(categories) && components == old(components) && files == old(files)
                && nextToolId == old(nextToolId) + 1
                && nextCategoryId == old(nextCategoryId) && nextComponentId == old(nextComponentId)
    {
      var check := ToolFieldsCheck(title, description, categoryId);
      if check.Some? {
        return Fail(check.value);
      }
      if CategoryOf(categories, categoryId.value).None? {
        return Fail(UnknownCategory);
      }
      var tool := PresetTool(nextToolId, title, description, IntegerText(categoryId.value).value, today);
      CreateToolKeepsInvariant(tools, categories, nextToolId, tool);
      tools := tools + [tool];
      nextToolId := nextToolId + 1;
      r := Ok(tool);
    }

    /**
     * PUT /api/preset-tools/<id> (update_preset_tool). The title,
     * description and category change; the publish date never does.
     */
    method UpdateTool(id: int, title: Stripped, description: Stripped, categoryId: Option<string>)
      returns (r: Response<PresetTool>)
      requires Valid()
      modifies this
      ensures Valid()
      ensures ToolFieldsCheck(title, description, categoryId).Some? ==>
                r == Fail(ToolFieldsCheck(title, description, categoryId).value)
      ensures ToolFieldsCheck(title, description, categoryId).None? ==>
                && (r == Fail(ToolNotFound) <==> FindTool(old(tools), id).None?)
                && (r == Fail(UnknownCategory) <==>
                      FindTool(old(tools), id).Some? && CategoryOf(old(categories), categoryId.value).None?)
      ensures r.Fail? <==>
                || ToolFieldsCheck(title, description, categoryId).Some?
                || FindTool(old(tools), id).None?
                || CategoryOf(old(categories), categoryId.value).None?
      ensures r.Fail? ==> unchanged(this)
      ensures r.Ok? ==>
                var k := FindTool(old(tools), id).value;
                && r.value == old(tools)[k].(title := title, description := description,
                                             categoryId := IntegerText(categoryId.value).value)
                && r.value.publishDate == old(tools)[k].publishDate
                && tools == old(tools)[k := r.value]
                && categories == old(categories) && components == old(components) && files == old(files)
                && nextCategoryId == old(nextCategoryId) && nextToolId == old(nextToolId)
                && nextComponentId == old(nextComponentId)
    {
      var check := ToolFieldsCheck(title, description, categoryId);
      if check.Some? {
        return Fail(check.value);
      }
      var found := FindTool(tools, id);
      if found.None? {
        return Fail(ToolNotFound);
      }
      if CategoryOf(categories, categoryId.value).None? {
        return Fail(UnknownCategory);
      }
      var k := found.value;
      var tool := tools[k].(title := title, description := description,
                            categoryId := IntegerText(categoryId.value).value);
      UpdateToolKeepsInvariant(tools, categories, nextToolId, k, tool);
      tools := tools[k := tool];
      r := Ok(tool);
    }

    /** DELETE /api/preset-tools/<id> (delete_preset_tool). */
    method DeleteTool(id: int) returns (r: Response<string>)
      requires Valid()
      modifies this
      ensures Valid()
      ensures r.Fail? <==> FindTool(old(tools), id).None?
      ensures r.Fail? ==> r.failure == ToolNotFound && unchanged(this)
      ensures r.Ok? ==>
                var k := FindTool(old(tools), id).value;
                && r.value == old(tools)[k].title
                && tools == RemoveAt(old(tools), k)
                && categories == old(categories) && components == old(components)
                && files == old(files)
                && nextCategoryId == old(nextCategoryId) && nextToolId == old(nextToolId)
                && nextComponentId == old(nextComponentId)
    {
      var found := FindTool(tools, id);
      if found.None? {
        return Fail(ToolNotFound);
      }
      var k := found.value;
      var title := tools[k].title;
      DeleteToolKeepsInvariant(tools, categories, nextToolId, k);
      tools := RemoveAt(tools, k);
      r := Ok(title);
    }
  }

  /** Appending the same suffix keeps different names different. */
  lemma SuffixInjective(a: string, b: string, suffix: string)
    requires a != b
    ensures a + suffix != b + suffix
  {
    if |a| == |b| {
      var i :| 0 <= i < |a| && a[i] != b[i];
      assert (a + suffix)[i] == a[i] && (b + suffix)[i] == b[i];
    } else {
      assert |a + suffix| != |b + suffix|;
    }
  }
}
