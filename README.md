# Component-publishing site: a Dafny model

The site keeps a catalogue of three kinds of records in SQLite:
- categories, each with a slug name and a display name;
- preset tools, each with a title, a description, a category and a publish date;
- uploaded HTML components, each with a title, a URL slug (`path_name`), a file name, a category and an upload date.

Records are created and changed through a Flask JSON API (`app.py`). An uploaded page is served at `/<path_name>` (except the slug `upload`, which the `/upload` route claims first). The home page (`static/js/main.js`) fetches one merged, date-sorted, paginated list of tools and draws a category list and a pagination bar.

The model has six modules:

- `Wrappers` defines `Option`.
- `Text` models the string primitives the handlers rely on:
  - Python's `str.strip()` and JavaScript's `String.prototype.trim()`, as one trimming function over two whitespace sets;
  - the anchored `re.match(r'^[...]+$')` checks, including Python's rule that `$` also matches before one final newline;
  - `allowed_file`, with `rsplit('.', 1)` and `lower()`;
  - Python's lexicographic string order, used to sort by date.
- `Tables` holds generic row-table queries and the key invariants that the table schema enforces: ascending `AUTOINCREMENT`-style ids and `UNIQUE` columns.
- `Store` models the tables as sequences and the upload directory as a map from file name to bytes. A `Site` class has one method per mutating handler. Each method runs the handler's checks in the handler's order, with the handler's error and status. It then changes exactly the rows and files the handler changes, and keeps the schema invariants. `ServeFrom`, and the class's `Serve` over the current state, model `serve_component`, the handler of `GET /<path_name>`.
- `Listing` models `GET /api/tools`:
  - the two joined, category-filtered queries;
  - their concatenation;
  - the stable descending sort by date;
  - the page slice and the pagination record.
- `Client` models the page script:
  - the globals as a `Pager` class and the event handlers as its methods;
  - `renderPageNumbers` as a method with a loop, proved equal to a window specification (`PageItems`) whose shape is proved separately;
  - `renderPagination`;
  - `renderCategories`' list.

Where the written description of the system and the code disagree, the model follows the code:
- `upload_component` answers "请选择文件" both when the `file` field is missing and when its file name is empty. Both are `NoFile`, checked first and seventh in the chain.
- `upload_component` never checks that the chosen category exists, while the preset-tool handlers do. `Store.Site.Upload` accepts any category text other than "" and "0".
- Serving checks only the slug format, not that a file was ever written. A stored slug whose file is gone is a separate 404 (`FileMissing`). That 404 is Flask's own not-found answer: `send_from_directory` raises werkzeug's `NotFound`, not `FileNotFoundError`, so the handler's `except FileNotFoundError` branch (app.py:274-275) never runs.
- Category ids arrive as text and are compared with the text `'0'`, and SQLite then converts them to integers for its INTEGER columns. So "00", "+0" and "-0" count as a chosen category, and all of them name category 0. The model carries the raw text and converts it the way SQLite does (`Text.IntegerText`).

## Model

| member | source | states |
|---|---|---|
| Text.Trim | app.py:204-205 | the trimmed string is empty exactly when every character is whitespace; otherwise it neither starts nor ends with whitespace |
| Text.TrimIsInfix | app.py:204-205 | trimming removes only whitespace: the result is a contiguous piece of the input with whitespace on both sides |
| Text.PyStrip | app.py:204-205 | `strip()` never lengthens its input, and empties it exactly when the input is all Python whitespace |
| Text.PyStripFixesStripped | app.py:204-205 | stripping an already stripped value changes nothing |
| Text.PyStripIdempotent | app.py:204-205 | stripping twice is stripping once |
| Text.JsTrim | static/js/main.js:137 | `trim()` never lengthens its input, empties it exactly when the input is all JavaScript whitespace, and otherwise leaves no whitespace at either end |
| Text.ValidatePathName | app.py:34-36 | `validate_path_name` is true exactly when the string is a non-empty alphanumeric slug, optionally followed by one final newline |
| Text.ValidCategoryName | app.py:352 | the category-name regex accepts exactly a non-empty `[A-Za-z0-9_]` string, optionally followed by one final newline |
| Text.IntegerText | app.py:64-77 | text stored in or compared with an INTEGER column becomes an integer exactly when it is an optional sign followed by at least one digit; a minus sign gives a non-positive value and no sign or a plus gives a non-negative one |
| Text.NatTextValue | app.py:514 | the decimal digits of a natural number read back as that number |
| Text.DecimalTextRoundTrip | app.py:493-514 | a JSON number, taken as its decimal text, is stored as that same integer |
| Text.LeadingZeroValue | app.py:221-240 | a leading zero does not change the integer a digit string stands for |
| Text.ZeroSpellings | app.py:221-240 | "0", "00", "+0" and "-0" all become the integer 0 |
| Text.AnchoredMatch | app.py:34-36 | `re.match('^[class]+$')` succeeds exactly when the string is one or more class characters, optionally followed by a single trailing newline |
| Text.StrippedPathName | app.py:205-216 | on a stripped value the path-name regex accepts exactly the non-empty alphanumeric strings |
| Text.StrippedCategoryName | app.py:345-353 | on a stripped value the category-name regex accepts exactly the non-empty `[A-Za-z0-9_]` strings |
| Text.TrailingNewlineAccepted | app.py:34-36 | `validate_path_name("abc123\n")` is true, although that string is not a slug |
| Text.PathNameRejectsOthers | app.py:34-36 | any non-alphanumeric character, other than one final newline, makes `validate_path_name` false |
| Text.LastIndexOf | app.py:32 | the last-occurrence search finds the dot exactly when there is one, and at a position holding it |
| Text.AsciiLower | app.py:32 | lowering keeps the length and maps every character on its own |
| Text.AllowedFile | app.py:30-32 | a file name is allowed exactly when its text after the last dot lowers to `html` |
| Text.StrLtAtFirstDifference | app.py:168 | strings are ordered by their first differing character |
| Text.StrLtIrreflexive | app.py:168 | no date string sorts before itself |
| Text.StrLtTransitive | app.py:168 | the string order is transitive |
| Text.StrLtTotal | app.py:168 | any two different strings are ordered one way or the other |
| Text.StrLtAsymmetric | app.py:168 | the string order is asymmetric |
| Tables.FirstIndex | app.py:38-43 | a `WHERE ... fetchone()` lookup finds nothing exactly when no row matches, and otherwise finds a matching row |
| Tables.CountWhere | app.py:434-435 | a `COUNT(*) WHERE` is at most the row count, and is zero exactly when no row matches |
| Tables.RemoveAt | app.py:322 | `DELETE ... WHERE id = ?` keeps the other rows, in order |
| Tables.AscendingAppend | app.py:45-83 | inserting with the next id keeps ids strictly ascending and below the counter |
| Tables.DistinctAppend | app.py:52 | inserting a value not yet present keeps a `UNIQUE` column unique |
| Tables.DistinctReplace | app.py:402-408 | updating a row to a value no other row holds keeps a `UNIQUE` column unique |
| Tables.RemovedKeyAbsent | app.py:75 | after deleting a row, its unique value is held by no remaining row |
| Store.UploadCheck | app.py:198-228 | the upload is accepted exactly when the file part exists, the title is non-empty, the slug is alphanumeric and unused, a category text other than "" and "0" is given, and the file name is non-empty and ends in `.html` |
| Store.UploadFailuresAre400 | app.py:198-228 | every refusal of the upload chain has status 400 |
| Store.UploadFormatBeforeUniqueness | app.py:215-219 | a malformed slug is refused as malformed whatever is stored, because format is checked before uniqueness |
| Store.UploadTakenMeansStored | app.py:38-43 | "path name taken" is reported only for a well-formed slug that a stored component holds |
| Store.UploadExtensionLast | app.py:224-228 | an "HTML only" refusal means every earlier check passed |
| Store.CategoryFieldsCheck | app.py:345-353 | category fields pass exactly when both are non-empty and the name is `[A-Za-z0-9_]+`; the empty-field refusal comes first |
| Store.ToolFieldsCheck | app.py:491-499 | tool fields pass exactly when title and description are non-empty and a category text other than "" and "0" is given; the empty-field refusal comes first |
| Store.CategoryOf | app.py:504 | the category lookup finds a row exactly when the text converts to an integer and a category has that id, and the row it finds has that id |
| Store.ZeroSpellingIsACategory | app.py:221 | "00" passes the "no category chosen" test and names category 0, while "0" and "" do not pass it |
| Store.ServeFrom | app.py:253-275 | a malformed segment is a 404; a segment no component holds is a different 404; otherwise the answer is the stored file of a component with that slug, or a third 404, Flask's own, when that file is gone |
| Store.ServeUnique | app.py:262-275 | with unique slugs, serving a stored slug answers that component's own file |
| Store.ServeUnstoredSlug | app.py:257-269 | in any store of well-formed components, `abc123` plus a newline passes the format check but reaches no stored component |
| Store.ServeNeedsSlug | app.py:253-275 | only a strict alphanumeric segment can reach a stored component |
| Store.UploadKeepsInvariant | app.py:231-241 | appending a well-formed component with a free slug and the next id keeps slugs unique and ids ascending; afterwards every component's file is present and the new slug serves the new file |
| Store.DeleteComponentKeepsInvariant | app.py:312-329 | deleting a component and its file keeps the invariants and files present; its slug then answers "no such component" |
| Store.CreateCategoryKeepsInvariant | app.py:355-367 | adding a category with a fresh name and the next id keeps names unique and ids ascending, and every tool's category still exists |
| Store.UpdateCategoryKeepsInvariant | app.py:393-410 | renaming a category, under the same id, to a name no other category holds keeps the category and tool invariants |
| Store.OwnNameNeverClashes | app.py:402-408 | with unique names, keeping a category's own name never clashes with another category |
| Store.DeleteCategoryKeepsInvariant | app.py:425-444 | deleting a category that no tool uses keeps the invariants, and every tool's category still exists |
| Store.CreateToolKeepsInvariant | app.py:501-518 | adding a tool of an existing category with the next id keeps the tool invariant |
| Store.UpdateToolKeepsInvariant | app.py:550-571 | updating a tool, under the same id, to an existing category keeps the tool invariant |
| Store.DeleteToolKeepsInvariant | app.py:590-602 | deleting a tool keeps the tool invariant |
| Store.Site.constructor | app.py:45-83 | the freshly created database has empty tables, an empty directory, and its invariants hold |
| Store.Site.Upload | app.py:195-248 | refuses exactly when the check chain does, with its failure and no change; otherwise stores the file as `<slug>.html` (on a POSIX host), appends the component with its category text converted as SQLite does, today's date and the next id, advances the id counter by one, answers `/<slug>`, and `serve_component` of the slug then returns the uploaded bytes from the same upload directory |
| Store.Site.Serve | app.py:253-275 | the segment is refused as malformed exactly when `validate_path_name` fails it; in a consistent store a matched component's file is always present; a matched segment is a strict alphanumeric slug |
| Store.Site.WriteAndInsert | app.py:230-242 | writes the file, appends the row and advances the component id counter by one, changing nothing else; the invariants hold, and the slug serves the content |
| Store.Site.DeleteComponent | app.py:305-334 | an unknown id is a 404 with no change; otherwise the row is removed, its file is removed from the directory, and nothing else changes |
| Store.Site.CreateCategory | app.py:340-373 | fails exactly when a field check fails or the name is taken; field refusals come first; a refusal changes nothing; otherwise the category is appended with the next id, the counter advances by one, and its row is answered |
| Store.Site.UpdateCategory | app.py:378-416 | fails exactly when a field check fails, the id is unknown or another category holds the name; refusals in that order (the unknown id is a 404); otherwise only that row changes, keeping its id |
| Store.Site.DeleteCategory | app.py:421-449 | fails exactly when the id is unknown or tools or components still use it; an unknown id is a 404; a used category is refused with their total count; otherwise only that row is removed |
| Store.Site.CreateTool | app.py:486-530 | fails exactly when a field check fails or the category text names no category; field refusals first; otherwise the tool is appended with that category's id, today's date and the next id, and the counter advances by one |
| Store.Site.UpdateTool | app.py:535-582 | fails exactly when a field check fails, the tool is unknown or the category text names no category; refusals in that order (the unknown tool is a 404); otherwise only that row's title, description and category change, and its publish date is kept |
| Store.Site.DeleteTool | app.py:587-607 | an unknown id is a 404 with no change; otherwise only that row is removed |
| Listing.ZeroSpellingFilters | app.py:114-116 | `?category_id=00` selects category 0 alone, while `0` selects every category |
| Listing.PresetRows | app.py:124-141 | every preset tool whose category exists and passes the filter is listed, and every listed row comes from such a tool |
| Listing.UploadedRows | app.py:143-162 | the same for uploaded components, under the inner join with categories |
| Listing.InsertByDate | app.py:168 | inserting into a sorted list adds exactly one copy of the row |
| Listing.SortByDateDesc | app.py:168 | the sorted list is a permutation of its input and is ordered by date, newest first |
| Listing.InsertKeepsSorted | app.py:168 | inserting keeps the list sorted by date |
| Listing.WithDate | app.py:168 | selecting the rows of one date keeps only rows of the input with that date |
| Listing.WithDateConcat | app.py:165-168 | selecting by date distributes over concatenation |
| Listing.WithDateInsert | app.py:168 | insertion keeps the relative order of rows with equal dates |
| Listing.SortKeepsTies | app.py:168 | the sort is stable: rows with the same date keep their input order |
| Listing.PresetsFirstOnTies | app.py:165-168 | on equal dates, preset tools come before uploaded components, each in query order |
| Listing.NewerListedFirst | app.py:168 | a newer row is listed before an older one |
| Listing.IsoDatesExample | app.py:168 | ISO dates compare by calendar order |
| Listing.Slice | app.py:172-174 | a Python slice past the end is empty, and otherwise holds the rows from `start` up to the end or the list's end |
| Listing.SliceWindow | app.py:172-174 | a page is full exactly when it ends inside the list, and non-empty exactly when it starts inside the list |
| Listing.HasNextIsNotLast | app.py:184-186 | `page * per_page < total` holds exactly when the page is before the ceiling page count |
| Listing.Paginate | app.py:170-187 | the page holds the rows from `(page-1)*per_page` on, at most `per_page` of them; total, page and per_page are echoed; `has_prev` holds iff page > 1; a page that starts inside the list holds exactly min(per_page, rows left) rows |
| Listing.PageCount | app.py:183-186 | the page count is the ceiling of total over per_page, so it covers the rows with less than one page to spare, and `has_next` holds exactly when page < pages |
| Listing.PageOfList | app.py:170-187 | the page is the run of the list from row `(page-1)*per_page`, of length min(per_page, rows left) or empty past the end; total, page and per_page are echoed; `pages` is the least page count covering the rows; `has_prev` and `has_next` hold exactly when a page exists before and after |
| Listing.RowPage | app.py:170-187 | every row appears on page `i / per_page + 1`, at offset `i % per_page` |
| Listing.RowOnOnePage | app.py:170-187 | a row appears on no other page |
| Listing.ThirdOfTwentyFive | app.py:170-187 | page 3 of 25 rows, 10 per page, holds the last 5 rows and has no next page |
| Listing.AllTools | app.py:124-168 | the merged list is a permutation of the two queries' rows, sorted newest first, and each row's category passed the join and the filter |
| Listing.MergedJoined | app.py:124-168 | every merged row belongs to an existing, selected category |
| Listing.PageOfListing | app.py:170-174 | a page holds only listed rows, and keeps their date order |
| Listing.WindowOfListing | app.py:172-174 | a contiguous window of a sorted list is sorted and holds only its rows |
| Listing.GetTools | app.py:100-188 | the page is the run of the merged listing that starts at row `(page-1)*per_page`, as long as a page or the rest of the listing; `total` counts both queries' matching rows; `pages`, `has_prev` and `has_next` are as in `Listing.PageOfList`; every row on the page is joined and selected, newest first |
| Client.PageItems | static/js/main.js:285-320 | for an existing page the bar draws at least min(5, total) items and never more than nine |
| Client.WindowBounds | static/js/main.js:286-293 | the window contains the current page, lies in 1..total, and spans min(5, total) pages |
| Client.ScriptWindow | static/js/main.js:287-293 | the script's assign-then-adjust of `startPage` computes the defined window |
| Client.RenderPageNumbers | static/js/main.js:285-320 | the pushed items are the lead (page 1 and maybe an ellipsis), the window's buttons with the current one active, then the trail |
| Client.PageItemsShape | static/js/main.js:285-320 | the items start with page 1 and end with page `total`; neighbouring buttons are consecutive; each ellipsis sits between buttons more than one page apart; the current page is drawn active |
| Client.PageItemsEnds | static/js/main.js:298-317 | the number of items drawn; the first item is page 1 and the last is page `total`; an ellipsis follows page 1 exactly when the window starts after page 2, and precedes the last page exactly when it ends before `total - 1` |
| Client.PageItemsOrdered | static/js/main.js:285-320 | button pages strictly increase and lie in 1..total; exactly the current page's button is active, and it is drawn |
| Client.BarMatchesAnswer | static/js/main.js:260-275 | the bar is hidden exactly when all rows fit on one page; its range counts exactly the rows of the page, starting at the page's first row; the buttons are disabled exactly when the server reports no previous or next page |
| Client.Pager.constructor | static/js/main.js:2-9 | the globals start at page 1 of 1, with no rows, no search and category "0" |
| Client.Pager.ReceivePage | static/js/main.js:213-219 | any answer, including a stale one for an earlier request, sets the totals and the page, and the search and category are kept |
| Client.Pager.Prev | static/js/main.js:325-330 | reloads exactly when the page is after the first, stepping back one; nothing else changes |
| Client.Pager.Next | static/js/main.js:333-338 | reloads exactly when the page is before the last, stepping on one; an in-range page stays in range |
| Client.Pager.GoToPage | static/js/main.js:341-349 | a click on any button of an existing page, including one on a bar drawn before the latest answer, moves to its page; it reloads exactly when that page differs from the current one |
| Client.ButtonPagesExist | static/js/main.js:298-317 | every drawn page button names a page in 1..total |
| Client.Pager.HandleSearch | static/js/main.js:50-56 | reloads exactly when the trimmed input differs from the current term, taking it and returning to page 1 |
| Client.Pager.ClearSearch | static/js/main.js:84-90 | always reloads with an empty term at page 1 |
| Client.Pager.HandleCategoryClick | static/js/main.js:146-168 | a click off a link, or on the current category, does nothing; another category is taken and restarts at page 1 |
| Client.Pager.RenderPagination | static/js/main.js:260-282 | hidden exactly when there is at most one page; otherwise the range, the disabled states and the page numbers |
| Client.WithoutAll | static/js/main.js:118 | the filter never lengthens the list, and no kept category is named "all" |
| Client.WithoutAllCounts | static/js/main.js:118 | the filter keeps each category not named "all" as often as it occurs, and drops those named "all" |
| Client.CategoryEntries | static/js/main.js:112-118 | the list starts with the "全部" entry (id 0), and the rest is the fetched categories minus those named "all" |
| Client.WithoutAllConcat | static/js/main.js:118 | the filter keeps order: it distributes over concatenation |
| Client.NoAllNamedKeepsList | static/js/main.js:112-118 | without a fetched category named "all", the list is the "全部" entry followed by the fetched list unchanged |

## Left out

- HTTP, JSON, SQL text and Jinja templates. Each handler takes already-decoded arguments. The `index` and `upload_page` routes only render templates and are not modelled.
- Exceptions, and the 500 answers they produce, are not modelled: no handler in the model can fail outside its listed refusals.
- Clocks are not modelled: `datetime.now().strftime('%Y-%m-%d')` is the `today` parameter of `Store.Site.Upload` and `Store.Site.CreateTool`.
- Store.FileNameFor: `secure_filename` is modelled as the identity, which assumes a POSIX host. There it is the identity on an alphanumeric slug followed by `.html`, the only input it receives after the checks. On Windows, werkzeug prefixes `_` to a name whose part before the first dot is a device name (`CON`, `PRN`, `AUX`, `NUL`, `COMn`, `LPTn`, in any case), so the slug `con` would be saved and recorded as `_con.html`; the model does not capture that. Serving is unaffected, because it reads the file name back from the row.
- The check-then-insert race between concurrent uploads is not modelled: each method runs atomically, the way a single request sees the database.
- The write-then-insert order of the upload: the model does both steps in one method. An insert that fails after the file was saved, leaving an orphan file, is not modelled.
- The read-only list endpoints `get_categories` (app.py:91-98), `get_uploaded_components` (app.py:277-303) and `get_preset_tools` (app.py:455-484), including their user-chosen `ORDER BY`, are not modelled. They change nothing.
- The `search` parameter of `/api/tools`, its `LIKE` conditions and the column each condition happens to resolve to. Listing models the answer for an empty search term.
- The SQL row order. Without `ORDER BY`, SQLite guarantees no row order. The model assumes each query returns its rows in table (insertion) order, as a plain rowid scan does. `Listing.PresetsFirstOnTies`' "each in query order" rests on that assumption.
- Listing.Paginate: requires `page >= 1` and `per_page >= 1`. `int()` of a non-numeric parameter raises, and Python's negative-slice and zero-division behaviour for smaller values is not modelled.
- Text.IntegerText, Store.UploadForm: category ids are raw text, converted as SQLite's INTEGER affinity converts an optional sign followed by digits. Surrounding spaces, real literals such as "1.0" or "1e2", and values beyond 64 bits are not modelled; such text is kept as text and matches no category.
- Store.Site.CreateTool, Store.Site.UpdateTool: a JSON `category_id` is taken as its decimal text. JSON booleans, floats, lists and objects are not modelled.
- Text.AsciiLower: lowers ASCII letters only. Python's `lower()` of other letters is not modelled, and does not matter for comparing with `html`.
- The DOM, CSS classes, `debounce` timing, `formatDate`, `escapeHtml`, `renderTools`, loading indicators and error banners are not modelled. `loadTools` is modelled only by its success path (`Client.Pager.ReceivePage`); its fetch and its failure path are not.
- How `loadTools` builds its query string is not modelled. It omits `category_id` for "0".
- The `active` class of a category link, which compares with a loose `==`, is not modelled.
- `parseInt` of a button's `data-page`: `Client.Pager.GoToPage` receives the drawn button itself.
- Store.Site.Upload, Store.Site.Serve, Store.ServeFrom: the model has one upload directory. In app.py the upload is saved and removed through `uploads` relative to the process's working directory (app.py:232-233, 327-329), while `send_from_directory` resolves `uploads` relative to the application's directory (app.py:273). The two coincide only when the server is started from the application's directory, which the model assumes; started elsewhere, an uploaded slug answers 404. The model's third 404 (`FileMissing`) stands for Flask's `NotFound`, not for the unreachable "文件不存在" answer.
- Flask matches the static `/upload` route (app.py:190-193) before `/<path_name>`. A component with slug `upload` is accepted and stored, but a browser request for `/upload` gets the upload page. `Store.Site.Serve` models `serve_component` alone, not Flask's routing.
- `MAX_CONTENT_LENGTH` of 16 MB (app.py:18) is not modelled. Flask refuses a larger request with 413 before any handler runs; the model places no bound on file contents.
- `init_data.py` and the seed rows it inserts; the database initialisation is modelled as empty tables.
