# ForceBalance documentation builder: verified model of its text transformations

`doc/makedocumentation.py` drives the ForceBalance documentation build. It
runs doxygen, `make` and git without checking their exit status, and it holds
three small, deterministic text transformations. This project models those
three and proves what they do:

1. **Page assembly** (`build`). `mainpage.dox` is an opening doxygen comment
   marker with `\mainpage`, then the contents of six fragment files in a fixed
   order, then a LaTeX logo directive and the closing marker. `api.dox` does
   the same with the road map alone. Opening a missing fragment raises an
   error that ends the build, so that page and every later one are never
   written (module `Pages`).
2. **Navigation tab injection** (`add_tabs`). Every `.html` file in
   `./html/` is rewritten. After each line holding `a href="index.html"`,
   five tab entries are inserted: Installation, Usage, Tutorial, Glossary and
   API. The entry for the page being shown carries ` class="current"`. Every
   `.html` file in `./html/api/` is rewritten too, but there each anchor line
   is *replaced*: it becomes a "Main Page" link to `../index.html` and a
   "Project Roadmap" link. These are written as three pieces, or four when
   the file's path ends in `roadmap.html`, because then `class="current"` is
   added (module `Tabs`).
3. **Config line rewriting** (`doxyconf` and `find_doxypy`). In
   `doxygen.cfg`, a `FILTER_PATTERNS` line that does not mention doxypy
   becomes the canonical filter assignment. In `api.cfg`, an `INPUT` line
   always becomes `INPUT = api.dox <package dir>`, and that rule is tried
   before the filter rule. Each file is written to a temporary copy that
   replaces the original only at the end. So when a helper calls `exit()`
   part-way through a pass, that file and every later one stay as they were
   (module `Config`).

The string tests the script uses are modelled exactly (module `Text`).
`line.startswith(k)` is `StartsWith`. `re.match('.*P', s)` is
`MatchAfterAny`: P occurs after a prefix with no newline, since `.` does not
match a newline. `re.match('.*P$', s)` is `MatchAtEnd`: P ends s, or ends it
just before one final newline. `path.split('/')[-1]` is `Basename`. Lemmas
connect the executable predicates to these plain definitions.

All three transformations are loops in the source: strings grown with `+=`,
lists built with `append`, lines written one at a time to `fout`. The model
keeps them as methods with `while` loops. Each method is proved equal to a
recursive specification function, and the properties are proved about those
functions.

Some behaviour of the script is easy to misread; the model follows the code:
- In an API page the anchor line is replaced, not kept with entries after it.
- The road map entry is marked when the file's *path* matches `.*roadmap\.html$`,
  not when the name equals `roadmap.html`. For a listed name without
  newlines this is the same as the name ending in `roadmap.html`
  (`Tabs.RoadmapByName`).
- `api.cfg` does not always reuse a resolved doxypy location. `doxypy_path` is
  set only when `doxygen.cfg` needed its filter line rewritten. Otherwise it
  stays `""`, and the filter lines of `api.cfg` become `"*.py="`
  (`Config.DoxyconfApiFilterPath`).
- The main tree's `todotag` is computed but never used, so the model leaves it
  out.

## Model

| member | source | states |
|---|---|---|
| `Text.MatchAfterAnyMeaning` | doc/makedocumentation.py:90 | the executable `.*P` test holds iff P occurs at some position with no newline before it |
| `Text.MatchAtEndMeaning` | doc/makedocumentation.py:79 | the executable `.*P$` test holds iff P ends the string, or ends it before one final newline, after a newline-free prefix |
| `Text.MatchAtEndIsSuffix` | doc/makedocumentation.py:79 | on a name without newlines, `.*\.html$` is exactly "ends with `.html`" |
| `Text.LastSlash` | doc/makedocumentation.py:82 | the position of the last `/` in the path, or −1 when it has none: a slash sits there and none after it |
| `Text.Basename` | doc/makedocumentation.py:82 | `split('/')[-1]` is a suffix of the path that holds no slash and is either the whole path or preceded by a slash |
| `Text.BasenameUnderDirectory` | doc/makedocumentation.py:80-82 | the basename of `'./html/' + name` is the listed name itself |
| `Pages.Contents` | doc/makedocumentation.py:27-29 | defines the fragment contents read in list order, `None` at the first missing file |
| `Pages.Page` | doc/makedocumentation.py:25-41 | defines a page: opening marker, fragment contents and trailer, or `None` when a fragment is missing |
| `Pages.ContentsDefined` | doc/makedocumentation.py:27-29 | the fragments can be read iff every listed fragment file exists |
| `Pages.PageMissingFragment` | doc/makedocumentation.py:27-29 | one missing fragment means the page is not produced |
| `Pages.AssemblePage` | doc/makedocumentation.py:25-41 | the `+=` loop yields the opening marker, the fragment contents in list order and the trailer, or fails on a missing fragment |
| `Pages.MainPageExact` | doc/makedocumentation.py:25-30 | `mainpage.dox` is exactly the opening marker, introduction, installation, usage, tutorial, glossary, option index, then the logo trailer |
| `Pages.ApiPageExact` | doc/makedocumentation.py:36-41 | `api.dox` is exactly `/**\n\n`, the road map contents, then `\n\n*/` |
| `Pages.BuildPages` | doc/makedocumentation.py:24-44 | both pages are written iff all fragments exist; a failure on the API page keeps the already written `mainpage.dox`, and a failure on the main page writes nothing |
| `Tabs.MainTabs` | doc/makedocumentation.py:82-95 | defines the five entries of the `%s` templates, each tag computed from the file's basename |
| `Tabs.TabsFor` | doc/makedocumentation.py:91-95 | defines the five `append`ed entry lines for a given basename, in source order |
| `Tabs.TabsForMarking` | doc/makedocumentation.py:82-95 | for any basename, each of the first four entries is marked iff the basename is its page, and the API entry never is |
| `Tabs.MainTabsLength` | doc/makedocumentation.py:91-95 | five entries are inserted into every main-tree page |
| `Tabs.MainPatched` | doc/makedocumentation.py:88-95 | defines the main-tree page: every line copied, the five tabs after each anchor line |
| `Tabs.InsertAfterAnchors` | doc/makedocumentation.py:88-95 | defines the whole-page loop for any inserted lines: each line copied, the inserted lines after every line matching `.*a href="index\.html"` |
| `Tabs.InsertLayout` | doc/makedocumentation.py:88-95 | with n inserted lines, input line i is at position i + n·(anchors before it), and an anchor line is followed there by the inserted lines |
| `Tabs.TabLineMarked` | doc/makedocumentation.py:91-94 | a tab line starts with `<li class="current">` iff it was rendered with the current tag |
| `Tabs.MainTabsMarking` | doc/makedocumentation.py:82-95 | of the five entries, each of the first four is marked iff the file's basename is its page, and the API entry is never marked |
| `Tabs.MainTabsAtMostOneMarked` | doc/makedocumentation.py:82-95 | no two injected entries are both marked |
| `Tabs.MainPatchedLength` | doc/makedocumentation.py:88-95 | a patched main-tree page has the input's line count plus five per anchor line |
| `Tabs.MainPatchedNoAnchor` | doc/makedocumentation.py:88-95 | a page with no anchor line is written back unchanged |
| `Tabs.MainPatchedLayout` | doc/makedocumentation.py:88-95 | input line i is at position i + 5·(anchors before it), and an anchor line is followed there by the five tabs in order |
| `Tabs.InsertLines` | doc/makedocumentation.py:88-95 | the per-line `append` loop computes `InsertAfterAnchors` of the page |
| `Tabs.PatchMainLines` | doc/makedocumentation.py:81-95 | the tags chosen from the basename and the per-line loop compute the main-tree patch |
| `Tabs.ApiTabs` | doc/makedocumentation.py:104-107 | defines the pieces written in place of an API anchor line |
| `Tabs.ApiPatched` | doc/makedocumentation.py:102-108 | defines the API-tree page: anchor lines replaced by the pieces, other lines copied |
| `Tabs.ReplaceAnchors` | doc/makedocumentation.py:102-108 | defines the whole-page loop for any pieces: every anchor line replaced by the pieces, other lines copied |
| `Tabs.ReplaceLayout` | doc/makedocumentation.py:102-108 | at the position after the patch of the lines before it, an anchor line's pieces stand in order, or a non-anchor line is copied |
| `Tabs.ApiTabsShape` | doc/makedocumentation.py:104-107 | the replacement is three pieces, or four on the road map page; it starts with the `../index.html` Main Page line; `class="current"` is among the pieces iff the path ends in `roadmap.html` |
| `Tabs.RoadmapByName` | doc/makedocumentation.py:100-106 | for a listed name without newlines, the path test is "the name ends in `roadmap.html`" |
| `Tabs.ApiPatchedLength` | doc/makedocumentation.py:102-108 | an API page grows by (pieces − 1) per anchor line, each anchor line being removed |
| `Tabs.ApiPatchedNoAnchor` | doc/makedocumentation.py:102-108 | an API page with no anchor line is written back unchanged |
| `Tabs.ApiPatchedLayout` | doc/makedocumentation.py:102-108 | a non-anchor line is copied at its position, and an anchor line is replaced in place by the tab pieces |
| `Tabs.PatchApiLines` | doc/makedocumentation.py:101-108 | the per-line loop computes the API-tree patch |
| `Tabs.MainTreeFileBasename` | doc/makedocumentation.py:80-86 | a main-tree file is tagged by its own listed name |
| `Tabs.PatchedFile` | doc/makedocumentation.py:79-109 | defines one listed file after `add_tabs`: patched by its tree's rule if its name matches `.*\.html$`, else as it was |
| `Tabs.PatchDirectory` | doc/makedocumentation.py:78-109 | each listed file keeps its name and place; only names matching `.*\.html$` are rewritten, and all other files are left exactly as they were |
| `Tabs.AddTabs` | doc/makedocumentation.py:76-109 | the main tree gets the main patch and the `api` subtree the API patch, file by file |
| `Config.LastNine` | doc/makedocumentation.py:135 | Python's `s[-9:]` has length min(9, \|s\|) and is a suffix of s |
| `Config.FindDoxypy` | doc/makedocumentation.py:126-138 | `doxypy` when the probe succeeds; otherwise the typed path iff it exists and ends in `doxypy.py`, else exit |
| `Config.FindDoxypyNamesDoxypy` | doc/makedocumentation.py:132-137 | every accepted path is `doxypy` or ends in `doxypy.py` and is one line |
| `Config.DoxygenLine` | doc/makedocumentation.py:153-158 | defines one `doxygen.cfg` line after the filter rule |
| `Config.ApiLine` | doc/makedocumentation.py:173-180 | defines one `api.cfg` line after the `INPUT` rule and then the filter rule |
| `Config.FilterOptionSettled` | doc/makedocumentation.py:153-155 | a filter line written with such a path no longer triggers the filter rule |
| `Config.FilterOptionNotInput` | doc/makedocumentation.py:173-177 | a rewritten filter line never starts with the `INPUT` key |
| `Config.DoxygenLineIdempotent` | doc/makedocumentation.py:153-158 | rewriting one line twice is rewriting it once |
| `Config.ApiLineSettled` | doc/makedocumentation.py:173-180 | a second `api.cfg` rewrite of a rewritten line changes nothing when the new path is the same or the old one names doxypy |
| `Config.RewriteDoxygen` | doc/makedocumentation.py:152-158 | the rewritten `doxygen.cfg` has the same number of lines |
| `Config.RewriteApi` | doc/makedocumentation.py:170-180 | the rewritten `api.cfg` has the same number of lines |
| `Config.RewriteDoxygenAt` | doc/makedocumentation.py:152-158 | line i of the result is line i under the filter rule: changed only if it starts with the key and lacks doxypy, and then exactly `FILTER_PATTERNS        = "*.py=<path>"\n` |
| `Config.RewriteApiAt` | doc/makedocumentation.py:170-180 | line i of `api.cfg` is `INPUT = api.dox <dir>` if it starts with the `INPUT` key, else the filter rule applies, else it is copied |
| `Config.RewriteDoxygenUnneeded` | doc/makedocumentation.py:152-158 | a file with no line needing the filter is written back unchanged, whatever the path |
| `Config.RewriteDoxygenIdempotent` | doc/makedocumentation.py:152-158 | applying the `doxygen.cfg` rewrite twice equals applying it once |
| `Config.RewriteDoxygenSettles` | doc/makedocumentation.py:153-155 | with a path naming doxypy, no line of the result needs the filter any more |
| `Config.RewriteApiSettled` | doc/makedocumentation.py:170-180 | a second `api.cfg` rewrite of the result changes nothing under the same condition as `ApiLineSettled` |
| `Config.DoxygenPassResult` | doc/makedocumentation.py:142-160 | defines the first pass's outcome: exit, or the rewritten lines and the `doxypy_path` left over |
| `Config.ApiPassResult` | doc/makedocumentation.py:164-182 | defines the second pass's outcome: exit, or the rewritten lines |
| `Config.DoxyconfResult` | doc/makedocumentation.py:140-182 | defines both files after `doxyconf` and whether it completed |
| `Config.DoxygenPass` | doc/makedocumentation.py:142-160 | the `doxygen.cfg` loop exits iff a line needs the filter and `find_doxypy` exits; otherwise it writes the rewritten file and hands on `doxypy_path` (`""` if no line needed it) |
| `Config.ApiPass` | doc/makedocumentation.py:164-182 | the `api.cfg` loop exits iff an `INPUT` line exists and `find_forcebalance` exits; otherwise it writes the rewritten file |
| `Config.Doxyconf` | doc/makedocumentation.py:140-182 | the two passes in order, with `doxypy_path` carried from the first to the second; an exit keeps the file being written |
| `Config.DoxyconfPassthrough` | doc/makedocumentation.py:150-180 | line counts are kept, and every line that neither needs the filter nor is an `api.cfg` `INPUT` line is the same afterwards |
| `Config.DoxyconfExitKeepsOriginals` | doc/makedocumentation.py:148-182 | an exit in `find_doxypy` leaves both files untouched; an exit in `find_forcebalance` leaves `api.cfg` untouched |
| `Config.DoxyconfApiFilterPath` | doc/makedocumentation.py:142-177 | `api.cfg` filter lines get the doxypy location when `doxygen.cfg` needed it, and the empty path otherwise |
| `Config.DoxygenPassSettles` | doc/makedocumentation.py:142-160 | a completed `doxygen.cfg` pass, run again, writes its own output unchanged and finds nothing needing `find_doxypy`; the path it hands on is `""` or gives a filter line that no longer needs rewriting |
| `Config.ApiPassSettles` | doc/makedocumentation.py:164-182 | with such a path, a completed `api.cfg` pass, run again with the empty path and the same `find_forcebalance` outcome, writes its own output unchanged; this includes the exit, since then no `INPUT` line exists |
| `Config.DoxyconfIdempotent` | doc/makedocumentation.py:140-182 | running `doxyconf` again on its own output changes neither file and completes without consulting `find_doxypy`, also when `find_forcebalance` would fail (then `api.cfg` has no `INPUT` line) |

## Left out

- The build commands are left out: `make-option-index.py`, both doxygen runs and the two `make` runs for the PDFs. The script ignores their exit status, and they only create files; `option_index.txt` is one more entry in the file map.
- The `doxypy` probe in `find_doxypy` is not run either. Its output goes to the null device, and the script branches only on its exit status, which is the `probeSucceeded` input of `Config.DoxypyEnv`.
- File-system effects are left out: the `shutil.copy` of the logo and the PDFs, `os.chdir`, the `rm -rf` of `--clean`, and the `shutil.copy`/`shutil.move` of the temporary config files in `doxyconf`. Directory listings are given sequences of files, and file contents are given strings or line sequences. The temporary copy in `doxyconf` is modelled only by what it guarantees: a file is replaced only once its pass is complete.
- `git()` is left out. It is a fixed sequence of shell commands, and it reads an undefined `branch`, `HOSTNAME` and the clock.
- `find_forcebalance` is left out because it depends on Python's import machinery. Its outcome is the `forcebalanceDir` parameter, and `None` stands for its `exit()`.
- The `os.path.exists` half of the doxypy check is the boolean `pathExists`. What the user types at the prompt is the string `entered`.
- Config.DoxygenPass: `find_doxypy` is called once per line needing the filter. The model assumes every call gets the same answers (one `DoxypyEnv`), so a user who types different paths at repeated prompts is not modelled.
- Interactive mode, `display` echoing and argument parsing are left out. They echo commands and wait for Enter.
- Tabs.PatchDirectory: an API page is modelled as the pieces handed to `writelines`. Those pieces are not split into lines again, as a later read of the file would split them.
- Tabs.MainTabsMarking: "marked" means the entry starts with `      <li class="current">`. That is where the tag is rendered. The model does not prove that ` class="current"` occurs nowhere else in an unmarked entry's text.
- Write errors, encodings and line-ending translation are left out, because Python's file layer handles them outside the script's logic.
