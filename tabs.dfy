/**
  Navigation tab injection in `add_tabs`: every `.html` file that doxygen
  wrote to `./html/` and `./html/api/` is read line by line and written back
  with extra tab entries next to the line holding the `index.html` anchor.

  A directory is its listing: a sequence of files, each a name and the text
  chunks it holds (for a file being read, its lines). A patched file holds the
  chunks passed to `writelines`.
 */
module Tabs {
  import opened Text

  const IndexAnchor: string := "a href=\"index.html\""
  const CurrentTag: string := " class=\"current\""

  /** The `re.match('.*a href="index\.html"', line)` test. */
  predicate IsIndexAnchor(line: string) {
    MatchAfterAny(line, IndexAnchor)
  }

  const LiOpen: string := "      <li"

  /** One `<li>` entry of the main tab bar. */
  function TabLine(tag: string, target: string, caption: string): string {
    LiOpen + tag + TabRest(target, caption)
  }

  /** What follows the tag in a tab entry. */
  function TabRest(target: string, caption: string): string {
    "><a href=\"" + target + "\"><span>" + caption + "</span></a></li>\n"
  }

  /** How an entry rendered as the active one begins. */
  const MarkedPrefix: string := LiOpen + CurrentTag + ">"

  /** A tab entry rendered as the active one. */
  predicate Marked(line: string) {
    StartsWith(line, MarkedPrefix)
  }

  const InstallationPage: string := "installation.html"
  const UsagePage: string := "usage.html"
  const TutorialPage: string := "tutorial.html"
  const GlossaryPage: string := "glossary.html"
  const ApiPage: string := "api/roadmap.html"

  /** `' class="current"'` when the file is the tab's own page, else nothing. */
  function Tag(base: string, target: string): string {
    if base == target then CurrentTag else ""
  }

  /** The five entries injected into a page of the main tree whose basename
      is `base`, in the order Installation, Usage, Tutorial, Glossary, API.
      The API entry never carries a tag; the tag for `todo.html` that the
      script computes is never used, so it is not modelled. */
  function TabsFor(base: string): seq<string> {
    [ TabLine(Tag(base, InstallationPage), InstallationPage, "Installation"),
      TabLine(Tag(base, UsagePage), UsagePage, "Usage"),
      TabLine(Tag(base, TutorialPage), TutorialPage, "Tutorial"),
      TabLine(Tag(base, GlossaryPage), GlossaryPage, "Glossary"),
      TabLine("", ApiPage, "API") ]
  }

  /** The entries injected into the page at `path`: its tags are chosen by
      `fnm.split('/')[-1]`. */
  function MainTabs(path: string): seq<string> {
    TabsFor(Basename(path))
  }

  /** A tab line is marked exactly when it was rendered with the tag. */
  lemma TabLineMarked(tag: string, target: string, caption: string)
    requires tag == "" || tag == CurrentTag
    ensures Marked(TabLine(tag, target, caption)) <==> tag == CurrentTag
  {
    var line := TabLine(tag, target, caption);
    var rest := TabRest(target, caption);
    assert rest[0] == '>';
    if tag == "" {
      assert line == LiOpen + rest;
      assert line[|LiOpen|] == '>';
      assert MarkedPrefix[|LiOpen|] == ' ';
    } else {
      assert rest == ">" + rest[1..];
      assert line == MarkedPrefix + rest[1..];
    }
  }

  /** The entry for a page is marked exactly when the file is that page. */
  lemma EntryMarked(base: string, page: string, caption: string)
    ensures Marked(TabLine(Tag(base, page), page, caption)) <==> base == page
  {
    var t := Tag(base, page);
    assert t == "" || t == CurrentTag;
    TabLineMarked(t, page, caption);
    assert t == CurrentTag <==> base == page;
  }

  /** Entry by entry: each of the first four is marked exactly when the
      file's basename is its own page, and the API entry never is,
      since its line is rendered without a tag. */
  lemma MainTabsMarking(path: string)
    ensures |MainTabs(path)| == 5
    ensures Marked(MainTabs(path)[0]) <==> Basename(path) == InstallationPage
    ensures Marked(MainTabs(path)[1]) <==> Basename(path) == UsagePage
    ensures Marked(MainTabs(path)[2]) <==> Basename(path) == TutorialPage
    ensures Marked(MainTabs(path)[3]) <==> Basename(path) == GlossaryPage
    ensures !Marked(MainTabs(path)[4])
  {
    TabsForMarking(Basename(path));
  }

  /** The marking for a given basename. */
  lemma TabsForMarking(base: string)
    ensures |TabsFor(base)| == 5
    ensures Marked(TabsFor(base)[0]) <==> base == InstallationPage
    ensures Marked(TabsFor(base)[1]) <==> base == UsagePage
    ensures Marked(TabsFor(base)[2]) <==> base == TutorialPage
    ensures Marked(TabsFor(base)[3]) <==> base == GlossaryPage
    ensures !Marked(TabsFor(base)[4])
  {
    TabsForEntries(base);
    EntryMarked(base, InstallationPage, "Installation");
    EntryMarked(base, UsagePage, "Usage");
    EntryMarked(base, TutorialPage, "Tutorial");
    EntryMarked(base, GlossaryPage, "Glossary");
    TabLineMarked("", ApiPage, "API");
  }

  /** The five entries, one by one. */
  lemma TabsForEntries(base: string)
    ensures |TabsFor(base)| == 5
    ensures TabsFor(base)[0] == TabLine(Tag(base, InstallationPage), InstallationPage, "Installation")
    ensures TabsFor(base)[1] == TabLine(Tag(base, UsagePage), UsagePage, "Usage")
    ensures TabsFor(base)[2] == TabLine(Tag(base, TutorialPage), TutorialPage, "Tutorial")
    ensures TabsFor(base)[3] == TabLine(Tag(base, GlossaryPage), GlossaryPage, "Glossary")
    ensures TabsFor(base)[4] == TabLine("", ApiPage, "API")
  {
  }

  /** Five entries are injected into every page. */
  lemma MainTabsLength(path: string)
    ensures |MainTabs(path)| == 5
  {
    TabsForEntries(Basename(path));
  }

  /** The four pages that can be current are pairwise different. */
  lemma PagesDistinct()
    ensures InstallationPage != UsagePage && InstallationPage != TutorialPage && InstallationPage != GlossaryPage
    ensures UsagePage != TutorialPage && UsagePage != GlossaryPage && TutorialPage != GlossaryPage
  {
    assert |InstallationPage| == 17 && |UsagePage| == 10 && |TutorialPage| == 13 && |GlossaryPage| == 13;
    assert TutorialPage[0] == 't' && GlossaryPage[0] == 'g';
  }

  /** At most one injected entry is marked. */
  lemma MainTabsAtMostOneMarked(path: string)
    ensures forall i, j :: 0 <= i < j < |MainTabs(path)| ==> !(Marked(MainTabs(path)[i]) && Marked(MainTabs(path)[j]))
  {
    MainTabsMarking(path);
    PagesDistinct();
    var tabs := MainTabs(path);
    var m0, m1, m2, m3 := Marked(tabs[0]), Marked(tabs[1]), Marked(tabs[2]), Marked(tabs[3]);
    assert !(m0 && m1) && !(m0 && m2) && !(m0 && m3) && !(m1 && m2) && !(m1 && m3) && !(m2 && m3);
    forall i, j | 0 <= i < j < 5
      ensures !(Marked(tabs[i]) && Marked(tabs[j]))
    {
      if j == 4 {
        assert !Marked(tabs[j]);
      } else {
        var mi := if i == 0 then m0 else if i == 1 then m1 else m2;
        var mj := if j == 1 then m1 else if j == 2 then m2 else m3;
        assert !(mi && mj);
        assert i == 0 || i == 1 || i == 2;
        assert j == 1 || j == 2 || j == 3;
        assert Marked(tabs[i]) == mi;
        assert Marked(tabs[j]) == mj;
      }
    }
  }

  /** The lines of a page with `extra` inserted right after every line that
      holds the index anchor. */
  function InsertAfterAnchors(lines: seq<string>, extra: seq<string>): seq<string>
    decreases |lines|
  {
    if lines == [] then []
    else
      var last := lines[|lines| - 1];
      InsertAfterAnchors(lines[..|lines| - 1], extra) + [last] + (if IsIndexAnchor(last) then extra else [])
  }

  /** The main-tree patch of a whole page: the five tabs after each anchor. */
  function MainPatched(path: string, lines: seq<string>): seq<string> {
    InsertAfterAnchors(lines, MainTabs(path))
  }

  /** Number of lines holding the index anchor. */
  function AnchorCount(lines: seq<string>): nat
    decreases |lines|
  {
    if lines == [] then 0
    else AnchorCount(lines[..|lines| - 1]) + (if IsIndexAnchor(lines[|lines| - 1]) then 1 else 0)
  }

  lemma {:induction false} InsertLength(lines: seq<string>, extra: seq<string>)
    ensures |InsertAfterAnchors(lines, extra)| == |lines| + |extra| * AnchorCount(lines)
    decreases |lines|
  {
    if lines != [] {
      var front := lines[..|lines| - 1];
      InsertLength(front, extra);
      var c := AnchorCount(front);
      if IsIndexAnchor(lines[|lines| - 1]) {
        assert |extra| * (c + 1) == |extra| * c + |extra|;
      }
    }
  }

  lemma {:induction false} InsertNoAnchor(lines: seq<string>, extra: seq<string>)
    requires AnchorCount(lines) == 0
    ensures InsertAfterAnchors(lines, extra) == lines
    decreases |lines|
  {
    if lines != [] {
      InsertNoAnchor(lines[..|lines| - 1], extra);
      assert lines == lines[..|lines| - 1] + [lines[|lines| - 1]];
    }
  }

  /** The insertion works line by line, so it distributes over `+`. */
  lemma {:induction false} InsertAppend(a: seq<string>, b: seq<string>, extra: seq<string>)
    ensures InsertAfterAnchors(a + b, extra) == InsertAfterAnchors(a, extra) + InsertAfterAnchors(b, extra)
    decreases |b|
  {
    if b == [] {
      assert a + b == a;
    } else {
      var front := b[..|b| - 1];
      var last := b[|b| - 1];
      var e := if IsIndexAnchor(last) then extra else [];
      assert (a + b)[..|a + b| - 1] == a + front;
      assert (a + b)[|a + b| - 1] == last;
      calc {
        InsertAfterAnchors(a + b, extra);
        InsertAfterAnchors(a + front, extra) + [last] + e;
        { InsertAppend(a, front, extra); }
        (InsertAfterAnchors(a, extra) + InsertAfterAnchors(front, extra)) + [last] + e;
        InsertAfterAnchors(a, extra) + (InsertAfterAnchors(front, extra) + [last] + e);
        InsertAfterAnchors(a, extra) + InsertAfterAnchors(b, extra);
      }
    }
  }

  /** A split of the page at line k splits its insertion. */
  lemma InsertSplit(lines: seq<string>, extra: seq<string>, k: nat)
    requires k <= |lines|
    ensures InsertAfterAnchors(lines, extra) == InsertAfterAnchors(lines[..k], extra) + InsertAfterAnchors(lines[k..], extra)
  {
    assert lines == lines[..k] + lines[k..];
    InsertAppend(lines[..k], lines[k..], extra);
  }

  /** Line i sits at position i + n * (anchors before it), with `n` the
      number of inserted lines, and when it holds the anchor the inserted
      lines follow it immediately. */
  lemma InsertLayout(lines: seq<string>, extra: seq<string>, n: nat, i: nat)
    requires i < |lines| && |extra| == n
    ensures var o := i + n * AnchorCount(lines[..i]);
      var out := InsertAfterAnchors(lines, extra);
      o < |out| && out[o] == lines[i] &&
      (IsIndexAnchor(lines[i]) ==> o + 1 + n <= |out| && out[o + 1..o + 1 + n] == extra)
  {
    var pre := InsertAfterAnchors(lines[..i], extra);
    var upto := InsertAfterAnchors(lines[..i + 1], extra);
    var out := InsertAfterAnchors(lines, extra);
    InsertLength(lines[..i], extra);
    InsertStep(lines, extra, i);
    InsertSplit(lines, extra, i + 1);
    assert out[..|upto|] == upto;
    assert upto[|pre|] == lines[i];
    if IsIndexAnchor(lines[i]) {
      assert upto[|pre| + 1..] == extra;
    }
  }

  /** The patched page has five more lines per anchor line. */
  lemma MainPatchedLength(path: string, lines: seq<string>)
    ensures |MainPatched(path, lines)| == |lines| + 5 * AnchorCount(lines)
  {
    MainTabsLength(path);
    InsertLength(lines, MainTabs(path));
  }

  /** A page without the anchor is written back unchanged. */
  lemma MainPatchedNoAnchor(path: string, lines: seq<string>)
    requires AnchorCount(lines) == 0
    ensures MainPatched(path, lines) == lines
  {
    InsertNoAnchor(lines, MainTabs(path));
  }

  /** Every input line is kept, in order: line i sits at position
      i + 5 * (anchors before it), and when it holds the anchor the five tabs
      follow it immediately. With MainPatchedLength this accounts for every
      output line. */
  lemma MainPatchedLayout(path: string, lines: seq<string>, i: nat)
    requires i < |lines|
    ensures var o := i + 5 * AnchorCount(lines[..i]);
      var out := MainPatched(path, lines);
      o < |out| && out[o] == lines[i] &&
      (IsIndexAnchor(lines[i]) ==> o + 6 <= |out| && out[o + 1..o + 6] == MainTabs(path))
  {
    MainTabsLength(path);
    InsertLayout(lines, MainTabs(path), 5, i);
  }

  /** One more input line extends the insertion by that line and, for an
      anchor line, the inserted lines. */
  lemma InsertStep(lines: seq<string>, extra: seq<string>, i: nat)
    requires i < |lines|
    ensures InsertAfterAnchors(lines[..i + 1], extra) ==
      InsertAfterAnchors(lines[..i], extra) + [lines[i]] + (if IsIndexAnchor(lines[i]) then extra else [])
  {
    assert lines[..i + 1][..i] == lines[..i];
  }

  /** The per-line loop of the main-tree pass: every line is copied, and
      after a line holding the anchor come the `extra` lines. */
  method InsertLines(lines: seq<string>, extra: seq<string>) returns (newfile: seq<string>)
    ensures newfile == InsertAfterAnchors(lines, extra)
  {
    newfile := [];
    var i := 0;
    while i < |lines|
      invariant 0 <= i <= |lines|
      invariant newfile == InsertAfterAnchors(lines[..i], extra)
    {
      var line := lines[i];
      newfile := newfile + [line];
      if IsIndexAnchor(line) {
        newfile := newfile + extra;
      }
      InsertStep(lines, extra, i);
      i := i + 1;
    }
    assert lines[..i] == lines;
  }

  /** The main-tree pass over one page: the tags are chosen once from the
      file's basename, and the five entries built from them go after every
      anchor line. */
  method PatchMainLines(path: string, lines: seq<string>) returns (newfile: seq<string>)
    ensures newfile == MainPatched(path, lines)
  {
    var b := Basename(path);
    var installtag := Tag(b, InstallationPage);
    var usagetag := Tag(b, UsagePage);
    var tutorialtag := Tag(b, TutorialPage);
    var glossarytag := Tag(b, GlossaryPage);
    var tabs := [TabLine(installtag, InstallationPage, "Installation"),
                 TabLine(usagetag, UsagePage, "Usage"),
                 TabLine(tutorialtag, TutorialPage, "Tutorial"),
                 TabLine(glossarytag, GlossaryPage, "Glossary"),
                 TabLine("", ApiPage, "API")];
    assert tabs == MainTabs(path);
    newfile := InsertLines(lines, tabs);
  }

  // ---------------------------------------------------------------- API tree

  const MainPageLine: string := "      <li><a href=\"../index.html\"><span>Main Page</span></a></li>\n"
  const RoadmapOpen: string := "      <li "
  const RoadmapCurrent: string := "class=\"current\""
  const RoadmapClose: string := "><a href=\"roadmap.html\"><span>Project Roadmap</span></a></li>\n"

  /** The `re.match('.*roadmap\.html$', fnm)` test on the file's path. */
  predicate IsRoadmap(path: string) {
    MatchAtEnd(path, "roadmap.html")
  }

  /** The pieces that replace an anchor line of an API page. */
  function ApiTabs(path: string): seq<string> {
    [MainPageLine, RoadmapOpen] + (if IsRoadmap(path) then [RoadmapCurrent] else []) + [RoadmapClose]
  }

  /** Three pieces, or four on the road map page itself; the first is the
      Main Page link one directory up, and `class="current"` is among them
      exactly on the road map page. */
  lemma ApiTabsShape(path: string)
    ensures |ApiTabs(path)| == if IsRoadmap(path) then 4 else 3
    ensures ApiTabs(path)[0] == MainPageLine
    ensures RoadmapCurrent in ApiTabs(path) <==> IsRoadmap(path)
  {
    assert |MainPageLine| != |RoadmapCurrent|;
    assert |RoadmapOpen| != |RoadmapCurrent|;
    assert |RoadmapClose| != |RoadmapCurrent|;
  }

  /** A page under `./html/api/` is the road map page exactly when its
      listed name ends in `roadmap.html`. */
  lemma RoadmapByName(name: string)
    requires '\n' !in name
    ensures IsRoadmap("./html/api/" + name) <==> EndsWith(name, "roadmap.html")
  {
    var path := "./html/api/" + name;
    assert forall c :: c in path ==> c in "./html/api/" || c in name;
    assert '\n' !in "./html/api/";
    MatchAtEndIsSuffix(path, "roadmap.html");
    assert '/' !in "roadmap.html";
    SuffixUnderDirectory("./html/api/", name, "roadmap.html");
  }

  /** The lines of a page with every line that holds the index anchor
      replaced by `pieces`. */
  function ReplaceAnchors(lines: seq<string>, pieces: seq<string>): seq<string>
    decreases |lines|
  {
    if lines == [] then []
    else
      var last := lines[|lines| - 1];
      ReplaceAnchors(lines[..|lines| - 1], pieces) + (if IsIndexAnchor(last) then pieces else [last])
  }

  /** The API-tree patch of a whole page: the tab pieces instead of each
      anchor line. */
  function ApiPatched(path: string, lines: seq<string>): seq<string> {
    ReplaceAnchors(lines, ApiTabs(path))
  }

  lemma {:induction false} ReplaceLength(lines: seq<string>, pieces: seq<string>)
    ensures |ReplaceAnchors(lines, pieces)| == |lines| + (|pieces| - 1) * AnchorCount(lines)
    decreases |lines|
  {
    if lines != [] {
      var front := lines[..|lines| - 1];
      ReplaceLength(front, pieces);
      var c := AnchorCount(front);
      var d := |pieces| - 1;
      if IsIndexAnchor(lines[|lines| - 1]) {
        assert |ReplaceAnchors(lines, pieces)| == |front| + d * c + |pieces|;
        assert d * (c + 1) == d * c + d;
      } else {
        assert |ReplaceAnchors(lines, pieces)| == |front| + d * c + 1;
      }
    }
  }

  lemma {:induction false} ReplaceNoAnchor(lines: seq<string>, pieces: seq<string>)
    requires AnchorCount(lines) == 0
    ensures ReplaceAnchors(lines, pieces) == lines
    decreases |lines|
  {
    if lines != [] {
      ReplaceNoAnchor(lines[..|lines| - 1], pieces);
      assert lines == lines[..|lines| - 1] + [lines[|lines| - 1]];
    }
  }

  /** The replacement works line by line, so it distributes over `+`. */
  lemma {:induction false} ReplaceAppend(a: seq<string>, b: seq<string>, pieces: seq<string>)
    ensures ReplaceAnchors(a + b, pieces) == ReplaceAnchors(a, pieces) + ReplaceAnchors(b, pieces)
    decreases |b|
  {
    if b == [] {
      assert a + b == a;
    } else {
      var front := b[..|b| - 1];
      var last := b[|b| - 1];
      var m := (if IsIndexAnchor(last) then pieces else [last]);
      assert (a + b)[..|a + b| - 1] == a + front;
      assert (a + b)[|a + b| - 1] == last;
      calc {
        ReplaceAnchors(a + b, pieces);
        ReplaceAnchors(a + front, pieces) + m;
        { ReplaceAppend(a, front, pieces); }
        (ReplaceAnchors(a, pieces) + ReplaceAnchors(front, pieces)) + m;
        ReplaceAnchors(a, pieces) + (ReplaceAnchors(front, pieces) + m);
        ReplaceAnchors(a, pieces) + ReplaceAnchors(b, pieces);
      }
    }
  }

  /** A split of the page at line k splits its replacement. */
  lemma ReplaceSplit(lines: seq<string>, pieces: seq<string>, k: nat)
    requires k <= |lines|
    ensures ReplaceAnchors(lines, pieces) == ReplaceAnchors(lines[..k], pieces) + ReplaceAnchors(lines[k..], pieces)
  {
    assert lines == lines[..k] + lines[k..];
    ReplaceAppend(lines[..k], lines[k..], pieces);
  }

  /** One more input line extends the replacement by the pieces or the line. */
  lemma ReplaceStep(lines: seq<string>, pieces: seq<string>, i: nat)
    requires i < |lines|
    ensures ReplaceAnchors(lines[..i + 1], pieces) ==
      ReplaceAnchors(lines[..i], pieces) + (if IsIndexAnchor(lines[i]) then pieces else [lines[i]])
  {
    assert lines[..i + 1][..i] == lines[..i];
  }

  /** Line i is replaced, right after the patch of the lines before it, by
      the pieces when it holds the anchor, and copied otherwise. */
  lemma ReplaceLayout(lines: seq<string>, pieces: seq<string>, i: nat)
    requires i < |lines|
    ensures var o := |ReplaceAnchors(lines[..i], pieces)|;
      var out := ReplaceAnchors(lines, pieces);
      (IsIndexAnchor(lines[i]) ==> o + |pieces| <= |out| && out[o..o + |pieces|] == pieces) &&
      (!IsIndexAnchor(lines[i]) ==> o < |out| && out[o] == lines[i])
  {
    var pre := ReplaceAnchors(lines[..i], pieces);
    var upto := ReplaceAnchors(lines[..i + 1], pieces);
    var out := ReplaceAnchors(lines, pieces);
    ReplaceStep(lines, pieces, i);
    ReplaceSplit(lines, pieces, i + 1);
    assert out[..|upto|] == upto;
    if IsIndexAnchor(lines[i]) {
      assert upto[|pre|..] == pieces;
    } else {
      assert upto[|pre|] == lines[i];
    }
  }

  /** Each anchor line, removed, leaves its k pieces in its place. */
  lemma ApiPatchedLength(path: string, lines: seq<string>)
    ensures |ApiPatched(path, lines)| == |lines| + (|ApiTabs(path)| - 1) * AnchorCount(lines)
  {
    ReplaceLength(lines, ApiTabs(path));
  }

  /** An API page without the anchor is written back unchanged. */
  lemma ApiPatchedNoAnchor(path: string, lines: seq<string>)
    requires AnchorCount(lines) == 0
    ensures ApiPatched(path, lines) == lines
  {
    ReplaceNoAnchor(lines, ApiTabs(path));
  }

  /** Line i starts output position i + (k - 1) * (anchors before it): there
      the line itself is copied, or, for an anchor line, the k tab pieces
      stand instead of it. */
  lemma ApiPatchedLayout(path: string, lines: seq<string>, i: nat)
    requires i < |lines|
    ensures var o := i + (|ApiTabs(path)| - 1) * AnchorCount(lines[..i]);
      var out := ApiPatched(path, lines);
      var k := |ApiTabs(path)|;
      (IsIndexAnchor(lines[i]) ==> o + k <= |out| && out[o..o + k] == ApiTabs(path)) &&
      (!IsIndexAnchor(lines[i]) ==> o < |out| && out[o] == lines[i])
  {
    ReplaceLayout(lines, ApiTabs(path), i);
    ReplaceLength(lines[..i], ApiTabs(path));
  }

  /** The per-line loop of the API-tree pass. */
  method PatchApiLines(path: string, lines: seq<string>) returns (newfile: seq<string>)
    ensures newfile == ApiPatched(path, lines)
  {
    newfile := [];
    var i := 0;
    while i < |lines|
      invariant 0 <= i <= |lines|
      invariant newfile == ApiPatched(path, lines[..i])
    {
      var line := lines[i];
      if IsIndexAnchor(line) {
        newfile := newfile + [MainPageLine];
        newfile := newfile + [RoadmapOpen];
        if IsRoadmap(path) {
          newfile := newfile + [RoadmapCurrent];
        }
        newfile := newfile + [RoadmapClose];
      } else {
        newfile := newfile + [line];
      }
      ReplaceStep(lines, ApiTabs(path), i);
      i := i + 1;
    }
    assert lines[..i] == lines;
  }

  // ------------------------------------------------------------ directories

  datatype File = File(name: string, lines: seq<string>)

  /** The two directories `add_tabs` visits. */
  datatype Tree = MainTree | ApiTree

  function Directory(tree: Tree): string {
    match tree
    case MainTree => "./html/"
    case ApiTree => "./html/api/"
  }

  /** The `re.match('.*\.html$', fnm)` test on a listed name. */
  predicate IsHtmlName(name: string) {
    MatchAtEnd(name, ".html")
  }

  /** What `add_tabs` leaves in one listed file of a tree. */
  function PatchedFile(tree: Tree, f: File): File {
    if !IsHtmlName(f.name) then f
    else
      var path := Directory(tree) + f.name;
      match tree
      case MainTree => File(f.name, MainPatched(path, f.lines))
      case ApiTree => File(f.name, ApiPatched(path, f.lines))
  }

  /** A file of the main tree is patched with its own name as basename: the
      tab of the page being shown is the one marked. */
  lemma MainTreeFileBasename(name: string)
    requires '/' !in name
    ensures Basename(Directory(MainTree) + name) == name
  {
    BasenameUnderDirectory(Directory(MainTree), name);
  }

  /** One pass of `add_tabs` over the listing of a tree. Every listed file
      keeps its name and its place; a file whose name does not end in `.html`
      is left exactly as it was. */
  method PatchDirectory(tree: Tree, listing: seq<File>) returns (out: seq<File>)
    ensures |out| == |listing|
    ensures forall i :: 0 <= i < |listing| ==> out[i] == PatchedFile(tree, listing[i])
    ensures forall i :: 0 <= i < |listing| ==> out[i].name == listing[i].name
    ensures forall i :: 0 <= i < |listing| && !IsHtmlName(listing[i].name) ==> out[i] == listing[i]
  {
    out := [];
    var i := 0;
    while i < |listing|
      invariant 0 <= i <= |listing|
      invariant |out| == i
      invariant forall k :: 0 <= k < i ==> out[k] == PatchedFile(tree, listing[k])
    {
      var f := listing[i];
      if IsHtmlName(f.name) {
        var path := Directory(tree) + f.name;
        var newfile;
        match tree {
          case MainTree => newfile := PatchMainLines(path, f.lines);
          case ApiTree => newfile := PatchApiLines(path, f.lines);
        }
        out := out + [File(f.name, newfile)];
      } else {
        out := out + [f];
      }
      i := i + 1;
    }
  }

  /** `add_tabs`: the main tree first, then its `api` subdirectory. */
  method AddTabs(html: seq<File>, api: seq<File>) returns (html': seq<File>, api': seq<File>)
    ensures |html'| == |html| && |api'| == |api|
    ensures forall i :: 0 <= i < |html| ==> html'[i] == PatchedFile(MainTree, html[i])
    ensures forall i :: 0 <= i < |api| ==> api'[i] == PatchedFile(ApiTree, api[i])
  {
    html' := PatchDirectory(MainTree, html);
    api' := PatchDirectory(ApiTree, api);
  }
}
