/**
  Page assembly in `build`: the two synthetic doxygen pages `mainpage.dox`
  and `api.dox` are an opening comment marker, the contents of a fixed list
  of fragment files read in order, and a closing trailer.

  The working directory is a map from file name to file contents. Opening a
  fragment that does not exist raises an uncaught error, which ends the build
  before the page is written: the assembled page is then `None`.
 */
module Pages {
  import opened Text

  const MainOpening: string := "/**\n\n\\mainpage\n\n"
  const MainFragments: seq<string> :=
    ["introduction.txt", "installation.txt", "usage.txt", "tutorial.txt", "glossary.txt", "option_index.txt"]
  const MainTrailer: string := "\n\\image latex ForceBalance.pdf \"Logo.\" height=10cm\n\n*/"

  const ApiOpening: string := "/**\n\n"
  const ApiFragments: seq<string> := ["roadmap.txt"]
  const ApiTrailer: string := "\n\n*/"

  /** The contents of the named files concatenated in order, or `None` as soon
      as one of them is missing. */
  function Contents(names: seq<string>, files: map<string, string>): Option<string>
    decreases |names|
  {
    if names == [] then Some("")
    else
      var last := names[|names| - 1];
      match Contents(names[..|names| - 1], files)
      case None => None
      case Some(t) => if last in files then Some(t + files[last]) else None
  }

  /** The text a page is assembled to. */
  function Page(opening: string, names: seq<string>, trailer: string, files: map<string, string>): Option<string> {
    match Contents(names, files)
    case None => None
    case Some(t) => Some(opening + t + trailer)
  }

  /** The contents can be read exactly when every named file exists. */
  lemma {:induction false} ContentsDefined(names: seq<string>, files: map<string, string>)
    ensures Contents(names, files).Some? <==> forall n :: n in names ==> n in files
    decreases |names|
  {
    if names != [] {
      var front := names[..|names| - 1];
      ContentsDefined(front, files);
      assert names == front + [names[|names| - 1]];
    }
  }

  /** Adding one more fragment appends exactly its contents. */
  lemma ContentsSnoc(names: seq<string>, n: string, files: map<string, string>)
    requires Contents(names, files).Some? && n in files
    ensures Contents(names + [n], files) == Some(Contents(names, files).value + files[n])
  {
    assert (names + [n])[..|names|] == names;
  }

  /** Assemble a page by growing a string with `+=`, one fragment at a time. */
  method AssemblePage(opening: string, names: seq<string>, trailer: string, files: map<string, string>)
    returns (page: Option<string>)
    ensures page == Page(opening, names, trailer, files)
  {
    var text := opening;
    var i := 0;
    while i < |names|
      invariant 0 <= i <= |names|
      invariant Contents(names[..i], files).Some?
      invariant text == opening + Contents(names[..i], files).value
    {
      var name := names[i];
      if name !in files {
        assert names[..i + 1][..i] == names[..i];
        assert Contents(names[..i + 1], files).None?;
        ContentsAbsorbsFailure(names[..i + 1], names[i + 1..], files);
        assert names[..i + 1] + names[i + 1..] == names;
        return None;
      }
      assert names[..i + 1] == names[..i] + [name];
      ContentsSnoc(names[..i], name, files);
      text := text + files[name];
      i := i + 1;
    }
    assert names[..i] == names;
    text := text + trailer;
    page := Some(text);
  }

  /** Once a fragment is missing, reading more fragments does not help. */
  lemma {:induction false} ContentsAbsorbsFailure(names: seq<string>, more: seq<string>, files: map<string, string>)
    requires Contents(names, files).None?
    ensures Contents(names + more, files).None?
    decreases |more|
  {
    if more == [] {
      assert names + more == names;
    } else {
      var front := more[..|more| - 1];
      ContentsAbsorbsFailure(names, front, files);
      assert (names + more)[..|names + more| - 1] == names + front;
    }
  }

  /** `mainpage.dox`: the opening marker, the six fragments in the order
      introduction, installation, usage, tutorial, glossary, option index,
      and the logo trailer; nothing reordered or dropped. */
  lemma MainPageExact(files: map<string, string>)
    requires forall n :: n in MainFragments ==> n in files
    ensures Page(MainOpening, MainFragments, MainTrailer, files) ==
      Some(MainOpening
           + files["introduction.txt"] + files["installation.txt"] + files["usage.txt"]
           + files["tutorial.txt"] + files["glossary.txt"] + files["option_index.txt"]
           + MainTrailer)
  {
    ContentsOfSix("introduction.txt", "installation.txt", "usage.txt", "tutorial.txt", "glossary.txt", "option_index.txt", files);
    var t := Contents(MainFragments, files).value;
    var a, b, c := files["introduction.txt"], files["installation.txt"], files["usage.txt"];
    var d, e, f := files["tutorial.txt"], files["glossary.txt"], files["option_index.txt"];
    assert t == a + b + c + d + e + f;
    assert MainOpening + (a + b + c + d + e + f) + MainTrailer
        == MainOpening + a + b + c + d + e + f + MainTrailer;
  }

  /** Six fragments read in order. */
  lemma ContentsOfSix(n1: string, n2: string, n3: string, n4: string, n5: string, n6: string, files: map<string, string>)
    requires n1 in files && n2 in files && n3 in files && n4 in files && n5 in files && n6 in files
    ensures Contents([n1, n2, n3, n4, n5, n6], files) ==
      Some(files[n1] + files[n2] + files[n3] + files[n4] + files[n5] + files[n6])
  {
    ContentsSnoc([], n1, files);
    assert [] + [n1] == [n1];
    assert "" + files[n1] == files[n1];
    ContentsSnoc([n1], n2, files);
    assert [n1] + [n2] == [n1, n2];
    ContentsSnoc([n1, n2], n3, files);
    assert [n1, n2] + [n3] == [n1, n2, n3];
    ContentsSnoc([n1, n2, n3], n4, files);
    assert [n1, n2, n3] + [n4] == [n1, n2, n3, n4];
    ContentsSnoc([n1, n2, n3, n4], n5, files);
    assert [n1, n2, n3, n4] + [n5] == [n1, n2, n3, n4, n5];
    ContentsSnoc([n1, n2, n3, n4, n5], n6, files);
    assert [n1, n2, n3, n4, n5] + [n6] == [n1, n2, n3, n4, n5, n6];
  }

  /** `api.dox`: the opening marker, the road map, and the closing marker. */
  lemma ApiPageExact(files: map<string, string>)
    requires "roadmap.txt" in files
    ensures Page(ApiOpening, ApiFragments, ApiTrailer, files) ==
      Some(ApiOpening + files["roadmap.txt"] + ApiTrailer)
  {
    ContentsSnoc([], "roadmap.txt", files);
    assert "" + files["roadmap.txt"] == files["roadmap.txt"];
    assert [] + ["roadmap.txt"] == ApiFragments;
    assert Contents(ApiFragments, files) == Some(files["roadmap.txt"]);
  }

  /** A missing fragment means the page is not produced at all. */
  lemma PageMissingFragment(opening: string, names: seq<string>, trailer: string, files: map<string, string>, n: string)
    requires n in names && n !in files
    ensures Page(opening, names, trailer, files).None?
  {
    ContentsDefined(names, files);
  }

  /** The page-writing part of `build`: write `mainpage.dox`, then `api.dox`.
      When a fragment is missing the build stops there, and `completed` is
      false; a page written before the failure stays written. */
  method BuildPages(files: map<string, string>) returns (out: map<string, string>, completed: bool)
    ensures completed <==>
      Page(MainOpening, MainFragments, MainTrailer, files).Some? &&
      Page(ApiOpening, ApiFragments, ApiTrailer, files).Some?
    ensures completed ==>
      out == files["mainpage.dox" := Page(MainOpening, MainFragments, MainTrailer, files).value]
                  ["api.dox" := Page(ApiOpening, ApiFragments, ApiTrailer, files).value]
    ensures !completed && Page(MainOpening, MainFragments, MainTrailer, files).None? ==> out == files
    ensures !completed && Page(MainOpening, MainFragments, MainTrailer, files).Some? ==>
      out == files["mainpage.dox" := Page(MainOpening, MainFragments, MainTrailer, files).value]
  {
    var main := AssemblePage(MainOpening, MainFragments, MainTrailer, files);
    if main.None? {
      return files, false;
    }
    out := files["mainpage.dox" := main.value];
    // api.dox is read from the directory after mainpage.dox was written;
    // roadmap.txt is not mainpage.dox, so its contents are those of `files`.
    ApiPageReadsRoadmapOnly(files, out);
    var api := AssemblePage(ApiOpening, ApiFragments, ApiTrailer, out);
    if api.None? {
      return out, false;
    }
    out := out["api.dox" := api.value];
    completed := true;
  }

  /** The API page depends on `roadmap.txt` only. */
  lemma ApiPageReadsRoadmapOnly(files: map<string, string>, other: map<string, string>)
    requires ("roadmap.txt" in files <==> "roadmap.txt" in other)
    requires "roadmap.txt" in files ==> files["roadmap.txt"] == other["roadmap.txt"]
    ensures Page(ApiOpening, ApiFragments, ApiTrailer, files) == Page(ApiOpening, ApiFragments, ApiTrailer, other)
  {
    assert ApiFragments[..0] == [];
    assert ApiFragments == ApiFragments[..0] + ["roadmap.txt"];
  }
}
