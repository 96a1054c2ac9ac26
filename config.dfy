/**
  Config line rewriting in `doxyconf`, with the path check of `find_doxypy`.

  `doxygen.cfg` and then `api.cfg` are read into lists of lines and written,
  line by line, to a temporary copy that replaces the original only once the
  whole file is written. A helper that calls `exit()` half-way through a pass
  therefore leaves that file, and every file after it, as it was.

  The outside world enters as values: what the `doxypy` probe, the prompt and
  the existence test would answer (DoxypyEnv), and the directory that
  `find_forcebalance` would report (`None` when it exits).
 */
module Config {
  import opened Text

  const FilterKey: string := "FILTER_PATTERNS        ="
  const InputKey: string := "INPUT                  ="

  // ------------------------------------------------------------ find_doxypy

  /** The answers `find_doxypy` gets: whether running `doxypy` from the
      system path succeeded, what the user typed at the prompt, and whether
      that path exists. */
  datatype DoxypyEnv = DoxypyEnv(probeSucceeded: bool, entered: string, pathExists: bool)

  /** Python's `s[-9:]`: the last nine characters, or all of a shorter s. */
  function LastNine(s: string): (r: string)
    ensures |r| == if |s| < 9 then |s| else 9
    ensures EndsWith(s, r)
  {
    if |s| >= 9 then s[|s| - 9..] else s
  }

  /** The result of `find_doxypy`, or `None` when it prints "Invalid path to
      doxypy" and exits. */
  function FindDoxypy(env: DoxypyEnv): (r: Option<string>)
    ensures env.probeSucceeded ==> r == Some("doxypy")
    ensures !env.probeSucceeded ==>
      (r.Some? <==> env.pathExists && EndsWith(env.entered, "doxypy.py")) &&
      (r.Some? ==> r.value == env.entered)
  {
    if env.probeSucceeded then Some("doxypy")
    else if !env.pathExists || LastNine(env.entered) != "doxypy.py" then None
    else Some(env.entered)
  }

  /** A filter path that names doxypy on a single line. */
  predicate NamesDoxypy(p: string) {
    '\n' !in p && (p == "doxypy" || EndsWith(p, "doxypy.py"))
  }

  /** Every path `find_doxypy` accepts names doxypy, since the prompt's reply
      is one line. */
  lemma FindDoxypyNamesDoxypy(env: DoxypyEnv)
    requires '\n' !in env.entered
    requires FindDoxypy(env).Some?
    ensures NamesDoxypy(FindDoxypy(env).value)
  {
  }

  // ------------------------------------------------------------- line rules

  /** The `FILTER_PATTERNS` rule: the key starts the line and the line does
      not mention doxypy (`re.match(".*doxypy.*", line)` fails). */
  predicate NeedsFilter(line: string) {
    StartsWith(line, FilterKey) && !MatchAfterAny(line, "doxypy")
  }

  predicate IsInputLine(line: string) {
    StartsWith(line, InputKey)
  }

  function FilterOption(path: string): string {
    FilterKey + " \"*.py=" + path + "\"\n"
  }

  function InputOption(dir: string): string {
    InputKey + " api.dox " + dir + "\n"
  }

  /** One line of `doxygen.cfg`. */
  function DoxygenLine(line: string, path: string): string {
    if NeedsFilter(line) then FilterOption(path) else line
  }

  /** One line of `api.cfg`: the `INPUT` rule is tried first. */
  function ApiLine(line: string, path: string, dir: string): string {
    if IsInputLine(line) then InputOption(dir) else DoxygenLine(line, path)
  }

  /** A rewritten filter line refers to doxypy once the path does, so the
      rule leaves it alone from then on. */
  lemma FilterOptionSettled(p: string)
    requires NamesDoxypy(p)
    ensures !NeedsFilter(FilterOption(p))
  {
    var head := FilterKey + " \"*.py=";
    assert '\n' !in head;
    var tail := "\"\n";
    if p == "doxypy" {
      assert FilterOption(p) == head + "doxypy" + tail;
      MatchAfterAnyFrame(head, "doxypy", tail, "doxypy");
    } else {
      var front := p[..|p| - 9];
      assert p == front + "doxypy.py";
      assert forall c :: c in front ==> c in p;
      assert FilterOption(p) == (head + front) + "doxypy.py" + tail;
      assert "doxypy.py"[..6] == "doxypy";
      MatchAfterAnyFrame(head + front, "doxypy.py", tail, "doxypy");
    }
  }

  /** A rewritten filter line is never taken for an `INPUT` line. */
  lemma FilterOptionNotInput(p: string)
    ensures !IsInputLine(FilterOption(p))
  {
    assert FilterOption(p)[0] == 'F';
    assert InputKey[0] == 'I';
  }

  lemma InputOptionIsInput(dir: string)
    ensures IsInputLine(InputOption(dir))
  {
    assert InputOption(dir)[..|InputKey|] == InputKey;
  }

  /** Rewriting a line of `doxygen.cfg` twice gives the line rewritten once. */
  lemma DoxygenLineIdempotent(line: string, path: string)
    ensures DoxygenLine(DoxygenLine(line, path), path) == DoxygenLine(line, path)
  {
  }

  /** A second `api.cfg` pass leaves a rewritten line alone, whether it uses
      the same filter path or the first path already names doxypy. */
  lemma ApiLineSettled(line: string, p: string, q: string, dir: string)
    requires q == p || !NeedsFilter(FilterOption(p))
    ensures ApiLine(ApiLine(line, p, dir), q, dir) == ApiLine(line, p, dir)
  {
    InputOptionIsInput(dir);
    FilterOptionNotInput(p);
  }

  // ------------------------------------------------------------ whole files

  predicate AnyNeedsFilter(lines: seq<string>) {
    exists k :: 0 <= k < |lines| && NeedsFilter(lines[k])
  }

  predicate AnyInputLine(lines: seq<string>) {
    exists k :: 0 <= k < |lines| && IsInputLine(lines[k])
  }

  /** `doxygen.cfg` with the filter rule applied to every line. */
  function RewriteDoxygen(lines: seq<string>, path: string): (r: seq<string>)
    ensures |r| == |lines|
    decreases |lines|
  {
    if lines == [] then []
    else RewriteDoxygen(lines[..|lines| - 1], path) + [DoxygenLine(lines[|lines| - 1], path)]
  }

  /** `api.cfg` with both rules applied to every line. */
  function RewriteApi(lines: seq<string>, path: string, dir: string): (r: seq<string>)
    ensures |r| == |lines|
    decreases |lines|
  {
    if lines == [] then []
    else RewriteApi(lines[..|lines| - 1], path, dir) + [ApiLine(lines[|lines| - 1], path, dir)]
  }

  /** Line i of the result is line i rewritten by the filter rule alone:
      nothing moves, nothing else changes. */
  lemma {:induction false} RewriteDoxygenAt(lines: seq<string>, path: string, i: nat)
    requires i < |lines|
    ensures RewriteDoxygen(lines, path)[i] == DoxygenLine(lines[i], path)
    decreases |lines|
  {
    var n := |lines| - 1;
    var front := RewriteDoxygen(lines[..n], path);
    assert RewriteDoxygen(lines, path) == front + [DoxygenLine(lines[n], path)];
    if i < n {
      RewriteDoxygenAt(lines[..n], path, i);
      assert lines[..n][i] == lines[i];
    }
  }

  /** Same for `api.cfg`, with the `INPUT` rule before the filter rule. */
  lemma {:induction false} RewriteApiAt(lines: seq<string>, path: string, dir: string, i: nat)
    requires i < |lines|
    ensures RewriteApi(lines, path, dir)[i] == ApiLine(lines[i], path, dir)
    decreases |lines|
  {
    var n := |lines| - 1;
    var front := RewriteApi(lines[..n], path, dir);
    assert RewriteApi(lines, path, dir) == front + [ApiLine(lines[n], path, dir)];
    if i < n {
      RewriteApiAt(lines[..n], path, dir, i);
      assert lines[..n][i] == lines[i];
    }
  }

  /** A file with no line needing the filter is written back unchanged, so
      the path does not matter for it. */
  lemma {:induction false} RewriteDoxygenUnneeded(lines: seq<string>, path: string)
    requires !AnyNeedsFilter(lines)
    ensures RewriteDoxygen(lines, path) == lines
    decreases |lines|
  {
    if lines != [] {
      var n := |lines| - 1;
      assert !NeedsFilter(lines[n]);
      assert !AnyNeedsFilter(lines[..n]) by {
        forall k | 0 <= k < n ensures !NeedsFilter(lines[..n][k]) {
          assert lines[..n][k] == lines[k];
        }
      }
      RewriteDoxygenUnneeded(lines[..n], path);
      assert lines == lines[..n] + [lines[n]];
    }
  }

  /** Rewriting `doxygen.cfg` twice gives the file rewritten once. */
  lemma {:induction false} RewriteDoxygenIdempotent(lines: seq<string>, path: string)
    ensures RewriteDoxygen(RewriteDoxygen(lines, path), path) == RewriteDoxygen(lines, path)
    decreases |lines|
  {
    if lines != [] {
      var n := |lines| - 1;
      var once := RewriteDoxygen(lines, path);
      RewriteDoxygenIdempotent(lines[..n], path);
      DoxygenLineIdempotent(lines[n], path);
      assert once[..|once| - 1] == RewriteDoxygen(lines[..n], path);
    }
  }

  /** With a path that names doxypy, no line of the result needs the filter:
      a later run does not call `find_doxypy` again. */
  lemma RewriteDoxygenSettles(lines: seq<string>, path: string)
    requires NamesDoxypy(path)
    ensures !AnyNeedsFilter(RewriteDoxygen(lines, path))
  {
    FilterOptionSettled(path);
    var out := RewriteDoxygen(lines, path);
    forall k | 0 <= k < |out| ensures !NeedsFilter(out[k]) {
      RewriteDoxygenAt(lines, path, k);
    }
  }

  /** A second `api.cfg` pass over a rewritten file changes nothing. */
  lemma {:induction false} RewriteApiSettled(lines: seq<string>, p: string, q: string, dir: string)
    requires q == p || !NeedsFilter(FilterOption(p))
    ensures RewriteApi(RewriteApi(lines, p, dir), q, dir) == RewriteApi(lines, p, dir)
    decreases |lines|
  {
    if lines != [] {
      var n := |lines| - 1;
      var once := RewriteApi(lines, p, dir);
      RewriteApiSettled(lines[..n], p, q, dir);
      ApiLineSettled(lines[n], p, q, dir);
      assert once[..|once| - 1] == RewriteApi(lines[..n], p, dir);
    }
  }

  // ----------------------------------------------------------------- passes

  /** A pass either exits before the temporary file replaces the original, or
      writes the file; the doxygen pass also hands on its `doxypy_path`. */
  datatype Pass = Exited | Wrote(lines: seq<string>, doxypyPath: string)

  /** The `doxygen.cfg` pass: `find_doxypy` is called for each line needing
      the filter, and `doxypy_path` stays `""` when there is none. */
  function DoxygenPassResult(lines: seq<string>, env: DoxypyEnv): Pass {
    if !AnyNeedsFilter(lines) then Wrote(lines, "")
    else match FindDoxypy(env)
      case None => Exited
      case Some(p) => Wrote(RewriteDoxygen(lines, p), p)
  }

  /** The `api.cfg` pass with the `doxypy_path` left by the first pass:
      `find_forcebalance` is called for each `INPUT` line. */
  function ApiPassResult(lines: seq<string>, path: string, forcebalanceDir: Option<string>): Pass {
    if AnyInputLine(lines) && forcebalanceDir.None? then Exited
    else Wrote(RewriteApi(lines, path, DirOrEmpty(forcebalanceDir)), path)
  }

  function DirOrEmpty(d: Option<string>): string {
    if d.Some? then d.value else ""
  }

  method DoxygenPass(lines: seq<string>, env: DoxypyEnv) returns (r: Pass)
    ensures r == DoxygenPassResult(lines, env)
  {
    var doxypyPath := "";
    var fout: seq<string> := [];
    var i := 0;
    while i < |lines|
      invariant 0 <= i <= |lines|
      invariant AnyNeedsFilter(lines[..i]) ==> FindDoxypy(env).Some? && doxypyPath == FindDoxypy(env).value
      invariant !AnyNeedsFilter(lines[..i]) ==> doxypyPath == ""
      invariant fout == RewriteDoxygen(lines[..i], doxypyPath)
    {
      var line := lines[i];
      assert lines[..i + 1] == lines[..i] + [line];
      if NeedsFilter(line) {
        var found := FindDoxypy(env);
        if found.None? {
          assert AnyNeedsFilter(lines) by { assert NeedsFilter(lines[i]); }
          return Exited;
        }
        if !AnyNeedsFilter(lines[..i]) {
          RewriteDoxygenUnneeded(lines[..i], found.value);
          RewriteDoxygenUnneeded(lines[..i], "");
        }
        assert lines[..i + 1][..i] == lines[..i];
        doxypyPath := found.value;
        fout := fout + [FilterOption(doxypyPath)];
        assert NeedsFilter(lines[..i + 1][i]);
      } else {
        assert lines[..i + 1][..i] == lines[..i];
        fout := fout + [line];
        if AnyNeedsFilter(lines[..i + 1]) {
          var k :| 0 <= k < i + 1 && NeedsFilter(lines[..i + 1][k]);
          assert lines[..i][k] == lines[..i + 1][k];
        }
      }
      if AnyNeedsFilter(lines[..i]) {
        var k :| 0 <= k < i && NeedsFilter(lines[..i][k]);
        assert lines[..i + 1][k] == lines[..i][k];
      }
      i := i + 1;
    }
    assert lines[..i] == lines;
    if AnyNeedsFilter(lines) {
      r := Wrote(fout, doxypyPath);
    } else {
      RewriteDoxygenUnneeded(lines, "");
      r := Wrote(fout, "");
    }
  }

  method ApiPass(lines: seq<string>, doxypyPath: string, forcebalanceDir: Option<string>) returns (r: Pass)
    ensures r == ApiPassResult(lines, doxypyPath, forcebalanceDir)
  {
    var fout: seq<string> := [];
    var i := 0;
    while i < |lines|
      invariant 0 <= i <= |lines|
      invariant AnyInputLine(lines[..i]) ==> forcebalanceDir.Some?
      invariant fout == RewriteApi(lines[..i], doxypyPath, DirOrEmpty(forcebalanceDir))
    {
      var line := lines[i];
      assert lines[..i + 1] == lines[..i] + [line];
      if IsInputLine(line) {
        if forcebalanceDir.None? {
          assert AnyInputLine(lines) by { assert IsInputLine(lines[i]); }
          return Exited;
        }
        fout := fout + [InputOption(forcebalanceDir.value)];
      } else if NeedsFilter(line) {
        fout := fout + [FilterOption(doxypyPath)];
      } else {
        fout := fout + [line];
      }
      i := i + 1;
    }
    assert lines[..i] == lines;
    r := Wrote(fout, doxypyPath);
  }

  // --------------------------------------------------------------- doxyconf

  /** The two config files after `doxyconf`, and whether it ran to the end. */
  datatype ConfFiles = ConfFiles(doxygenCfg: seq<string>, apiCfg: seq<string>, completed: bool)

  function DoxyconfResult(doxygen: seq<string>, api: seq<string>, env: DoxypyEnv, forcebalanceDir: Option<string>): ConfFiles {
    match DoxygenPassResult(doxygen, env)
    case Exited => ConfFiles(doxygen, api, false)
    case Wrote(d, p) =>
      match ApiPassResult(api, p, forcebalanceDir)
      case Exited => ConfFiles(d, api, false)
      case Wrote(a, _) => ConfFiles(d, a, true)
  }

  method Doxyconf(doxygen: seq<string>, api: seq<string>, env: DoxypyEnv, forcebalanceDir: Option<string>)
    returns (r: ConfFiles)
    ensures r == DoxyconfResult(doxygen, api, env, forcebalanceDir)
  {
    var first := DoxygenPass(doxygen, env);
    if first.Exited? {
      return ConfFiles(doxygen, api, false);
    }
    var second := ApiPass(api, first.doxypyPath, forcebalanceDir);
    if second.Exited? {
      return ConfFiles(first.lines, api, false);
    }
    r := ConfFiles(first.lines, second.lines, true);
  }

  /** Line counts are kept, and a line that neither needs the filter nor (in
      `api.cfg`) starts with the `INPUT` key is the same after `doxyconf`. */
  lemma DoxyconfPassthrough(doxygen: seq<string>, api: seq<string>, env: DoxypyEnv, forcebalanceDir: Option<string>)
    ensures |DoxyconfResult(doxygen, api, env, forcebalanceDir).doxygenCfg| == |doxygen|
    ensures |DoxyconfResult(doxygen, api, env, forcebalanceDir).apiCfg| == |api|
    ensures forall i :: 0 <= i < |doxygen| && !NeedsFilter(doxygen[i]) ==>
      DoxyconfResult(doxygen, api, env, forcebalanceDir).doxygenCfg[i] == doxygen[i]
    ensures forall i :: 0 <= i < |api| && !NeedsFilter(api[i]) && !IsInputLine(api[i]) ==>
      DoxyconfResult(doxygen, api, env, forcebalanceDir).apiCfg[i] == api[i]
  {
    var r := DoxyconfResult(doxygen, api, env, forcebalanceDir);
    var p := if AnyNeedsFilter(doxygen) && FindDoxypy(env).Some? then FindDoxypy(env).value else "";
    var dir := DirOrEmpty(forcebalanceDir);
    forall i | 0 <= i < |doxygen| ensures RewriteDoxygen(doxygen, p)[i] == DoxygenLine(doxygen[i], p) {
      RewriteDoxygenAt(doxygen, p, i);
    }
    forall i | 0 <= i < |api| ensures RewriteApi(api, p, dir)[i] == ApiLine(api[i], p, dir) {
      RewriteApiAt(api, p, dir, i);
    }
  }

  /** Exiting in `find_doxypy` leaves both files untouched; exiting in
      `find_forcebalance` leaves `api.cfg` untouched after `doxygen.cfg` was
      already replaced. */
  lemma DoxyconfExitKeepsOriginals(doxygen: seq<string>, api: seq<string>, env: DoxypyEnv, forcebalanceDir: Option<string>)
    ensures AnyNeedsFilter(doxygen) && FindDoxypy(env).None? ==>
      DoxyconfResult(doxygen, api, env, forcebalanceDir) == ConfFiles(doxygen, api, false)
    ensures AnyInputLine(api) && forcebalanceDir.None? && !(AnyNeedsFilter(doxygen) && FindDoxypy(env).None?) ==>
      DoxyconfResult(doxygen, api, env, forcebalanceDir).apiCfg == api &&
      !DoxyconfResult(doxygen, api, env, forcebalanceDir).completed
  {
  }

  /** The filter lines of `api.cfg` get the path left over from the first
      pass: the doxypy location when `doxygen.cfg` needed it, and the empty
      path when `doxygen.cfg` already mentioned doxypy. */
  lemma DoxyconfApiFilterPath(doxygen: seq<string>, api: seq<string>, env: DoxypyEnv, forcebalanceDir: Option<string>, i: nat)
    requires i < |api| && NeedsFilter(api[i]) && !IsInputLine(api[i])
    requires DoxyconfResult(doxygen, api, env, forcebalanceDir).completed
    ensures AnyNeedsFilter(doxygen) ==>
      DoxyconfResult(doxygen, api, env, forcebalanceDir).apiCfg[i] == FilterOption(FindDoxypy(env).value)
    ensures !AnyNeedsFilter(doxygen) ==>
      DoxyconfResult(doxygen, api, env, forcebalanceDir).apiCfg[i] == FilterOption("")
  {
    var p := if AnyNeedsFilter(doxygen) then FindDoxypy(env).value else "";
    RewriteApiAt(api, p, DirOrEmpty(forcebalanceDir), i);
  }

  /** Running `doxyconf` again on its own output, with a doxypy reply on one
      line and the same package directory, changes neither file and never
      calls `find_doxypy`: whatever the second run's doxypy answers are. This
      holds also when `find_forcebalance` would fail, provided the first run
      completed, since then `api.cfg` has no `INPUT` line to ask it for. */
  lemma DoxyconfIdempotent(doxygen: seq<string>, api: seq<string>, env: DoxypyEnv, env2: DoxypyEnv, forcebalanceDir: Option<string>)
    requires '\n' !in env.entered
    requires DoxyconfResult(doxygen, api, env, forcebalanceDir).completed
    ensures var r := DoxyconfResult(doxygen, api, env, forcebalanceDir);
      DoxyconfResult(r.doxygenCfg, r.apiCfg, env2, forcebalanceDir) == r
  {
    DoxygenPassSettles(doxygen, env, env2);
    ApiPassSettles(api, DoxygenPassResult(doxygen, env).doxypyPath, forcebalanceDir);
  }

  /** After a completed `doxygen.cfg` pass, a second pass finds no line
      needing the filter, writes the file back as it is and hands on `""`.
      The path the first pass handed on leaves rewritten filter lines alone. */
  lemma DoxygenPassSettles(doxygen: seq<string>, env: DoxypyEnv, env2: DoxypyEnv)
    requires '\n' !in env.entered
    requires DoxygenPassResult(doxygen, env).Wrote?
    ensures var r := DoxygenPassResult(doxygen, env);
      DoxygenPassResult(r.lines, env2) == Wrote(r.lines, "") &&
      (r.doxypyPath == "" || !NeedsFilter(FilterOption(r.doxypyPath)))
  {
    if AnyNeedsFilter(doxygen) {
      var p := FindDoxypy(env).value;
      FindDoxypyNamesDoxypy(env);
      RewriteDoxygenSettles(doxygen, p);
      FilterOptionSettled(p);
    }
  }

  /** After a completed `api.cfg` pass, a second pass with the empty filter
      path writes the file back as it is. When the package directory is
      unknown, the first pass completed only because there was no `INPUT`
      line, and the rewrite creates none. */
  lemma ApiPassSettles(api: seq<string>, p: string, forcebalanceDir: Option<string>)
    requires p == "" || !NeedsFilter(FilterOption(p))
    requires ApiPassResult(api, p, forcebalanceDir).Wrote?
    ensures var a := ApiPassResult(api, p, forcebalanceDir).lines;
      ApiPassResult(a, "", forcebalanceDir) == Wrote(a, "")
  {
    var dir := DirOrEmpty(forcebalanceDir);
    var a := RewriteApi(api, p, dir);
    RewriteApiSettled(api, p, "", dir);
    if forcebalanceDir.None? {
      forall k | 0 <= k < |a| ensures !IsInputLine(a[k]) {
        RewriteApiAt(api, p, dir, k);
        FilterOptionNotInput(p);
      }
    }
  }
}
