/**
  String predicates that the documentation script expresses with Python's
  `str.startswith`, `str.split('/')[-1]`, slicing and `re.match`.

  `re.match` anchors at the start of the string, and `.` does not match a
  newline, so `re.match('.*' + P, s)` holds exactly when the literal P occurs
  in s after a prefix that holds no newline (MatchAfterAny), and
  `re.match('.*' + P + '$', s)` holds exactly when P ends s, or ends s just
  before a final newline, again after a newline-free prefix (MatchAtEnd).
 */
module Text {

  datatype Option<T> = None | Some(value: T)

  predicate StartsWith(s: string, p: string) {
    |p| <= |s| && s[..|p|] == p
  }

  predicate EndsWith(s: string, p: string) {
    |p| <= |s| && s[|s| - |p|..] == p
  }

  /** The run-time test `re.match('.*' + p, s)`, for a literal pattern p. */
  predicate MatchAfterAny(s: string, p: string)
    decreases |s|
  {
    StartsWith(s, p) || (s != [] && s[0] != '\n' && MatchAfterAny(s[1..], p))
  }

  /** The run-time test `re.match('.*' + p + '$', s)`, for a literal pattern p. */
  predicate MatchAtEnd(s: string, p: string)
    decreases |s|
  {
    s == p || s == p + "\n" || (s != [] && s[0] != '\n' && MatchAtEnd(s[1..], p))
  }

  /** p occurs in s at position k and nothing before k is a newline. */
  ghost predicate OccursAfterLineStart(s: string, p: string, k: int) {
    0 <= k <= |s| - |p| && s[k..k + |p|] == p && '\n' !in s[..k]
  }

  /** p ends s at position k (possibly followed by one final newline) and
      nothing before k is a newline. */
  ghost predicate EndsAfterLineStart(s: string, p: string, k: int) {
    0 <= k <= |s| && (s[k..] == p || s[k..] == p + "\n") && '\n' !in s[..k]
  }

  /** Dropping a first character that is not a newline moves an occurrence
      one place to the left. */
  lemma OccursShift(s: string, p: string, k: int)
    requires s != [] && s[0] != '\n' && 0 <= k
    ensures OccursAfterLineStart(s[1..], p, k) <==> OccursAfterLineStart(s, p, k + 1)
  {
    if k + 1 <= |s| {
      assert s[..k + 1] == [s[0]] + s[1..][..k];
      if k + |p| < |s| {
        assert s[k + 1..k + 1 + |p|] == s[1..][k..k + |p|];
      }
    }
  }

  lemma EndsShift(s: string, p: string, k: int)
    requires s != [] && s[0] != '\n' && 0 <= k
    ensures EndsAfterLineStart(s[1..], p, k) <==> EndsAfterLineStart(s, p, k + 1)
  {
    if k + 1 <= |s| {
      assert s[..k + 1] == [s[0]] + s[1..][..k];
      assert s[k + 1..] == s[1..][k..];
    }
  }

  lemma {:induction false} MatchAfterAnyFound(s: string, p: string)
    requires MatchAfterAny(s, p)
    ensures exists k :: OccursAfterLineStart(s, p, k)
    decreases |s|
  {
    if StartsWith(s, p) {
      assert OccursAfterLineStart(s, p, 0);
    } else {
      MatchAfterAnyFound(s[1..], p);
      var k :| OccursAfterLineStart(s[1..], p, k);
      OccursShift(s, p, k);
    }
  }

  lemma {:induction false} OccurrenceMatches(s: string, p: string, k: int)
    requires OccursAfterLineStart(s, p, k)
    ensures MatchAfterAny(s, p)
    decreases k
  {
    if k == 0 {
      assert s[..|p|] == s[0..|p|];
    } else {
      assert s[0] == s[..k][0];
      OccursShift(s, p, k - 1);
      OccurrenceMatches(s[1..], p, k - 1);
    }
  }

  lemma MatchAfterAnyMeaning(s: string, p: string)
    ensures MatchAfterAny(s, p) <==> exists k :: OccursAfterLineStart(s, p, k)
  {
    if MatchAfterAny(s, p) {
      MatchAfterAnyFound(s, p);
    }
    forall k | OccursAfterLineStart(s, p, k) ensures MatchAfterAny(s, p) {
      OccurrenceMatches(s, p, k);
    }
  }

  lemma {:induction false} MatchAtEndFound(s: string, p: string)
    requires MatchAtEnd(s, p)
    ensures exists k :: EndsAfterLineStart(s, p, k)
    decreases |s|
  {
    if s == p || s == p + "\n" {
      assert s[0..] == s;
      assert EndsAfterLineStart(s, p, 0);
    } else {
      MatchAtEndFound(s[1..], p);
      var k :| EndsAfterLineStart(s[1..], p, k);
      EndsShift(s, p, k);
    }
  }

  lemma {:induction false} EndingMatches(s: string, p: string, k: int)
    requires EndsAfterLineStart(s, p, k)
    ensures MatchAtEnd(s, p)
    decreases k
  {
    if k == 0 {
      assert s[0..] == s;
    } else {
      assert s[0] == s[..k][0];
      EndsShift(s, p, k - 1);
      EndingMatches(s[1..], p, k - 1);
    }
  }

  lemma MatchAtEndMeaning(s: string, p: string)
    ensures MatchAtEnd(s, p) <==> exists k :: EndsAfterLineStart(s, p, k)
  {
    if MatchAtEnd(s, p) {
      MatchAtEndFound(s, p);
    }
    forall k | EndsAfterLineStart(s, p, k) ensures MatchAtEnd(s, p) {
      EndingMatches(s, p, k);
    }
  }

  /** On a name without newlines, the `.*P$` test is a plain suffix test. */
  lemma MatchAtEndIsSuffix(s: string, p: string)
    requires '\n' !in s
    ensures MatchAtEnd(s, p) <==> EndsWith(s, p)
  {
    MatchAtEndMeaning(s, p);
    if EndsWith(s, p) {
      assert EndsAfterLineStart(s, p, |s| - |p|);
    }
    if MatchAtEnd(s, p) {
      var k :| EndsAfterLineStart(s, p, k);
      assert '\n' in p + "\n" by {
        assert (p + "\n")[|p|] == '\n';
      }
      assert '\n' !in s[k..];
      assert s[k..] == p;
      assert |p| == |s| - k;
    }
  }

  /** A literal found at the start of t is still found once a newline-free
      text is put before it and anything after it. */
  lemma {:induction false} MatchAfterAnyFrame(a: string, t: string, c: string, p: string)
    requires '\n' !in a
    requires StartsWith(t, p)
    ensures MatchAfterAny(a + t + c, p)
    decreases |a|
  {
    var s := a + t + c;
    if a == [] {
      assert s == t + c;
      assert s[..|p|] == t[..|p|];
    } else {
      assert s[0] == a[0];
      assert s[1..] == a[1..] + t + c;
      assert a[0] in a;
      MatchAfterAnyFrame(a[1..], t, c, p);
    }
  }

  /** Index of the last slash in a path, or -1 when it has none. */
  function LastSlash(path: string): (k: int)
    ensures -1 <= k < |path|
    ensures k >= 0 ==> path[k] == '/'
    ensures forall j :: k < j < |path| ==> path[j] != '/'
    decreases |path|
  {
    if path == [] then -1
    else if path[|path| - 1] == '/' then |path| - 1
    else
      var k := LastSlash(path[..|path| - 1]);
      assert forall j :: k < j < |path| - 1 ==> path[..|path| - 1][j] == path[j];
      k
  }

  /** `path.split('/')[-1]`: the text after the last slash, or the whole path
      when it has none. */
  function Basename(path: string): (b: string)
    ensures '/' !in b
    ensures EndsWith(path, b)
    ensures b == path || path[|path| - |b| - 1] == '/'
  {
    path[LastSlash(path) + 1..]
  }

  /** A file name listed in a directory is the basename of the directory
      prefix joined to it. */
  lemma BasenameUnderDirectory(dir: string, name: string)
    requires EndsWith(dir, "/")
    requires '/' !in name
    ensures Basename(dir + name) == name
  {
    var path := dir + name;
    var k := LastSlash(path);
    assert path[|dir| - 1] == '/' by {
      assert dir[|dir| - 1..] == "/";
      assert dir[|dir| - 1] == "/"[0];
    }
    assert k >= |dir| - 1;
    assert forall j :: |dir| <= j < |path| ==> path[j] == name[j - |dir|];
    assert k == |dir| - 1;
    assert path[k + 1..] == name;
  }

  /** A slash-free suffix of `dir + name` is a suffix of name when dir ends
      with a slash. */
  lemma SuffixUnderDirectory(dir: string, name: string, p: string)
    requires EndsWith(dir, "/")
    requires '/' !in p
    ensures EndsWith(dir + name, p) <==> EndsWith(name, p)
  {
    var s := dir + name;
    if |name| < |p| <= |s| {
      var t := s[|s| - |p|..];
      assert t[|p| - |name| - 1] == s[|dir| - 1] == '/';
      assert '/' in t;
    }
    if |p| <= |name| {
      assert s[|s| - |p|..] == name[|name| - |p|..];
    }
  }
}
