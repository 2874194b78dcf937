/**
 Packet scope entries: which spellings are accepted, and what files an accepted entry covers.
 */
module ScopePaths {
  import opened Wrappers
  import opened Texts

  // ----- strings -----

  predicate StartsWith(s: string, p: string) {
    |p| <= |s| && s[..|p|] == p
  }

  predicate EndsWith(s: string, p: string) {
    |p| <= |s| && s[|s| - |p|..] == p
  }

  /** Without its trailing slashes. */
  function TrimSlashes(s: string): (r: string)
    ensures |r| <= |s| && s[..|r|] == r
    ensures r == "" || r[|r| - 1] != '/'
    ensures s != "" && s[|s| - 1] != '/' ==> r == s
  {
    if s != "" && s[|s| - 1] == '/' then TrimSlashes(s[..|s| - 1]) else s
  }

  function Stars(s: string): nat {
    if s == "" then 0 else Stars(s[..|s| - 1]) + if s[|s| - 1] == '*' then 1 else 0
  }

  function DropDotSlash(s: string): string {
    if StartsWith(s, "./") then s[2..] else s
  }

  // ----- the code -----

  function NormalizePath(p: string): string {
    var s := DropDotSlash(p);
    if StartsWith(s, "/") then s[1..] else s
  }

  function DropStars(s: string): string {
    if EndsWith(s, "/**") then TrimSlashes(s[..|s| - 3]) else s
  }

  function NormalizeScope(p: string): string {
    DropStars(TrimSlashes(NormalizePath(p)))
  }

  predicate Matches(file: string, entry: string) {
    var f, prefix := TrimSlashes(NormalizePath(file)), NormalizeScope(entry);
    prefix != "" && (f == prefix || StartsWith(f, prefix + "/"))
  }

  datatype ScopeError = NotNonEmpty | ForbiddenCharacter | NotRelative | ArbitraryGlob | NoPath | BadComponent

  /** The directory or file that an entry declares, with whitespace already stripped. */
  function Declared(raw: string): Result<string, ScopeError> {
    if '\0' in raw || '\\' in raw then Err(ForbiddenCharacter)
    else if StartsWith(raw, "/") || StartsWith(raw, "~") then Err(NotRelative)
    else
      var r := TrimSlashes(DropDotSlash(raw));
      if '*' in r && (!EndsWith(r, "/**") || Stars(r) != 2) then Err(ArbitraryGlob)
      else
        var d := if '*' in r then TrimSlashes(r[..|r| - 3]) else r;
        if d == "" then Err(NoPath)
        else if exists part :: part in Components(d) && part in {".", "..", ""} then Err(BadComponent)
        else Ok(d)
  }

  function ScopePathError(value: string): Option<ScopeError> {
    if Strip(value) == "" then Some(NotNonEmpty)
    else
      match Declared(Strip(value))
      case Ok(_) => None
      case Err(e) => Some(e)
  }

  /** A file is in scope when some entry covers it. */
  predicate InScope(entries: seq<string>, file: string) {
    exists e :: e in entries && Matches(file, e)
  }

  // ----- what it means: components -----

  /** No empty, "." or ".." component. */
  predicate Canonical(s: string) {
    forall part :: part in Components(s) ==> part !in {"", ".", ".."}
  }

  /** A path extends another by whole components exactly when it equals it or goes on with a slash. */
  lemma {:induction false} ComponentPrefix(a: string, b: string)
    ensures (b == a || StartsWith(b, a + "/")) <==> Components(a) <= Components(b)
  {
    if a == "" {
      FirstComponent(b);
    } else if b == "" {
      FirstComponent(a);
    } else {
      ComponentPrefix(a[1..], b[1..]);
      HeadsAndTails(a, b);
      ContinuesByTail(a, b);
    }
  }

  lemma ContinuesByTail(a: string, b: string)
    requires a != "" && b != ""
    ensures (b == a || StartsWith(b, a + "/")) <==>
      a[0] == b[0] && (b[1..] == a[1..] || StartsWith(b[1..], a[1..] + "/"))
  {
    assert a == [a[0]] + a[1..] && b == [b[0]] + b[1..];
    var p, q := a + "/", a[1..] + "/";
    assert p == [a[0]] + q;
    if |p| <= |b| {
      assert b[..|p|] == [b[0]] + b[1..][..|q|];
    }
  }

  lemma FirstComponent(s: string)
    ensures Components(s)[0] == "" <==> s == "" || s[0] == '/'
    ensures [""] <= Components(s) <==> s == "" || s[0] == '/'
    ensures Components(s) <= [""] <==> s == ""
  {
    if s != "" {
      var rest := Components(s[1..]);
      if s[0] == '/' {
        assert Components(s) == [""] + rest;
        assert |Components(s)| > 1;
      } else {
        assert Components(s)[0] == [s[0]] + rest[0];
        assert |Components(s)[0]| > 0;
      }
    }
  }

  lemma HeadsAndTails(a: string, b: string)
    requires a != "" && b != ""
    ensures Components(a) <= Components(b) <==> a[0] == b[0] && Components(a[1..]) <= Components(b[1..])
  {
    var ra, rb := Components(a[1..]), Components(b[1..]);
    if a[0] == '/' && b[0] == '/' {
      assert Components(a) == [""] + ra && Components(b) == [""] + rb;
      assert ra == Components(a)[1..] && rb == Components(b)[1..];
    } else if a[0] != '/' && b[0] != '/' {
      SameHead(a[0], ra, b[0], rb);
    } else {
      FirstComponent(a);
      FirstComponent(b);
    }
  }

  lemma SameHead(c: char, x: seq<string>, d: char, y: seq<string>)
    requires x != [] && y != []
    ensures [[c] + x[0]] + x[1..] <= [[d] + y[0]] + y[1..] <==> c == d && x <= y
  {
    var p, q := [[c] + x[0]] + x[1..], [[d] + y[0]] + y[1..];
    if p <= q {
      assert p[0] == q[0];
      assert p[0][0] == c && q[0][0] == d && p[0][1..] == x[0] && q[0][1..] == y[0];
      forall i | 0 <= i < |x| ensures x[i] == y[i] {
        if i > 0 {
          assert p[i] == q[i];
        }
      }
    }
  }

  lemma DotComes(s: string)
    requires s == "." || StartsWith(s, "./")
    ensures "." in Components(s)
  {
    var rest := Components(s[1..]);
    if |s| > 1 {
      assert s[1] == '/';
      FirstComponent(s[1..]);
    }
    assert rest[0] == "" && s[0] == '.';
    assert Components(s)[0] == ['.'] + rest[0] == ".";
    assert Components(s)[0] in Components(s);
  }

  /** Canonical paths are left as they are. */
  lemma CanonicalStarts(s: string)
    requires Canonical(s)
    ensures s != "" && s != "." && s[0] != '/' && !StartsWith(s, "./")
    ensures NormalizePath(s) == s
  {
    assert Components(s)[0] in Components(s);
    FirstComponent(s);
    if s == "." || StartsWith(s, "./") {
      DotComes(s);
    }
  }

  lemma {:induction false} CanonicalEnds(s: string)
    requires Canonical(s)
    ensures TrimSlashes(s) == s
  {
    if s != "" && s[|s| - 1] == '/' {
      EmptyComes(s);
    }
  }

  lemma EmptyComes(s: string)
    requires s != "" && s[|s| - 1] == '/'
    ensures "" in Components(s)
  {
    TrailingParts(s);
    var j :| 1 <= j < |Components(s)| && Components(s)[j] == "";
    assert Components(s)[j] in Components(s);
  }

  /** After a last slash comes one more, empty, component. */
  lemma {:induction false} TrailingParts(s: string)
    requires s != "" && s[|s| - 1] == '/'
    ensures exists j :: 1 <= j < |Components(s)| && Components(s)[j] == ""
  {
    var rest := Components(s[1..]);
    if |s| == 1 {
      assert Components(s)[1] == "";
    } else {
      TrailingParts(s[1..]);
      var j :| 1 <= j < |rest| && rest[j] == "";
      if s[0] == '/' {
        assert Components(s)[j + 1] == "";
      } else {
        assert Components(s)[j] == "";
      }
    }
  }

  // ----- what the validator accepts, the matcher reads the same way -----

  lemma DeclaredIsCanonical(raw: string)
    requires Declared(raw).Ok?
    ensures Canonical(Declared(raw).value)
  {
  }

  /** For an accepted entry without surrounding whitespace, the matcher's prefix is the directory or
      file the validator read. */
  lemma AcceptedIsDeclared(raw: string)
    requires Declared(raw).Ok?
    ensures NormalizeScope(raw) == Declared(raw).value
  {
    var d := Declared(raw).value;
    var s := DropDotSlash(raw);
    var r := TrimSlashes(s);
    CanonicalStarts(d);
    assert r[0] == d[0] && s[0] == r[0];
    assert NormalizePath(raw) == s;
    if EndsWith(r, "/**") {
      assert r[|r| - 1] == '*';
    }
  }

  /** A match is a component-wise prefix: an accepted entry covers a file exactly when its path
      components begin the file's. */
  lemma MatchesByComponents(file: string, entry: string)
    requires ScopePathError(entry).None? && Strip(entry) == entry && Canonical(file)
    ensures Declared(entry).Ok? && Canonical(Declared(entry).value)
    ensures Matches(file, entry) <==> Components(Declared(entry).value) <= Components(file)
  {
    AcceptedIsDeclared(entry);
    DeclaredIsCanonical(entry);
    CanonicalStarts(file);
    CanonicalEnds(file);
    CanonicalStarts(Declared(entry).value);
    ComponentPrefix(Declared(entry).value, file);
  }

  /** What is below a covered path is covered, so scope never has holes. */
  lemma ScopeIsDownwardClosed(entries: seq<string>, file: string, below: string)
    requires forall e :: e in entries ==> ScopePathError(e).None? && Strip(e) == e
    requires Canonical(file) && Canonical(below) && StartsWith(below, file + "/")
    requires InScope(entries, file)
    ensures InScope(entries, below)
  {
    var e :| e in entries && Matches(file, e);
    MatchesByComponents(file, e);
    MatchesByComponents(below, e);
    ComponentPrefix(file, below);
  }

  // ----- spellings of one directory -----

  lemma TrimOnce(s: string)
    ensures TrimSlashes(s + "/") == TrimSlashes(s)
  {
    assert (s + "/")[..|s + "/"| - 1] == s;
  }

  // "d", "d/", "./d" and "d/**" declare the same.
  lemma SpellingsMeanTheSame(d: string)
    requires Canonical(d) && !EndsWith(d, "/**")
    ensures NormalizeScope(d) == d
    ensures NormalizeScope(d + "/") == d
    ensures NormalizeScope("./" + d) == d
    ensures NormalizeScope(d + "/**") == d
  {
    CanonicalStarts(d);
    CanonicalEnds(d);
    TrimOnce(d);
    KeepsStart(d, "/");
    KeepsStart(d, "/**");
    assert DropDotSlash("./" + d) == d;
    StarsAreDropped(d);
  }

  /** ... so each covers exactly what the plain spelling does. */
  lemma SpellingsCoverTheSame(d: string, file: string)
    requires Canonical(d) && !EndsWith(d, "/**")
    ensures Matches(file, d + "/") <==> Matches(file, d)
    ensures Matches(file, "./" + d) <==> Matches(file, d)
    ensures Matches(file, d + "/**") <==> Matches(file, d)
  {
    SpellingsMeanTheSame(d);
  }

  lemma StarsAreDropped(d: string)
    requires TrimSlashes(d) == d && NormalizePath(d + "/**") == d + "/**"
    ensures NormalizeScope(d + "/**") == d
  {
    var g := d + "/**";
    assert g[|g| - 1] == '*';
    assert g[|g| - 3..] == "/**" && g[..|g| - 3] == d;
  }

  lemma KeepsStart(d: string, more: string)
    requires d != "" && d[0] != '/' && !StartsWith(d, "./") && more != "" && more[0] == '/' && d != "."
    ensures NormalizePath(d + more) == d + more
  {
    assert (d + more)[0] == d[0];
    if |d| >= 2 {
      assert (d + more)[..2] == d[..2];
    }
  }

  // ----- whitespace: stripped by the validator, kept by the matcher -----

  lemma {:induction false} TrimKeepsFront(w: string, t: string)
    requires TrimSlashes(t) != ""
    ensures TrimSlashes(w + t) == w + TrimSlashes(t)
    decreases |t|
  {
    if t[|t| - 1] == '/' {
      assert (w + t)[..|w + t| - 1] == w + t[..|t| - 1];
      TrimKeepsFront(w, t[..|t| - 1]);
    }
  }

  lemma {:induction false} TrimKeepsFirst(t: string)
    requires t != "" && t[0] != '/'
    ensures TrimSlashes(t) != ""
  {
    if t[|t| - 1] == '/' {
      TrimKeepsFirst(t[..|t| - 1]);
    }
  }

  lemma SpaceIsKept(entry: string)
    requires entry != "" && Space(entry[0])
    ensures NormalizePath(entry) == entry
  {
  }

  // The matcher drops "/**" and the slashes before it, whatever is in front.
  lemma StarsBehind(s: string, front: string, r: string)
    requires s == front + r && EndsWith(r, "/**") && r[0] != '/'
    ensures EndsWith(s, "/**") && TrimSlashes(s[..|s| - 3]) == front + TrimSlashes(r[..|r| - 3])
  {
    assert s[|s| - 3..] == r[|r| - 3..] && s[..|s| - 3] == front + r[..|r| - 3];
    TrimKeepsFirst(r[..|r| - 3]);
    TrimKeepsFront(front, r[..|r| - 3]);
  }

  lemma DeclaredOf(t: string, r: string)
    requires Declared(t).Ok? && r == TrimSlashes(DropDotSlash(t))
    ensures r != "" && r[0] != '/'
    ensures if '*' in r then EndsWith(r, "/**") && Declared(t).value == TrimSlashes(r[..|r| - 3])
            else Declared(t).value == r
  {
    DeclaredIsCanonical(t);
    CanonicalStarts(Declared(t).value);
    assert r[0] == Declared(t).value[0];
  }

  lemma LongerBehindFront(s: string, front: string, r: string, d: string)
    requires s == front + r && front != "" && r != "" && r[0] != '/'
    requires if '*' in r then EndsWith(r, "/**") && d == TrimSlashes(r[..|r| - 3]) else d == r
    ensures |DropStars(s)| > |d|
  {
    if '*' in r {
      StarsBehind(s, front, r);
    } else {
      assert s[|s| - 1] == r[|r| - 1];
    }
  }

  /** Whitespace in front stays in the matcher's prefix. */
  lemma LeadingSpaceStays(entry: string, w: string, t: string)
    requires entry == w + t && w != "" && Space(w[0]) && Declared(t).Ok?
    ensures |NormalizeScope(entry)| > |Declared(t).value|
  {
    var u := DropDotSlash(t);
    var r, front := TrimSlashes(u), w + t[..|t| - |u|];
    DeclaredOf(t, r);
    assert entry == front + u;
    TrimKeepsFront(front, u);
    assert entry[0] == w[0];
    SpaceIsKept(entry);
    LongerBehindFront(TrimSlashes(entry), front, r, Declared(t).value);
  }

  /** Whitespace at the end stays in the matcher's prefix. */
  lemma EndIsKept(entry: string)
    requires NormalizePath(entry) != "" && Space(entry[|entry| - 1])
    ensures NormalizeScope(entry) == NormalizePath(entry)
  {
    var s := NormalizePath(entry);
    assert s[|s| - 1] == entry[|entry| - 1];
  }

  lemma TrailingSpaceStays(entry: string, t: string, u: string)
    requires StartsWith(entry, t) && |entry| > |t| && Space(entry[|entry| - 1])
    requires u == DropDotSlash(t) && u != "" && t != "." && t[0] != '/' && u[0] != '/'
    ensures |NormalizeScope(entry)| > |u|
  {
    if |t| >= 2 {
      assert entry[..2] == t[..2];
    }
    assert entry[0] == t[0];
    EndIsKept(entry);
  }

  /** What was declared is a prefix of the stripped entry, less "./" and nothing else. */
  lemma DeclaredStarts(t: string)
    requires Declared(t).Ok?
    ensures var u := DropDotSlash(t);
      && u != "" && t != "" && t != "." && t[0] != '/' && u[0] != '/'
      && |Declared(t).value| <= |u|
  {
    DeclaredIsCanonical(t);
    CanonicalStarts(Declared(t).value);
    assert DropDotSlash(t)[0] == Declared(t).value[0];
  }

  lemma BothSpacesStay(entry: string)
    requires entry != "" && Space(entry[0]) && Space(entry[|entry| - 1])
    ensures NormalizeScope(entry) == entry
  {
    SpaceIsKept(entry);
    EndIsKept(entry);
  }

  lemma PrefixIsLonger(entry: string, front: string, l: string, t: string)
    requires entry == front + l && StartsWith(l, t) && Declared(t).Ok? && t != entry
    requires front != "" ==> Space(front[0])
    requires t != l ==> Space(l[|l| - 1])
    ensures |NormalizeScope(entry)| > |Declared(t).value|
  {
    if t == l {
      LeadingSpaceStays(entry, front, t);
    } else {
      assert entry[|entry| - 1] == l[|l| - 1];
      DeclaredStarts(t);
      TrailingIsLonger(entry, front, l, t, DropDotSlash(t));
    }
  }

  lemma TrailingIsLonger(entry: string, front: string, l: string, t: string, u: string)
    requires entry == front + l && StartsWith(l, t) && t != l && Space(entry[|entry| - 1])
    requires front != "" ==> Space(front[0])
    requires u == DropDotSlash(t) && u != "" && t != "." && t[0] != '/' && u[0] != '/'
    ensures |NormalizeScope(entry)| > |u|
  {
    if front == "" {
      TrailingSpaceStays(entry, t, u);
    } else {
      assert entry[0] == front[0];
      BothSpacesStay(entry);
    }
  }

  lemma DeclaredTellsThemApart(d: string, t: string, entry: string)
    requires d != "" && NormalizePath(d) == d && TrimSlashes(d) == d
    requires NormalizeScope(t) == d && |NormalizeScope(entry)| > |d|
    ensures Matches(d, t) && !Matches(d, entry)
  {
  }

  /** Surrounding whitespace hides what was declared from the matcher. */
  lemma SpaceHides(entry: string, front: string, l: string, t: string, d: string)
    requires entry == front + l && StartsWith(l, t) && Declared(t).Ok? && t != entry
    requires front != "" ==> Space(front[0])
    requires t != l ==> Space(l[|l| - 1])
    requires d == Declared(t).value
    ensures Matches(d, t) && !Matches(d, entry)
  {
    AcceptedIsDeclared(t);
    DeclaredIsCanonical(t);
    CanonicalStarts(d);
    CanonicalEnds(d);
    PrefixIsLonger(entry, front, l, t);
    DeclaredTellsThemApart(d, t, entry);
  }

  lemma StripLeaves(entry: string, l: string, t: string)
    requires l == StripLeft(entry) && t == StripRight(l)
    ensures |l| <= |entry| && entry == entry[..|entry| - |l|] + l
    ensures |l| < |entry| ==> Space(entry[0])
    ensures StartsWith(l, t) && (t != l ==> Space(l[|l| - 1]))
  {
    StripLeftLeaves(entry);
    StripRightLeaves(l);
  }

  /** The validator strips surrounding whitespace and the matcher does not: an accepted entry covers
      what was validated exactly when it has none. */
  lemma CoversWhatWasValidated(entry: string)
    requires ScopePathError(entry).None?
    ensures (forall f :: Matches(f, entry) <==> Matches(f, Strip(entry))) <==> Strip(entry) == entry
  {
    var l, t := StripLeft(entry), Strip(entry);
    if t != entry {
      StripLeaves(entry, l, t);
      SpaceHides(entry, entry[..|entry| - |l|], l, t, Declared(t).value);
    }
  }
}
