/**
 Which spellings of a path a packet may declare, exactly, and which spellings of a file match.
 */
module ScopeSpellings {
  import opened Wrappers
  import opened Texts
  import opened ScopePaths

  function Slashes(n: nat): string {
    if n == 0 then "" else Slashes(n - 1) + "/"
  }

  /** A relative path without dots, doubled slashes, stars, backslashes or NULs. */
  predicate Plain(d: string) {
    && (forall part :: part in Components(d) ==> part != "" && part != "." && part != "..")
    && '*' !in d && '\\' !in d && '\0' !in d
  }

  /** The path itself; with "./" in front or not; slashes and two stars behind or not. */
  function Spelling(d: string, dots: bool, m: nat, stars: bool, n: nat): string {
    (if dots then "./" else "") + Behind(d, m, stars, n)
  }

  function Behind(d: string, m: nat, stars: bool, n: nat): string {
    if stars then d + Slashes(m) + "/**" + Slashes(n) else d + Slashes(m)
  }

  // ----- slashes -----

  lemma SlashMore(s: string, n: nat)
    ensures s + Slashes(n + 1) == (s + Slashes(n)) + "/"
    ensures s + Slashes(0) == s
  {
  }

  lemma {:induction false} SlashesTrim(s: string, n: nat)
    ensures TrimSlashes(s + Slashes(n)) == TrimSlashes(s)
  {
    if n == 0 {
      SlashMore(s, 0);
    } else {
      SlashesTrim(s, n - 1);
      TrimOnce(s + Slashes(n - 1));
      SlashMore(s, n - 1);
    }
  }

  lemma {:induction false} TrimmedSlashes(s: string) returns (n: nat)
    ensures s == TrimSlashes(s) + Slashes(n)
  {
    if s != "" && s[|s| - 1] == '/' {
      var k := TrimmedSlashes(s[..|s| - 1]);
      n := k + 1;
      assert s == s[..|s| - 1] + "/";
    } else {
      n := 0;
    }
  }

  lemma {:induction false} OnlySlashes(n: nat)
    ensures forall c :: c in Slashes(n) ==> c == '/'
  {
    if n > 0 {
      OnlySlashes(n - 1);
    }
  }

  // ----- stars -----

  lemma {:induction false} StarsAppend(a: string, b: string)
    ensures Stars(a + b) == Stars(a) + Stars(b)
  {
    if b == "" {
      assert a + b == a;
    } else {
      StarsAppend(a, b[..|b| - 1]);
      assert (a + b)[..|a + b| - 1] == a + b[..|b| - 1];
    }
  }

  lemma {:induction false} NoStars(s: string)
    ensures Stars(s) == 0 <==> '*' !in s
  {
    if s != "" {
      NoStars(s[..|s| - 1]);
      assert s == s[..|s| - 1] + [s[|s| - 1]];
    }
  }

  lemma TwoStars()
    ensures Stars("/**") == 2
  {
    assert "/**"[..2] == "/*" && "/*"[..1] == "/" && "/"[..0] == "";
    assert Stars("/") == 0 && Stars("/*") == 1;
  }

  lemma StarsOf(s: string)
    requires EndsWith(s, "/**")
    ensures Stars(s) == 2 <==> '*' !in s[..|s| - 3]
  {
    assert s == s[..|s| - 3] + "/**";
    StarsAppend(s[..|s| - 3], "/**");
    TwoStars();
    NoStars(s[..|s| - 3]);
  }

  // ----- what is accepted -----

  lemma PlainIsCanonical(d: string)
    ensures Plain(d) <==> Canonical(d) && '*' !in d && '\\' !in d && '\0' !in d
  {
  }

  lemma BehindStarts(d: string, m: nat, stars: bool, n: nat)
    requires Plain(d)
    ensures d != "" && d[0] != '/'
    ensures var b := Behind(d, m, stars, n); b != "" && b[0] == d[0] && DropDotSlash(b) == b
  {
    PlainIsCanonical(d);
    CanonicalStarts(d);
    OnlySlashes(m);
    var more := Behind(d, m, stars, n)[|d|..];
    assert Behind(d, m, stars, n) == d + more;
    if more != "" {
      assert m > 0 ==> Slashes(m)[0] in Slashes(m);
      KeepsStart(d, more);
    }
  }

  lemma BehindDeclares(d: string, m: nat, stars: bool, n: nat)
    requires Plain(d)
    ensures var r := TrimSlashes(Behind(d, m, stars, n));
      if stars then r == d + Slashes(m) + "/**" && EndsWith(r, "/**") && Stars(r) == 2 && TrimSlashes(r[..|r| - 3]) == d
      else r == d
  {
    PlainIsCanonical(d);
    CanonicalEnds(d);
    SlashesTrim(d, m);
    if stars {
      var r := d + Slashes(m) + "/**";
      SlashesTrim(r, n);
      assert r[|r| - 1] == '*' && r[..|r| - 3] == d + Slashes(m) && r[|r| - 3..] == "/**";
      OnlySlashes(m);
      StarsOf(r);
    }
  }

  lemma DotsAreDropped(b: string, dots: bool, t: string)
    requires b != "" && DropDotSlash(b) == b && t == (if dots then "./" else "") + b
    ensures DropDotSlash(t) == b && t != "" && t[0] == (if dots then '.' else b[0])
  {
    if dots {
      assert t[..2] == "./" && t[2..] == b;
    } else {
      assert t == b;
    }
  }

  lemma DeclaredWhen(t: string, r: string, d: string)
    requires t != "" && t[0] != '/' && t[0] != '~' && '\\' !in t && '\0' !in t
    requires r == TrimSlashes(DropDotSlash(t)) && d != "" && Canonical(d)
    requires if '*' in r then EndsWith(r, "/**") && Stars(r) == 2 && TrimSlashes(r[..|r| - 3]) == d else r == d
    ensures Declared(t) == Ok(d)
  {
    StartsAre(t);
    NoBadComponent(d);
  }

  lemma StartsAre(t: string)
    requires t != ""
    ensures StartsWith(t, "/") <==> t[0] == '/'
    ensures StartsWith(t, "~") <==> t[0] == '~'
  {
    assert t[..1] == [t[0]];
  }

  lemma NoBadComponent(d: string)
    requires Canonical(d)
    ensures !exists part :: part in Components(d) && part in {".", "..", ""}
  {
  }

  lemma SpellingsAreDeclared(d: string, dots: bool, m: nat, stars: bool, n: nat, t: string)
    requires Plain(d) && t == Spelling(d, dots, m, stars, n)
    requires t != "" && t[0] != '~' && '\\' !in t && '\0' !in t
    ensures Declared(t) == Ok(d)
  {
    var b := Behind(d, m, stars, n);
    BehindStarts(d, m, stars, n);
    DotsAreDropped(b, dots, t);
    BehindDeclares(d, m, stars, n);
    StarsInside(d, m, stars, n);
    DeclaredWhen(t, TrimSlashes(b), d);
  }

  lemma StarsInside(d: string, m: nat, stars: bool, n: nat)
    requires Plain(d)
    ensures stars <==> '*' in TrimSlashes(Behind(d, m, stars, n))
  {
    BehindDeclares(d, m, stars, n);
    if stars {
      var r := TrimSlashes(Behind(d, m, stars, n));
      assert r[|r| - 1] == '*';
    }
  }

  lemma StarredBehind(r: string, d: string, u: string, n: nat) returns (m: nat)
    requires EndsWith(r, "/**") && d == TrimSlashes(r[..|r| - 3]) && u == r + Slashes(n)
    ensures u == Behind(d, m, true, n)
  {
    m := TrimmedSlashes(r[..|r| - 3]);
    EndedBy(r, "/**");
  }

  lemma EndedBy(s: string, p: string)
    requires EndsWith(s, p)
    ensures s == s[..|s| - |p|] + p
  {
  }

  lemma FrontIsDots(t: string)
    ensures t == (if DropDotSlash(t) != t then "./" else "") + DropDotSlash(t)
  {
  }

  lemma DeclaredHasNoStars(t: string, r: string)
    requires Declared(t).Ok? && r == TrimSlashes(DropDotSlash(t)) && '*' in r
    ensures EndsWith(r, "/**") && '*' !in r[..|r| - 3]
  {
    StarsOf(r);
  }

  lemma PartOf(d: string, front: string)
    requires d == TrimSlashes(front) && '*' !in front
    ensures '*' !in d
  {
  }

  lemma DeclaredIsSpelling(t: string) returns (dots: bool, m: nat, stars: bool, n: nat)
    requires Declared(t).Ok?
    ensures var d := Declared(t).value; Plain(d) && t == Spelling(d, dots, m, stars, n)
  {
    var u, d := DropDotSlash(t), Declared(t).value;
    var r := TrimSlashes(u);
    dots, stars := u != t, '*' in r;
    DeclaredOf(t, r);
    n := TrimmedSlashes(u);
    if stars {
      DeclaredHasNoStars(t, r);
      PartOf(d, r[..|r| - 3]);
      m := StarredBehind(r, d, u, n);
    } else {
      m := n;
    }
    FrontIsDots(t);
    DeclaredIsPlain(t, u, r, d);
  }

  lemma DeclaredIsPlain(t: string, u: string, r: string, d: string)
    requires Declared(t) == Ok(d) && u == DropDotSlash(t) && r == TrimSlashes(u) && '*' !in d
    requires if '*' in r then EndsWith(r, "/**") && d == TrimSlashes(r[..|r| - 3]) else d == r
    ensures Plain(d)
  {
    DeclaredIsCanonical(t);
    assert d <= u;
    FreeOf(t, u, d);
    PlainIsCanonical(d);
  }

  lemma FreeOf(t: string, u: string, d: string)
    requires Declared(t).Ok? && u == DropDotSlash(t) && d <= u
    ensures '\\' !in d && '\0' !in d
  {
    forall c | c in d ensures c in t {
      assert c in u;
    }
  }

  /** Exactly what is accepted: what is left after stripping must spell a plain path, in one of these
      ways, and not begin with a tilde; the path is what is declared. */
  lemma AcceptedExactlyWhen(value: string, d: string)
    ensures ScopePathError(value).None? && Declared(Strip(value)) == Ok(d) <==>
      && Plain(d) && Strip(value) != "" && Strip(value)[0] != '~'
      && exists dots, m, stars, n :: Strip(value) == Spelling(d, dots, m, stars, n)
  {
    var t := Strip(value);
    if Declared(t) == Ok(d) && t != "" {
      var dots, m, stars, n := DeclaredIsSpelling(t);
    }
    if Plain(d) && t != "" && t[0] != '~' {
      if dots, m: nat, stars, n: nat :| t == Spelling(d, dots, m, stars, n) {
        SpellingIsClean(d, dots, m, stars, n);
        SpellingsAreDeclared(d, dots, m, stars, n, t);
      }
    }
  }

  lemma SpellingIsClean(d: string, dots: bool, m: nat, stars: bool, n: nat)
    requires Plain(d)
    ensures var t := Spelling(d, dots, m, stars, n); '\\' !in t && '\0' !in t
  {
    OnlySlashes(m);
    OnlySlashes(n);
  }

  // ----- what matches -----

  /** A file may be written with "./" or a slash in front and slashes behind. */
  lemma FilesMatchAsSpelled(file: string, entry: string, n: nat)
    requires Canonical(file)
    ensures Matches(file + Slashes(n), entry) <==> Matches(file, entry)
    ensures Matches("/" + file, entry) <==> Matches(file, entry)
    ensures Matches("./" + file, entry) <==> Matches(file, entry)
    ensures Matches("./" + ("/" + file), entry) <==> Matches(file, entry)
  {
    CanonicalStarts(file);
    SlashesBehindFile(file, n);
    FrontOfFile(file);
  }

  lemma SlashesBehindFile(file: string, n: nat)
    requires Canonical(file)
    ensures TrimSlashes(NormalizePath(file + Slashes(n))) == TrimSlashes(file)
  {
    CanonicalStarts(file);
    SlashesTrim(file, n);
    OnlySlashes(n);
    if n > 0 {
      assert Slashes(n)[0] in Slashes(n);
      KeepsStart(file, Slashes(n));
    } else {
      assert file + Slashes(n) == file;
    }
  }

  lemma FrontOfFile(file: string)
    requires file != "" && file[0] != '/' && !StartsWith(file, "./")
    ensures NormalizePath("/" + file) == file
    ensures NormalizePath("./" + file) == file
    ensures NormalizePath("./" + ("/" + file)) == file
  {
    var slashed := "/" + file;
    assert slashed[0] == '/' && slashed[1..] == file;
    assert DropDotSlash("./" + file) == file;
    assert DropDotSlash("./" + slashed) == slashed;
  }

  /** An entry that names nothing matches nothing. */
  lemma NothingMatchesNothing(file: string)
    ensures !Matches(file, "") && !Matches(file, "/") && !Matches(file, "./")
  {
    assert NormalizePath("/") == "";
    assert NormalizePath("./") == "";
  }
}
