/**
 What the asset digest accepts and what it hashes, spelled out.
 */
module AssetAnswers {
  import opened Wrappers
  import opened Hashing
  import opened AssetTree
  import opened LinkResolver
  import opened AssetDigest
  import opened AssetIdentity

  // ----- which trees have a digest -----

  /** A link, seen from outside: some finite derivation leads it to a file or directory of the tree,
      and not to a directory it lies in. */
  ghost predicate LinkStands(root: Node, parent: Path, target: string) {
    exists q :: Resolves(root, parent, target, q) && !(IsDirectory(root, q) && q <= parent)
  }

  lemma AcceptableLink(root: Node, parent: Path, name: string, target: string)
    requires IsLink(root, parent + [name]) && target == Lstat(root, parent + [name]).value.target
    ensures Acceptable(root, parent + [name]) <==> LinkStands(root, parent, target)
  {
    var path := parent + [name];
    assert path[..|path| - 1] == parent;
    var r := Resolve(root, parent, target, {path});
    if r.Ok? {
      ResolutionIsExact(root, parent, name, r.value);
    }
    if LinkStands(root, parent, target) {
      var q :| Resolves(root, parent, target, q) && !(IsDirectory(root, q) && q <= parent);
      ResolutionIsExact(root, parent, name, q);
    }
  }

  /** No special file, and no link but one that stands. */
  ghost predicate Stands(root: Node, path: Path) {
    Lstat(root, path).Some? ==>
      match Lstat(root, path).value
      case Special(_) => false
      case Link(_, target) => path != [] && LinkStands(root, path[..|path| - 1], target)
      case _ => true
  }

  lemma AcceptablePath(root: Node, path: Path)
    ensures Acceptable(root, path) <==> Stands(root, path)
  {
    if path != [] && IsLink(root, path) {
      assert path == path[..|path| - 1] + [path[|path| - 1]];
      AcceptableLink(root, path[..|path| - 1], path[|path| - 1], Lstat(root, path).value.target);
    }
  }

  /** Exactly which trees are accepted: directories without special files, whose every link leads to
      a file or directory of the tree and none to a directory it lies in itself. */
  lemma AcceptedExactlyWhen(root: Node)
    requires HostTree(root)
    ensures AcceptableTree(root) <==> root.Directory? && forall p :: Stands(root, p)
  {
    forall p ensures Acceptable(root, p) <==> Stands(root, p) {
      AcceptablePath(root, p);
    }
  }

  // ----- what a link's identity names -----

  /** A link's identity names its raw target, the path it resolves to, and whether a directory is there. */
  lemma IdentityNamesLink(a: Node, s: string, p: Path, b: Node, t: string, q: Path)
    requires NulFree(s) && NulFree(t)
    requires forall c :: c in p ==> ValidName(c)
    requires forall c :: c in q ==> ValidName(c)
    requires LinkIdentity(a, s, p) == LinkIdentity(b, t, q)
    ensures s == t && p == q && (IsDirectory(a, p) <==> IsDirectory(b, q))
  {
    IdentityNamesTarget(a, s, p, b, t, q);
    DropPrefix("raw-target\0", s + "\0" + ResolvedIdentity(a, p), t + "\0" + ResolvedIdentity(b, q));
    DropPrefix(s + "\0", ResolvedIdentity(a, p), ResolvedIdentity(b, q));
    RelativeIsNulFree(p);
    RelativeIsNulFree(q);
    ResolvedFields(Relative(p), Kind(a, p), Relative(q), Kind(b, q), ResolvedIdentity(a, p), ResolvedIdentity(b, q));
    RelativeIsInjective(p, q);
  }

  function Kind(root: Node, p: Path): string {
    if IsDirectory(root, p) then "directory" else "file"
  }

  lemma RelativeIsNulFree(p: Path)
    requires forall c :: c in p ==> ValidName(c)
    ensures NulFree(Relative(p))
  {
    forall c | c in p ensures NulFree(c) {
      assert ValidName(c);
    }
    JoinIsNulFree(p);
    assert NulFree(".");
  }

  lemma ResolvedFields(r: string, k: string, r': string, k': string, x: string, y: string)
    requires NulFree(r) && NulFree(r')
    requires x == "resolved-target\0" + r + "\0target-kind\0" + k
    requires y == "resolved-target\0" + r' + "\0target-kind\0" + k'
    requires x == y
    ensures r == r' && k == k'
  {
    var rest, rest' := "target-kind\0" + k, "target-kind\0" + k';
    assert x == "resolved-target\0" + (r + "\0" + rest);
    assert y == "resolved-target\0" + (r' + "\0" + rest');
    DropPrefix("resolved-target\0", r + "\0" + rest, r' + "\0" + rest');
    FieldEndsAtNul(r, rest, r', rest');
    DropPrefix("target-kind\0", k, k');
  }

  // ----- in which order -----

  /** The first i characters agree, and there the first text ends or has the smaller character. */
  predicate ComesFirstAt(a: string, b: string, i: nat) {
    && i <= |a| && i <= |b| && a[..i] == b[..i]
    && (i == |a| || (i < |b| && a[i] < b[i]))
  }

  /** Texts are sorted by their first difference, a text before its extensions. */
  lemma {:induction false} SortedByFirstDifference(a: string, b: string)
    ensures TextLeq(a, b) <==> exists i: nat :: ComesFirstAt(a, b, i)
  {
    if a == "" {
      assert ComesFirstAt(a, b, 0);
    } else if b != "" {
      SortedByFirstDifference(a[1..], b[1..]);
      if a[0] < b[0] {
        assert ComesFirstAt(a, b, 0);
      } else if a[0] == b[0] {
        if i: nat :| ComesFirstAt(a[1..], b[1..], i) {
          LaterByOne(a, b, i);
        }
        if i: nat :| ComesFirstAt(a, b, i) {
          assert i > 0;
          LaterByOne(a, b, i - 1);
        }
      } else {
        forall i: nat ensures !ComesFirstAt(a, b, i) {
          AgreeAtFirst(a, b, i);
        }
      }
    }
  }

  lemma AgreeAtFirst(a: string, b: string, i: nat)
    requires a != "" && b != ""
    ensures ComesFirstAt(a, b, i) ==> a[0] <= b[0]
  {
    if 0 < i <= |a| && i <= |b| {
      assert a[..i][0] == a[0] && b[..i][0] == b[0];
    }
  }

  lemma LaterByOne(a: string, b: string, i: nat)
    requires a != "" && b != "" && a[0] == b[0]
    ensures ComesFirstAt(a, b, i + 1) <==> ComesFirstAt(a[1..], b[1..], i)
  {
    if i < |a| && i < |b| {
      assert a[..i + 1] == [a[0]] + a[1..][..i] && b[..i + 1] == [b[0]] + b[1..][..i];
      assert a[..i + 1][1..] == a[1..][..i] && b[..i + 1][1..] == b[1..][..i];
    }
  }

  // ----- the bytes, on an example -----

  /** A directory with a file and a link to it. */
  function Example(content: string): Node {
    Directory(493, map["z" := Regular(420, content), "a" := Link(511, "z")])
  }

  function ExampleEntries(h: Hash, content: string): seq<Entry> {
    [Entry('d', ".", 493, ""), Entry('f', "z", 420, h(content)),
     Entry('l', "a", 511, h(LinkText))]
  }

  lemma ExamplePaths(content: string, p: Path)
    ensures Lstat(Example(content), p)
         == if p == [] then Some(Example(content))
            else if p == ["z"] then Some(Regular(420, content))
            else if p == ["a"] then Some(Link(511, "z")) else None
  {
    if p != [] {
      assert p == [p[0]] + p[1..];
    }
  }

  /** What the example's link hashes. */
  const LinkText := "raw-target\0" + ("z" + "\0" + ("resolved-target\0" + "z" + "\0target-kind\0" + "file"))

  lemma ExampleTarget(root: Node)
    requires Lstat(root, ["z"]).Some? && Lstat(root, ["z"]).value.Regular?
    ensures Resolve(root, [], "z", {["a"]}) == Ok(["z"])
  {
    SplitComponent("z");
    assert [] + ["z"] == ["z"];
    assert Walk(root, ["z"], [], {["a"]}) == Ok(["z"]);
    assert Walk(root, [], ["z"], {["a"]}) == Ok(["z"]);
  }

  lemma ExampleIdentity(root: Node)
    requires Lstat(root, ["z"]).Some? && Lstat(root, ["z"]).value.Regular?
    ensures LinkIdentity(root, "z", ["z"]) == LinkText
  {
    assert Relative(["z"]) == "z";
  }

  predicate IsExampleEntry(h: Hash, content: string, p: Path, e: Entry) {
    || (p == [] && e == Entry('d', ".", 493, ""))
    || (p == ["z"] && e == Entry('f', "z", 420, h(content)))
    || (p == ["a"] && e == Entry('l', "a", 511, h(LinkText)))
  }

  lemma ExampleLinkEntry(h: Hash, root: Node, e: Entry)
    requires Lstat(root, ["z"]).Some? && Lstat(root, ["z"]).value.Regular?
    requires Lstat(root, ["a"]) == Some(Link(511, "z"))
    ensures EntryFor(h, root, ["a"], e) <==> e == Entry('l', "a", 511, h(LinkText))
  {
    ExampleTarget(root);
    ExampleIdentity(root);
    assert ["a"][..0] == [];
    assert LinkTarget(root, ["a"]) == Ok(["z"]);
    assert Relative(["a"]) == "a";
  }

  lemma ExampleEntry(h: Hash, content: string, p: Path, e: Entry)
    ensures EntryFor(h, Example(content), p, e) <==> IsExampleEntry(h, content, p, e)
  {
    ExamplePaths(content, p);
    ExamplePaths(content, ["z"]);
    if p == ["a"] {
      ExampleLinkEntry(h, Example(content), e);
    } else if p == ["z"] {
      assert Relative(p) == "z";
    }
  }

  lemma ExampleMembers(h: Hash, content: string, e: Entry)
    ensures e in ExampleEntries(h, content) <==> exists p :: EntryFor(h, Example(content), p, e)
  {
    if p :| EntryFor(h, Example(content), p, e) {
      ExampleEntry(h, content, p, e);
    }
    if e in ExampleEntries(h, content) {
      var p: Path := if e.kind == 'd' then [] else if e.kind == 'f' then ["z"] else ["a"];
      ExampleEntry(h, content, p, e);
    }
  }

  /** Four fields, each ended by a NUL. */
  function Fields(kind: string, rel: string, mode: string, digest: string): string {
    kind + "\0" + rel + "\0" + mode + "\0" + digest + "\0"
  }

  lemma EntryFields(e: Entry, kind: char, rel: string, octal: string, digest: string)
    requires e.kind == kind && e.rel == rel && Octal(e.mode) == octal && e.digest == digest
    ensures EncodeEntry(e) == Fields([kind], rel, octal, digest)
  {
  }

  lemma ExampleIsStream(h: Hash, content: string)
    ensures IsStream(h, Example(content), ExampleEntries(h, content))
  {
    var es := ExampleEntries(h, content);
    forall e ensures e in es <==> exists p :: EntryFor(h, Example(content), p, e) {
      ExampleMembers(h, content, e);
    }
  }

  /** Byte by byte: kinds, relative names, octal modes and digests, each ended by a NUL, directories
      before files before links. */
  lemma ExampleStream(h: Hash, content: string)
    ensures IsStream(h, Example(content), ExampleEntries(h, content))
    ensures Encode(ExampleEntries(h, content))
         == Fields(['d'], ".", "755", "") + Fields(['f'], "z", "644", h(content))
            + Fields(['l'], "a", "777", h(LinkText))
  {
    ExampleIsStream(h, content);
    var es := ExampleEntries(h, content);
    EncodeThree(es);
    Modes();
    EntryFields(es[0], 'd', ".", "755", "");
    EntryFields(es[1], 'f', "z", "644", h(content));
    EntryFields(es[2], 'l', "a", "777", h(LinkText));
  }

  lemma Modes()
    ensures Octal(493) == "755" && Octal(420) == "644" && Octal(511) == "777"
  {
    assert Octal(7) == "7" && Octal(6) == "6";
    assert Octal(61) == "75" && Octal(52) == "64" && Octal(63) == "77";
  }

  lemma EncodeThree(es: seq<Entry>)
    requires |es| == 3
    ensures Encode(es) == EncodeEntry(es[0]) + EncodeEntry(es[1]) + EncodeEntry(es[2])
  {
    assert es[1..][1..] == [es[2]];
    assert Encode([es[2]]) == EncodeEntry(es[2]);
  }
}
