/**
 A static browser-asset tree as no-follow, directory-relative system calls see it.
 */
module AssetTree {
  import opened Wrappers

  type Path = seq<string>

  datatype Node =
    | Directory(mode: nat, children: map<string, Node>)
    | Regular(mode: nat, content: string)
    | Link(mode: nat, target: string)
    | Special(mode: nat)

  /** A file name: a non-empty component with no separator or NUL, other than the two dots. */
  predicate ValidName(name: string) {
    name != "" && name != "." && name != ".." && '/' !in name && '\0' !in name
  }

  predicate WellNamed(node: Node) {
    node.Directory? ==>
      forall name :: name in node.children ==> ValidName(name) && WellNamed(node.children[name])
  }

  /** `lstat` under the root: every proper prefix is opened as a real directory, never a link. */
  function Lstat(root: Node, path: Path): Option<Node> {
    if path == [] then Some(root)
    else if root.Directory? && path[0] in root.children then Lstat(root.children[path[0]], path[1..])
    else None
  }

  predicate IsDirectory(root: Node, path: Path) {
    Lstat(root, path).Some? && Lstat(root, path).value.Directory?
  }

  predicate IsFileOrDirectory(root: Node, path: Path) {
    Lstat(root, path).Some? && (Lstat(root, path).value.Directory? || Lstat(root, path).value.Regular?)
  }

  predicate IsLink(root: Node, path: Path) {
    Lstat(root, path).Some? && Lstat(root, path).value.Link?
  }

  lemma {:induction false} LstatThrough(root: Node, p: Path, q: Path)
    ensures Lstat(root, p + q)
         == if Lstat(root, p).Some? then Lstat(Lstat(root, p).value, q) else None
  {
    if p == [] {
      assert p + q == q;
    } else {
      assert (p + q)[1..] == p[1..] + q;
      if root.Directory? && p[0] in root.children {
        LstatThrough(root.children[p[0]], p[1..], q);
      }
    }
  }

  /** A path that exists runs through real directories only. */
  lemma PrefixesAreDirectories(root: Node, path: Path, i: nat)
    requires Lstat(root, path).Some? && i < |path|
    ensures IsDirectory(root, path[..i])
  {
    assert path == path[..i] + path[i..];
    LstatThrough(root, path[..i], path[i..]);
  }

  lemma {:induction false} ComponentsAreNames(root: Node, path: Path)
    requires WellNamed(root) && Lstat(root, path).Some?
    ensures forall c :: c in path ==> ValidName(c)
  {
    if path != [] {
      ComponentsAreNames(root.children[path[0]], path[1..]);
    }
  }

  // ----- the finitely many links of a tree -----

  ghost function LinkPaths(root: Node): set<Path> {
    match root
    case Link(_, _) => {[]}
    case Directory(_, children) =>
      set name, p | name in children && p in LinkPaths(children[name]) :: [name] + p
    case _ => {}
  }

  lemma {:induction false} LinksAreLinkPaths(root: Node, path: Path)
    requires IsLink(root, path)
    ensures path in LinkPaths(root)
  {
    if path != [] {
      LinksAreLinkPaths(root.children[path[0]], path[1..]);
      assert path == [path[0]] + path[1..];
    }
  }

  // ----- relative paths -----

  function Join(components: seq<string>): string {
    if components == [] then ""
    else if |components| == 1 then components[0]
    else components[0] + "/" + Join(components[1..])
  }
}
