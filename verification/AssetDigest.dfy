/**
 The identity of a browser-asset tree: one entry per file, directory and link, sorted, encoded
 as a NUL-delimited stream, and hashed.
 */
module AssetDigest {
  import opened Wrappers
  import opened Hashing
  import opened AssetTree
  import opened LinkResolver

  datatype Entry = Entry(kind: char, rel: string, mode: nat, digest: string)

  predicate NulFree(s: string) {
    '\0' !in s
  }

  predicate TargetsNulFree(node: Node) {
    match node
    case Directory(_, children) => forall name :: name in children ==> TargetsNulFree(children[name])
    case Link(_, target) => NulFree(target)
    case _ => true
  }

  /** Names and link targets come from the host, which has no NUL in either. */
  predicate HostTree(node: Node) {
    WellNamed(node) && TargetsNulFree(node)
  }

  function Relative(path: Path): string {
    if path == [] then "." else Join(path)
  }

  // ----- what the walk accepts, and the entry it makes of each path -----

  ghost function LinkTarget(root: Node, path: Path): Result<Path, LinkError>
    requires path != [] && IsLink(root, path)
  {
    Resolve(root, path[..|path| - 1], Lstat(root, path).value.target, {path})
  }

  /** No special files, and every link resolves inside the tree to something other than one of
      its own ancestor directories. */
  ghost predicate Acceptable(root: Node, path: Path) {
    Lstat(root, path).Some? ==>
      match Lstat(root, path).value
      case Special(_) => false
      case Link(_, _) =>
        && path != []
        && LinkTarget(root, path).Ok?
        && var resolved := LinkTarget(root, path).value;
        !(IsDirectory(root, resolved) && resolved <= path[..|path| - 1])
      case _ => true
  }

  function LinkIdentity(root: Node, target: string, resolved: Path): string {
    "raw-target\0" + (target + "\0" + ResolvedIdentity(root, resolved))
  }

  function ResolvedIdentity(root: Node, resolved: Path): string {
    "resolved-target\0" + Relative(resolved) + "\0target-kind\0"
    + if IsDirectory(root, resolved) then "directory" else "file"
  }

  /** The one entry the walk makes of a path. */
  ghost predicate EntryFor(h: Hash, root: Node, path: Path, e: Entry) {
    && Lstat(root, path).Some? && Acceptable(root, path)
    && e.rel == Relative(path)
    && match Lstat(root, path).value
       case Directory(mode, _) => e == Entry('d', e.rel, mode, "")
       case Regular(mode, content) => e == Entry('f', e.rel, mode, h(content))
       case Link(mode, target) =>
         e == Entry('l', e.rel, mode, h(LinkIdentity(root, target, LinkTarget(root, path).value)))
       case Special(_) => false
  }

  ghost predicate AcceptableTree(root: Node) {
    root.Directory? && HostTree(root) && forall p :: Acceptable(root, p)
  }

  // ----- the walk -----

  predicate NoDuplicates<T(==)>(s: seq<T>) {
    forall i, j :: 0 <= i < j < |s| ==> s[i] != s[j]
  }

  /** Entries made one per visited path. */
  ghost predicate EntriesOf(h: Hash, root: Node, visited: seq<Path>, entries: seq<Entry>) {
    && |entries| == |visited|
    && forall i {:trigger entries[i]} :: 0 <= i < |entries| ==> EntryFor(h, root, visited[i], entries[i])
  }

  /** Exactly the paths below `parts` that pass through the given names. */
  ghost predicate Below(node: Node, parts: Path, names: set<string>, visited: seq<Path>)
    requires node.Directory? && names <= node.children.Keys
  {
    && NoDuplicates(visited)
    && forall p :: p in visited <==>
         |parts| < |p| && p[..|parts|] == parts && p[|parts|] in names
         && Lstat(node, p[|parts|..]).Some?
  }

  lemma PairsOfBoth<A, B>(fits: (A, B) -> bool, v: seq<A>, es: seq<B>, w: seq<A>, fs: seq<B>)
    requires |es| == |v| && |fs| == |w|
    requires forall i {:trigger es[i]} :: 0 <= i < |es| ==> fits(v[i], es[i])
    requires forall i {:trigger fs[i]} :: 0 <= i < |fs| ==> fits(w[i], fs[i])
    ensures forall i {:trigger (es + fs)[i]} :: 0 <= i < |es + fs| ==> fits((v + w)[i], (es + fs)[i])
  {
    forall i | 0 <= i < |es + fs| ensures fits((v + w)[i], (es + fs)[i]) {
      if i < |es| {
        assert (es + fs)[i] == es[i];
      } else {
        assert (es + fs)[i] == fs[i - |es|];
      }
    }
  }

  lemma EntriesOfBoth(h: Hash, root: Node, v: seq<Path>, es: seq<Entry>, w: seq<Path>, fs: seq<Entry>)
    requires EntriesOf(h, root, v, es) && EntriesOf(h, root, w, fs)
    ensures EntriesOf(h, root, v + w, es + fs)
  {
    PairsOfBoth((path, e) => EntryFor(h, root, path, e), v, es, w, fs);
  }

  /** Entries for exactly the paths below `parts` that pass through the given names. */
  ghost predicate Walked(h: Hash, root: Node, node: Node, parts: Path, names: set<string>,
                         visited: seq<Path>, entries: seq<Entry>)
  {
    && node.Directory? && names <= node.children.Keys
    && EntriesOf(h, root, visited, entries)
    && Below(node, parts, names, visited)
  }

  /** ... for one name alone. */
  ghost predicate WalkedChild(h: Hash, root: Node, child: Node, own: Path, below: seq<Path>, entries: seq<Entry>) {
    && EntriesOf(h, root, [own] + below, entries)
    && if child.Directory? then Below(child, own, child.children.Keys, below) else below == []
  }

  lemma ExtendWalk(h: Hash, root: Node, node: Node, parts: Path, names: set<string>, name: string,
                   visited: seq<Path>, entries: seq<Entry>, below: seq<Path>, found: seq<Entry>)
    requires Walked(h, root, node, parts, names, visited, entries)
    requires name in node.children && name !in names
    requires WalkedChild(h, root, node.children[name], parts + [name], below, found)
    ensures Walked(h, root, node, parts, names + {name}, visited + [parts + [name]] + below, entries + found)
  {
    ExtendBelow(node, parts, names, name, visited, below);
    EntriesOfBoth(h, root, visited, entries, [parts + [name]] + below, found);
    assert visited + [parts + [name]] + below == visited + ([parts + [name]] + below);
  }

  lemma DirectoryChild(h: Hash, root: Node, child: Node, own: Path, below: seq<Path>, inner: seq<Entry>)
    requires Lstat(root, own) == Some(child) && child.Directory?
    requires Walked(h, root, child, own, child.children.Keys, below, inner)
    ensures WalkedChild(h, root, child, own, below, [Entry('d', Relative(own), child.mode, "")] + inner)
  {
    var e := Entry('d', Relative(own), child.mode, "");
    assert EntryFor(h, root, own, e);
    EntriesOfBoth(h, root, [own], [e], below, inner);
  }

  lemma LeafChild(h: Hash, root: Node, child: Node, own: Path, e: Entry)
    requires !child.Directory? && EntryFor(h, root, own, e)
    ensures WalkedChild(h, root, child, own, [], [e])
  {
    assert [own] + [] == [own];
  }

  /** Walks one directory, in whatever order its names are listed. */
  method WalkDirectory(h: Hash, root: Node, node: Node, parts: Path)
    returns (r: Option<seq<Entry>>, ghost visited: seq<Path>)
    requires Lstat(root, parts) == Some(node) && node.Directory?
    ensures r.Some? ==> Walked(h, root, node, parts, node.children.Keys, visited, r.value)
    ensures r.None? ==> exists p :: !Acceptable(root, p)
    decreases node, 1
  {
    var names, entries: seq<Entry> := node.children.Keys, [];
    visited := [];
    NothingWalked(h, root, node, parts);
    ghost var walked: set<string> := {};
    while names != {}
      invariant walked + names == node.children.Keys && walked !! names
      invariant Walked(h, root, node, parts, walked, visited, entries)
    {
      var name :| name in names;
      var found, below := VisitChild(h, root, node, parts, name);
      if found.None? {
        return None, visited;
      }
      ExtendWalk(h, root, node, parts, walked, name, visited, entries, below, found.value);
      entries, visited := entries + found.value, visited + [parts + [name]] + below;
      MoveName(node.children.Keys, names, walked, name);
      names, walked := names - {name}, walked + {name};
    }
    assert walked == node.children.Keys;
    return Some(entries), visited;
  }

  lemma NothingWalked(h: Hash, root: Node, node: Node, parts: Path)
    requires node.Directory?
    ensures Walked(h, root, node, parts, {}, [], [])
  {
  }

  lemma MoveName(all: set<string>, names: set<string>, walked: set<string>, name: string)
    requires walked + names == all && walked !! names && name in names
    ensures (walked + {name}) + (names - {name}) == all && (walked + {name}) !! (names - {name})
  {
  }

  /** One name of a directory: its own entry, then those of the directory it may be. */
  method VisitChild(h: Hash, root: Node, node: Node, parts: Path, name: string)
    returns (r: Option<seq<Entry>>, ghost below: seq<Path>)
    requires Lstat(root, parts) == Some(node) && node.Directory? && name in node.children
    ensures r.Some? ==> WalkedChild(h, root, node.children[name], parts + [name], below, r.value)
    ensures r.None? ==> exists p :: !Acceptable(root, p)
    decreases node, 0
  {
    var childParts, child := parts + [name], node.children[name];
    LstatThrough(root, parts, [name]);
    below := [];
    if child.Directory? {
      var inner;
      inner, below := WalkDirectory(h, root, child, childParts);
      if inner.None? {
        return None, below;
      }
      DirectoryChild(h, root, child, childParts, below, inner.value);
      return Some([Entry('d', Relative(childParts), child.mode, "")] + inner.value), below;
    }
    var e := VisitLeaf(h, root, child, parts, name);
    if e.None? {
      return None, below;
    }
    LeafChild(h, root, child, childParts, e.value);
    return Some([e.value]), below;
  }

  /** A name that is not a directory. */
  method VisitLeaf(h: Hash, root: Node, child: Node, parts: Path, name: string) returns (r: Option<Entry>)
    requires Lstat(root, parts + [name]) == Some(child) && !child.Directory?
    ensures r.Some? ==> EntryFor(h, root, parts + [name], r.value)
    ensures r.None? ==> !Acceptable(root, parts + [name])
  {
    var childParts := parts + [name];
    match child {
      case Regular(mode, content) =>
        return Some(Entry('f', Relative(childParts), mode, h(content)));
      case Link(mode, target) =>
        var resolved := ResolveLinkTarget(root, parts, target, {childParts});
        assert childParts[..|childParts| - 1] == parts;
        if resolved.Err? || (IsDirectory(root, resolved.value) && resolved.value <= parts) {
          return None;
        }
        return Some(Entry('l', Relative(childParts), mode, h(LinkIdentity(root, target, resolved.value))));
      case Special(_) =>
        return None;
    }
  }

  /** Membership of Below, one path at a time. */
  predicate PassesThrough(node: Node, parts: Path, names: set<string>, p: Path)
    requires node.Directory?
  {
    |parts| < |p| && p[..|parts|] == parts && p[|parts|] in names && Lstat(node, p[|parts|..]).Some?
  }

  lemma LstatOfChild(node: Node, parts: Path, p: Path)
    requires node.Directory? && |parts| < |p|
    ensures Lstat(node, p[|parts|..])
         == if p[|parts|] in node.children then Lstat(node.children[p[|parts|]], p[|parts| + 1..]) else None
  {
    assert p[|parts|..][1..] == p[|parts| + 1..];
  }

  /** The paths through one name are its own and those below it. */
  lemma ThroughOneName(node: Node, parts: Path, name: string, own: Path, p: Path)
    requires node.Directory? && name in node.children && own == parts + [name]
    ensures PassesThrough(node, parts, {name}, p) <==>
      p == own || (node.children[name].Directory?
                   && PassesThrough(node.children[name], own, node.children[name].children.Keys, p))
  {
    if |parts| < |p| {
      LstatOfChild(node, parts, p);
      assert p[..|parts|] == parts && p[|parts|] == name <==> p[..|own|] == own;
    }
    if |p| == |own| {
      assert p[..|own|] == p && p[|own|..] == [];
    }
    if |own| < |p| && node.children[name].Directory? {
      LstatOfChild(node.children[name], own, p);
    }
  }

  lemma NoDuplicatesOfThree<T>(x: seq<T>, y: T, z: seq<T>)
    requires NoDuplicates(x) && NoDuplicates(z)
    requires y !in x && y !in z && forall t :: t in x ==> t !in z
    ensures NoDuplicates(x + [y] + z)
  {
    var all := x + [y] + z;
    forall i, j | 0 <= i < j < |all| ensures all[i] != all[j] {
      if i < |x| {
        assert all[i] in x;
      }
      if j > |x| {
        assert all[j] in z;
      }
    }
  }

  /** One more name: its own path and everything below it. */
  lemma ExtendBelow(node: Node, parts: Path, names: set<string>, name: string, visited: seq<Path>, below: seq<Path>)
    requires node.Directory? && names <= node.children.Keys && name in node.children && name !in names
    requires Below(node, parts, names, visited)
    requires var child := node.children[name];
      if child.Directory? then Below(child, parts + [name], child.children.Keys, below) else below == []
    ensures Below(node, parts, names + {name}, visited + [parts + [name]] + below)
  {
    var own := parts + [name];
    forall p ensures p in [own] + below <==> PassesThrough(node, parts, {name}, p) {
      ThroughOneName(node, parts, name, own, p);
    }
    assert own in [own] + below;
    assert own !in below;
    forall p | p in visited ensures p !in [own] + below {
      assert PassesThrough(node, parts, names, p);
    }
    NoDuplicatesOfThree(visited, own, below);
    var all := visited + [own] + below;
    forall p ensures p in all <==> PassesThrough(node, parts, names + {name}, p) {
      assert p in all <==> p in visited || p in [own] + below;
    }
  }

  // ----- sorting the entries -----

  /** Strings in code-point order. */
  predicate TextLeq(a: string, b: string) {
    a == "" || (b != "" && (a[0] < b[0] || (a[0] == b[0] && TextLeq(a[1..], b[1..]))))
  }

  /** Entries in tuple order. */
  predicate EntryLeq(a: Entry, b: Entry) {
    if a.kind != b.kind then a.kind < b.kind
    else if a.rel != b.rel then TextLeq(a.rel, b.rel)
    else if a.mode != b.mode then a.mode < b.mode
    else TextLeq(a.digest, b.digest)
  }

  lemma {:induction false} TextLeqIsTotal(a: string, b: string)
    ensures TextLeq(a, b) || TextLeq(b, a)
    ensures TextLeq(a, b) && TextLeq(b, a) ==> a == b
  {
    if a != "" && b != "" {
      TextLeqIsTotal(a[1..], b[1..]);
      assert a == [a[0]] + a[1..] && b == [b[0]] + b[1..];
    }
  }

  lemma {:induction false} TextLeqIsTransitive(a: string, b: string, c: string)
    requires TextLeq(a, b) && TextLeq(b, c)
    ensures TextLeq(a, c)
  {
    if a != "" && a[0] == b[0] == c[0] {
      TextLeqIsTransitive(a[1..], b[1..], c[1..]);
    }
  }

  lemma EntryLeqIsTotal(a: Entry, b: Entry)
    ensures EntryLeq(a, b) || EntryLeq(b, a)
    ensures EntryLeq(a, b) && EntryLeq(b, a) ==> a == b
  {
    TextLeqIsTotal(a.rel, b.rel);
    TextLeqIsTotal(a.digest, b.digest);
  }

  lemma EntryLeqIsTransitive(a: Entry, b: Entry, c: Entry)
    requires EntryLeq(a, b) && EntryLeq(b, c)
    ensures EntryLeq(a, c)
  {
    if a.kind == b.kind == c.kind {
      if TextLeq(a.rel, b.rel) && TextLeq(b.rel, c.rel) {
        TextLeqIsTransitive(a.rel, b.rel, c.rel);
      }
      TextLeqIsTotal(a.rel, b.rel);
      if TextLeq(a.digest, b.digest) && TextLeq(b.digest, c.digest) {
        TextLeqIsTransitive(a.digest, b.digest, c.digest);
      }
    }
  }

  predicate Ordered(s: seq<Entry>) {
    forall i, j :: 0 <= i < j < |s| ==> EntryLeq(s[i], s[j])
  }

  /** Insertion sort. */
  method SortEntries(entries: seq<Entry>) returns (sorted: seq<Entry>)
    ensures Ordered(sorted) && multiset(sorted) == multiset(entries)
  {
    sorted := [];
    for i := 0 to |entries|
      invariant Ordered(sorted) && multiset(sorted) == multiset(entries[..i])
    {
      sorted := InsertEntry(sorted, entries[i]);
      assert entries[..i + 1] == entries[..i] + [entries[i]];
    }
    assert entries[..|entries|] == entries;
  }

  method InsertEntry(sorted: seq<Entry>, e: Entry) returns (r: seq<Entry>)
    requires Ordered(sorted)
    ensures Ordered(r) && multiset(r) == multiset(sorted) + multiset{e}
  {
    var k := |sorted|;
    while k > 0 && !EntryLeq(sorted[k - 1], e)
      invariant 0 <= k <= |sorted|
      invariant forall j :: k <= j < |sorted| ==> EntryLeq(e, sorted[j])
    {
      EntryLeqIsTotal(sorted[k - 1], e);
      k := k - 1;
    }
    r := sorted[..k] + [e] + sorted[k..];
    InsertedIsOrdered(sorted, k, e, r);
    assert sorted == sorted[..k] + sorted[k..];
  }

  lemma InsertedIsOrdered(sorted: seq<Entry>, k: nat, e: Entry, r: seq<Entry>)
    requires Ordered(sorted) && k <= |sorted| && r == sorted[..k] + [e] + sorted[k..]
    requires k > 0 ==> EntryLeq(sorted[k - 1], e)
    requires forall j :: k <= j < |sorted| ==> EntryLeq(e, sorted[j])
    ensures Ordered(r)
  {
    forall i, j | 0 <= i < j < |r| ensures EntryLeq(r[i], r[j]) {
      if i < k - 1 && j == k {
        EntryLeqIsTransitive(sorted[i], sorted[k - 1], e);
      }
    }
  }

  lemma SameFirst(a: seq<Entry>, b: seq<Entry>)
    requires Ordered(a) && Ordered(b) && multiset(a) == multiset(b) && a != [] && b != []
    ensures a[0] == b[0]
  {
    assert a[0] in multiset(b) && b[0] in multiset(a);
    var i :| 0 <= i < |a| && a[i] == b[0];
    var j :| 0 <= j < |b| && b[j] == a[0];
    EntryLeqIsTotal(a[0], b[0]);
  }

  lemma WithoutFirst(a: seq<Entry>)
    requires a != []
    ensures multiset(a[1..]) == multiset(a) - multiset{a[0]}
  {
    assert a == [a[0]] + a[1..];
  }

  lemma {:induction false} OrderedIsUnique(a: seq<Entry>, b: seq<Entry>)
    requires Ordered(a) && Ordered(b) && multiset(a) == multiset(b)
    ensures a == b
  {
    assert |multiset(a)| == |a| && |multiset(b)| == |b|;
    if a != [] {
      SameFirst(a, b);
      WithoutFirst(a);
      WithoutFirst(b);
      OrderedIsUnique(a[1..], b[1..]);
      assert a == [a[0]] + a[1..] && b == [b[0]] + b[1..];
    }
  }

  // ----- the encoded stream -----

  function OctalDigit(n: nat): char
    requires n < 8
  {
    ['0', '1', '2', '3', '4', '5', '6', '7'][n]
  }

  function Octal(n: nat): string {
    if n < 8 then [OctalDigit(n)] else Octal(n / 8) + [OctalDigit(n % 8)]
  }

  function EncodeEntry(e: Entry): string {
    [e.kind] + "\0" + e.rel + "\0" + Octal(e.mode) + "\0" + e.digest + "\0"
  }

  function Encode(entries: seq<Entry>): string {
    if entries == [] then "" else EncodeEntry(entries[0]) + Encode(entries[1..])
  }

  predicate CleanEntry(e: Entry) {
    NulFree(e.rel) && NulFree(e.digest)
  }

  /** A NUL-free field ends at its first NUL, so it can be read off in one way. */
  lemma FieldEndsAtNul(a: string, x: string, b: string, y: string)
    requires NulFree(a) && NulFree(b)
    requires a + "\0" + x == b + "\0" + y
    ensures a == b && x == y
  {
    var s := a + "\0" + x;
    assert s[|a|] == '\0' && s[|b|] == '\0';
    assert forall i :: 0 <= i < |a| ==> s[i] == a[i] && a[i] in a;
    assert forall i :: 0 <= i < |b| ==> s[i] == b[i] && b[i] in b;
    assert a == s[..|a|] && b == s[..|a|];
    assert x == s[|a| + 1..] && y == s[|a| + 1..];
  }

  lemma {:induction false} OctalIsInjective(m: nat, n: nat)
    ensures NulFree(Octal(m))
    ensures Octal(m) == Octal(n) ==> m == n
    ensures |Octal(m)| >= 1
  {
    OctalDigitsDiffer(m % 8, n % 8);
    if m >= 8 {
      OctalIsInjective(m / 8, n / 8);
    }
    if m >= 8 && n >= 8 {
      assert Octal(m)[|Octal(m)| - 1] == OctalDigit(m % 8) && Octal(n)[|Octal(n)| - 1] == OctalDigit(n % 8);
      assert Octal(m)[..|Octal(m)| - 1] == Octal(m / 8) && Octal(n)[..|Octal(n)| - 1] == Octal(n / 8);
    }
    if n >= 8 > m {
      OctalIsNotEmpty(n / 8);
    }
  }

  lemma OctalIsNotEmpty(n: nat)
    ensures |Octal(n)| >= 1
  {
  }

  lemma OctalDigitsDiffer(m: nat, n: nat)
    requires m < 8 && n < 8
    ensures OctalDigit(m) != '\0'
    ensures OctalDigit(m) == OctalDigit(n) ==> m == n
  {
  }

  lemma EntryText(e: Entry, more: string, mode: string, fields: string)
    requires mode == Octal(e.mode) && fields == e.rel + "\0" + (mode + "\0" + (e.digest + "\0" + more))
    ensures EncodeEntry(e) + more == [e.kind] + "\0" + fields
  {
  }

  lemma KindComesFirst(c: char, x: string, d: char, y: string)
    requires [c] + "\0" + x == [d] + "\0" + y
    ensures c == d && x == y
  {
    assert ([c] + "\0" + x)[0] == c && ([d] + "\0" + y)[0] == d;
    assert x == ([c] + "\0" + x)[2..] && y == ([d] + "\0" + y)[2..];
  }

  lemma EntryParsesUniquely(a: Entry, x: string, b: Entry, y: string)
    requires CleanEntry(a) && CleanEntry(b)
    requires EncodeEntry(a) + x == EncodeEntry(b) + y
    ensures a == b && x == y
  {
    var ma, mb := Octal(a.mode), Octal(b.mode);
    var a3, b3 := a.digest + "\0" + x, b.digest + "\0" + y;
    var a2, b2 := ma + "\0" + a3, mb + "\0" + b3;
    var a1, b1 := a.rel + "\0" + a2, b.rel + "\0" + b2;
    EntryText(a, x, ma, a1);
    EntryText(b, y, mb, b1);
    KindComesFirst(a.kind, a1, b.kind, b1);
    FieldEndsAtNul(a.rel, a2, b.rel, b2);
    OctalIsInjective(a.mode, b.mode);
    OctalIsInjective(b.mode, a.mode);
    FieldEndsAtNul(ma, a3, mb, b3);
    FieldEndsAtNul(a.digest, x, b.digest, y);
  }

  lemma StreamOfNothing(entries: seq<Entry>)
    ensures Encode(entries) == "" <==> entries == []
  {
    if entries != [] {
      assert |EncodeEntry(entries[0])| > 0;
    }
  }

  /** The stream parses back in one way. */
  lemma {:induction false} StreamParsesUniquely(a: seq<Entry>, b: seq<Entry>)
    requires forall e :: e in a ==> CleanEntry(e)
    requires forall e :: e in b ==> CleanEntry(e)
    requires Encode(a) == Encode(b)
    ensures a == b
  {
    StreamOfNothing(a);
    StreamOfNothing(b);
    if a != [] {
      EntryParsesUniquely(a[0], Encode(a[1..]), b[0], Encode(b[1..]));
      StreamParsesUniquely(a[1..], b[1..]);
      assert a == [a[0]] + a[1..] && b == [b[0]] + b[1..];
    }
  }
}
