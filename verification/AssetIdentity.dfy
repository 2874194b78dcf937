/**
 The asset digest as an identity: it is a function of the tree alone, and it determines the tree
 unless two strings hashed along the way collide.
 */
module AssetIdentity {
  import opened Wrappers
  import opened Hashing
  import opened Texts
  import opened AssetTree
  import opened LinkResolver
  import opened AssetDigest

  /** The sorted list, without repetition, of exactly one entry per path. */
  ghost predicate IsStream(h: Hash, root: Node, entries: seq<Entry>) {
    && Ordered(entries)
    && NoDuplicates(entries)
    && forall e :: e in entries <==> exists p :: EntryFor(h, root, p, e)
  }

  ghost predicate HasDigest(h: Hash, root: Node, digest: string) {
    exists entries :: IsStream(h, root, entries) && digest == h(Encode(entries))
  }

  // ----- relative paths name paths -----

  lemma {:induction false} SplitComponent(c: string)
    requires '/' !in c
    ensures Components(c) == [c]
  {
    if c != "" {
      SplitComponent(c[1..]);
      assert c == [c[0]] + c[1..];
    }
  }

  lemma {:induction false} SplitAtSeparator(c: string, s: string)
    requires '/' !in c
    ensures Components(c + "/" + s) == [c] + Components(s)
  {
    if c == "" {
      assert c + "/" + s == "/" + s;
      assert ("/" + s)[1..] == s;
    } else {
      assert (c + "/" + s)[1..] == c[1..] + "/" + s;
      SplitAtSeparator(c[1..], s);
      assert c == [c[0]] + c[1..];
    }
  }

  lemma {:induction false} SplitOfJoin(p: Path)
    requires p != [] && forall c :: c in p ==> '/' !in c
    ensures Components(Join(p)) == p
  {
    if |p| == 1 {
      SplitComponent(p[0]);
    } else {
      SplitOfJoin(p[1..]);
      SplitAtSeparator(p[0], Join(p[1..]));
    }
  }

  lemma RelativeIsInjective(p: Path, q: Path)
    requires forall c :: c in p ==> ValidName(c)
    requires forall c :: c in q ==> ValidName(c)
    requires Relative(p) == Relative(q)
    ensures p == q
  {
    SplitComponent(".");
    if p != [] {
      SplitOfJoin(p);
      assert p[0] in p;
    }
    if q != [] {
      SplitOfJoin(q);
      assert q[0] in q;
    }
  }

  lemma {:induction false} HostNamesAreValid(root: Node, p: Path)
    requires HostTree(root) && Lstat(root, p).Some?
    ensures forall c :: c in p ==> ValidName(c)
    ensures HostTree(Lstat(root, p).value)
  {
    if p != [] {
      HostNamesAreValid(root.children[p[0]], p[1..]);
    }
  }

  lemma {:induction false} JoinIsNulFree(p: Path)
    requires forall c :: c in p ==> NulFree(c)
    ensures NulFree(Join(p))
  {
    if p != [] {
      assert NulFree(p[0]);
      JoinIsNulFree(p[1..]);
      assert NulFree("/");
    }
  }

  lemma EntriesNameTheirPath(h: Hash, root: Node, p: Path, e: Entry, other: Node, q: Path, f: Entry)
    requires HostTree(root) && HostTree(other)
    requires EntryFor(h, root, p, e) && EntryFor(h, other, q, f) && e.rel == f.rel
    ensures p == q
  {
    HostNamesAreValid(root, p);
    HostNamesAreValid(other, q);
    RelativeIsInjective(p, q);
  }

  lemma EntriesAreClean(h: Hash, root: Node, p: Path, e: Entry)
    requires HostTree(root) && EntryFor(h, root, p, e)
    ensures CleanEntry(e)
  {
    HostNamesAreValid(root, p);
    forall c | c in p ensures NulFree(c) {
      assert ValidName(c);
    }
    JoinIsNulFree(p);
    assert NulFree(".");
    match Lstat(root, p).value
    case Regular(_, content) => DigestsAreNulFree(h, content);
    case Link(_, target) => DigestsAreNulFree(h, LinkIdentity(root, target, LinkTarget(root, p).value));
    case _ =>
  }

  lemma DigestsAreNulFree(h: Hash, x: string)
    ensures NulFree(h(x))
  {
    assert Hex(h(x));
    assert '\0' in h(x) ==> HexDigit('\0');
  }

  // ----- the digest is computed -----

  lemma {:induction false} EncodeAppends(entries: seq<Entry>, e: Entry)
    ensures Encode(entries + [e]) == Encode(entries) + EncodeEntry(e)
  {
    if entries == [] {
      assert Encode([e]) == EncodeEntry(e) + Encode([]);
    } else {
      EncodeAppends(entries[1..], e);
      assert (entries + [e])[1..] == entries[1..] + [e];
    }
  }

  lemma {:induction false} CountsOfDistinct<T>(s: seq<T>, x: T)
    requires NoDuplicates(s)
    ensures multiset(s)[x] == if x in s then 1 else 0
  {
    if s != [] {
      CountsOfDistinct(s[1..], x);
      assert s == [s[0]] + s[1..];
    }
  }

  lemma {:induction false} DistinctOfCounts<T>(s: seq<T>)
    requires forall x :: multiset(s)[x] <= 1
    ensures NoDuplicates(s)
  {
    if s != [] {
      var front := s[1..];
      assert s == [s[0]] + front;
      assert multiset(s) == multiset([s[0]]) + multiset(front);
      forall x ensures multiset(front)[x] <= 1 {
        assert multiset(s)[x] <= 1;
      }
      DistinctOfCounts(front);
      assert multiset(s)[s[0]] <= 1;
      forall j | 0 < j < |s| ensures s[0] != s[j] {
        assert s[j] == front[j - 1] && front[j - 1] in multiset(front);
      }
    }
  }

  lemma SortedCopyIsDistinct(sorted: seq<Entry>, entries: seq<Entry>)
    requires multiset(sorted) == multiset(entries) && NoDuplicates(entries)
    ensures NoDuplicates(sorted)
    ensures forall e :: e in sorted <==> e in entries
  {
    forall x ensures multiset(sorted)[x] <= 1 {
      CountsOfDistinct(entries, x);
    }
    DistinctOfCounts(sorted);
    forall e ensures e in sorted <==> e in entries {
      assert e in sorted <==> e in multiset(sorted);
      assert e in entries <==> e in multiset(entries);
    }
  }

  lemma EntriesAreDistinct(h: Hash, root: Node, visited: seq<Path>, entries: seq<Entry>)
    requires HostTree(root) && EntriesOf(h, root, visited, entries) && NoDuplicates(visited)
    ensures NoDuplicates(entries)
  {
    forall i, j | 0 <= i < j < |entries| ensures entries[i] != entries[j] {
      if entries[i] == entries[j] {
        EntriesNameTheirPath(h, root, visited[i], entries[i], root, visited[j], entries[j]);
      }
    }
  }

  lemma EntriesAreThoseOfPaths(h: Hash, root: Node, visited: seq<Path>, entries: seq<Entry>, e: Entry)
    requires EntriesOf(h, root, visited, entries) && forall p :: p in visited <==> Lstat(root, p).Some?
    ensures e in entries <==> exists p :: EntryFor(h, root, p, e)
  {
    if e in entries {
      var i :| 0 <= i < |entries| && entries[i] == e;
      assert EntryFor(h, root, visited[i], e);
    }
    if exists p :: EntryFor(h, root, p, e) {
      var p :| EntryFor(h, root, p, e);
      assert p in visited;
      var i :| 0 <= i < |visited| && visited[i] == p;
      assert EntryFor(h, root, p, entries[i]);
      assert entries[i] == e;
    }
  }

  /** One entry per path, each made once, is a stream once sorted. */
  lemma WalkGivesStream(h: Hash, root: Node, visited: seq<Path>, entries: seq<Entry>, sorted: seq<Entry>)
    requires HostTree(root) && EntriesOf(h, root, visited, entries)
    requires NoDuplicates(visited) && forall p :: p in visited <==> Lstat(root, p).Some?
    requires Ordered(sorted) && multiset(sorted) == multiset(entries)
    ensures IsStream(h, root, sorted)
  {
    EntriesAreDistinct(h, root, visited, entries);
    SortedCopyIsDistinct(sorted, entries);
    forall e ensures e in sorted <==> exists p :: EntryFor(h, root, p, e) {
      EntriesAreThoseOfPaths(h, root, visited, entries, e);
    }
  }

  /** The walk from the root, with the root's own entry, covers the tree. */
  lemma WholeWalkCovers(root: Node, visited: seq<Path>)
    requires root.Directory? && Below(root, [], root.children.Keys, visited)
    ensures NoDuplicates([[]] + visited)
    ensures forall p :: p in [[]] + visited <==> Lstat(root, p).Some?
  {
    var all: seq<Path> := [[]] + visited;
    assert [] !in visited;
    forall p: Path ensures p in all <==> Lstat(root, p).Some? {
      if p != [] {
        assert p[..0] == [] && p[0..] == p;
      }
    }
  }

  lemma CoveredMeansAcceptable(h: Hash, root: Node, visited: seq<Path>, entries: seq<Entry>)
    requires EntriesOf(h, root, visited, entries)
    requires forall p :: p in visited <==> Lstat(root, p).Some?
    ensures forall p :: Acceptable(root, p)
  {
    forall p ensures Acceptable(root, p) {
      if p in visited {
        var i :| 0 <= i < |visited| && visited[i] == p;
        assert EntryFor(h, root, visited[i], entries[i]);
      }
    }
  }

  /** The digest exists exactly for trees of acceptable entries, and is that of their stream. */
  method BrowserAssetDigest(h: Hash, root: Node) returns (r: Option<string>)
    requires HostTree(root)
    ensures r.Some? <==> AcceptableTree(root)
    ensures r.Some? ==> HasDigest(h, root, r.value)
  {
    if !root.Directory? {
      return None;
    }
    var own := Entry('d', ".", root.mode, "");
    var walked, visited := WalkDirectory(h, root, root, []);
    if walked.None? {
      return None;
    }
    var entries := [own] + walked.value;
    ghost var all := [[]] + visited;
    WholeWalkCovers(root, visited);
    assert EntryFor(h, root, [], own);
    EntriesOfBoth(h, root, [[]], [own], visited, walked.value);
    CoveredMeansAcceptable(h, root, all, entries);
    var sorted := SortEntries(entries);
    WalkGivesStream(h, root, all, entries, sorted);
    var digest := HashEntries(h, sorted);
    return Some(digest);
  }

  lemma NextEntry(entries: seq<Entry>, i: nat, encoded: string)
    requires i < |entries| && encoded == EncodeEntry(entries[i])
    ensures Encode(entries[..i + 1]) == Encode(entries[..i]) + encoded
  {
    EncodeAppends(entries[..i], entries[i]);
    assert entries[..i + 1] == entries[..i] + [entries[i]];
  }

  method HashEntries(h: Hash, entries: seq<Entry>) returns (digest: string)
    ensures digest == h(Encode(entries))
  {
    var stream := "";
    for i := 0 to |entries|
      invariant stream == Encode(entries[..i])
    {
      var encoded := EncodeEntry(entries[i]);
      NextEntry(entries, i, encoded);
      stream := stream + encoded;
    }
    assert entries[..|entries|] == entries;
    return h(stream);
  }

  // ----- the digest is a function of the tree -----

  lemma StreamIsUnique(h: Hash, root: Node, a: seq<Entry>, b: seq<Entry>)
    requires IsStream(h, root, a) && IsStream(h, root, b)
    ensures a == b
  {
    forall e ensures multiset(a)[e] == multiset(b)[e] {
      CountsOfDistinct(a, e);
      CountsOfDistinct(b, e);
    }
    assert multiset(a) == multiset(b);
    OrderedIsUnique(a, b);
  }

  // ----- and it determines the tree -----

  /** The strings hashed on behalf of one path. */
  ghost function HashedAt(root: Node, path: Path): iset<string>
    requires Lstat(root, path).Some? && Acceptable(root, path)
  {
    match Lstat(root, path).value
    case Regular(_, content) => iset{content}
    case Link(_, target) => iset{LinkIdentity(root, target, LinkTarget(root, path).value)}
    case _ => iset{}
  }

  ghost predicate IsStreamText(h: Hash, root: Node, entries: seq<Entry>, x: string) {
    IsStream(h, root, entries) && x == Encode(entries)
  }

  ghost predicate IsHashed(h: Hash, root: Node, x: string) {
    || (exists p :: Lstat(root, p).Some? && Acceptable(root, p) && x in HashedAt(root, p))
    || (exists entries :: IsStreamText(h, root, entries, x))
  }

  /** Every string hashed to obtain a tree's digest. */
  ghost function Hashed(h: Hash, root: Node): iset<string> {
    iset x | IsHashed(h, root, x)
  }

  /** A node without its children. */
  function Head(node: Node): Node {
    match node
    case Directory(mode, _) => Directory(mode, map[])
    case _ => node
  }

  ghost predicate SameAt(a: Node, b: Node, p: Path) {
    && (Lstat(a, p).Some? <==> Lstat(b, p).Some?)
    && (Lstat(a, p).Some? ==> Head(Lstat(a, p).value) == Head(Lstat(b, p).value))
  }

  lemma {:induction false} SameEverywhereIsEqual(a: Node, b: Node)
    requires forall p :: SameAt(a, b, p)
    ensures a == b
  {
    assert SameAt(a, b, []);
    if a.Directory? {
      forall name ensures name in a.children <==> name in b.children {
        assert SameAt(a, b, [name]);
        assert Lstat(a, [name]).Some? <==> name in a.children;
        assert Lstat(b, [name]).Some? <==> name in b.children;
      }
      forall name | name in a.children ensures a.children[name] == b.children[name] {
        forall p ensures SameAt(a.children[name], b.children[name], p) {
          assert SameAt(a, b, [name] + p);
          assert ([name] + p)[1..] == p;
        }
        SameEverywhereIsEqual(a.children[name], b.children[name]);
      }
      assert a.children == b.children;
    }
  }

  lemma EntryExists(h: Hash, root: Node, p: Path) returns (e: Entry)
    requires Lstat(root, p).Some? && Acceptable(root, p)
    ensures EntryFor(h, root, p, e)
  {
    match Lstat(root, p).value
    case Directory(mode, _) => e := Entry('d', Relative(p), mode, "");
    case Regular(mode, content) => e := Entry('f', Relative(p), mode, h(content));
    case Link(mode, target) =>
      e := Entry('l', Relative(p), mode, h(LinkIdentity(root, target, LinkTarget(root, p).value)));
  }

  /** A link's identity string gives back its raw target. */
  lemma IdentityNamesTarget(a: Node, s: string, p: Path, b: Node, t: string, q: Path)
    requires NulFree(s) && NulFree(t)
    requires LinkIdentity(a, s, p) == LinkIdentity(b, t, q)
    ensures s == t
  {
    DropPrefix("raw-target\0", s + "\0" + ResolvedIdentity(a, p), t + "\0" + ResolvedIdentity(b, q));
    FieldEndsAtNul(s, ResolvedIdentity(a, p), t, ResolvedIdentity(b, q));
  }

  lemma DropPrefix(intro: string, x: string, y: string)
    requires intro + x == intro + y
    ensures x == y
  {
    assert x == (intro + x)[|intro|..];
  }

  lemma SameEntrySameHead(h: Hash, a: Node, b: Node, p: Path, e: Entry)
    requires AcceptableTree(a) && AcceptableTree(b)
    requires EntryFor(h, a, p, e) && EntryFor(h, b, p, e)
    requires !Collide(h, Hashed(h, a), Hashed(h, b))
    ensures Head(Lstat(a, p).value) == Head(Lstat(b, p).value)
  {
    HostNamesAreValid(a, p);
    HostNamesAreValid(b, p);
    var m, n := Lstat(a, p).value, Lstat(b, p).value;
    if m.Regular? {
      assert m.content in HashedAt(a, p) && n.content in HashedAt(b, p);
      assert m.content in Hashed(h, a) && n.content in Hashed(h, b);
    }
    if m.Link? {
      var x := LinkIdentity(a, m.target, LinkTarget(a, p).value);
      var y := LinkIdentity(b, n.target, LinkTarget(b, p).value);
      assert x in HashedAt(a, p) && y in HashedAt(b, p);
      assert x in Hashed(h, a) && y in Hashed(h, b);
      IdentityNamesTarget(a, m.target, LinkTarget(a, p).value, b, n.target, LinkTarget(b, p).value);
    }
  }

  lemma SameStreamSamePath(h: Hash, a: Node, b: Node, entries: seq<Entry>, p: Path)
    requires AcceptableTree(a) && AcceptableTree(b) && Lstat(a, p).Some?
    requires IsStream(h, a, entries) && IsStream(h, b, entries)
    requires !Collide(h, Hashed(h, a), Hashed(h, b))
    ensures SameAt(a, b, p)
  {
    var e := EntryExists(h, a, p);
    assert e in entries;
    var q :| EntryFor(h, b, q, e);
    EntriesNameTheirPath(h, a, p, e, b, q, e);
    SameEntrySameHead(h, a, b, p, e);
  }

  lemma CollideIsSymmetric(h: Hash, xs: iset<string>, ys: iset<string>)
    requires Collide(h, ys, xs)
    ensures Collide(h, xs, ys)
  {
    var x, y :| x in ys && y in xs && x != y && h(x) == h(y);
    assert y in xs && x in ys && y != x && h(y) == h(x);
  }

  lemma StreamsAgree(h: Hash, a: Node, b: Node, x: seq<Entry>, y: seq<Entry>)
    requires AcceptableTree(a) && AcceptableTree(b)
    requires IsStream(h, a, x) && IsStream(h, b, y) && h(Encode(x)) == h(Encode(y))
    ensures x == y || Collide(h, Hashed(h, a), Hashed(h, b))
  {
    assert IsStreamText(h, a, x, Encode(x)) && IsStreamText(h, b, y, Encode(y));
    assert Encode(x) in Hashed(h, a) && Encode(y) in Hashed(h, b);
    if Encode(x) == Encode(y) {
      forall e | e in x ensures CleanEntry(e) {
        var p :| EntryFor(h, a, p, e);
        EntriesAreClean(h, a, p, e);
      }
      forall e | e in y ensures CleanEntry(e) {
        var p :| EntryFor(h, b, p, e);
        EntriesAreClean(h, b, p, e);
      }
      StreamParsesUniquely(x, y);
    }
  }

  /** The digest is an identity of the whole tree: equal trees have equal digests, whatever order
      their directories list, and equal digests mean equal trees, modes, bytes and link targets
      included, unless two of the strings hashed for them collide. */
  lemma DigestDeterminesTree(h: Hash, a: Node, b: Node, x: string, y: string)
    requires AcceptableTree(a) && AcceptableTree(b)
    requires HasDigest(h, a, x) && HasDigest(h, b, y)
    ensures a == b ==> x == y
    ensures x == y ==> a == b || Collide(h, Hashed(h, a), Hashed(h, b))
  {
    var s :| IsStream(h, a, s) && x == h(Encode(s));
    var t :| IsStream(h, b, t) && y == h(Encode(t));
    if a == b {
      StreamIsUnique(h, a, s, t);
    }
    if x == y && !Collide(h, Hashed(h, a), Hashed(h, b)) {
      StreamsAgree(h, a, b, s, t);
      forall p ensures SameAt(a, b, p) {
        if Lstat(a, p).Some? {
          SameStreamSamePath(h, a, b, s, p);
        } else if Lstat(b, p).Some? {
          if Collide(h, Hashed(h, b), Hashed(h, a)) {
            CollideIsSymmetric(h, Hashed(h, a), Hashed(h, b));
          }
          SameStreamSamePath(h, b, a, s, p);
        }
      }
      SameEverywhereIsEqual(a, b);
    }
  }
}
