/**
 The confined symlink resolver: pathname resolution (section 4.13 of POSIX.1-2017, Base
 Definitions) under a root it may never leave, component by component, without following links.

 `ResolveLinkTarget` is the loop with its explicit stack and nested calls; `Resolve` and `Walk`
 are the functions it computes.  `Derives` is the independent big-step relation: no active set,
 no loop check, just finite derivations.
 */
module LinkResolver {
  import opened Wrappers
  import opened Texts
  import opened AssetTree

  datatype LinkError =
    | EmptyOrAbsolute
    | TrailingSeparator
    | NotADirectory
    | EscapesRoot
    | Broken
    | LinkLoop
    | NotFileOrDirectory

  predicate RelativeTarget(target: string) {
    target != "" && target[0] != '/'
  }

  /** What a finished walk is checked for. */
  function Settle(root: Node, r: Result<Path, LinkError>): Result<Path, LinkError> {
    match r
    case Err(e) => Err(e)
    case Ok(p) =>
      if Lstat(root, p).None? then Err(Broken)
      else if !IsFileOrDirectory(root, p) then Err(NotFileOrDirectory)
      else Ok(p)
  }

  /** Resolves one link target from the directory that holds the link. */
  ghost function Resolve(root: Node, parent: Path, target: string, active: set<Path>): Result<Path, LinkError>
    decreases LinkPaths(root) - active, 1, 0
  {
    if !RelativeTarget(target) then Err(EmptyOrAbsolute)
    else Settle(root, Walk(root, parent, Components(target), active))
  }

  /** Processes the remaining components; `active` holds the links being resolved. */
  ghost function Walk(root: Node, stack: Path, components: seq<string>, active: set<Path>)
    : Result<Path, LinkError>
    decreases LinkPaths(root) - active, 0, |components|
  {
    if components == [] then Ok(stack)
    else
      var c, rest := components[0], components[1..];
      if c == "" then
        if rest == [] && !IsDirectory(root, stack) then Err(TrailingSeparator)
        else Walk(root, stack, rest, active)
      else if c == "." then
        if !IsDirectory(root, stack) then Err(NotADirectory) else Walk(root, stack, rest, active)
      else if c == ".." then
        if stack == [] then Err(EscapesRoot)
        else if !IsDirectory(root, stack) then Err(NotADirectory)
        else Walk(root, stack[..|stack| - 1], rest, active)
      else
        var candidate := stack + [c];
        var st := Lstat(root, candidate);
        if st.None? then Err(Broken)
        else if st.value.Link? then
          if candidate in active then Err(LinkLoop)
          else
            LinksAreLinkPaths(root, candidate);
            assert candidate in LinkPaths(root) - active;
            var nested := Resolve(root, stack, st.value.target, active + {candidate});
            if nested.Err? then nested else Walk(root, nested.value, rest, active)
        else if rest != [] && !st.value.Directory? then Err(NotADirectory)
        else Walk(root, candidate, rest, active)
  }

  /** The resolver itself: a stack, a loop over the components, and a call per nested link. */
  method ResolveLinkTarget(root: Node, parent: Path, target: string, active: set<Path>)
    returns (r: Result<Path, LinkError>)
    ensures r == Resolve(root, parent, target, active)
    decreases LinkPaths(root) - active
  {
    if target == "" || target[0] == '/' {
      return Err(EmptyOrAbsolute);
    }
    var stack, components := parent, Components(target);
    ghost var goal := Walk(root, parent, components, active);
    assert components[0..] == components;
    for index := 0 to |components|
      invariant Walk(root, stack, components[index..], active) == goal
    {
      var component := components[index];
      ghost var rest := components[index + 1..];
      assert components[index..][1..] == rest;
      if component == "" {
        if index == |components| - 1 {
          var current := Lstat(root, stack);
          if current.None? || !current.value.Directory? {
            return Err(TrailingSeparator);
          }
        }
      } else if component == "." {
        var current := Lstat(root, stack);
        if current.None? || !current.value.Directory? {
          return Err(NotADirectory);
        }
      } else if component == ".." {
        if stack == [] {
          return Err(EscapesRoot);
        }
        var current := Lstat(root, stack);
        if current.None? || !current.value.Directory? {
          return Err(NotADirectory);
        }
        stack := stack[..|stack| - 1];
      } else {
        var candidate := stack + [component];
        var st := Lstat(root, candidate);
        if st.None? {
          return Err(Broken);
        }
        var remaining := index < |components| - 1;
        if st.value.Link? {
          if candidate in active {
            return Err(LinkLoop);
          }
          LinksAreLinkPaths(root, candidate);
          assert candidate in LinkPaths(root) - active;
          var nested := ResolveLinkTarget(root, stack, st.value.target, active + {candidate});
          if nested.Err? {
            return nested;
          }
          stack := nested.value;
        } else {
          if remaining && !st.value.Directory? {
            return Err(NotADirectory);
          }
          stack := candidate;
        }
      }
    }
    assert components[|components|..] == [];
    if Lstat(root, stack).None? {
      return Err(Broken);
    }
    if !IsFileOrDirectory(root, stack) {
      return Err(NotFileOrDirectory);
    }
    return Ok(stack);
  }

  // ----- big-step resolution -----

  /** A finite derivation: how each component was resolved. */
  datatype Derivation =
    | Finish
    | Stay(rest: Derivation)
    | Up(rest: Derivation)
    | Down(rest: Derivation)
    | Follow(inner: Derivation, rest: Derivation)

  function Size(d: Derivation): nat {
    match d
    case Finish => 0
    case Stay(rest) => 1 + Size(rest)
    case Up(rest) => 1 + Size(rest)
    case Down(rest) => 1 + Size(rest)
    case Follow(inner, rest) => 1 + Size(inner) + Size(rest)
  }

  /** The path a derivation establishes, or None when it is not a derivation of these components. */
  function Derives(root: Node, stack: Path, components: seq<string>, d: Derivation): Option<Path>
    decreases d, 0
  {
    if components == [] then if d.Finish? then Some(stack) else None
    else
      var c, rest := components[0], components[1..];
      match d
      case Finish => None
      case Stay(d1) =>
        if c == "" && (rest != [] || IsDirectory(root, stack)) then Derives(root, stack, rest, d1)
        else if c == "." && IsDirectory(root, stack) then Derives(root, stack, rest, d1)
        else None
      case Up(d1) =>
        if c == ".." && stack != [] && IsDirectory(root, stack)
        then Derives(root, stack[..|stack| - 1], rest, d1) else None
      case Down(d1) =>
        if c == "" || c == "." || c == ".." || Lstat(root, stack + [c]).None? then None
        else
          var node := Lstat(root, stack + [c]).value;
          if node.Directory? || (!node.Link? && rest == []) then Derives(root, stack + [c], rest, d1) else None
      case Follow(inner, d1) =>
        if c == "" || c == "." || c == ".." || !IsLink(root, stack + [c]) then None
        else
          var middle := LinkDerives(root, stack, Lstat(root, stack + [c]).value.target, inner);
          if middle.None? then None else Derives(root, middle.value, rest, d1)
  }

  /** A link resolves when its target is relative and its components lead to a file or directory. */
  function LinkDerives(root: Node, parent: Path, target: string, d: Derivation): Option<Path>
    decreases d, 1
  {
    if !RelativeTarget(target) then None
    else
      var p := Derives(root, parent, Components(target), d);
      if p.Some? && IsFileOrDirectory(root, p.value) then p else None
  }

  ghost predicate Resolves(root: Node, parent: Path, target: string, p: Path) {
    exists d :: LinkDerives(root, parent, target, d) == Some(p)
  }

  // ----- derivations are unique -----

  lemma {:induction false} DerivationIsUnique(root: Node, stack: Path, components: seq<string>,
                                             d: Derivation, e: Derivation)
    requires Derives(root, stack, components, d).Some? && Derives(root, stack, components, e).Some?
    ensures d == e
    decreases d
  {
    if components != [] {
      var c, rest := components[0], components[1..];
      match d
      case Finish =>
      case Stay(d1) => DerivationIsUnique(root, stack, rest, d1, e.rest);
      case Up(d1) => DerivationIsUnique(root, stack[..|stack| - 1], rest, d1, e.rest);
      case Down(d1) => DerivationIsUnique(root, stack + [c], rest, d1, e.rest);
      case Follow(inner, d1) =>
        var target := Lstat(root, stack + [c]).value.target;
        DerivationIsUnique(root, stack, Components(target), inner, e.inner);
        DerivationIsUnique(root, LinkDerives(root, stack, target, inner).value, rest, d1, e.rest);
    }
  }

  // ----- the resolver is sound and complete -----

  lemma {:induction false} ResolveIsSound(root: Node, parent: Path, target: string, active: set<Path>)
    returns (d: Derivation)
    requires Resolve(root, parent, target, active).Ok?
    ensures LinkDerives(root, parent, target, d) == Some(Resolve(root, parent, target, active).value)
    decreases LinkPaths(root) - active, 1, 0
  {
    d := WalkIsSound(root, parent, Components(target), active);
  }

  lemma {:induction false} WalkIsSound(root: Node, stack: Path, components: seq<string>, active: set<Path>)
    returns (d: Derivation)
    requires Walk(root, stack, components, active).Ok?
    ensures Derives(root, stack, components, d) == Some(Walk(root, stack, components, active).value)
    decreases LinkPaths(root) - active, 0, |components|
  {
    if components == [] {
      return Finish;
    }
    var c, rest := components[0], components[1..];
    if c == "" || c == "." {
      var d1 := WalkIsSound(root, stack, rest, active);
      return Stay(d1);
    }
    if c == ".." {
      var d1 := WalkIsSound(root, stack[..|stack| - 1], rest, active);
      return Up(d1);
    }
    var candidate := stack + [c];
    if !IsLink(root, candidate) {
      var d1 := WalkIsSound(root, candidate, rest, active);
      return Down(d1);
    }
    LinksAreLinkPaths(root, candidate);
    assert candidate in LinkPaths(root) - active;
    var target := Lstat(root, candidate).value.target;
    var inner := ResolveIsSound(root, stack, target, active + {candidate});
    var d1 := WalkIsSound(root, Resolve(root, stack, target, active + {candidate}).value, rest, active);
    return Follow(inner, d1);
  }

  /** No active link has a derivation smaller than the goal: meeting one again would need a
      derivation strictly inside itself. */
  ghost predicate NoneSmaller(root: Node, active: set<Path>, size: nat) {
    forall link, d: Derivation {:trigger link in active, Size(d)} ::
      link in active && link != [] && IsLink(root, link)
      && LinkDerives(root, link[..|link| - 1], Lstat(root, link).value.target, d).Some?
      ==> Size(d) >= size
  }

  /** The link a derivation follows is not active yet, and inside its own derivation nothing active
      has a smaller one either. */
  lemma FollowedLinkIsNew(root: Node, active: set<Path>, stack: Path, link: Path, target: string, inner: Derivation,
                          size: nat)
    requires NoneSmaller(root, active, size) && Size(inner) < size
    requires link != [] && link[..|link| - 1] == stack && IsLink(root, link)
    requires target == Lstat(root, link).value.target && LinkDerives(root, stack, target, inner).Some?
    ensures link !in active && NoneSmaller(root, active + {link}, Size(inner))
  {
    assert Size(inner) < size;
    assert link !in active;
    forall other, e: Derivation |
      other in active + {link} && other != [] && IsLink(root, other)
      && LinkDerives(root, other[..|other| - 1], Lstat(root, other).value.target, e).Some?
      ensures Size(e) >= Size(inner)
    {
      if other == link {
        DerivationIsUnique(root, stack, Components(target), e, inner);
      } else {
        assert other in active;
      }
    }
  }

  lemma {:induction false} WalkIsComplete(root: Node, stack: Path, components: seq<string>, active: set<Path>,
                                         d: Derivation)
    requires Derives(root, stack, components, d).Some?
    requires NoneSmaller(root, active, Size(d))
    ensures Walk(root, stack, components, active) == Ok(Derives(root, stack, components, d).value)
    decreases d
  {
    if components != [] {
      var c, rest := components[0], components[1..];
      match d
      case Stay(d1) => WalkIsComplete(root, stack, rest, active, d1);
      case Up(d1) => WalkIsComplete(root, stack[..|stack| - 1], rest, active, d1);
      case Down(d1) => WalkIsComplete(root, stack + [c], rest, active, d1);
      case Follow(inner, d1) =>
        var link := stack + [c];
        var target := Lstat(root, link).value.target;
        FollowedLinkIsNew(root, active, stack, link, target, inner, Size(d));
        WalkIsComplete(root, stack, Components(target), active + {link}, inner);
        WalkIsComplete(root, LinkDerives(root, stack, target, inner).value, rest, active, d1);
    }
  }

  /** Resolution is exact: on any finite tree, loops included, the resolver started at a link
      returns a path exactly when finite derivations establish that path.  In particular the
      active set never rejects a link that has a finite resolution. */
  lemma ResolutionIsExact(root: Node, parent: Path, name: string, p: Path)
    requires IsLink(root, parent + [name])
    ensures var target := Lstat(root, parent + [name]).value.target;
      Resolve(root, parent, target, {parent + [name]}) == Ok(p) <==> Resolves(root, parent, target, p)
  {
    var link := parent + [name];
    var target := Lstat(root, link).value.target;
    if Resolve(root, parent, target, {link}) == Ok(p) {
      var d := ResolveIsSound(root, parent, target, {link});
    }
    if Resolves(root, parent, target, p) {
      var d :| LinkDerives(root, parent, target, d) == Some(p);
      assert link[..|link| - 1] == parent;
      forall other, e: Derivation |
        other in {link} && other != [] && IsLink(root, other)
        && LinkDerives(root, other[..|other| - 1], Lstat(root, other).value.target, e).Some?
        ensures Size(e) >= Size(d)
      {
        DerivationIsUnique(root, parent, Components(target), e, d);
      }
      WalkIsComplete(root, parent, Components(target), {link}, d);
    }
  }

  // ----- confinement -----

  /** Every resolved path is canonical: it runs through real directories of the tree, names no
      link and no dots, and ends at a file or directory. */
  lemma ResolvedPathsAreCanonical(root: Node, parent: Path, target: string, active: set<Path>)
    requires WellNamed(root) && Resolve(root, parent, target, active).Ok?
    ensures var p := Resolve(root, parent, target, active).value;
      && IsFileOrDirectory(root, p)
      && (forall i :: 0 <= i < |p| ==> IsDirectory(root, p[..i]))
      && (forall c :: c in p ==> ValidName(c))
  {
    var p := Resolve(root, parent, target, active).value;
    ComponentsAreNames(root, p);
    forall i | 0 <= i < |p| ensures IsDirectory(root, p[..i]) {
      PrefixesAreDirectories(root, p, i);
    }
  }

  /** Confinement loses nothing that matters: mounted anywhere in a host tree, the file the
      resolver names is the file the host's own unconfined resolution of that link reaches. */
  lemma {:induction false} HostDerivesTheSame(host: Node, mount: Path, root: Node, stack: Path,
                                             components: seq<string>, d: Derivation)
    requires Lstat(host, mount) == Some(root)
    requires Derives(root, stack, components, d).Some?
    ensures Derives(host, mount + stack, components, d)
         == Some(mount + Derives(root, stack, components, d).value)
    decreases d
  {
    LstatThrough(host, mount, stack);
    if components != [] {
      var c, rest := components[0], components[1..];
      match d
      case Stay(d1) => HostDerivesTheSame(host, mount, root, stack, rest, d1);
      case Up(d1) =>
        HostDerivesTheSame(host, mount, root, stack[..|stack| - 1], rest, d1);
        assert (mount + stack)[..|mount + stack| - 1] == mount + stack[..|stack| - 1];
      case Down(d1) =>
        LstatThrough(host, mount, stack + [c]);
        assert mount + stack + [c] == mount + (stack + [c]);
        HostDerivesTheSame(host, mount, root, stack + [c], rest, d1);
      case Follow(inner, d1) =>
        LstatThrough(host, mount, stack + [c]);
        assert mount + stack + [c] == mount + (stack + [c]);
        var target := Lstat(root, stack + [c]).value.target;
        var middle := LinkDerives(root, stack, target, inner).value;
        HostDerivesTheSame(host, mount, root, stack, Components(target), inner);
        LstatThrough(host, mount, middle);
        HostDerivesTheSame(host, mount, root, middle, rest, d1);
    }
  }

  lemma ConfinedResolutionAgreesWithHost(host: Node, mount: Path, root: Node, parent: Path, target: string,
                                         active: set<Path>)
    requires Lstat(host, mount) == Some(root)
    requires Resolve(root, parent, target, active).Ok?
    ensures Resolves(host, mount + parent, target, mount + Resolve(root, parent, target, active).value)
  {
    var d := ResolveIsSound(root, parent, target, active);
    HostDerivesTheSame(host, mount, root, parent, Components(target), d);
    LstatThrough(host, mount, Resolve(root, parent, target, active).value);
    assert LinkDerives(host, mount + parent, target, d).Some?;
  }

  /** A host derivation whose every step, in every link it follows, stays at or below the mount. */
  predicate StaysUnder(host: Node, mount: Path, stack: Path, components: seq<string>, d: Derivation)
    requires Derives(host, stack, components, d).Some?
    decreases d
  {
    && mount <= stack
    && (components != [] ==>
          var c, rest := components[0], components[1..];
          match d
          case Finish => true
          case Stay(d1) => StaysUnder(host, mount, stack, rest, d1)
          case Up(d1) => StaysUnder(host, mount, stack[..|stack| - 1], rest, d1)
          case Down(d1) => StaysUnder(host, mount, stack + [c], rest, d1)
          case Follow(inner, d1) =>
            var target := Lstat(host, stack + [c]).value.target;
            var middle := LinkDerives(host, stack, target, inner);
            assert middle.Some?;
            && StaysUnder(host, mount, stack, Components(target), inner)
            && StaysUnder(host, mount, middle.value, rest, d1))
  }

  /** What is derived under the root stays under the mount. */
  lemma {:induction false} ConfinedStaysUnder(host: Node, mount: Path, root: Node, stack: Path,
                                             components: seq<string>, d: Derivation)
    requires Lstat(host, mount) == Some(root) && Derives(root, stack, components, d).Some?
    ensures Derives(host, mount + stack, components, d).Some?
    ensures StaysUnder(host, mount, mount + stack, components, d)
    decreases d
  {
    HostDerivesTheSame(host, mount, root, stack, components, d);
    if components != [] {
      var c, rest := components[0], components[1..];
      assert mount + stack + [c] == mount + (stack + [c]);
      match d
      case Stay(d1) => ConfinedStaysUnder(host, mount, root, stack, rest, d1);
      case Up(d1) =>
        assert (mount + stack)[..|mount + stack| - 1] == mount + stack[..|stack| - 1];
        ConfinedStaysUnder(host, mount, root, stack[..|stack| - 1], rest, d1);
      case Down(d1) => ConfinedStaysUnder(host, mount, root, stack + [c], rest, d1);
      case Follow(inner, d1) =>
        LstatThrough(host, mount, stack + [c]);
        var target := Lstat(root, stack + [c]).value.target;
        var middle := LinkDerives(root, stack, target, inner).value;
        ConfinedStaysUnder(host, mount, root, stack, Components(target), inner);
        HostLinkDerivesTheSame(host, mount, root, stack, target, inner);
        ConfinedStaysUnder(host, mount, root, middle, rest, d1);
    }
  }

  lemma HostLinkDerivesTheSame(host: Node, mount: Path, root: Node, stack: Path, target: string, d: Derivation)
    requires Lstat(host, mount) == Some(root) && LinkDerives(root, stack, target, d).Some?
    ensures LinkDerives(host, mount + stack, target, d) == Some(mount + LinkDerives(root, stack, target, d).value)
  {
    HostDerivesTheSame(host, mount, root, stack, Components(target), d);
    LstatThrough(host, mount, LinkDerives(root, stack, target, d).value);
  }

  /** ... and the other way: a host derivation that stays under the mount is one under the root. */
  lemma {:induction false} StayingIsConfined(host: Node, mount: Path, root: Node, stack: Path,
                                            components: seq<string>, d: Derivation)
    requires Lstat(host, mount) == Some(root)
    requires Derives(host, mount + stack, components, d).Some? && StaysUnder(host, mount, mount + stack, components, d)
    ensures Derives(root, stack, components, d).Some?
    ensures Derives(host, mount + stack, components, d) == Some(mount + Derives(root, stack, components, d).value)
    decreases d
  {
    LstatThrough(host, mount, stack);
    if components != [] {
      var c, rest := components[0], components[1..];
      assert mount + stack + [c] == mount + (stack + [c]);
      LstatThrough(host, mount, stack + [c]);
      match d
      case Stay(d1) => StayingIsConfined(host, mount, root, stack, rest, d1);
      case Up(d1) =>
        var up := (mount + stack)[..|mount + stack| - 1];
        assert mount <= up && up == mount + stack[..|stack| - 1];
        StayingIsConfined(host, mount, root, stack[..|stack| - 1], rest, d1);
      case Down(d1) => StayingIsConfined(host, mount, root, stack + [c], rest, d1);
      case Follow(inner, d1) =>
        var target := Lstat(root, stack + [c]).value.target;
        StayingIsConfined(host, mount, root, stack, Components(target), inner);
        var middle := Derives(root, stack, Components(target), inner).value;
        LstatThrough(host, mount, middle);
        StayingIsConfined(host, mount, root, middle, rest, d1);
    }
  }

  /** Confinement is exact: wherever the root is mounted, the resolver returns a path for a link if
      and only if the host's own resolution of that link leads there without leaving the mount. */
  lemma ConfinementIsExact(host: Node, mount: Path, root: Node, parent: Path, name: string, p: Path)
    requires Lstat(host, mount) == Some(root) && IsLink(root, parent + [name])
    ensures var target := Lstat(root, parent + [name]).value.target;
      Resolve(root, parent, target, {parent + [name]}) == Ok(p) <==>
        exists d :: LinkDerives(host, mount + parent, target, d) == Some(mount + p)
                    && StaysUnder(host, mount, mount + parent, Components(target), d)
  {
    var target := Lstat(root, parent + [name]).value.target;
    ResolutionIsExact(root, parent, name, p);
    if Resolves(root, parent, target, p) {
      var d :| LinkDerives(root, parent, target, d) == Some(p);
      HostLinkDerivesTheSame(host, mount, root, parent, target, d);
      ConfinedStaysUnder(host, mount, root, parent, Components(target), d);
    }
    if d :| LinkDerives(host, mount + parent, target, d) == Some(mount + p)
            && StaysUnder(host, mount, mount + parent, Components(target), d)
    {
      StayingIsConfined(host, mount, root, parent, Components(target), d);
      var q := Derives(root, parent, Components(target), d).value;
      assert (mount + q)[|mount|..] == q && (mount + p)[|mount|..] == p;
      LstatThrough(host, mount, p);
      assert LinkDerives(root, parent, target, d) == Some(p);
    }
  }
}
