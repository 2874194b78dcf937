/**
 The resolver's laws: it goes component by component, and nothing but a directory is gone through.
 */
module LinkLaws {
  import opened Wrappers
  import opened Texts
  import opened AssetTree
  import opened LinkResolver

  /** Anything further to resolve needs a directory to resolve it in. */
  lemma {:induction false} NothingBelowFiles(root: Node, stack: Path, components: seq<string>, active: set<Path>)
    requires components != [] && Walk(root, stack, components, active).Ok?
    ensures IsDirectory(root, stack)
    decreases |components|
  {
    var c := components[0];
    if c == "" {
      if |components| > 1 {
        NothingBelowFiles(root, stack, components[1..], active);
      }
    } else if c != "." && c != ".." {
      PrefixesAreDirectories(root, stack + [c], |stack|);
      assert (stack + [c])[..|stack|] == stack;
    }
  }

  /** Resolution composes: what comes after the first components is resolved from where those lead,
      and that is a directory. */
  lemma {:induction false} ResolutionComposes(root: Node, stack: Path, first: seq<string>, rest: seq<string>,
                                             active: set<Path>)
    requires rest != []
    ensures var middle, whole := Walk(root, stack, first, active), Walk(root, stack, first + rest, active);
      && (whole.Ok? ==> middle.Ok? && IsDirectory(root, middle.value))
      && (middle.Ok? && IsDirectory(root, middle.value) ==> whole == Walk(root, middle.value, rest, active))
    decreases |first|
  {
    if first == [] {
      assert first + rest == rest;
      if Walk(root, stack, rest, active).Ok? {
        NothingBelowFiles(root, stack, rest, active);
      }
    } else {
      var c, more := first[0], first[1..];
      assert (first + rest)[1..] == more + rest;
      if c == "" || c == "." {
        ResolutionComposes(root, stack, more, rest, active);
        if c == "" && more == [] && Walk(root, stack, rest, active).Ok? {
          NothingBelowFiles(root, stack, rest, active);
        }
      } else if c == ".." {
        if stack != [] {
          ResolutionComposes(root, stack[..|stack| - 1], more, rest, active);
        }
      } else {
        var candidate := stack + [c];
        if IsLink(root, candidate) {
          if candidate !in active {
            LinksAreLinkPaths(root, candidate);
            assert candidate in LinkPaths(root) - active;
            var nested := Resolve(root, stack, Lstat(root, candidate).value.target, active + {candidate});
            if nested.Ok? {
              ResolutionComposes(root, nested.value, more, rest, active);
            }
          }
        } else if Lstat(root, candidate).Some? {
          ResolutionComposes(root, candidate, more, rest, active);
        }
      }
    }
  }

  /** One component, in a directory: nothing and one dot stay, two dots go up but not out, and a name
      is what lies there, a link being what its target resolves to. */
  lemma OneComponent(root: Node, stack: Path, c: string, active: set<Path>)
    requires IsDirectory(root, stack)
    ensures var r := Walk(root, stack, [c], active);
      if c == "" || c == "." then r == Ok(stack)
      else if c == ".." then r == if |stack| == 0 then Err(EscapesRoot) else Ok(stack[..|stack| - 1])
      else
        var st := Lstat(root, stack + [c]);
        if st.None? then r == Err(Broken)
        else if !st.value.Link? then r == Ok(stack + [c])
        else if stack + [c] in active then r == Err(LinkLoop)
        else r == Resolve(root, stack, st.value.target, active + {stack + [c]})
  {
    if IsLink(root, stack + [c]) && stack + [c] !in active {
      LinksAreLinkPaths(root, stack + [c]);
      assert stack + [c] in LinkPaths(root) - active;
    }
  }

  /** A file is not gone through, and that is what the refusal says. */
  lemma FilesAreNotGoneThrough(root: Node, stack: Path, c: string, rest: seq<string>, active: set<Path>)
    requires rest != [] && c != "" && c != "." && c != ".."
    requires Lstat(root, stack + [c]).Some? && !IsLink(root, stack + [c]) && !IsDirectory(root, stack + [c])
    ensures Walk(root, stack, [c] + rest, active) == Err(NotADirectory)
  {
    assert ([c] + rest)[1..] == rest;
  }

  /** A whole target, by its last component: the rest must lead to a directory, and the last is
      resolved there. */
  lemma ResolvesByLastComponent(root: Node, stack: Path, first: seq<string>, c: string, active: set<Path>, q: Path)
    ensures Walk(root, stack, first + [c], active) == Ok(q) <==>
      var middle := Walk(root, stack, first, active);
      middle.Ok? && IsDirectory(root, middle.value) && Walk(root, middle.value, [c], active) == Ok(q)
  {
    ResolutionComposes(root, stack, first, [c], active);
  }

  /** A target resolves exactly when it is relative and its components lead to a directory or a
      regular file. */
  lemma TargetResolvesExactlyWhen(root: Node, parent: Path, target: string, active: set<Path>, q: Path)
    ensures Resolve(root, parent, target, active) == Ok(q) <==>
      && target != "" && target[0] != '/'
      && Walk(root, parent, Components(target), active) == Ok(q)
      && Lstat(root, q).Some? && (Lstat(root, q).value.Directory? || Lstat(root, q).value.Regular?)
  {
  }

  /** Cutting a text at its slashes loses nothing. */
  lemma {:induction false} ComponentsJoin(s: string)
    ensures Join(Components(s)) == s
    ensures forall c :: c in Components(s) ==> '/' !in c
  {
    if s != "" {
      ComponentsJoin(s[1..]);
      var rest := Components(s[1..]);
      if s[0] == '/' {
        assert Components(s)[1..] == rest;
        assert s == "" + "/" + s[1..];
      } else {
        var c := [s[0]] + rest[0];
        assert Components(s)[1..] == rest[1..];
        assert s == [s[0]] + s[1..];
        assert '/' !in rest[0];
      }
    }
  }
}
