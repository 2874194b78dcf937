/**
 The quote-aware splitter of command chains.

 `SplitSingleLine` is the index loop with its three quote flags.  `Cut` is the recursive
 reference: it cuts a line into raw pieces and the separators between them, and the laws of
 splitting are proved about it for every input.
 */
module CommandChain {
  import opened Wrappers
  import opened Texts

  datatype Mode = Bare | InSingle | InDouble | InBacktick

  /** The mode after a quote character, or None when it is an ordinary character here. */
  function Toggle(mode: Mode, c: char): Option<Mode> {
    if c == '\'' && mode.Bare? then Some(InSingle)
    else if c == '\'' && mode.InSingle? then Some(Bare)
    else if c == '"' && mode.Bare? then Some(InDouble)
    else if c == '"' && mode.InDouble? then Some(Bare)
    else if c == '`' && mode.Bare? then Some(InBacktick)
    else if c == '`' && mode.InBacktick? then Some(Bare)
    else None
  }

  // ----- the recursive reference -----

  /** Pieces and the separators between them. */
  datatype Cuts = Cuts(raws: seq<string>, seps: seq<string>)

  function Glue(text: string, cuts: Cuts): Cuts
    requires cuts.raws != []
  {
    cuts.(raws := [text + cuts.raws[0]] + cuts.raws[1..])
  }

  function Break(sep: string, cuts: Cuts): Cuts {
    Cuts([""] + cuts.raws, [sep] + cuts.seps)
  }

  /** The first token of a scan: how many characters it takes, whether it separates, and the mode
      after it. */
  datatype Token = Token(width: nat, separates: bool, mode: Mode)

  /** A token depends on the mode, its own character, the next one, and the one before it. */
  function FirstToken(prev: string, s: string, mode: Mode): (t: Token)
    requires s != ""
    ensures 1 <= t.width <= 2 && t.width <= |s|
  {
    var c := s[0];
    if c == '\\' then Token(if |s| > 1 then 2 else 1, false, mode)
    else if Toggle(mode, c).Some? then Token(1, false, Toggle(mode, c).value)
    else if mode.Bare? && (c == '&' || c == '|' || c == ';') then
      if c != ';' && |s| > 1 && s[1] == c then Token(2, true, Bare)
      else if c == '&' && (prev == ">" || (|s| > 1 && s[1] == '>')) then Token(1, false, Bare)
      else Token(1, true, Bare)
    else Token(1, false, mode)
  }

  /** Cuts `s`, scanned from `mode`; `prev` is the character before it, if any. */
  function Cut(prev: string, s: string, mode: Mode): (cuts: Cuts)
    ensures |cuts.raws| == |cuts.seps| + 1
    decreases |s|
  {
    if s == "" then Cuts([""], [])
    else
      var t := FirstToken(prev, s, mode);
      var rest := Cut(Last(s[..t.width]), s[t.width..], t.mode);
      if t.separates then Break(s[..t.width], rest) else Glue(s[..t.width], rest)
  }

  function Last(s: string): string {
    if s == "" then "" else [s[|s| - 1]]
  }

  function FlatMap(f: string -> seq<string>, lines: seq<string>): seq<string> {
    if lines == [] then [] else FlatMap(f, lines[..|lines| - 1]) + f(lines[|lines| - 1])
  }

  lemma FlatMapOfOneMore(f: string -> seq<string>, front: seq<string>, last: string)
    ensures FlatMap(f, front + [last]) == FlatMap(f, front) + f(last)
  {
    assert (front + [last])[..|front|] == front;
  }

  lemma {:induction false} FlatMapAppends(f: string -> seq<string>, a: seq<string>, b: seq<string>)
    ensures FlatMap(f, a + b) == FlatMap(f, a) + FlatMap(f, b)
  {
    if b == [] {
      assert a + b == a;
    } else {
      var front, last := b[..|b| - 1], b[|b| - 1];
      FlatMapAppends(f, a, front);
      FlatMapOfOneMore(f, front, last);
      FlatMapOfOneMore(f, a + front, last);
      assert b == front + [last] && a + b == (a + front) + [last];
    }
  }

  lemma FlatMapOfOne(f: string -> seq<string>, only: string)
    ensures FlatMap(f, [only]) == f(only)
  {
    FlatMapOfOneMore(f, [], only);
    assert [] + [only] == [only];
  }

  function OrNothing(part: string): seq<string> {
    if part == "" then [] else [part]
  }

  function Kept(raw: string): seq<string> {
    OrNothing(Strip(raw))
  }

  /** Strips every piece and drops the empty ones. */
  function Clean(raws: seq<string>): seq<string> {
    FlatMap(Kept, raws)
  }

  function Split(s: string): seq<string> {
    Clean(Cut("", s, Bare).raws)
  }

  // ----- the loop -----

  function Flags(single: bool, double: bool, backtick: bool): Mode {
    if single then InSingle else if double then InDouble else if backtick then InBacktick else Bare
  }

  function Stripped(raws: seq<string>): seq<string> {
    seq(|raws|, i requires 0 <= i < |raws| => Strip(raws[i]))
  }

  function NonEmpty(parts: seq<string>): seq<string> {
    FlatMap(OrNothing, parts)
  }

  /** What is already cut off, the piece being built, and what the rest will give. */
  ghost function Assembled(done: seq<string>, buf: string, rest: Cuts): seq<string>
    requires rest.raws != []
  {
    done + [buf + rest.raws[0]] + rest.raws[1..]
  }

  /** One turn of the loop: the quote flags after the token, its width, and whether it separates. */
  method ReadToken(command: string, i: nat, inSingle: bool, inDouble: bool, inBacktick: bool)
    returns (width: nat, separates: bool, single: bool, double: bool, backtick: bool)
    requires i < |command| && AtMostOne(inSingle, inDouble, inBacktick)
    ensures AtMostOne(single, double, backtick)
    ensures TokenAt(command, i, Flags(inSingle, inDouble, inBacktick))
         == Token(width, separates, Flags(single, double, backtick))
  {
    var ch, n := command[i], |command|;
    width, separates, single, double, backtick := 1, false, inSingle, inDouble, inBacktick;
    if ch == '\\' && i + 1 < n {
      width := 2;
    } else if !inDouble && !inBacktick && ch == '\'' {
      single := !inSingle;
    } else if !inSingle && !inBacktick && ch == '"' {
      double := !inDouble;
    } else if !inSingle && !inDouble && ch == '`' {
      backtick := !inBacktick;
    } else if !inSingle && !inDouble && !inBacktick && (ch == '&' || ch == '|' || ch == ';') {
      if ch != ';' && i + 1 < n && command[i + 1] == ch {
        return 2, true, single, double, backtick;
      }
      var prevIsArrow := i > 0 && command[i - 1] == '>';
      var nextIsArrow := i + 1 < n && command[i + 1] == '>';
      separates := !(ch == '&' && (prevIsArrow || nextIsArrow));
    }
  }

  method SplitSingleLine(command: string) returns (parts: seq<string>)
    ensures parts == Split(command)
  {
    parts := [];
    var buf, i := "", 0;
    var inSingle, inDouble, inBacktick := false, false, false;
    ghost var goal := Split(command);
    ResumeIsSplit(command);
    while i < |command|
      invariant 0 <= i <= |command|
      invariant AtMostOne(inSingle, inDouble, inBacktick)
      invariant Resume(command, i, Flags(inSingle, inDouble, inBacktick), parts, buf) == goal
    {
      var width, separates;
      width, separates, inSingle, inDouble, inBacktick := ReadToken(command, i, inSingle, inDouble, inBacktick);
      if separates {
        parts := parts + [Strip(buf)];
        buf := "";
      } else {
        buf := buf + command[i..i + width];
      }
      i := i + width;
    }
    var last := Strip(buf);
    parts := NonEmpty(parts + OrNothing(last));
  }

  predicate AtMostOne(a: bool, b: bool, c: bool) {
    !(a && b) && !(a && c) && !(b && c)
  }

  /** What the loop still gives from a turn on. */
  function Resume(command: string, i: nat, mode: Mode, parts: seq<string>, buf: string): seq<string>
    requires i <= |command|
    decreases |command| - i
  {
    if i == |command| then NonEmpty(parts + OrNothing(Strip(buf)))
    else
      var t := TokenAt(command, i, mode);
      var j := i + t.width;
      if t.separates then Resume(command, j, t.mode, parts + [Strip(buf)], "")
      else Resume(command, j, t.mode, parts, buf + command[i..j])
  }

  lemma {:induction false} ResumeFollowsCuts(command: string, i: nat, mode: Mode, done: seq<string>, buf: string,
                                             cuts: Cuts, goal: seq<string>)
    requires i <= |command| && cuts == CutFrom(command, i, mode) && goal == Assembled(done, buf, cuts)
    ensures Resume(command, i, mode, Stripped(done), buf) == Clean(goal)
    decreases |command| - i
  {
    if i == |command| {
      AssembledAtEnd(done, buf);
      FinishParts(done, buf);
    } else {
      var t, j, rest := ReadOneToken(command, i, mode, done, buf, cuts, goal);
      if t.separates {
        ResumeFollowsCuts(command, j, t.mode, done + [buf], "", rest, goal);
      } else {
        ResumeFollowsCuts(command, j, t.mode, done, buf + command[i..j], rest, goal);
      }
    }
  }

  lemma ReadOneToken(command: string, i: nat, mode: Mode, done: seq<string>, buf: string, cuts: Cuts, goal: seq<string>)
    returns (t: Token, j: nat, rest: Cuts)
    requires i < |command| && cuts == CutFrom(command, i, mode) && goal == Assembled(done, buf, cuts)
    ensures i < j <= |command| && rest == CutFrom(command, j, t.mode)
    ensures goal
         == if t.separates then Assembled(done + [buf], "", rest) else Assembled(done, buf + command[i..j], rest)
    ensures Resume(command, i, mode, Stripped(done), buf)
         == if t.separates then Resume(command, j, t.mode, Stripped(done + [buf]), "")
            else Resume(command, j, t.mode, Stripped(done), buf + command[i..j])
  {
    t := TokenAt(command, i, mode);
    j, rest := i + t.width, CutFrom(command, i + t.width, t.mode);
    GoalStays(command, i, mode, t, done, buf, cuts, rest, goal);
    StrippedAppends(done, buf);
    ResumeStep(command, i, mode, t, j, Stripped(done), buf);
  }

  lemma ResumeStep(command: string, i: nat, mode: Mode, t: Token, j: nat, parts: seq<string>, buf: string)
    requires i < |command| && t == TokenAt(command, i, mode) && j == i + t.width
    ensures Resume(command, i, mode, parts, buf)
         == if t.separates then Resume(command, j, t.mode, parts + [Strip(buf)], "")
            else Resume(command, j, t.mode, parts, buf + command[i..j])
  {
  }

  /** A token moves from the cuts that are left to what is already read. */
  lemma GoalStays(command: string, i: nat, mode: Mode, t: Token, done: seq<string>, buf: string,
                  cuts: Cuts, rest: Cuts, goal: seq<string>)
    requires i < |command| && t == TokenAt(command, i, mode)
    requires cuts == CutFrom(command, i, mode) && rest == CutFrom(command, i + t.width, t.mode)
    requires goal == Assembled(done, buf, cuts)
    ensures goal == if t.separates then Assembled(done + [buf], "", rest)
                    else Assembled(done, buf + command[i..i + t.width], rest)
  {
    BreakMoves(done, buf, command[i..i + t.width], rest);
    GlueMoves(done, buf, command[i..i + t.width], rest);
  }

  lemma ResumeIsSplit(command: string)
    ensures Resume(command, 0, Bare, [], "") == Split(command)
  {
    assert command[..0] == "" && command[0..] == command;
    var cuts := Cut("", command, Bare);
    CutFromIsCut(command, 0, Bare, "", command);
    AssembledFromNothing(cuts);
    ResumeFollowsCuts(command, 0, Bare, [], "", cuts, cuts.raws);
    assert Stripped([]) == [];
  }

  lemma AssembledAtEnd(done: seq<string>, buf: string)
    ensures Assembled(done, buf, Cuts([""], [])) == done + [buf]
  {
    assert buf + "" == buf;
  }

  lemma AssembledFromNothing(cuts: Cuts)
    requires cuts.raws != []
    ensures Assembled([], "", cuts) == cuts.raws
  {
    assert "" + cuts.raws[0] == cuts.raws[0];
    assert [] + [cuts.raws[0]] + cuts.raws[1..] == cuts.raws;
  }

  /** The cuts of what is left of a command at an index. */
  function CutFrom(command: string, i: nat, mode: Mode): (cuts: Cuts)
    requires i <= |command|
    ensures cuts.raws != []
    decreases |command| - i
  {
    if i == |command| then Cuts([""], [])
    else
      var t := TokenAt(command, i, mode);
      var rest := CutFrom(command, i + t.width, t.mode);
      if t.separates then Break(command[i..i + t.width], rest) else Glue(command[i..i + t.width], rest)
  }

  /** The token at an index, read off the neighbouring characters. */
  function TokenAt(command: string, i: nat, mode: Mode): (t: Token)
    requires i < |command|
    ensures 1 <= t.width && i + t.width <= |command|
  {
    var c, more := command[i], i + 1 < |command|;
    if c == '\\' then Token(if more then 2 else 1, false, mode)
    else if Toggle(mode, c).Some? then Token(1, false, Toggle(mode, c).value)
    else if mode.Bare? && (c == '&' || c == '|' || c == ';') then
      if c != ';' && more && command[i + 1] == c then Token(2, true, Bare)
      else if c == '&' && ((i > 0 && command[i - 1] == '>') || (more && command[i + 1] == '>')) then
        Token(1, false, Bare)
      else Token(1, true, Bare)
    else Token(1, false, mode)
  }

  lemma TokenAtIsFirst(command: string, i: nat, mode: Mode)
    requires i < |command|
    ensures TokenAt(command, i, mode) == FirstToken(Last(command[..i]), command[i..], mode)
  {
    assert Last(command[..i]) == ">" <==> i > 0 && command[i - 1] == '>';
    assert command[i..][0] == command[i];
    if i + 1 < |command| {
      assert command[i..][1] == command[i + 1];
    }
  }

  lemma CutKeeps(prev: string, s: string, mode: Mode, t: Token)
    requires s != "" && t == FirstToken(prev, s, mode) && !t.separates
    ensures Cut(prev, s, mode) == Glue(s[..t.width], Cut(Last(s[..t.width]), s[t.width..], t.mode))
  {
  }

  lemma CutBreaks(prev: string, s: string, mode: Mode, t: Token)
    requires s != "" && t == FirstToken(prev, s, mode) && t.separates
    ensures Cut(prev, s, mode) == Break(s[..t.width], Cut(Last(s[..t.width]), s[t.width..], t.mode)) && t.mode == Bare
  {
  }

  lemma Slices(command: string, i: nat, j: nat)
    requires i < j <= |command|
    ensures command[i..][j - i..] == command[j..]
    ensures command[i..][..j - i] == command[i..j]
    ensures Last(command[i..j]) == Last(command[..j])
  {
    LastOfSlice(command, i, j);
  }

  /** ... which are those of the text itself. */
  lemma {:induction false} CutFromIsCut(command: string, i: nat, mode: Mode, prev: string, s: string)
    requires i <= |command| && prev == Last(command[..i]) && s == command[i..]
    ensures CutFrom(command, i, mode) == Cut(prev, s, mode)
    decreases |command| - i
  {
    if i < |command| {
      var t := TokenAt(command, i, mode);
      var j := i + t.width;
      TokenAtIsFirst(command, i, mode);
      Slices(command, i, j);
      CutFromIsCut(command, j, t.mode, Last(command[i..j]), command[j..]);
      CutByToken(prev, s, mode, t, command[i..j], command[j..]);
    }
  }

  lemma CutByToken(prev: string, s: string, mode: Mode, t: Token, text: string, tail: string)
    requires s != "" && t == FirstToken(prev, s, mode) && text == s[..t.width] && tail == s[t.width..]
    ensures Cut(prev, s, mode)
         == if t.separates then Break(text, Cut(Last(text), tail, t.mode))
            else Glue(text, Cut(Last(text), tail, t.mode))
  {
  }

  lemma LastOfSlice(command: string, i: nat, j: nat)
    requires i < j <= |command|
    ensures Last(command[i..j]) == Last(command[..j])
  {
    assert command[i..j][j - i - 1] == command[j - 1];
  }

  lemma StrippedAppends(done: seq<string>, buf: string)
    ensures Stripped(done + [buf]) == Stripped(done) + [Strip(buf)]
  {
  }

  lemma GlueMoves(done: seq<string>, buf: string, text: string, rest: Cuts)
    requires rest.raws != []
    ensures Assembled(done, buf, Glue(text, rest)) == Assembled(done, buf + text, rest)
  {
    assert buf + (text + rest.raws[0]) == buf + text + rest.raws[0];
  }

  lemma BreakMoves(done: seq<string>, buf: string, sep: string, rest: Cuts)
    requires rest.raws != []
    ensures Assembled(done, buf, Break(sep, rest)) == Assembled(done + [buf], "", rest)
  {
    assert Break(sep, rest).raws[1..] == rest.raws;
    assert buf + "" == buf && "" + rest.raws[0] == rest.raws[0];
    assert rest.raws == [rest.raws[0]] + rest.raws[1..];
  }

  lemma {:induction false} NonEmptyOfStripped(raws: seq<string>)
    ensures NonEmpty(Stripped(raws)) == Clean(raws)
  {
    if raws != [] {
      var front := raws[..|raws| - 1];
      NonEmptyOfStripped(front);
      assert Stripped(raws)[..|raws| - 1] == Stripped(front);
    }
  }

  lemma CleanAppends(a: seq<string>, b: seq<string>)
    ensures Clean(a + b) == Clean(a) + Clean(b)
  {
    FlatMapAppends(Kept, a, b);
  }

  lemma CleanOfOne(only: string)
    ensures Clean([only]) == OrNothing(Strip(only))
  {
    FlatMapOfOne(Kept, only);
  }

  lemma FinishParts(done: seq<string>, buf: string)
    ensures NonEmpty(Stripped(done) + OrNothing(Strip(buf))) == Clean(done + [buf])
  {
    CleanAppends(done, [buf]);
    CleanOfOne(buf);
    NonEmptyOfStripped(done);
    FlatMapAppends(OrNothing, Stripped(done), OrNothing(Strip(buf)));
    NonEmptyOfOne(Strip(buf));
  }

  lemma NonEmptyOfOne(part: string)
    ensures NonEmpty(OrNothing(part)) == OrNothing(part)
  {
    if part != "" {
      FlatMapOfOne(OrNothing, part);
    }
  }

  // ----- nothing is lost -----

  function Interleave(cuts: Cuts): string
    requires |cuts.raws| == |cuts.seps| + 1
    decreases |cuts.seps|
  {
    if cuts.seps == [] then cuts.raws[0]
    else cuts.raws[0] + cuts.seps[0] + Interleave(Cuts(cuts.raws[1..], cuts.seps[1..]))
  }

  predicate IsSeparator(sep: string) {
    sep == "&&" || sep == "||" || sep == "&" || sep == "|" || sep == ";"
  }

  lemma InterleaveGlue(text: string, cuts: Cuts)
    requires |cuts.raws| == |cuts.seps| + 1
    ensures Interleave(Glue(text, cuts)) == text + Interleave(cuts)
  {
    var glued := Glue(text, cuts);
    assert glued.raws[1..] == cuts.raws[1..];
    if cuts.seps != [] {
      Reassociate(text, cuts.raws[0], cuts.seps[0], Interleave(Cuts(cuts.raws[1..], cuts.seps[1..])));
    }
  }

  lemma Reassociate(a: string, b: string, c: string, d: string)
    ensures a + b + c + d == a + (b + c + d)
  {
  }

  lemma InterleaveBreak(sep: string, cuts: Cuts)
    requires |cuts.raws| == |cuts.seps| + 1
    ensures Interleave(Break(sep, cuts)) == sep + Interleave(cuts)
  {
    var broken := Break(sep, cuts);
    assert broken.raws[1..] == cuts.raws && broken.seps[1..] == cuts.seps;
    assert "" + sep == sep;
  }

  /** The pieces and the removed separators put together again are the input, and the separators
      are exactly the five tokens. */
  lemma {:induction false} CutReassembles(prev: string, s: string, mode: Mode)
    ensures Interleave(Cut(prev, s, mode)) == s
    ensures forall sep :: sep in Cut(prev, s, mode).seps ==> IsSeparator(sep)
    decreases |s|
  {
    if s != "" {
      var t := FirstToken(prev, s, mode);
      var text, tail := s[..t.width], s[t.width..];
      var rest := Cut(Last(text), tail, t.mode);
      CutReassembles(Last(text), tail, t.mode);
      assert s == text + tail;
      if t.separates {
        CutBreaks(prev, s, mode, t);
        InterleaveBreak(text, rest);
        SeparatorTexts(prev, s, mode);
      } else {
        CutKeeps(prev, s, mode, t);
        InterleaveGlue(text, rest);
      }
    }
  }

  lemma SeparatorTexts(prev: string, s: string, mode: Mode)
    requires s != "" && FirstToken(prev, s, mode).separates
    ensures IsSeparator(s[..FirstToken(prev, s, mode).width])
  {
    var t := FirstToken(prev, s, mode);
    assert s[..t.width] == if t.width == 2 then [s[0], s[0]] else [s[0]];
  }

  // ----- quotes and escapes are respected -----

  /** Where a scan ends: the quoting mode, and whether a lone backslash dangles. */
  datatype End = End(mode: Mode, dangling: bool)

  /** The quoting automaton on its own, with no notion of separators. */
  function EndOf(s: string, mode: Mode): End {
    if s == "" then End(mode, false)
    else if s[0] == '\\' then if |s| == 1 then End(mode, true) else EndOf(s[2..], mode)
    else EndOf(s[1..], if Toggle(mode, s[0]).Some? then Toggle(mode, s[0]).value else mode)
  }

  const Closed := End(Bare, false)

  /** The automaton reads a token as the scan does. */
  lemma EndAfterToken(prev: string, s: string, mode: Mode)
    requires s != "" && s != "\\"
    ensures var t := FirstToken(prev, s, mode); EndOf(s, mode) == EndOf(s[t.width..], t.mode)
  {
    var t := FirstToken(prev, s, mode);
    if t.separates && t.width == 2 {
      assert s[1..][1..] == s[2..];
    }
  }

  /** Every piece before a separator, scanned on its own, ends outside quotes and escapes. */
  predicate PiecesClosed(raws: seq<string>, mode: Mode) {
    forall k {:trigger raws[k]} ::
      0 <= k < |raws| - 1 ==> if k == 0 then EndOf(raws[k], mode) == Closed else EndOf(raws[k], Bare) == Closed
  }

  /** No quoted or escaped separator splits: at every separator the text before it in its own
      piece has closed every quote and left no backslash dangling. */
  lemma {:induction false} PiecesAreClosed(prev: string, s: string, mode: Mode)
    ensures PiecesClosed(Cut(prev, s, mode).raws, mode)
    decreases |s|
  {
    if s != "" {
      var t := FirstToken(prev, s, mode);
      var raws := Cut(prev, s, mode).raws;
      var rest := Cut(Last(s[..t.width]), s[t.width..], t.mode).raws;
      PiecesAreClosed(Last(s[..t.width]), s[t.width..], t.mode);
      forall k | 0 <= k < |raws| - 1
        ensures if k == 0 then EndOf(raws[k], mode) == Closed else EndOf(raws[k], Bare) == Closed
      {
        if t.separates && k > 0 {
          assert raws[k] == rest[k - 1];
        } else if !t.separates && k == 0 {
          assert EndOf(rest[0], t.mode) == Closed;
          assert raws[0] == s[..t.width] + rest[0];
          TokenThenText(s, t, mode, rest[0]);
        } else if !t.separates {
          assert raws[k] == rest[k];
        }
      }
    }
  }

  lemma TokenThenText(s: string, t: Token, mode: Mode, text: string)
    requires s != "" && s != "\\" && !t.separates && exists prev :: t == FirstToken(prev, s, mode)
    ensures EndOf(s[..t.width] + text, mode) == EndOf(text, t.mode)
  {
    assert (s[..t.width] + text)[t.width..] == text;
  }

  // ----- pieces do not split again -----

  /** What came before matters only when it is an arrow. */
  lemma PrevMatters(prev: string, s: string, mode: Mode)
    requires prev != ">"
    ensures Cut(prev, s, mode) == Cut("", s, mode)
  {
    if s != "" {
      assert FirstToken(prev, s, mode) == FirstToken("", s, mode);
    }
  }

  /** A piece starts as the text it was cut from, and an arrow is never cut off. */
  lemma FirstOfPiece(prev: string, s: string, mode: Mode)
    ensures var r := Cut(prev, s, mode).raws[0]; r != "" ==> s != "" && r[0] == s[0]
    ensures s != "" && s[0] == '>' ==> Cut(prev, s, mode).raws[0] != ""
  {
  }

  /** A token that does not separate is read the same from the piece it is kept in. */
  lemma TokenOfPiece(prev: string, s: string, mode: Mode, t: Token, tail: string, rest: string, r: string)
    requires s != "" && t == FirstToken(prev, s, mode) && !t.separates && tail == s[t.width..]
    requires rest != "" ==> tail != "" && rest[0] == tail[0]
    requires tail != "" && tail[0] == '>' ==> rest != ""
    requires r == s[..t.width] + rest
    ensures r != "" && FirstToken(prev, r, mode) == t && r[..t.width] == s[..t.width] && r[t.width..] == rest
  {
    assert r[0] == s[0];
    if t.width == 1 && rest != "" {
      assert r[1] == rest[0] && s[1] == tail[0];
    }
  }

  lemma {:induction false} FirstPieceIsWhole(prev: string, s: string, mode: Mode)
    ensures Cut(prev, Cut(prev, s, mode).raws[0], mode).seps == []
    decreases |s|
  {
    if s != "" {
      var t := FirstToken(prev, s, mode);
      var before, tail := Last(s[..t.width]), s[t.width..];
      if t.separates {
        CutBreaks(prev, s, mode, t);
      } else {
        FirstPieceIsWhole(before, tail, t.mode);
        FirstOfPiece(before, tail, t.mode);
        var rest := Cut(before, tail, t.mode).raws[0];
        var r := s[..t.width] + rest;
        TokenOfPiece(prev, s, mode, t, tail, rest, r);
        CutKeeps(prev, s, mode, t);
        CutKeeps(prev, r, mode, t);
      }
    }
  }

  lemma LaterPieces(text: string, rest: Cuts, k: nat)
    requires rest.raws != [] && 0 < k
    ensures k < |rest.raws| ==> Glue(text, rest).raws[k] == rest.raws[k]
    ensures k <= |rest.raws| ==> Break(text, rest).raws[k] == rest.raws[k - 1]
  {
  }

  /** The piece after a separator, which is never an arrow. */
  lemma NextPieceIsWhole(before: string, tail: string, piece: string)
    requires before != ">" && piece == Cut(before, tail, Bare).raws[0]
    ensures Cut("", piece, Bare).seps == []
  {
    FirstPieceIsWhole(before, tail, Bare);
    PrevMatters(before, piece, Bare);
  }

  lemma CutFirst(prev: string, s: string, mode: Mode)
    returns (separates: bool, text: string, tail: string, next: Mode, rest: Cuts)
    requires s != ""
    ensures |tail| < |s| && rest == Cut(Last(text), tail, next)
    ensures Cut(prev, s, mode) == if separates then Break(text, rest) else Glue(text, rest)
    ensures separates ==> next == Bare && Last(text) != ">"
  {
    var t := FirstToken(prev, s, mode);
    separates, text, tail, next := t.separates, s[..t.width], s[t.width..], t.mode;
    rest := Cut(Last(text), tail, next);
    CutByToken(prev, s, mode, t, text, tail);
  }

  lemma {:induction false} EveryPieceIsWhole(prev: string, s: string, mode: Mode, raws: seq<string>, k: nat)
    requires raws == Cut(prev, s, mode).raws && 0 < k < |raws|
    ensures Cut("", raws[k], Bare).seps == []
    decreases |s|
  {
    var separates, text, tail, next, rest := CutFirst(prev, s, mode);
    LaterPieces(text, rest, k);
    if !separates {
      EveryPieceIsWhole(Last(text), tail, next, rest.raws, k);
    } else if k == 1 {
      NextPieceIsWhole(Last(text), tail, rest.raws[0]);
    } else {
      EveryPieceIsWhole(Last(text), tail, Bare, rest.raws, k - 1);
    }
  }

  /** What comes after a closed-off token does not change how it reads, unless it could be part of
      a separator or an arrow. */
  lemma TokenBefore(prev: string, a: string, tail: string, mode: Mode)
    requires a != "" && a != "\\" && tail != "" && tail[0] != '&' && tail[0] != '|' && tail[0] != '>'
    ensures var t := FirstToken(prev, a, mode);
      && FirstToken(prev, a + tail, mode) == t
      && (a + tail)[..t.width] == a[..t.width] && (a + tail)[t.width..] == a[t.width..] + tail
  {
    var s := a + tail;
    assert s[0] == a[0];
    if |a| > 1 {
      assert s[1] == a[1];
    } else {
      assert s[1] == tail[0];
    }
  }

  lemma CutOfLonger(prev: string, a: string, s: string, rest: string, mode: Mode, t: Token)
    requires a != "" && s != "" && t == FirstToken(prev, a, mode) == FirstToken(prev, s, mode)
    requires s[..t.width] == a[..t.width] && s[t.width..] == rest
    ensures t.separates ==>
      && Cut(prev, s, mode) == Break(a[..t.width], Cut(Last(a[..t.width]), rest, t.mode))
      && Cut(prev, a, mode) == Break(a[..t.width], Cut(Last(a[..t.width]), a[t.width..], t.mode))
    ensures !t.separates ==>
      && Cut(prev, s, mode) == Glue(a[..t.width], Cut(Last(a[..t.width]), rest, t.mode))
      && Cut(prev, a, mode) == Glue(a[..t.width], Cut(Last(a[..t.width]), a[t.width..], t.mode))
  {
  }

  lemma DropLeadingSpace(s: string)
    requires s != "" && Space(s[0]) && Cut("", s, Bare).seps == []
    ensures Cut("", s[1..], Bare).seps == []
  {
    SpaceToken("", s);
    CutKeeps("", s, Bare, Token(1, false, Bare));
    assert s[..1] == [s[0]];
    PrevMatters([s[0]], s[1..], Bare);
  }

  lemma SpaceToken(prev: string, s: string)
    requires s != "" && Space(s[0])
    ensures FirstToken(prev, s, Bare) == Token(1, false, Bare) && s[0] != '>'
  {
  }

  lemma {:induction false} DropTrailingSpace(prev: string, s: string, w: char, mode: Mode)
    requires Space(w) && Cut(prev, s + [w], mode).seps == []
    ensures Cut(prev, s, mode).seps == []
    decreases |s|
  {
    if s != "" && s != "\\" {
      var t := FirstToken(prev, s, mode);
      TokenBefore(prev, s, [w], mode);
      CutOfLonger(prev, s, s + [w], s[t.width..] + [w], mode, t);
      DropTrailingSpace(Last(s[..t.width]), s[t.width..], w, t.mode);
    } else if s == "\\" {
      assert s[1..] == "";
    }
  }

  lemma {:induction false} StripLeftKeepsWhole(s: string)
    requires Cut("", s, Bare).seps == []
    ensures Cut("", StripLeft(s), Bare).seps == []
  {
    if s != "" && Space(s[0]) {
      DropLeadingSpace(s);
      StripLeftKeepsWhole(s[1..]);
    }
  }

  lemma {:induction false} StripRightKeepsWhole(s: string)
    requires Cut("", s, Bare).seps == []
    ensures Cut("", StripRight(s), Bare).seps == []
  {
    if s != "" && Space(s[|s| - 1]) {
      assert s == s[..|s| - 1] + [s[|s| - 1]];
      DropTrailingSpace("", s[..|s| - 1], s[|s| - 1], Bare);
      StripRightKeepsWhole(s[..|s| - 1]);
    }
  }

  lemma {:induction false} StripLeftEdge(s: string)
    ensures StripLeft(s) != "" ==> !Space(StripLeft(s)[0])
  {
    if s != "" && Space(s[0]) {
      StripLeftEdge(s[1..]);
    }
  }

  lemma {:induction false} StripRightEdge(s: string)
    ensures StripRight(s) != "" ==> !Space(StripRight(s)[|StripRight(s)| - 1]) && StripRight(s)[0] == s[0]
    ensures |StripRight(s)| <= |s|
  {
    if s != "" && Space(s[|s| - 1]) {
      StripRightEdge(s[..|s| - 1]);
    }
  }

  lemma StripIsIdempotent(s: string)
    ensures Strip(Strip(s)) == Strip(s)
  {
    StripLeftEdge(s);
    StripRightEdge(StripLeft(s));
  }

  lemma {:induction false} CleanMembers(raws: seq<string>, segment: string)
    requires segment in Clean(raws)
    ensures segment != "" && exists k :: 0 <= k < |raws| && segment == Strip(raws[k])
  {
    var front, last := raws[..|raws| - 1], raws[|raws| - 1];
    assert Clean(raws) == Clean(front) + OrNothing(Strip(last));
    if segment in Clean(front) {
      CleanMembers(front, segment);
      var k :| 0 <= k < |front| && segment == Strip(front[k]);
      assert raws[k] == front[k];
    } else {
      assert segment == Strip(last);
    }
  }

  /** Splitting any segment again gives that segment alone. */
  lemma ResplittingIsStable(s: string, segment: string)
    requires segment in Split(s)
    ensures Split(segment) == [segment]
  {
    var raws := Cut("", s, Bare).raws;
    CleanMembers(raws, segment);
    var k :| 0 <= k < |raws| && segment == Strip(raws[k]);
    if k == 0 {
      FirstPieceIsWhole("", s, Bare);
    } else {
      EveryPieceIsWhole("", s, Bare, raws, k);
    }
    StripLeftKeepsWhole(raws[k]);
    StripRightKeepsWhole(StripLeft(raws[k]));
    CutReassembles("", segment, Bare);
    StripIsIdempotent(raws[k]);
    assert Cut("", segment, Bare).raws == [segment];
    CleanOfOne(segment);
  }

  // ----- joining two commands -----

  function Joined(a: Cuts, sep: string, b: Cuts): Cuts {
    Cuts(a.raws + b.raws, a.seps + [sep] + b.seps)
  }

  lemma CutAtSemicolon(prev: string, b: string)
    ensures Cut(prev, ";" + b, Bare) == Break(";", Cut(";", b, Bare))
  {
    var s := ";" + b;
    assert s[1..] == b && s[..1] == ";";
    CutBreaks(prev, s, Bare, Token(1, true, Bare));
  }

  /** The first token, read the same with or without what follows. */
  lemma ReadFirst(prev: string, a: string, mode: Mode, tail: string)
    returns (separates: bool, text: string, rest: string, next: Mode, front: Cuts, longer: Cuts)
    requires a != "" && a != "\\" && tail != "" && tail[0] != '&' && tail[0] != '|' && tail[0] != '>'
    ensures |rest| < |a| && EndOf(a, mode) == EndOf(rest, next)
    ensures front == Cut(Last(text), rest, next) && longer == Cut(Last(text), rest + tail, next)
    ensures Cut(prev, a, mode) == if separates then Break(text, front) else Glue(text, front)
    ensures Cut(prev, a + tail, mode) == if separates then Break(text, longer) else Glue(text, longer)
  {
    var t := FirstToken(prev, a, mode);
    separates, text, rest, next := t.separates, a[..t.width], a[t.width..], t.mode;
    front, longer := Cut(Last(text), rest, next), Cut(Last(text), rest + tail, next);
    TokenBefore(prev, a, tail, mode);
    EndAfterToken(prev, a, mode);
    CutOfLonger(prev, a, a + tail, rest + tail, mode, t);
  }

  lemma {:induction false} CutOfJoin(prev: string, a: string, mode: Mode, tail: string, after: Cuts)
    requires EndOf(a, mode) == Closed && tail != "" && tail[0] == ';'
    requires forall p :: Cut(p, tail, Bare) == Break(";", after)
    ensures Cut(prev, a + tail, mode) == Joined(Cut(prev, a, mode), ";", after)
    decreases |a|
  {
    if a == "" {
      assert a + tail == tail;
    } else {
      var separates, text, rest, next, front, longer := ReadFirst(prev, a, mode, tail);
      CutOfJoin(Last(text), rest, next, tail, after);
      JoinedByToken(separates, text, Cut(prev, a, mode), Cut(prev, a + tail, mode), front, longer, after);
    }
  }

  lemma JoinedByToken(separates: bool, text: string, left: Cuts, whole: Cuts, leftRest: Cuts, wholeRest: Cuts,
                      after: Cuts)
    requires leftRest.raws != [] && wholeRest.raws != [] && wholeRest == Joined(leftRest, ";", after)
    requires left == if separates then Break(text, leftRest) else Glue(text, leftRest)
    requires whole == if separates then Break(text, wholeRest) else Glue(text, wholeRest)
    ensures whole == Joined(left, ";", after)
  {
    JoinedMoves(text, leftRest, ";", after);
  }

  lemma JoinedMoves(text: string, a: Cuts, sep: string, b: Cuts)
    requires a.raws != []
    ensures Glue(text, Joined(a, sep, b)) == Joined(Glue(text, a), sep, b)
    ensures Break(text, Joined(a, sep, b)) == Joined(Break(text, a), sep, b)
  {
  }

  predicate EndsInTail(raws: seq<string>) {
    raws != [] && var last := raws[|raws| - 1]; |last| >= 2 && last[|last| - 2..] == ";x"
  }

  lemma {:induction false} OpenEndSwallows(prev: string, a: string, mode: Mode)
    requires EndOf(a, mode) != Closed
    ensures EndsInTail(Cut(prev, a + ";x", mode).raws)
    decreases |a|
  {
    var s := a + ";x";
    if a == "" {
      TailIsSwallowed(prev, mode);
      assert s == ";x";
    } else if a == "\\" {
      assert s[..2] == "\\;" && s[2..] == "x";
      assert FirstToken(prev, s, mode) == Token(2, false, mode);
      OneCharacter(mode, ";");
      assert Cut(prev, s, mode) == Glue("\\;", Cut(";", "x", mode));
      assert "\\;" + "x" == "\\;x";
    } else {
      var _, text, rest, next, _, longer := ReadFirst(prev, a, mode, ";x");
      OpenEndSwallows(Last(text), rest, next);
      TailStaysLast(text, longer);
    }
  }

  lemma TailStaysLast(text: string, cuts: Cuts)
    requires EndsInTail(cuts.raws)
    ensures EndsInTail(Glue(text, cuts).raws) && EndsInTail(Break(text, cuts).raws)
  {
    var glued, last := Glue(text, cuts).raws, cuts.raws[|cuts.raws| - 1];
    if |cuts.raws| == 1 {
      assert glued[0] == text + last;
      assert (text + last)[|text + last| - 2..] == last[|last| - 2..];
    } else {
      assert glued[|glued| - 1] == last;
    }
    assert Break(text, cuts).raws[|cuts.raws|] == last;
  }

  lemma OneCharacter(mode: Mode, prev: string)
    ensures Cut(prev, "x", mode) == Cuts(["x"], [])
  {
    var s := "x";
    assert s[1..] == "" && s[..1] == "x";
    assert FirstToken(prev, s, mode) == Token(1, false, mode);
    assert Cut("x", "", mode) == Cuts([""], []);
    assert "x" + "" == "x";
  }

  lemma TailIsSwallowed(prev: string, mode: Mode)
    requires mode != Bare
    ensures Cut(prev, ";x", mode) == Cuts([";x"], [])
  {
    var s := ";x";
    assert s[1..] == "x" && s[..1] == ";";
    OneCharacter(mode, ";");
    assert FirstToken(prev, s, mode) == Token(1, false, mode);
    assert Cut(prev, s, mode) == Glue(";", Cut(";", "x", mode));
    assert ";" + "x" == ";x";
  }

  lemma ClosedJoins(a: string, b: string)
    requires EndOf(a, Bare) == Closed
    ensures Split(a + ";" + b) == Split(a) + Split(b)
  {
    assert a + ";" + b == a + (";" + b);
    forall p ensures Cut(p, ";" + b, Bare) == Break(";", Cut(";", b, Bare)) {
      CutAtSemicolon(p, b);
    }
    CutOfJoin("", a, Bare, ";" + b, Cut(";", b, Bare));
    PrevMatters(";", b, Bare);
    CleanAppends(Cut("", a, Bare).raws, Cut("", b, Bare).raws);
  }

  /** An open command swallows the semicolon and what follows. */
  lemma OpenDoesNotJoin(a: string)
    requires EndOf(a, Bare) != Closed
    ensures Split(a + ";" + "x") != Split(a) + Split("x")
  {
    var raws := Cut("", a + ";x", Bare).raws;
    OpenEndSwallows("", a, Bare);
    TailSurvivesStrip(raws[|raws| - 1]);
    LastOfClean(raws);
    OneCharacter(Bare, "");
    CleanOfOne("x");
    assert Split("x") == ["x"];
    assert a + ";" + "x" == a + ";x";
    LastsDiffer(Clean(raws), Split(a), "x");
  }

  lemma LastsDiffer(whole: seq<string>, front: seq<string>, last: string)
    requires whole != [] && whole[|whole| - 1] != last
    ensures whole != front + [last]
  {
  }

  /** Putting a semicolon between two commands splits them as two commands, whatever the second
      is, exactly when the first closes its quotes and does not end in a lone backslash. */
  lemma SemicolonJoins(a: string)
    ensures (forall b :: Split(a + ";" + b) == Split(a) + Split(b)) <==> EndOf(a, Bare) == Closed
  {
    if EndOf(a, Bare) == Closed {
      forall b ensures Split(a + ";" + b) == Split(a) + Split(b) {
        ClosedJoins(a, b);
      }
    } else {
      OpenDoesNotJoin(a);
    }
  }

  lemma {:induction false} TailSurvivesStrip(s: string)
    requires |s| >= 2 && s[|s| - 2..] == ";x"
    ensures |Strip(s)| >= 2
  {
    assert s[|s| - 1] == s[|s| - 2..][1] && s[|s| - 2] == s[|s| - 2..][0];
    if Space(s[0]) {
      assert s[1..][|s[1..]| - 2..] == s[|s| - 2..];
      TailSurvivesStrip(s[1..]);
    }
  }

  lemma {:induction false} LastOfClean(raws: seq<string>)
    requires raws != [] && Strip(raws[|raws| - 1]) != ""
    ensures Clean(raws) != [] && Clean(raws)[|Clean(raws)| - 1] == Strip(raws[|raws| - 1])
  {
    CleanAppends(raws[..|raws| - 1], [raws[|raws| - 1]]);
    assert raws == raws[..|raws| - 1] + [raws[|raws| - 1]];
    CleanOfOne(raws[|raws| - 1]);
  }

  // ----- several lines -----

  predicate IsNewline(c: char) {
    c == '\n' || c == '\r'
  }

  predicate OneLine(s: string) {
    forall c :: c in s ==> !IsNewline(c)
  }

  function SkipNewlines(s: string): (r: string)
    ensures |r| <= |s|
  {
    if s != "" && IsNewline(s[0]) then SkipNewlines(s[1..]) else s
  }

  /** The lines of a command, cut at runs of newline characters. */
  function Lines(s: string): (lines: seq<string>)
    ensures lines != []
    decreases |s|
  {
    if s == "" then [""]
    else if IsNewline(s[0]) then [""] + Lines(SkipNewlines(s[1..]))
    else Prepend(s[..1], Lines(s[1..]))
  }

  function Prepend(text: string, lines: seq<string>): (r: seq<string>)
    requires lines != []
    ensures |r| == |lines|
  {
    [text + lines[0]] + lines[1..]
  }

  /** Blank lines and comment lines give nothing. */
  function LineSegments(line: string): seq<string> {
    var stripped := Strip(line);
    if stripped == "" || stripped[0] == '#' then [] else Split(stripped)
  }

  function AllSegments(lines: seq<string>): seq<string> {
    FlatMap(LineSegments, lines)
  }

  function Chain(command: string): seq<string> {
    if OneLine(command) then Split(command) else AllSegments(Lines(command))
  }

  method SplitCommandChain(command: string) returns (parts: seq<string>)
    ensures parts == Chain(command)
  {
    if OneLine(command) {
      parts := SplitSingleLine(command);
      return;
    }
    parts := [];
    var lines := Lines(command);
    for i := 0 to |lines|
      invariant parts == AllSegments(lines[..i])
    {
      assert lines[..i + 1][..i] == lines[..i];
      var line := Strip(lines[i]);
      if line == "" || line[0] == '#' {
        continue;
      }
      var segments := SplitSingleLine(line);
      parts := parts + segments;
    }
    assert lines[..|lines|] == lines;
  }

  predicate EndsInNewline(s: string) {
    s != "" && IsNewline(s[|s| - 1])
  }

  /** The lines of a command without the empty line a final newline leaves. */
  function ProperLines(s: string): seq<string> {
    if EndsInNewline(s) then Lines(s)[..|Lines(s)| - 1] else Lines(s)
  }

  lemma {:induction false} SkipAcross(s: string, t: string)
    ensures SkipNewlines(s + t) == if SkipNewlines(s) == "" then SkipNewlines(t) else SkipNewlines(s) + t
    ensures SkipNewlines(s) != "" ==> EndsInNewline(SkipNewlines(s)) == EndsInNewline(s)
  {
    if s == "" {
      assert s + t == t;
    } else if IsNewline(s[0]) {
      SkipAcross(s[1..], t);
      assert (s + t)[1..] == s[1..] + t;
    }
  }

  lemma {:induction false} LastLine(s: string)
    ensures EndsInNewline(s) ==> |Lines(s)| > 1 && Lines(s)[|Lines(s)| - 1] == ""
    ensures SkipNewlines(s) == "" ==> s == "" || EndsInNewline(s)
    decreases |s|
  {
    if s != "" {
      if IsNewline(s[0]) {
        LastLine(SkipNewlines(s[1..]));
        SkipAcross(s[1..], "");
        LastLine(s[1..]);
      } else {
        LastLine(s[1..]);
      }
    }
  }

  lemma NewlineFirst(n: char, b: string)
    requires n == '\n' || n == '\r'
    ensures Lines([n] + b) == [""] + Lines(SkipNewlines(b))
    ensures SkipNewlines([n] + b) == SkipNewlines(b)
  {
    var s := [n] + b;
    assert s[0] == n && s[1..] == b;
  }

  lemma {:induction false} LinesOfBoth(a: string, n: char, b: string)
    requires n == '\n' || n == '\r'
    ensures Lines(a + ([n] + b)) == ProperLines(a) + Lines(SkipNewlines(b))
    decreases |a|
  {
    var tail := [n] + b;
    LastLine(a);
    NewlineFirst(n, b);
    if a == "" {
      assert a + tail == tail;
    } else if IsNewline(a[0]) {
      NewlineThenLines(a, n, b, tail);
      if SkipNewlines(a[1..]) != "" {
        LinesOfBoth(SkipNewlines(a[1..]), n, b);
      }
    } else {
      LinesOfBoth(a[1..], n, b);
      CharThenLines(a, tail, Lines(SkipNewlines(b)));
    }
  }

  lemma CharThenLines(a: string, tail: string, after: seq<string>)
    requires a != "" && !IsNewline(a[0])
    requires Lines(a[1..] + tail) == ProperLines(a[1..]) + after
    ensures Lines(a + tail) == ProperLines(a) + after
  {
    var s := a + tail;
    assert s[0] == a[0] && s[1..] == a[1..] + tail && s[..1] == a[..1];
    ProperLinesPrepend(a);
    PrependToFirst(a[..1], ProperLines(a[1..]), after);
  }

  lemma ProperLinesPrepend(a: string)
    requires a != "" && !IsNewline(a[0])
    ensures ProperLines(a[1..]) != [] && ProperLines(a) == Prepend(a[..1], ProperLines(a[1..]))
  {
    LastLine(a[1..]);
    var inner := Lines(a[1..]);
    assert Lines(a) == Prepend(a[..1], inner);
    if |a| > 1 {
      assert a[1..][|a[1..]| - 1] == a[|a| - 1];
    }
    if EndsInNewline(a[1..]) {
      PrependToFront(a[..1], inner);
    }
  }

  lemma PrependToFront(text: string, lines: seq<string>)
    requires |lines| > 1
    ensures Prepend(text, lines)[..|lines| - 1] == Prepend(text, lines[..|lines| - 1])
  {
  }

  lemma PrependToFirst(text: string, lines: seq<string>, after: seq<string>)
    requires lines != []
    ensures Prepend(text, lines + after) == Prepend(text, lines) + after
  {
    assert (lines + after)[1..] == lines[1..] + after;
  }

  lemma NewlineThenLines(a: string, n: char, b: string, tail: string)
    requires a != "" && IsNewline(a[0]) && (n == '\n' || n == '\r') && tail == [n] + b
    ensures var rest := SkipNewlines(a[1..]);
      if rest == "" then Lines(a + tail) == ProperLines(a) + Lines(SkipNewlines(b))
      else Lines(a + tail) == [""] + Lines(rest + tail) && ProperLines(a) == [""] + ProperLines(rest)
  {
    var s, rest := a + tail, SkipNewlines(a[1..]);
    assert s[0] == a[0] && s[1..] == a[1..] + tail;
    SkipAcross(a[1..], tail);
    SkipAcross(a[1..], "");
    NewlineFirst(n, b);
    LastLine(a[1..]);
    assert Lines(a) == [""] + Lines(rest);
    if rest == "" {
      assert Lines(a) == [""] + [""];
      assert EndsInNewline(a);
      assert ProperLines(a) == [""];
    } else {
      LastLine(rest);
    }
  }

  lemma BlankLineGivesNothing()
    ensures FlatMap(LineSegments, [""]) == []
  {
    assert LineSegments("") == [];
    assert FlatMap(LineSegments, [""]) == FlatMap(LineSegments, []) + LineSegments("");
  }

  lemma {:induction false} LeadingNewlinesGiveNothing(s: string)
    ensures AllSegments(Lines(SkipNewlines(s))) == AllSegments(Lines(s))
  {
    if s != "" && IsNewline(s[0]) {
      BlankLineGivesNothing();
      FlatMapAppends(LineSegments, [""], Lines(SkipNewlines(s[1..])));
    }
  }

  lemma ProperLinesGiveAll(a: string)
    ensures AllSegments(ProperLines(a)) == AllSegments(Lines(a))
  {
    LastLine(a);
    if EndsInNewline(a) {
      EmptyLastLine(Lines(a));
    }
  }

  lemma EmptyLastLine(lines: seq<string>)
    requires lines != [] && lines[|lines| - 1] == ""
    ensures AllSegments(lines[..|lines| - 1]) == AllSegments(lines)
  {
    assert lines == lines[..|lines| - 1] + [""];
    FlatMapAppends(LineSegments, lines[..|lines| - 1], [""]);
    BlankLineGivesNothing();
  }

  /** No line hides another: a command cut anywhere at a newline gives the segments of its first
      part followed by those of its second. */
  lemma LinesAreIndependent(a: string, n: char, b: string)
    requires n == '\n' || n == '\r'
    ensures Chain(a + ([n] + b)) == AllSegments(Lines(a)) + AllSegments(Lines(b))
  {
    var s := a + ([n] + b);
    assert s[|a|] == n && s[|a|] in s;
    LinesOfBoth(a, n, b);
    FlatMapAppends(LineSegments, ProperLines(a), Lines(SkipNewlines(b)));
    LeadingNewlinesGiveNothing(b);
    ProperLinesGiveAll(a);
  }

  // ----- what a one-line command gives -----

  function WithLast(raws: seq<string>, more: string): seq<string>
    requires raws != []
  {
    raws[..|raws| - 1] + [raws[|raws| - 1] + more]
  }

  lemma GlueWithLast(text: string, cuts: Cuts, longer: Cuts, more: string)
    requires cuts.raws != [] && longer.raws == WithLast(cuts.raws, more)
    ensures Glue(text, longer).raws == WithLast(Glue(text, cuts).raws, more)
    ensures Break(text, longer).raws == WithLast(Break(text, cuts).raws, more)
  {
    var glued, last := Glue(text, cuts).raws, cuts.raws[|cuts.raws| - 1];
    if |cuts.raws| == 1 {
      assert text + (last + more) == text + last + more;
    }
    assert Break(text, cuts).raws[..|cuts.raws|] == [""] + cuts.raws[..|cuts.raws| - 1];
  }

  lemma SpaceAlone(prev: string, w: char, mode: Mode)
    requires Space(w)
    ensures Cut(prev, [w], mode).raws == [[w]]
  {
    var s := [w];
    assert s[1..] == "" && s[..1] == s;
    CutKeeps(prev, s, mode, Token(1, false, mode));
    assert Cut(s, "", mode) == Cuts([""], []);
    assert s + "" == s;
  }

  lemma EscapedSpace(prev: string, w: char, mode: Mode)
    ensures Cut(prev, "\\", mode).raws == ["\\"] && Cut(prev, "\\" + [w], mode).raws == ["\\" + [w]]
  {
    var s, x := "\\", "\\" + [w];
    assert s[1..] == "" && s[..1] == s && x[2..] == "" && x[..2] == x;
    CutKeeps(prev, s, mode, Token(1, false, mode));
    CutKeeps(prev, x, mode, Token(2, false, mode));
    assert s + "" == s && x + "" == x;
  }

  /** A trailing space only lengthens the last piece. */
  lemma {:induction false} TrailingSpace(prev: string, s: string, w: char, mode: Mode)
    requires Space(w)
    ensures Cut(prev, s + [w], mode).raws == WithLast(Cut(prev, s, mode).raws, [w])
    decreases |s|
  {
    if s == "" {
      assert s + [w] == [w];
      SpaceAlone(prev, w, mode);
      assert "" + [w] == [w];
    } else if s == "\\" {
      EscapedSpace(prev, w, mode);
    } else {
      var _, text, rest, next, front, longer := ReadFirst(prev, s, mode, [w]);
      TrailingSpace(Last(text), rest, w, next);
      GlueWithLast(text, front, longer, [w]);
    }
  }

  lemma {:induction false} StripLeftBefore(s: string, w: char)
    requires Space(w)
    ensures StripLeft(s + [w]) == if StripLeft(s) == "" then "" else StripLeft(s) + [w]
  {
    if s == "" {
      assert s + [w] == [w] && [w][1..] == "";
      assert StripLeft([w]) == StripLeft("");
    } else {
      assert (s + [w])[1..] == s[1..] + [w];
      StripLeftBefore(s[1..], w);
    }
  }

  lemma StripDropsLast(s: string, w: char)
    requires Space(w)
    ensures Strip(s + [w]) == Strip(s)
  {
    StripLeftBefore(s, w);
    var l := StripLeft(s);
    assert (l + [w])[..|l|] == l;
  }

  lemma CleanDropsLast(raws: seq<string>, w: char)
    requires raws != [] && Space(w)
    ensures Clean(WithLast(raws, [w])) == Clean(raws)
  {
    var front, last := raws[..|raws| - 1], raws[|raws| - 1];
    CleanAppends(front, [last + [w]]);
    CleanAppends(front, [last]);
    CleanOfOne(last + [w]);
    CleanOfOne(last);
    StripDropsLast(last, w);
    assert raws == front + [last];
  }

  lemma SplitDropsOne(front: string, w: char)
    requires Space(w)
    ensures Split(front + [w]) == Split(front)
  {
    TrailingSpace("", front, w, Bare);
    CleanDropsLast(Cut("", front, Bare).raws, w);
  }

  lemma {:induction false} SplitDropsTrailing(s: string)
    ensures Split(StripRight(s)) == Split(s)
  {
    if s != "" && Space(s[|s| - 1]) {
      var front, w := s[..|s| - 1], s[|s| - 1];
      assert s == front + [w];
      SplitDropsOne(front, w);
      SplitDropsTrailing(front);
    }
  }

  lemma CleanDropsFirst(w: char, cuts: Cuts)
    requires cuts.raws != [] && Space(w)
    ensures Clean(Glue([w], cuts).raws) == Clean(cuts.raws)
  {
    var first, rest := cuts.raws[0], cuts.raws[1..];
    CleanAppends([[w] + first], rest);
    CleanAppends([first], rest);
    CleanOfOne([w] + first);
    CleanOfOne(first);
    assert ([w] + first)[1..] == first;
    assert cuts.raws == [first] + rest;
  }

  lemma {:induction false} SplitDropsLeading(s: string)
    ensures Split(StripLeft(s)) == Split(s)
  {
    if s != "" && Space(s[0]) {
      SpaceToken("", s);
      CutKeeps("", s, Bare, Token(1, false, Bare));
      assert s[..1] == [s[0]];
      PrevMatters([s[0]], s[1..], Bare);
      CleanDropsFirst(s[0], Cut("", s[1..], Bare));
      SplitDropsLeading(s[1..]);
    }
  }

  /** A command that is one comment line. */
  predicate IsComment(a: string) {
    '\n' !in a && '\r' !in a && Strip(a) != "" && Strip(a)[0] == '#'
  }

  /** A command on one line is split as it stands. */
  lemma OneLineIsSplit(a: string)
    requires '\n' !in a && '\r' !in a
    ensures Chain(a) == Split(a)
  {
  }

  lemma {:induction false} OneLineIsALine(a: string)
    requires OneLine(a)
    ensures Lines(a) == [a]
  {
    if a != "" {
      assert a[0] in a;
      OneLineIsALine(a[1..]);
      assert a == a[..1] + a[1..];
    }
  }

  lemma EmptyGivesNothing()
    ensures Split("") == []
  {
    CleanOfOne("");
    assert Cut("", "", Bare) == Cuts([""], []);
  }

  /** The lines of a command give what the command does, except that a comment alone is split. */
  lemma LinesGiveChain(a: string)
    ensures AllSegments(Lines(a)) == if IsComment(a) then [] else Chain(a)
  {
    if OneLine(a) {
      OneLineIsALine(a);
      FlatMapOfOne(LineSegments, a);
      SplitDropsLeading(a);
      SplitDropsTrailing(StripLeft(a));
      EmptyGivesNothing();
    }
  }

  lemma CommentGivesSomething(a: string)
    requires IsComment(a)
    ensures Chain(a) != []
  {
    var x := Strip(a);
    SplitDropsLeading(a);
    SplitDropsTrailing(StripLeft(a));
    CutKeeps("", x, Bare, Token(1, false, Bare));
    var raws := Cut("", x, Bare).raws;
    assert raws[0][0] == '#';
    StripRightEdge(raws[0]);
    StaysAfterStrip(raws[0]);
    CleanAppends([raws[0]], raws[1..]);
    CleanOfOne(raws[0]);
    assert raws == [raws[0]] + raws[1..];
  }

  lemma {:induction false} StaysAfterStrip(s: string)
    requires s != "" && !Space(s[0])
    ensures StripLeft(s) == s && StripRight(s) != ""
  {
    if Space(s[|s| - 1]) {
      StaysAfterStrip(s[..|s| - 1]);
    }
  }

  /** Two commands on two lines split as the two commands exactly when neither is a comment alone:
      a comment is dropped as a line but split as a command. */
  lemma NewlineJoins(a: string, n: char, b: string)
    requires n == '\n' || n == '\r'
    ensures Chain(a + ([n] + b)) == Chain(a) + Chain(b) <==> !IsComment(a) && !IsComment(b)
  {
    LinesAreIndependent(a, n, b);
    LinesGiveChain(a);
    LinesGiveChain(b);
    if IsComment(a) {
      CommentGivesSomething(a);
    }
    if IsComment(b) {
      CommentGivesSomething(b);
    }
  }
}
