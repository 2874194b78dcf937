/**
 What separates commands, law by law: every operator on its own, redirect arrows, quotes and
 escapes, and how pieces of text fuse.  Together with plain text these laws determine every split.
 */
module CommandLaws {
  import opened Wrappers
  import opened Texts
  import opened CommandChain

  // ----- text that separates nothing -----

  predicate Plain(s: string) {
    forall c :: c in s ==> c !in {'\\', '\'', '"', '`', '&', '|', ';'}
  }

  const OneCut := Cuts([""], [])

  lemma KeepFirst(prev: string, s: string, mode: Mode, width: nat, next: Mode, rest: string)
    requires s != "" && FirstToken(prev, s, mode) == Token(width, false, next) && width <= |s|
    requires Cut(Last(s[..width]), s[width..], next) == Cuts([rest], []) && s == s[..width] + rest
    ensures Cut(prev, s, mode) == Cuts([s], [])
  {
    CutKeeps(prev, s, mode, Token(width, false, next));
  }

  /** Text without quotes, backslashes and operators is one piece. */
  lemma {:induction false} PlainIsWhole(prev: string, s: string)
    requires Plain(s)
    ensures Cut(prev, s, Bare) == Cuts([s], [])
    ensures EndOf(s, Bare) == Closed && Held(s, Bare) == None
    decreases |s|
  {
    if s != "" {
      assert s[0] in s && forall c :: c in s[1..] ==> c in s;
      PlainIsWhole(Last(s[..1]), s[1..]);
      KeepFirst(prev, s, Bare, 1, Bare, s[1..]);
    }
  }

  /** The mode inside a quote. */
  function Inside(q: char): Mode
    requires q in {'\'', '"', '`'}
  {
    if q == '\'' then InSingle else if q == '"' then InDouble else InBacktick
  }

  lemma {:induction false} RestOfQuote(prev: string, q: char, body: string)
    requires q in {'\'', '"', '`'} && q !in body && '\\' !in body
    ensures Cut(prev, body + [q], Inside(q)) == Cuts([body + [q]], [])
    ensures EndOf(body + [q], Inside(q)) == Closed && Held(body + [q], Inside(q)) == None
    decreases |body|
  {
    var s := body + [q];
    if body == "" {
      assert s == [q] && s[1..] == "";
      KeepFirst(prev, s, Inside(q), 1, Bare, "");
    } else {
      assert body[0] in body && s[0] == body[0] && s[1..] == body[1..] + [q];
      RestOfQuote(Last(s[..1]), q, body[1..]);
      KeepFirst(prev, s, Inside(q), 1, Inside(q), s[1..]);
    }
  }

  /** Quoted text is one piece, whatever operators and other quotes are in it. */
  lemma QuotedIsWhole(prev: string, q: char, body: string)
    requires q in {'\'', '"', '`'} && q !in body && '\\' !in body
    ensures Cut(prev, [q] + body + [q], Bare) == Cuts([[q] + body + [q]], [])
    ensures EndOf([q] + body + [q], Bare) == Closed && Held([q] + body + [q], Bare) == None
  {
    var s := [q] + body + [q];
    assert s[0] == q && s[1..] == body + [q];
    RestOfQuote(Last(s[..1]), q, body);
    KeepFirst(prev, s, Bare, 1, Inside(q), s[1..]);
  }

  /** An escaped character is one piece, whatever it is. */
  lemma EscapedIsWhole(prev: string, c: char)
    ensures Cut(prev, ['\\', c], Bare) == Cuts([['\\', c]], [])
    ensures EndOf(['\\', c], Bare) == Closed && Held(['\\', c], Bare) == None
  {
    var s := ['\\', c];
    assert s[2..] == "" && s[..2] == s;
    KeepFirst(prev, s, Bare, 2, Bare, "");
  }

  // ----- fusing -----

  /** The lone operator character that ends a command outside quotes: the next character could
      still pair with it, or make it an arrow. */
  function Held(s: string, mode: Mode): Option<char> {
    if s == "" then None
    else if s[0] == '\\' then if |s| == 1 then None else Held(s[2..], mode)
    else if Toggle(mode, s[0]).Some? then Held(s[1..], Toggle(mode, s[0]).value)
    else if mode.Bare? && (s[0] == '&' || s[0] == '|') then
      if |s| == 1 then Some(s[0]) else if s[1] == s[0] then Held(s[2..], Bare) else Held(s[1..], Bare)
    else Held(s[1..], mode)
  }

  predicate Starts(s: string, c: char) {
    s != "" && s[0] == c
  }

  /** What follows a command does not change how the command's own end reads. */
  predicate Apart(held: Option<char>, b: string) {
    b != "" ==> held != Some(b[0]) && !(held == Some('&') && b[0] == '>')
  }

  /** Two cut texts put together: the last piece of one continues in the first piece of the other. */
  function Fuse(a: Cuts, b: Cuts): Cuts
    requires a.raws != [] && b.raws != []
  {
    var n := |a.raws| - 1;
    Cuts(a.raws[..n] + [a.raws[n] + b.raws[0]] + b.raws[1..], a.seps + b.seps)
  }

  lemma FuseNothing(b: Cuts)
    requires b.raws != []
    ensures Fuse(OneCut, b) == b
  {
    assert "" + b.raws[0] == b.raws[0];
    assert [] + [b.raws[0]] + b.raws[1..] == b.raws;
    assert [] + b.seps == b.seps;
  }

  lemma FuseBreaks(text: string, a: Cuts, b: Cuts)
    requires a.raws != [] && b.raws != []
    ensures Break(text, Fuse(a, b)) == Fuse(Break(text, a), b)
  {
    var n := |a.raws| - 1;
    assert Break(text, a).raws[..n + 1] == [""] + a.raws[..n];
    assert Break(text, Fuse(a, b)).raws == Fuse(Break(text, a), b).raws;
  }

  lemma FuseGlues(text: string, a: Cuts, b: Cuts)
    requires a.raws != [] && b.raws != []
    ensures Glue(text, Fuse(a, b)) == Fuse(Glue(text, a), b)
  {
    var n := |a.raws| - 1;
    if n == 0 {
      assert text + (a.raws[0] + b.raws[0]) == text + a.raws[0] + b.raws[0];
    } else {
      assert Glue(text, a).raws[..n] == [text + a.raws[0]] + a.raws[1..n];
      assert Glue(text, Fuse(a, b)).raws == Fuse(Glue(text, a), b).raws;
    }
  }

  /** The first token of a command reads the same with or without what follows. */
  lemma TokenApart(prev: string, a: string, b: string, mode: Mode)
    requires a != "" && EndOf(a, mode) == Closed && Apart(Held(a, mode), b)
    ensures var t := FirstToken(prev, a, mode);
      && FirstToken(prev, a + b, mode) == t
      && (a + b)[..t.width] == a[..t.width] && (a + b)[t.width..] == a[t.width..] + b
      && EndOf(a[t.width..], t.mode) == Closed
      && (a[t.width..] != "" ==> Held(a[t.width..], t.mode) == Held(a, mode))
  {
    var s := a + b;
    assert s[0] == a[0];
    EndAfterToken(prev, a, mode);
    if |a| > 1 {
      assert s[1] == a[1];
      if FirstToken(prev, a, mode).width == 2 {
        assert a[1..][1..] == a[2..];
      }
    } else if b != "" {
      assert s[1] == b[0];
    }
  }

  function Before(prev: string, a: string): string {
    if a == "" then prev else Last(a)
  }

  /** Cutting two texts put together is cutting each, when the first is closed and apart from the
      second; what is before the second is still seen, because an arrow looks back. */
  lemma {:induction false} CutFuses(prev: string, a: string, b: string, mode: Mode)
    requires EndOf(a, mode) == Closed && Apart(Held(a, mode), b)
    ensures Cut(prev, a + b, mode) == Fuse(Cut(prev, a, mode), Cut(Before(prev, a), b, Bare))
    decreases |a|
  {
    if a == "" {
      assert a + b == b;
      FuseNothing(Cut(prev, b, Bare));
    } else {
      var t := FirstToken(prev, a, mode);
      var text, rest := a[..t.width], a[t.width..];
      TokenApart(prev, a, b, mode);
      CutFuses(Last(text), rest, b, t.mode);
      CutOfLonger(prev, a, a + b, rest + b, mode, t);
      FuseBreaks(text, Cut(Last(text), rest, t.mode), Cut(Before(prev, a), b, Bare));
      FuseGlues(text, Cut(Last(text), rest, t.mode), Cut(Before(prev, a), b, Bare));
      assert Before(Last(text), rest) == Before(prev, a);
    }
  }

  // ----- the operators -----

  /** What was before a text matters only to a leading '&'. */
  lemma PrevMattersToAmpersand(prev: string, s: string)
    requires prev != ">" || !Starts(s, '&')
    ensures Cut(prev, s, Bare) == Cut("", s, Bare)
  {
    if s != "" {
      assert FirstToken(prev, s, Bare) == FirstToken("", s, Bare);
    }
  }

  /** An operator in front of a text. */
  lemma CutAtOperator(prev: string, op: string, b: string)
    requires op in {"&&", "||", ";", "|", "&"}
    requires op == "|" ==> !Starts(b, '|')
    requires op == "&" ==> !Starts(b, '&') && !Starts(b, '>') && prev != ">"
    ensures Cut(prev, op + b, Bare) == Break(op, Cut("", b, Bare))
  {
    var s := op + b;
    assert s[..|op|] == op && s[|op|..] == b;
    assert |op| == 2 ==> s[1] == op[1];
    assert |op| == 1 && b != "" ==> s[1] == b[0];
    CutBreaks(prev, s, Bare, Token(|op|, true, Bare));
    PrevMattersToAmpersand(Last(op), b);
  }

  lemma SplitAtOperator(a: string, op: string, b: string)
    requires op in {"&&", "||", ";", "|", "&"}
    requires op == "|" ==> !Starts(b, '|')
    requires op == "&" ==> !Starts(b, '&') && !Starts(b, '>') && Last(a) != ">"
    requires EndOf(a, Bare) == Closed && Apart(Held(a, Bare), op)
    ensures Split(a + op + b) == Split(a) + Split(b)
  {
    assert a + op + b == a + (op + b);
    CutFuses("", a, op + b, Bare);
    CutAtOperator(Before("", a), op, b);
    FuseBreak(Cut("", a, Bare), op, Cut("", b, Bare));
    CleanAppends(Cut("", a, Bare).raws, Cut("", b, Bare).raws);
  }

  lemma FuseBreak(a: Cuts, op: string, b: Cuts)
    requires a.raws != [] && b.raws != []
    ensures Fuse(a, Break(op, b)).raws == a.raws + b.raws
  {
    var n := |a.raws| - 1;
    assert a.raws[n] + "" == a.raws[n];
    assert a.raws == a.raws[..n] + [a.raws[n]];
    assert Break(op, b).raws[1..] == b.raws;
  }

  /** A held operator can be taken off the end. */
  lemma {:induction false} HeldEnds(a: string, mode: Mode, c: char)
    requires EndOf(a, mode) == Closed && Held(a, mode) == Some(c)
    ensures a != "" && a == a[..|a| - 1] + [c] && (c == '&' || c == '|')
    ensures EndOf(a[..|a| - 1], mode) == Closed && Held(a[..|a| - 1], mode) != Some(c)
    decreases |a|
  {
    if |a| > 1 {
      var width := FirstToken("", a, mode).width;
      var next := FirstToken("", a, mode).mode;
      HeldStep(a, mode);
      var rest := a[width..];
      HeldEnds(rest, next, c);
      var front := a[..|a| - 1];
      assert rest[..|rest| - 1] == front[width..];
      FrontStep(a, front, mode, width, next, c);
    }
  }

  lemma HeldStep(a: string, mode: Mode)
    requires |a| > 1 && Held(a, mode).Some? && EndOf(a, mode) == Closed
    ensures var t := FirstToken("", a, mode);
      && t.width < |a| && EndOf(a[t.width..], t.mode) == Closed && Held(a[t.width..], t.mode) == Held(a, mode)
  {
    EndAfterToken("", a, mode);
  }

  lemma FrontStep(a: string, front: string, mode: Mode, width: nat, next: Mode, c: char)
    requires |a| > 1 && front == a[..|a| - 1] && 1 <= width < |a|
    requires FirstToken("", a, mode).width == width && FirstToken("", a, mode).mode == next
    requires EndOf(front[width..], next) == Closed && Held(front[width..], next) != Some(c)
    requires a[|a| - 1] == c && (front[width..] == "" ==> Held(a[width..], next) == Some(c))
    ensures EndOf(front, mode) == Closed && Held(front, mode) != Some(c)
  {
    assert front[0] == a[0];
    if width == 2 {
      assert front[1] == a[1] && front[1..][1..] == front[2..];
    } else if |a| > 2 {
      assert front[1] == a[1];
    }
  }

  /** "&&" joins two commands as two, whatever the second is, exactly when no lone '&' is held at
      the end of the first. */
  lemma AndJoins(a: string)
    requires EndOf(a, Bare) == Closed
    ensures (forall b :: Split(a + "&&" + b) == Split(a) + Split(b)) <==> Held(a, Bare) != Some('&')
  {
    if Held(a, Bare) != Some('&') {
      forall b ensures Split(a + "&&" + b) == Split(a) + Split(b) {
        SplitAtOperator(a, "&&", b);
      }
    } else {
      HeldAmpersandBreaks(a, ">x");
    }
  }

  lemma HeldAmpersandBreaks(a: string, b: string)
    requires EndOf(a, Bare) == Closed && Held(a, Bare) == Some('&') && b == ">x"
    ensures Split(a + "&&" + b) != Split(a) + Split(b)
  {
    AndAfterAmpersand(a, b);
    ArrowText(b);
    AmpersandArrowText("&" + b, b);
    LastsDiffer(Split(a + "&&" + b), Split(a), b);
  }

  /** After a held '&' the pair is the held one and the first of the two. */
  lemma AndAfterAmpersand(a: string, b: string)
    requires EndOf(a, Bare) == Closed && Held(a, Bare) == Some('&')
    ensures Split(a + "&&" + b) == Split(a[..|a| - 1]) + Split("&" + b)
  {
    var front := a[..|a| - 1];
    HeldEnds(a, Bare, '&');
    SplitAtOperator(front, "&&", "&" + b);
    MoveFirst(front, "&", "&&", b);
  }

  /** An operator character before or after an operator of the same characters. */
  lemma MoveFirst(front: string, c: string, op: string, b: string)
    requires |c| == 1 && op == c + c
    ensures front + c + op + b == front + op + (c + b)
  {
  }

  lemma PairUp(front: string, c: string, op: string, b: string)
    requires |c| == 1 && op == c + c
    ensures front + c + c + b == front + op + b
    ensures front + c + (c + b) == front + op + b
  {
  }

  lemma ArrowText(s: string)
    requires s == ">x"
    ensures Split(s) == [s]
  {
    PlainIsWhole("", s);
    CleanOfOne(s);
    assert Strip(s) == s;
  }

  lemma AmpersandArrowText(s: string, rest: string)
    requires s == "&" + rest && rest == ">x"
    ensures Split(s) == [s]
  {
    PlainIsWhole("&", rest);
    assert s[1..] == rest && s[..1] == "&" && s[1] == '>';
    KeepFirst("", s, Bare, 1, Bare, rest);
    CleanOfOne(s);
    assert Strip(s) == s;
  }

  lemma BarGivesNothing(a: string)
    requires EndOf(a, Bare) == Closed && Held(a, Bare) == Some('|')
    ensures Split(a) == Split(a[..|a| - 1])
  {
    var front := a[..|a| - 1];
    HeldEnds(a, Bare, '|');
    SplitAtOperator(front, "|", "");
    EmptyGivesNothing();
    assert a == front + "|" + "";
  }

  lemma {:induction false} LeadingBarGivesNothing(b: string)
    ensures Split("|" + b) == Split(b)
    decreases |b|
  {
    CleanOfOne("");
    if Starts(b, '|') {
      var rest := b[1..];
      LeadingBarGivesNothing(rest);
      assert b == "|" + rest && "|" + b == "||" + rest;
      CutAtOperator("", "||", rest);
      CleanAppends([""], Cut("", rest, Bare).raws);
    } else {
      CutAtOperator("", "|", b);
      CleanAppends([""], Cut("", b, Bare).raws);
    }
  }

  /** "||" joins two commands as two, whatever they are. */
  lemma OrJoins(a: string, b: string)
    requires EndOf(a, Bare) == Closed
    ensures Split(a + "||" + b) == Split(a) + Split(b)
  {
    if Held(a, Bare) == Some('|') {
      var front := a[..|a| - 1];
      HeldEnds(a, Bare, '|');
      SplitAtOperator(front, "||", "|" + b);
      BarGivesNothing(a);
      LeadingBarGivesNothing(b);
      MoveFirst(front, "|", "||", b);
    } else {
      SplitAtOperator(a, "||", b);
    }
  }

  lemma PipeAfterBar(a: string, b: string)
    requires EndOf(a, Bare) == Closed && Held(a, Bare) == Some('|')
    ensures Split(a + "|" + b) == Split(a) + Split(b)
  {
    var front := a[..|a| - 1];
    HeldEnds(a, Bare, '|');
    SplitAtOperator(front, "||", b);
    BarGivesNothing(a);
    PairUp(front, "|", "||", b);
  }

  lemma PipeBeforeBar(a: string, b: string, rest: string)
    requires EndOf(a, Bare) == Closed && b == "|" + rest
    ensures Split(a + "|" + b) == Split(a) + Split(b)
  {
    OrJoins(a, rest);
    LeadingBarGivesNothing(rest);
    PairUp(a, "|", "||", rest);
  }

  /** "|" joins two commands as two, whatever they are. */
  lemma PipeJoins(a: string, b: string)
    requires EndOf(a, Bare) == Closed
    ensures Split(a + "|" + b) == Split(a) + Split(b)
  {
    if Held(a, Bare) == Some('|') {
      PipeAfterBar(a, b);
    } else if Starts(b, '|') {
      assert b == "|" + b[1..];
      PipeBeforeBar(a, b, b[1..]);
    } else {
      SplitAtOperator(a, "|", b);
    }
  }

  // ----- '&' and the redirect arrows -----

  /** An '&' next to '>' is kept in its piece. */
  lemma ArrowsFuse(a: string, b: string)
    requires EndOf(a, Bare) == Closed && Held(a, Bare) != Some('&') && !Starts(b, '&')
    requires Last(a) == ">" || Starts(b, '>')
    ensures Cut("", a + "&" + b, Bare) == Fuse(Cut("", a, Bare), Glue("&", Cut("", b, Bare)))
  {
    var s := "&" + b;
    assert a + "&" + b == a + s;
    assert s[..1] == "&" && s[1..] == b && (b != "" ==> s[1] == b[0]);
    CutFuses("", a, s, Bare);
    CutKeeps(Before("", a), s, Bare, Token(1, false, Bare));
    PrevMattersToAmpersand("&", b);
  }

  /** "&" between commands that have no '&' at the seam joins them as two exactly when it is not
      part of an arrow; a redirection is never cut. */
  lemma AmpersandJoins(a: string, b: string)
    requires EndOf(a, Bare) == Closed && Held(a, Bare) != Some('&') && !Starts(b, '&')
    ensures Split(a + "&" + b) == Split(a) + Split(b) <==> Last(a) != ">" && !Starts(b, '>')
  {
    if Last(a) != ">" && !Starts(b, '>') {
      SplitAtOperator(a, "&", b);
    } else {
      ArrowsFuse(a, b);
      FusedSplits(Cut("", a, Bare), "&", Cut("", b, Bare));
    }
  }

  lemma AmpersandAfterHeld(a: string, b: string)
    requires EndOf(a, Bare) == Closed && Held(a, Bare) == Some('&')
    ensures Split(a + "&" + b) == Split(a[..|a| - 1]) + Split(b)
  {
    var front := a[..|a| - 1];
    HeldEnds(a, Bare, '&');
    SplitAtOperator(front, "&&", b);
    PairUp(front, "&", "&&", b);
  }

  lemma AmpersandBeforeAnother(a: string, b: string, rest: string)
    requires EndOf(a, Bare) == Closed && Held(a, Bare) != Some('&') && b == "&" + rest
    ensures Split(a + "&" + b) == Split(a) + Split(rest)
  {
    SplitAtOperator(a, "&&", rest);
    PairUp(a, "&", "&&", rest);
  }

  /** ... and with an '&' on either side the two are "&&". */
  lemma AmpersandsPair(a: string, b: string)
    requires EndOf(a, Bare) == Closed
    ensures Held(a, Bare) != Some('&') && Starts(b, '&') ==> Split(a + "&" + b) == Split(a) + Split(b[1..])
    ensures Held(a, Bare) == Some('&') ==> Split(a + "&" + b) == Split(a[..|a| - 1]) + Split(b)
  {
    if Held(a, Bare) == Some('&') {
      AmpersandAfterHeld(a, b);
    } else if Starts(b, '&') {
      assert b == "&" + b[1..];
      AmpersandBeforeAnother(a, b, b[1..]);
    }
  }

  lemma FusedSplits(a: Cuts, text: string, b: Cuts)
    requires a.raws != [] && b.raws != [] && text == "&"
    ensures Clean(Fuse(a, Glue(text, b)).raws) != Clean(a.raws) + Clean(b.raws)
  {
    var n := |a.raws| - 1;
    var front, x, y, tail := a.raws[..n], a.raws[n], b.raws[0], b.raws[1..];
    var whole := x + (text + y);
    CleanAppends(front + [whole], tail);
    CleanAppends(front, [whole]);
    CleanAppends(front, [x]);
    CleanAppends([y], tail);
    CleanOfOne(whole);
    CleanOfOne(x);
    CleanOfOne(y);
    assert a.raws == front + [x] && b.raws == [y] + tail;
    assert Fuse(a, Glue(text, b)).raws == front + [whole] + tail;
    FusedStrip(x, y, whole);
    FusedDiffers(Clean(front), OrNothing(Strip(whole)), OrNothing(Strip(x)), OrNothing(Strip(y)), Clean(tail));
  }

  lemma FusedDiffers(front: seq<string>, whole: seq<string>, x: seq<string>, y: seq<string>, tail: seq<string>)
    requires |whole| == 1 && |x| <= 1 && |y| <= 1
    requires x != [] ==> whole[0] != x[0]
    requires y != [] ==> whole[0] != y[0]
    ensures front + whole + tail != front + x + (y + tail)
  {
    var l, r := front + whole + tail, front + x + (y + tail);
    if |x| + |y| == 1 {
      assert l[|front|] == whole[0];
      assert r[|front|] == if x != [] then x[0] else y[0];
    }
  }

  /** The stripped fused piece is longer than either stripped part. */
  lemma FusedStrip(x: string, y: string, whole: string)
    requires whole == x + ("&" + y)
    ensures |Strip(whole)| > |Strip(x)| && |Strip(whole)| > |Strip(y)|
  {
    StripLeftStops(x, "&" + y);
    StripRightLeaves(StripLeft(x));
    StripRightStops(StripLeft(x) + "&", y);
    assert StripLeft(x) + ("&" + y) == StripLeft(x) + "&" + y;
    StripBothEnds(y);
  }

  lemma {:induction false} StripLeftStops(x: string, y: string)
    requires y != "" && !Space(y[0])
    ensures StripLeft(x + y) == StripLeft(x) + y
  {
    if x == "" {
      assert x + y == y;
    } else {
      assert (x + y)[1..] == x[1..] + y && (x + y)[0] == x[0];
      StripLeftStops(x[1..], y);
    }
  }

  lemma {:induction false} StripRightStops(x: string, y: string)
    requires x != "" && !Space(x[|x| - 1])
    ensures StripRight(x + y) == x + StripRight(y)
    decreases |y|
  {
    if y == "" {
      assert x + y == x;
    } else {
      assert (x + y)[..|x + y| - 1] == x + y[..|y| - 1] && (x + y)[|x + y| - 1] == y[|y| - 1];
      StripRightStops(x, y[..|y| - 1]);
    }
  }

  lemma {:induction false} StripBothEnds(y: string)
    ensures |Strip(y)| <= |StripRight(y)|
  {
    if y != "" && Space(y[0]) {
      StripBothEnds(y[1..]);
      StripRightOfLonger(y[0], y[1..]);
      assert y == [y[0]] + y[1..];
    }
  }

  lemma {:induction false} StripRightOfLonger(c: char, y: string)
    ensures |StripRight([c] + y)| >= |StripRight(y)|
    decreases |y|
  {
    if y != "" && Space(y[|y| - 1]) {
      assert ([c] + y)[..|y|] == [c] + y[..|y| - 1];
      StripRightOfLonger(c, y[..|y| - 1]);
    }
  }

  lemma FuseSingles(a: string, text: string, b: string, s: string)
    requires s == a + text + b
    ensures Fuse(Cuts([a], []), Glue(text, Cuts([b], []))) == Cuts([s], [])
  {
    assert a + (text + b) == s;
  }

  lemma ArrowIsWhole(a: string, b: string, s: string)
    requires s == a + "&" + b && Plain(a) && Plain(b) && b != "" && Last(a) == ">"
    ensures Cut("", s, Bare) == Cuts([s], [])
  {
    PlainIsWhole("", a);
    PlainIsWhole("", b);
    assert b[0] in b;
    ArrowsFuse(a, b);
    FuseSingles(a, "&", b, s);
  }

  /** A redirection of a plain text to a plain text is one command. */
  lemma OutputArrow(a: string, b: string, s: string)
    requires s == a + "&" + b && Plain(a) && Plain(b) && a != "" && b != ""
    requires Last(a) == ">" && !Space(a[0]) && !Space(b[|b| - 1])
    ensures Split(s) == [s]
  {
    ArrowIsWhole(a, b, s);
    CleanOfOne(s);
    assert s[0] == a[0] && s[|s| - 1] == b[|b| - 1];
    UnspacedStays(s);
  }

  lemma UnspacedStays(s: string)
    requires s != "" && !Space(s[0]) && !Space(s[|s| - 1])
    ensures Strip(s) == s
  {
  }

  /** The common redirections are single commands. */
  lemma RedirectionsAreWhole(duplicate: string, output: string, both: string)
    requires duplicate == "2>&1" && output == ">&2" && both == "&>x"
    ensures Split(duplicate) == [duplicate] && Split(output) == [output] && Split(both) == [both]
  {
    AmpersandArrowText(both, ">x");
    OutputArrow("2>", "1", duplicate);
    OutputArrow(">", "2", output);
  }
}
