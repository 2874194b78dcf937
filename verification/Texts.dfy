/** Stripping whitespace and cutting paths at slashes. */
module Texts {

  /** The characters that stripping removes. */
  predicate Space(c: char) {
    || '\t' <= c <= '\r' || '\U{001C}' <= c <= '\U{0020}' || c == '\U{0085}' || c == '\U{00A0}'
    || c == '\U{1680}' || '\U{2000}' <= c <= '\U{200A}' || c == '\U{2028}' || c == '\U{2029}'
    || c == '\U{202F}' || c == '\U{205F}' || c == '\U{3000}'
  }

  /** ... by their code points. */
  lemma SpaceCodePoints(c: char)
    ensures var n := c as int;
      Space(c) <==>
        || n in {9, 10, 11, 12, 13, 28, 29, 30, 31, 32, 133, 160, 5760, 8232, 8233, 8239, 8287, 12288}
        || 8192 <= n <= 8202
  {
  }

  function StripLeft(s: string): string {
    if s != "" && Space(s[0]) then StripLeft(s[1..]) else s
  }

  function StripRight(s: string): string {
    if s != "" && Space(s[|s| - 1]) then StripRight(s[..|s| - 1]) else s
  }

  function Strip(s: string): string {
    StripRight(StripLeft(s))
  }

  lemma {:induction false} StripLeftLeaves(s: string)
    ensures |StripLeft(s)| <= |s| && s[|s| - |StripLeft(s)|..] == StripLeft(s)
    ensures StripLeft(s) != s ==> s != "" && Space(s[0])
  {
    if s != "" && Space(s[0]) {
      StripLeftLeaves(s[1..]);
    }
  }

  lemma {:induction false} StripRightLeaves(s: string)
    ensures |StripRight(s)| <= |s| && s[..|StripRight(s)|] == StripRight(s)
    ensures StripRight(s) != s ==> s != "" && Space(s[|s| - 1])
  {
    if s != "" && Space(s[|s| - 1]) {
      StripRightLeaves(s[..|s| - 1]);
    }
  }

  /** The text between slashes, empty pieces included. */
  function Components(s: string): (parts: seq<string>)
    ensures |parts| >= 1
  {
    if s == "" then [""]
    else if s[0] == '/' then [""] + Components(s[1..])
    else var rest := Components(s[1..]); [[s[0]] + rest[0]] + rest[1..]
  }
}
