/** `str.strip`, over the characters that Python's `str.isspace` accepts. */
module Text {
  predicate IsSpace(c: char) {
    || c == ' ' || '\t' <= c <= '\r' || '\U{1C}' <= c <= '\U{1F}' || c == '\U{85}' || c == '\U{A0}' || c == '\U{1680}'
    || '\U{2000}' <= c <= '\U{200A}' || c == '\U{2028}' || c == '\U{2029}' || c == '\U{202F}' || c == '\U{205F}'
    || c == '\U{3000}'
  }

  /** Tabs to carriage return, the four separators, the spaces and the line breaks, by their code points. */
  lemma SpacesExactly(c: char)
    ensures IsSpace(c) <==>
      || 9 <= c as int <= 13 || 28 <= c as int <= 32 || 8192 <= c as int <= 8202
      || c as int in {133, 160, 5760, 8232, 8233, 8239, 8287, 12288}
  {
  }

  function StripLeft(s: string): string {
    if s != "" && IsSpace(s[0]) then StripLeft(s[1..]) else s
  }

  function StripRight(s: string): string {
    if s != "" && IsSpace(s[|s| - 1]) then StripRight(s[..|s| - 1]) else s
  }

  function Strip(s: string): string { StripRight(StripLeft(s)) }

  ghost predicate Blank(s: string) { forall k :: 0 <= k < |s| ==> IsSpace(s[k]) }

  lemma {:induction false} StripLeftExactly(s: string)
    ensures var r := StripLeft(s);
      |r| <= |s| && s == s[..|s| - |r|] + r && Blank(s[..|s| - |r|]) && (r != "" ==> !IsSpace(r[0]))
  {
    if s != "" && IsSpace(s[0]) {
      StripLeftExactly(s[1..]);
    }
  }

  lemma {:induction false} StripRightExactly(s: string)
    ensures var r := StripRight(s);
      |r| <= |s| && s == r + s[|r|..] && Blank(s[|r|..]) && (r != "" ==> !IsSpace(r[|r| - 1]))
  {
    if s != "" && IsSpace(s[|s| - 1]) {
      var front := s[..|s| - 1];
      StripRightExactly(front);
      BlankOneMore(front[|StripRight(front)|..], s[|s| - 1]);
      assert s[|StripRight(front)|..] == front[|StripRight(front)|..] + [s[|s| - 1]];
    }
  }

  lemma BlankOneMore(s: string, c: char)
    requires Blank(s) && IsSpace(c)
    ensures Blank(s + [c])
  {
  }

  /** Stripping takes white space off both ends, all of it, and nothing else. */
  lemma StripExactly(s: string) returns (left: string, right: string)
    ensures s == left + Strip(s) + right && Blank(left) && Blank(right)
    ensures Strip(s) != "" ==> !IsSpace(Strip(s)[0]) && !IsSpace(Strip(s)[|Strip(s)| - 1])
  {
    StripLeftExactly(s);
    StripRightExactly(StripLeft(s));
    left := s[..|s| - |StripLeft(s)|];
    right := StripLeft(s)[|Strip(s)|..];
  }

  /** Nothing is left of exactly the texts that are white space throughout. */
  lemma EmptyExactly(s: string)
    ensures Strip(s) == "" <==> forall k :: 0 <= k < |s| ==> IsSpace(s[k])
  {
    var left, right := StripExactly(s);
    if Strip(s) != "" {
      assert s[|left|] == Strip(s)[0];
    }
  }
}
