/**
 Characters and edges of source lines.
 */
module LineText {

  predicate IsSpace(c: char) {
    c == ' ' || c == '\t' || c == '\n' || c == '\r' || c == '\U{0B}' || c == '\U{0C}'
  }

  predicate IsWordChar(c: char) {
    'a' <= c <= 'z' || 'A' <= c <= 'Z' || '0' <= c <= '9' || c == '_'
  }

  predicate AllSpace(s: string) {
    forall c | c in s :: IsSpace(c)
  }

  function TrimLeft(s: string): string {
    if s != "" && IsSpace(s[0]) then TrimLeft(s[1..]) else s
  }

  function TrimRight(s: string): string {
    if s != "" && IsSpace(s[|s| - 1]) then TrimRight(s[..|s| - 1]) else s
  }

  function Strip(s: string): string {
    TrimRight(TrimLeft(s))
  }

  predicate StartsWith(s: string, prefix: string) {
    |prefix| <= |s| && s[..|prefix|] == prefix
  }

  predicate EndsWith(s: string, suffix: string) {
    |suffix| <= |s| && s[|s| - |suffix|..] == suffix
  }

  /** A part of `s` at or after `from` is `part`. */
  predicate Contains(s: string, part: string, from: nat) {
    exists k | from <= k <= |s| :: StartsWith(s[k..], part)
  }

  /** The longest word at the start of a line. */
  function Word(s: string): string {
    if s != "" && IsWordChar(s[0]) then [s[0]] + Word(s[1..]) else ""
  }

  /** The text ends in the keyword `operator`. */
  predicate EndsInOperator(s: string) {
    var t := TrimRight(s);
    EndsWith(t, "operator") && (|t| == 8 || !IsWordChar(t[|t| - 9]))
  }

  lemma {:induction false} TrimSpace(before: string, rest: string)
    requires AllSpace(before) && (rest == "" || !IsSpace(rest[0]))
    ensures TrimLeft(before + rest) == rest
  {
    if before == "" {
      assert before + rest == rest;
    } else {
      assert before[0] in before && (before + rest)[0] == before[0] && (before + rest)[1..] == before[1..] + rest;
      TrimSpace(before[1..], rest);
    }
  }

  lemma {:induction false} TrimSpaceRight(rest: string, after: string)
    requires AllSpace(after) && (rest == "" || !IsSpace(rest[|rest| - 1]))
    ensures TrimRight(rest + after) == rest
  {
    if after == "" {
      assert rest + after == rest;
    } else {
      var n := |after| - 1;
      assert after[n] in after && (rest + after)[..|rest| + n] == rest + after[..n];
      TrimSpaceRight(rest, after[..n]);
    }
  }

  /** A text without spaces at its ends, which may have spaces around it. */
  ghost predicate IsStripped(line: string, before: string, text: string, after: string) {
    && line == before + text + after && AllSpace(before) && AllSpace(after)
    && (text != "" ==> !IsSpace(text[0]) && !IsSpace(text[|text| - 1]))
  }

  lemma StripIs(line: string, before: string, text: string, after: string)
    requires IsStripped(line, before, text, after)
    ensures Strip(line) == text
  {
    if text == "" {
      assert forall c | c in before + after :: IsSpace(c);
      assert line == (before + after) + "";
      TrimSpace(before + after, "");
    } else {
      assert line == before + (text + after);
      TrimSpace(before, text + after);
      TrimSpaceRight(text, after);
    }
  }
}
