/** The character classes the scanners test for, and text helpers they share. */
module Chars {

  /** What `\s` matches in a JavaScript regular expression (and what `trim` removes). */
  predicate IsSpace(c: char) {
    || c in "\t\n\U{B}\U{C}\r \U{A0}\U{1680}\U{2028}\U{2029}\U{202F}\U{205F}\U{3000}\U{FEFF}"
    || '\U{2000}' <= c <= '\U{200A}'
  }

  /** `[a-z]` with the `i` flag. */
  predicate IsLetter(c: char) {
    'a' <= c <= 'z' || 'A' <= c <= 'Z'
  }

  predicate IsDigit(c: char) {
    '0' <= c <= '9'
  }

  /** `[\w$]`: the characters of a name, a keyword or a number. */
  predicate IsWord(c: char) {
    IsLetter(c) || IsDigit(c) || c == '_' || c == '$'
  }

  predicate IsBlank(s: string) {
    forall k :: 0 <= k < |s| ==> IsSpace(s[k])
  }

  // --- looking one character ahead ---

  /** The character at `k`, nothing at the end. */
  function Ahead(src: string, k: nat): string {
    if k < |src| then [src[k]] else ""
  }

  predicate Next?(src: string, i: nat, c: char) {
    i + 1 < |src| && src[i + 1] == c
  }

  predicate NextIsWord(src: string, i: nat) {
    i + 1 < |src| && IsWord(src[i + 1])
  }

  predicate NextIsLetter(src: string, i: nat) {
    i + 1 < |src| && IsLetter(src[i + 1])
  }

  predicate AtEnd(src: string, i: nat) {
    i + 1 >= |src|
  }

  predicate LineEnds(src: string, i: nat) {
    AtEnd(src, i) || src[i + 1] == '\n'
  }

  // --- classes ---

  const LOWER := "abcdefghijklmnopqrstuvwxyz"
  const UPPER := "ABCDEFGHIJKLMNOPQRSTUVWXYZ"
  const DIGITS := "0123456789"

  /** The classes character by character. */
  lemma ClassesAre(c: char)
    ensures IsLetter(c) <==> c in LOWER || c in UPPER
    ensures IsDigit(c) <==> c in DIGITS
    ensures IsWord(c) <==> c in LOWER || c in UPPER || c in DIGITS || c in "_$"
  {
    LowerAre(c);
    UpperAre(c);
    DigitsAre(c);
  }

  lemma LowerAre(c: char)
    ensures 'a' <= c <= 'z' <==> c in LOWER
  {
    if 'a' <= c <= 'z' { assert c == LOWER[c as int - 'a' as int]; }
  }

  lemma UpperAre(c: char)
    ensures 'A' <= c <= 'Z' <==> c in UPPER
  {
    if 'A' <= c <= 'Z' { assert c == UPPER[c as int - 'A' as int]; }
  }

  lemma DigitsAre(c: char)
    ensures '0' <= c <= '9' <==> c in DIGITS
  {
    if '0' <= c <= '9' { assert c == DIGITS[c as int - '0' as int]; }
  }

  /** The white space of the language: tab, line feed, vertical tab, form feed, carriage return, space, and
      the spaces and separators beyond ASCII. */
  lemma SpacesAre(c: char)
    ensures var n := c as int;
            IsSpace(c) <==>
              || n in {9, 10, 11, 12, 13, 32, 160, 5760, 8232, 8233, 8239, 8287, 12288, 65279}
              || 8192 <= n <= 8202
  {
  }

  /** No word character is a space or a delimiter of the scanners. */
  lemma WordIsPlain(c: char)
    requires IsWord(c)
    ensures !IsSpace(c) && c != '\n' && c != '/' && c != '*' && c != '\'' && c != '"' && c != '`'
    ensures c != '{' && c != '}' && c != '\\'
  {
  }

  /** What a blanked character becomes: newlines are kept. */
  function Blank(c: char): char {
    if c == '\n' then '\n' else ' '
  }

  lemma BlankIsSpace(c: char)
    ensures IsSpace(Blank(c)) && !IsWord(Blank(c)) && !IsLetter(Blank(c))
    ensures c == '/' ==> !IsSpace(c) && !IsWord(c) && !IsLetter(c)
  {
  }

  function Blanks(s: string): (r: string)
    ensures |r| == |s|
    ensures forall k :: 0 <= k < |s| ==> r[k] == Blank(s[k])
  {
    seq(|s|, k requires 0 <= k < |s| => Blank(s[k]))
  }

  /** The string method `slice` for positions that are not negative: both are cut off at the end. */
  function Slice(s: string, from: nat, to: int): string {
    if from <= to <= |s| then s[from..to] else if from <= |s| < to then s[from..] else ""
  }

  predicate OccursAt(s: string, pat: string, k: nat) {
    k + |pat| <= |s| && s[k..k + |pat|] == pat
  }

  lemma OccursChar(s: string, c: char, k: nat)
    ensures OccursAt(s, [c], k) <==> k < |s| && s[k] == c
  {
    if k < |s| { assert s[k..k + 1] == [s[k]]; }
  }

  lemma OccursSlice(s: string, t: string, k: nat)
    requires OccursAt(s, t, k)
    ensures Slice(s, k, k + |t|) == t && Slice(s, 0, k) == s[..k]
  {
    assert s[0..k] == s[..k];
  }

  lemma OccursPair(s: string, a: char, b: char, k: nat)
    ensures OccursAt(s, [a, b], k) <==> k + 1 < |s| && s[k] == a && s[k + 1] == b
  {
    if k + 1 < |s| { assert s[k..k + 2] == [s[k], s[k + 1]]; }
  }

  lemma OccursInParts(s: string, a: string, b: string, k: nat)
    requires OccursAt(s, a + b, k)
    ensures OccursAt(s, a, k) && OccursAt(s, b, k + |a|)
  {
    assert (a + b)[..|a|] == a && (a + b)[|a|..] == b;
    assert s[k..k + |a|] == s[k..k + |a + b|][..|a|];
    assert s[k + |a|..k + |a + b|] == s[k..k + |a + b|][|a|..];
  }

  /** The string method `indexOf`: the first occurrence at or after `from`, or -1. */
  function IndexOf(s: string, pat: string, from: nat): (r: int)
    ensures r < 0 ==> forall k: nat :: from <= k ==> !OccursAt(s, pat, k)
    ensures 0 <= r ==> from <= r && OccursAt(s, pat, r) && forall k: nat :: from <= k < r ==> !OccursAt(s, pat, k)
    decreases |s| - from
  {
    if from + |pat| > |s| then -1
    else if OccursAt(s, pat, from) then from
    else IndexOf(s, pat, from + 1)
  }

  /** The number of newlines in `s`. */
  function Newlines(s: string): nat {
    if s == "" then 0 else Newlines(s[..|s| - 1]) + if s[|s| - 1] == '\n' then 1 else 0
  }

  lemma {:induction false} NewlinesConcat(s: string, t: string)
    ensures Newlines(s + t) == Newlines(s) + Newlines(t)
  {
    if t == "" {
      assert s + t == s;
    } else {
      assert (s + t)[..|s + t| - 1] == s + t[..|t| - 1];
      NewlinesConcat(s, t[..|t| - 1]);
    }
  }

  /** Reading one more character of `s` counts one more newline or none. */
  lemma NewlinesStep(s: string, i: nat)
    requires i < |s|
    ensures Newlines(s[..i + 1]) == Newlines(s[..i]) + if s[i] == '\n' then 1 else 0
  {
    assert s[..i + 1][..i] == s[..i];
  }

  /** Two texts with newlines at the same places have the same line numbers. */
  lemma {:induction false} NewlinesAgree(s: string, t: string)
    requires |s| == |t|
    requires forall k :: 0 <= k < |s| ==> (s[k] == '\n' <==> t[k] == '\n')
    ensures Newlines(s) == Newlines(t)
  {
    if s != "" {
      NewlinesAgree(s[..|s| - 1], t[..|t| - 1]);
    }
  }

  /** An occurrence inside a part of the text is one in that part. */
  lemma OccursWithin(s: string, t: string, q: nat, pat: string, k: nat)
    requires OccursAt(s, t, q) && q <= k && k + |pat| <= q + |t|
    ensures OccursAt(s, pat, k) <==> OccursAt(t, pat, k - q)
  {
    var part := s[k..k + |pat|];
    var same := t[k - q..k - q + |pat|];
    assert forall j :: 0 <= j < |pat| ==> part[j] == s[q..q + |t|][k - q + j] == same[j];
    assert part == same;
  }

  /** A printed block comment ends where it was printed to end. */
  lemma BlockNoteEnds(src: string, p: nat, text: string)
    requires OccursAt(src, "/*" + (text + "*/"), p) && IndexOf(text, "*/", 0) < 0
    ensures IndexOf(src, "*/", p + 2) == p + 2 + |text|
  {
    OccursInParts(src, "/*", text + "*/", p);
    OccursInParts(src, text, "*/", p + 2);
    var at := p + 2 + |text|;
    forall k: nat | p + 2 <= k < at
      ensures !OccursAt(src, "*/", k)
    {
      if k + 2 <= at {
        OccursWithin(src, text, p + 2, "*/", k);
      } else {
        OccursPair(src, '*', '/', k);
        OccursPair(src, '*', '/', at);
      }
    }
  }

  // --- trimming ---

  function TrimStart(s: string): string {
    if s != "" && IsSpace(s[0]) then TrimStart(s[1..]) else s
  }

  function TrimEnd(s: string): string {
    if s != "" && IsSpace(s[|s| - 1]) then TrimEnd(s[..|s| - 1]) else s
  }

  /** The string method `trim`. */
  function Trim(s: string): string {
    TrimEnd(TrimStart(s))
  }

  lemma {:induction false} TrimStartSkips(space: string, s: string)
    requires (forall k :: 0 <= k < |space| ==> IsSpace(space[k])) && (s != "" ==> !IsSpace(s[0]))
    ensures TrimStart(space + s) == s
    decreases |space|
  {
    if space == "" {
      assert space + s == s;
    } else {
      assert (space + s)[1..] == space[1..] + s;
      TrimStartSkips(space[1..], s);
    }
  }

  lemma {:induction false} TrimEndSkips(s: string, space: string)
    requires (forall k :: 0 <= k < |space| ==> IsSpace(space[k])) && (s != "" ==> !IsSpace(s[|s| - 1]))
    ensures TrimEnd(s + space) == s
    decreases |space|
  {
    if space == "" {
      assert s + space == s;
    } else {
      assert (s + space)[..|s + space| - 1] == s + space[..|space| - 1];
      TrimEndSkips(s, space[..|space| - 1]);
    }
  }

  lemma TrimWord(before: string, s: string, after: string)
    requires forall k :: 0 <= k < |before| ==> IsSpace(before[k])
    requires forall k :: 0 <= k < |after| ==> IsSpace(after[k])
    requires s != "" ==> !IsSpace(s[0]) && !IsSpace(s[|s| - 1])
    ensures Trim(before + (s + after)) == s
  {
    if s == "" {
      assert before + (s + after) == (before + after) + "";
      TrimStartSkips(before + after, "");
    } else {
      TrimStartSkips(before, s + after);
      TrimEndSkips(s, after);
    }
  }
}
