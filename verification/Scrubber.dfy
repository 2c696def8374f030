/**
 The audit check's scrubber: a second lexer, with its own rule for regular expressions, that drops
 comments and the contents of literals. Its reference reading is again an automaton with one
 character of look-ahead; each transition says what it writes.
 */
module Scrubber {
  import opened Chars

  datatype Mode =
    | Code
    | Line
    | BlockOpen
    | Block
    | BlockClose
    | Quoted(q: char)
    | QuotedEscape(q: char)
    | Regex(inClass: bool)
    | RegexEscape(inClass: bool)
    | Flags
  {
    predicate Escape?() { QuotedEscape? || RegexEscape? }
  }

  /** `prev` is the last character that is no space, `word` the name being read or just finished,
      `last` the character before, comments left out; empty at the start. */
  datatype State = State(mode: Mode, prev: string, word: string, last: string)

  datatype Move = Move(next: State, emitted: string)

  const KEYWORDS: set<string> :=
    {"return", "typeof", "case", "in", "of", "delete", "void", "throw", "new", "else", "do",
     "instanceof", "yield", "await"}

  predicate RegexMayStart(prev: string, word: string) {
    prev == "" || prev[0] in "(,=:[!&|?{};+-*%<>~^" || word in KEYWORDS
  }

  /** What is written for a literal, and what it is remembered as. */
  function Literal(text: string, mark: string): Move {
    Move(State(Code, mark[..if mark == "" then 0 else 1], "", mark[..if mark == "" then 0 else 1]), text + mark)
  }

  function Stay(st: State, mode: Mode, emitted: string): Move {
    Move(st.(mode := mode), emitted)
  }

  function Newline(c: char): string {
    if c == '\n' then "\n" else ""
  }

  function Step(src: string, i: nat, st: State): Move
    requires i < |src|
  {
    var c := src[i];
    match st.mode
    case Code => CodeStep(src, i, st)
    case Line => Stay(st, if LineEnds(src, i) then Code else Line, "")
    case BlockOpen => Stay(st, if AtEnd(src, i) then Code else Block, "")
    case Block => BlockStep(src, i, st)
    case BlockClose => Stay(st, Code, "")
    case Quoted(q) =>
      if c == '\\' then if AtEnd(src, i) then Literal("", "\"\"") else Stay(st, QuotedEscape(q), "")
      else if c == q || AtEnd(src, i) then Literal(Newline(c), "\"\"")
      else Stay(st, Quoted(q), Newline(c))
    case QuotedEscape(q) => if AtEnd(src, i) then Literal("", "\"\"") else Stay(st, Quoted(q), "")
    case Regex(inClass) => RegexStep(src, i, st, inClass)
    case RegexEscape(inClass) => if LineEnds(src, i) then Literal("", "0") else Stay(st, Regex(inClass), "")
    case Flags => if NextIsLetter(src, i) then Stay(st, Flags, "") else Literal("", "0")
  }

  function BlockStep(src: string, i: nat, st: State): Move
    requires i < |src|
  {
    if src[i] == '*' && Next?(src, i, '/') then Stay(st, BlockClose, "")
    else Stay(st, if AtEnd(src, i) then Code else Block, Newline(src[i]))
  }

  function RegexStep(src: string, i: nat, st: State, inClass: bool): Move
    requires i < |src|
  {
    var c := src[i];
    if c == '\\' then if AtEnd(src, i) then Literal("", "0") else Stay(st, RegexEscape(inClass), "")
    else if c == '/' && !inClass then if NextIsLetter(src, i) then Stay(st, Flags, "") else Literal("", "0")
    else if LineEnds(src, i) then Literal("", "0")
    else Stay(st, Regex(if inClass then c != ']' else c == '['), "")
  }

  function CodeStep(src: string, i: nat, st: State): Move
    requires i < |src|
  {
    var c := src[i];
    if c == '/' && Next?(src, i, '/') then Stay(st, Line, "")
    else if c == '/' && Next?(src, i, '*') then Stay(st, BlockOpen, "")
    else if c == '\'' || c == '"' || c == '`' then
      if AtEnd(src, i) then Literal("", "\"\"") else Stay(st, Quoted(c), "")
    else if c == '/' && RegexMayStart(st.prev, st.word) then
      if LineEnds(src, i) then Literal("", "0") else Stay(st, Regex(false), "")
    else Move(State(Code, if IsSpace(c) then st.prev else [c], WordAfter(st.word, st.last, c), [c]), [c])
  }

  function WordAfter(word: string, last: string, c: char): string {
    if IsWord(c) then if last != "" && IsWord(last[0]) then word + [c] else [c]
    else if IsSpace(c) then word
    else ""
  }

  function StateAt(src: string, i: nat): State
    requires i <= |src|
  {
    if i == 0 then State(Code, "", "", "") else Step(src, i - 1, StateAt(src, i - 1)).next
  }

  /** What has been written before position `i` is read. */
  function Written(src: string, i: nat): string
    requires i <= |src|
  {
    if i == 0 then "" else Written(src, i - 1) + Step(src, i - 1, StateAt(src, i - 1)).emitted
  }

  lemma Moves(src: string, i: nat)
    requires i < |src|
    ensures StateAt(src, i + 1) == Step(src, i, StateAt(src, i)).next
    ensures Written(src, i + 1) == Written(src, i) + Step(src, i, StateAt(src, i)).emitted
  {
    hide Step;
  }

  // --- the scrubber's loops ---

  method Scrub(src: string) returns (out: string)
    ensures out == Written(src, |src|)
  {
    hide StateAt, Written, RegexMayStart, WordAfter, IsSpace, IsLetter;
    var prev, word, last := "", "", "";
    var i := 0;
    out := "";
    StartsInCode(src);
    while i < |src|
      invariant At(src, i, State(Code, prev, word, last), out)
    {
      var c := src[i];
      if c == '/' && Next?(src, i, '/') {
        i := SkipLine(src, i, State(Code, prev, word, last));
      } else if c == '/' && Next?(src, i, '*') {
        i, out := SkipBlock(src, i, out, State(Code, prev, word, last));
      } else if c == '\'' || c == '"' || c == '`' {
        i, out := SkipString(src, i, out);
        out := out + "\"\"";
        prev, word, last := "\"", "", "\"";
      } else if c == '/' && RegexMayStart(prev, word) {
        i := SkipRegex(src, i, out);
        out := out + "0";
        prev, word, last := "0", "", "0";
      } else {
        Moves(src, i);
        out := out + [c];
        word := WordAfter(word, last, c);
        if !IsSpace(c) { prev := [c]; }
        last := [c];
        i := i + 1;
      }
    }
  }

  lemma StartsInCode(src: string)
    ensures StateAt(src, 0) == State(Code, "", "", "") && Written(src, 0) == ""
  {
  }

  /** The automaton is in state `st` at `i`, or the source is over, and `out` is what it wrote. */
  ghost predicate At(src: string, i: nat, st: State, out: string) {
    if i <= |src| then StateAt(src, i) == st && Written(src, i) == out else Written(src, |src|) == out
  }

  method SkipLine(src: string, at: nat, ghost st: State) returns (i: nat)
    requires at < |src| && StateAt(src, at) == st && st.mode.Code? && src[at] == '/' && Next?(src, at, '/')
    ensures at < i && At(src, i, st, Written(src, at))
  {
    hide StateAt, Written, RegexMayStart, WordAfter, IsSpace;
    Moves(src, at);
    Moves(src, at + 1);
    i := at + 2;
    while i < |src| && src[i] != '\n'
      invariant at + 2 <= i <= |src| && Written(src, i) == Written(src, at)
      invariant StateAt(src, i) == if i < |src| && src[i] != '\n' then st.(mode := Line) else st
    {
      Moves(src, i);
      i := i + 1;
    }
  }

  method SkipBlock(src: string, at: nat, before: string, ghost st: State) returns (i: nat, out: string)
    requires at < |src| && At(src, at, st, before) && st.mode.Code? && src[at] == '/' && Next?(src, at, '*')
    ensures at < i && At(src, i, st, out)
  {
    hide StateAt, Written, RegexMayStart, WordAfter, IsSpace;
    Moves(src, at);
    Moves(src, at + 1);
    out := before;
    i := at + 2;
    while i < |src| && !(src[i] == '*' && Next?(src, i, '/'))
      invariant at + 2 <= i <= |src|
      invariant At(src, i, if i < |src| then st.(mode := Block) else st, out)
    {
      Moves(src, i);
      if src[i] == '\n' { out := out + "\n"; }
      i := i + 1;
    }
    if i < |src| {
      Moves(src, i);
      Moves(src, i + 1);
    }
    i := i + 2;
  }

  /** In the text of a literal marked `mark`; if it is over, all that is missing is the mark. */
  ghost predicate InText(src: string, i: nat, mode: Mode, out: string, mark: string) {
    && i <= |src| + 1 && mark != ""
    && if i >= |src| || (mode.Regex? && src[i] == '\n') then
         At(src, i, State(Code, mark[..1], "", mark[..1]), out + mark)
       else StateAt(src, i).mode == mode && Written(src, i) == out
  }

  method SkipString(src: string, at: nat, before: string) returns (i: nat, out: string)
    requires at < |src| && StateAt(src, at).mode.Code? && Written(src, at) == before && src[at] in "'\"`"
    ensures at < i && At(src, i, State(Code, "\"", "", "\""), out + "\"\"")
  {
    hide StateAt, Written, RegexMayStart, WordAfter, IsSpace;
    var q := src[at];
    Moves(src, at);
    i := at + 1;
    out := before;
    while i < |src|
      invariant at < i && InText(src, i, Quoted(q), out, "\"\"")
    {
      Moves(src, i);
      if src[i] == '\\' {
        if i + 1 < |src| { Moves(src, i + 1); }
        i := i + 2;
        continue;
      }
      if src[i] == '\n' { out := out + "\n"; }
      if src[i] == q {
        i := i + 1;
        break;
      }
      i := i + 1;
    }
  }

  method SkipRegex(src: string, at: nat, before: string) returns (i: nat)
    requires at < |src| && Written(src, at) == before && src[at] == '/' && !Next?(src, at, '/') && !Next?(src, at, '*')
    requires var st := StateAt(src, at); st.mode.Code? && RegexMayStart(st.prev, st.word)
    ensures at < i && At(src, i, State(Code, "0", "", "0"), before + "0")
  {
    hide StateAt, Written, RegexMayStart, WordAfter, IsSpace;
    Moves(src, at);
    i := at + 1;
    var inClass := false;
    while i < |src|
      invariant at < i && InText(src, i, Regex(inClass), before, "0")
    {
      var d := src[i];
      if d == '\n' { break; }
      Moves(src, i);
      if d == '\\' {
        if i + 1 < |src| { Moves(src, i + 1); }
        i := i + 2;
        continue;
      }
      if inClass {
        if d == ']' { inClass := false; }
      } else if d == '[' {
        inClass := true;
      } else if d == '/' {
        i := i + 1;
        break;
      }
      i := i + 1;
    }
    i := SkipFlags(src, i, before);
  }

  method SkipFlags(src: string, at: nat, ghost out: string) returns (i: nat)
    requires AtFlags(src, at, out)
    ensures at <= i && At(src, i, State(Code, "0", "", "0"), out + "0")
  {
    hide StateAt, Written, IsLetter;
    i := at;
    while i < |src| && IsLetter(src[i])
      invariant at <= i && AtFlags(src, i, out)
    {
      Moves(src, i);
      i := i + 1;
    }
  }

  /** After a regular expression, where its flags may follow. */
  ghost predicate AtFlags(src: string, i: nat, out: string) {
    if i < |src| && IsLetter(src[i]) then StateAt(src, i).mode == Flags && Written(src, i) == out
    else At(src, i, State(Code, "0", "", "0"), out + "0")
  }

  // --- newlines ---

  /** A newline behind a backslash in a string or a regular expression is dropped. */
  ghost function Dropped(src: string, i: nat): nat
    requires i <= |src|
  {
    if i == 0 then 0
    else Dropped(src, i - 1) + if StateAt(src, i - 1).mode.Escape?() && src[i - 1] == '\n' then 1 else 0
  }

  /** Where a mode is entered: a line comment and a regular expression never read a newline. */
  ghost predicate ReadsOn(src: string, i: nat, mode: Mode) {
    i < |src| ==>
      && (mode.Line? || mode.Regex? ==> src[i] != '\n')
      && (mode.BlockOpen? ==> src[i] == '*')
      && (mode.BlockClose? ==> src[i] == '/')
      && (mode.Flags? ==> IsLetter(src[i]))
  }

  lemma StepReadsOn(src: string, i: nat, st: State)
    requires i < |src|
    ensures ReadsOn(src, i + 1, Step(src, i, st).next.mode)
  {
    hide RegexMayStart, WordAfter, IsSpace, IsLetter;
  }

  lemma ReadsOnAt(src: string, i: nat)
    requires i <= |src|
    ensures ReadsOn(src, i, StateAt(src, i).mode)
  {
    hide Step;
    if i > 0 { StepReadsOn(src, i - 1, StateAt(src, i - 1)); }
  }

  lemma NewlinesOfMarks(c: char)
    ensures Newlines("") == Newlines("0") == Newlines("\"\"") == 0 && Newlines("\n") == Newlines("\n" + "\"\"") == 1
    ensures Newlines([c]) == if c == '\n' then 1 else 0
    ensures forall s: string :: "" + s == s
  {
    assert "\"\""[..1] == "\"" && ("\n" + "\"\"")[..2] == "\n\"" && "\n\""[..1] == "\n";
  }

  lemma StepNewlines(src: string, i: nat, st: State)
    requires i < |src| && ReadsOn(src, i, st.mode)
    ensures Newlines(Step(src, i, st).emitted) == if src[i] == '\n' && !st.mode.Escape?() then 1 else 0
  {
    hide RegexMayStart, WordAfter, IsSpace, Newlines;
    NewlinesOfMarks(src[i]);
  }

  /** Newlines are conserved but for the dropped ones: everything read is written or dropped. */
  lemma {:induction false} NewlinesConserved(src: string, i: nat)
    requires i <= |src|
    ensures Newlines(src[..i]) == Newlines(Written(src, i)) + Dropped(src, i)
  {
    hide StateAt, Step, Newlines;
    if i > 0 {
      NewlinesConserved(src, i - 1);
      Moves(src, i - 1);
      ReadsOnAt(src, i - 1);
      StepNewlines(src, i - 1, StateAt(src, i - 1));
      NewlinesStep(src, i - 1);
      NewlinesConcat(Written(src, i - 1), Step(src, i - 1, StateAt(src, i - 1)).emitted);
    }
  }

  lemma {:induction false} WrittenGrows(src: string, i: nat, j: nat)
    requires i <= j <= |src|
    ensures Written(src, i) <= Written(src, j)
    decreases j
  {
    hide StateAt, Step;
    if i < j { WrittenGrows(src, i, j - 1); }
  }

  // --- what the output cannot hold ---

  /** Nothing that opens a comment, no quote but a pair of double ones in a row. */
  predicate Clean(out: string) {
    && (forall k :: 0 <= k < |out| - 1 && out[k] == '/' ==> out[k + 1] != '/' && out[k + 1] != '*')
    && '\'' !in out && '`' !in out
    && Paired(out)
  }

  /** Double quotes come in adjacent pairs, read from the end. */
  predicate Paired(out: string) {
    out == "" ||
    (if out[|out| - 1] == '"' then |out| > 1 && out[|out| - 2] == '"' && Paired(out[..|out| - 2])
     else Paired(out[..|out| - 1]))
  }

  /** After a `/` that was kept the next character written is neither `/` nor `*`. */
  ghost predicate SlashGuarded(src: string, i: nat, mode: Mode, out: string) {
    out != "" && out[|out| - 1] == '/' ==>
      || mode.Quoted? || mode.QuotedEscape?
      || (mode.Code? && (i < |src| ==> src[i] != '/' && src[i] != '*'))
  }

  lemma StepClean(src: string, i: nat, st: State, out: string)
    requires i < |src| && Clean(out) && SlashGuarded(src, i, st.mode, out)
    ensures var m := Step(src, i, st);
            Clean(out + m.emitted) && SlashGuarded(src, i + 1, m.next.mode, out + m.emitted)
  {
    hide RegexMayStart, WordAfter, IsSpace;
    var m := Step(src, i, st);
    var e := m.emitted;
    assert e == "" || e == "\n" || e == "0" || e == "\"\"" || e == "\n" + "\"\"" || (st.mode.Code? && e == [src[i]]);
    AppendClean(out, e);
  }

  lemma AppendClean(out: string, e: string)
    requires Clean(out) && |e| <= 3
    requires e == "" || e == "\n" || e == "0" || e == "\"\"" || e == "\n" + "\"\"" || (|e| == 1 && e[0] !in "'\"`")
    requires out != "" && out[|out| - 1] == '/' && e != "" ==> e[0] != '/' && e[0] != '*'
    ensures Clean(out + e)
  {
    if e == "" {
      assert out + e == out;
    } else if |e| == 1 {
      assert (out + e)[..|out|] == out;
    } else if |e| == 2 {
      assert (out + e)[..|out|] == out;
    } else {
      assert (out + e)[..|out| + 1] == out + "\n" && (out + "\n")[..|out|] == out;
    }
  }

  lemma EmptyIsClean()
    ensures Clean("")
  {
  }

  lemma {:induction false} CleanAt(src: string, i: nat)
    requires i <= |src|
    ensures Clean(Written(src, i)) && SlashGuarded(src, i, StateAt(src, i).mode, Written(src, i))
  {
    hide StateAt, Step, Clean, Written;
    if i == 0 {
      StartsInCode(src);
      EmptyIsClean();
    } else {
      CleanAt(src, i - 1);
      Moves(src, i - 1);
      StepClean(src, i - 1, StateAt(src, i - 1), Written(src, i - 1));
    }
  }

  /** The scrubbed source opens no comment, holds no single or back quote, and double ones only in pairs. */
  lemma ScrubbedIsClean(src: string)
    ensures Clean(Written(src, |src|))
  {
    hide Written, StateAt;
    CleanAt(src, |src|);
  }

  /** As many lines come out as go in if and only if no escaped newline is dropped. */
  lemma ScrubKeepsLines(src: string)
    ensures Newlines(Written(src, |src|)) == Newlines(src) <==> Dropped(src, |src|) == 0
  {
    hide Written, StateAt, Newlines;
    NewlinesConserved(src, |src|);
    assert src[..|src|] == src;
  }

  /** A string that goes on behind an escaped newline: two lines go in, one comes out. */
  lemma EscapedNewlineLosesLine()
    ensures var src := "'\\\n'"; Newlines(src) == 1 && Newlines(Written(src, |src|)) == 0
  {
    hide Written, StateAt, RegexMayStart, WordAfter, IsSpace, IsLetter;
    var src := "'\\\n'";
    StartsInCode(src);
    Moves(src, 0);
    Moves(src, 1);
    assert StateAt(src, 2).mode.QuotedEscape?;
    assert Dropped(src, 3) == Dropped(src, 2) + 1;
    NewlinesConserved(src, |src|);
    OneNewline();
    assert src[..|src|] == src;
  }

  lemma OneNewline()
    ensures Newlines("'\\\n'") == 1
  {
    assert "'\\\n'"[..3] == "'\\\n" && "'\\\n"[..2] == "'\\" && "'\\"[..1] == "'" && "'"[..0] == "";
    assert Newlines("'") == 0 && Newlines("'\\") == 0;
  }
}
