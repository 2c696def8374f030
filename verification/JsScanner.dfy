/** The jumping scanner `jsScan`: one mutable pass with nested loops over a source. */
module JsScanner {
  import opened Chars
  import opened JsAutomaton

  class Scanner {
    const src: string
    var i: nat
    var line: nat
    var last: string
    var word: string
    var depth: int
    var resume: seq<int>
    var comments: seq<Comment>
    var literals: seq<Span>

    constructor (src: string)
      ensures this.src == src && i == 0 && comments == [] && literals == [] && InCode(last, word)
    {
      this.src := src;
      i, line, last, word, depth, resume, comments, literals := 0, 1, "", "", 0, [], [], [];
    }

    /** The position reached, were it not for an escape at the very end of the text. */
    ghost function Reached(): nat
      reads this
    {
      if i <= |src| then i else |src|
    }

    ghost predicate LineCounted()
      reads this
    {
      i <= |src| ==> line == 1 + Newlines(src[..i])
    }

    /** The automaton is in `mode` here, with this nesting. */
    ghost predicate Tracks(mode: Mode)
      requires i <= |src|
      reads this
    {
      var st := StateAt(src, i);
      st.mode == mode && st.depth == depth && st.resume == resume
    }

    /** In code between two tokens, everything found so far as the automaton finds it. */
    ghost predicate InCode(l: string, w: string)
      reads this
    {
      && LineCounted()
      && (i <= |src| ==> StateAt(src, i) == State(Code, l, w, depth, resume))
      && comments == CommentsTo(src, Reached())
      && literals == LiteralsTo(src, Reached())
    }

    /** The text that `mode` reads cannot go on here: the source, or a regular expression's line, is over. */
    ghost predicate Over(mode: Mode)
      reads this
    {
      i >= |src| || (mode.Regex? && src[i] == '\n')
    }

    /** In the text of a literal; if it is over, all that is missing is its span. */
    ghost predicate InText(mode: Mode)
      requires mode.Quoted? || mode.Template? || mode.Regex?
      reads this
    {
      && LineCounted()
      && i <= |src| + 1
      && comments == CommentsTo(src, Reached())
      && if Over(mode) then
           && literals + [Span(mode.from, i)] == LiteralsTo(src, Reached())
           && (i <= |src| ==> StateAt(src, i) == State(Code, [Delimiter(mode)], "", depth, resume))
         else
           literals == LiteralsTo(src, i) && Tracks(mode)
    }

    method Step()
      modifies this`i, this`line
      ensures i == old(i) + 1
      ensures old(LineCounted()) ==> LineCounted()
    {
      if i < |src| {
        NewlinesStep(src, i);
        if src[i] == '\n' { line := line + 1; }
      }
      i := i + 1;
    }

    /** A backslash and the character it escapes, whatever that is. */
    method Escaped(ghost mode: Mode)
      requires mode.Quoted? || mode.Template? || mode.Regex?
      requires InText(mode) && !Over(mode) && src[i] == '\\'
      requires mode.Quoted? ==> mode.q != '\\'
      modifies this`i, this`line
      ensures InText(mode) && i == old(i) + 2
    {
      hide StateAt, CommentsTo, LiteralsTo, Newlines, CodeStep, CommentStep;
      Moves(src, i);
      Step();
      if i < |src| { Moves(src, i); }
      Step();
    }

    /** From inside a template's text to its closing backtick, or into a substitution. */
    method TemplateText() returns (closed: bool)
      requires InText(Template(i))
      modifies this`i, this`line, this`literals, this`resume, this`depth
      ensures InCode(if closed then "`" else "{", "")
      ensures i >= old(i)
    {
      hide StateAt, CommentsTo, LiteralsTo, Newlines, CodeStep, CommentStep, QuotedStep, RegexStep;
      var from := i;
      while i < |src|
        invariant i >= from
        invariant InText(Template(from))
        invariant depth == old(depth) && resume == old(resume)
      {
        if src[i] == '\\' {
          Escaped(Template(from));
          continue;
        }
        Moves(src, i);
        if src[i] == '`' {
          literals := literals + [Span(from, i)];
          Step();
          return true;
        }
        if src[i] == '$' && i + 1 < |src| && src[i + 1] == '{' {
          literals := literals + [Span(from, i)];
          Step();
          Moves(src, i);
          Step();
          resume := resume + [depth];
          depth := depth + 1;
          return false;
        }
        Step();
      }
      literals := literals + [Span(from, i)];
      return true;
    }

    method RegexLiteral()
      requires i < |src| && InCode(last, word) && src[i] == '/'
      requires CodeStep(src, i, StateAt(src, i)) == OpenRegex(src, i, StateAt(src, i))
      modifies this`i, this`line, this`literals
      ensures InCode("/", "")
      ensures i > old(i)
    {
      hide StateAt, CommentsTo, LiteralsTo, Newlines, CodeStep, CommentStep, QuotedStep, TemplateStep;
      Moves(src, i);
      Step();
      RegexText();
      FlagLetters();
    }

    /** The text of a regular expression up to its closing `/`, or to the end of its line. */
    method RegexText()
      requires InText(Regex(false, i))
      modifies this`i, this`line, this`literals
      ensures AtFlags()
      ensures i >= old(i)
    {
      hide StateAt, CommentsTo, LiteralsTo, Newlines, CodeStep, CommentStep, QuotedStep, TemplateStep;
      var from := i;
      var inClass := false;
      var closed := false;
      while i < |src| && src[i] != '\n'
        invariant i >= from && !closed
        invariant InText(Regex(inClass, from))
      {
        var ch := src[i];
        if ch == '\\' {
          Escaped(Regex(inClass, from));
          continue;
        }
        Moves(src, i);
        if ch == '[' {
          inClass := true;
        } else if ch == ']' {
          inClass := false;
        } else if ch == '/' && !inClass {
          literals := literals + [Span(from, i)];
          closed := true;
          Step();
          break;
        }
        Step();
      }
      if !closed { literals := literals + [Span(from, i)]; }
    }

    /** After a regular expression, where its flags may follow. */
    ghost predicate AtFlags()
      reads this
    {
      && LineCounted()
      && comments == CommentsTo(src, Reached())
      && literals == LiteralsTo(src, Reached())
      && (i <= |src| ==>
            StateAt(src, i) == State(if i < |src| && IsLetter(src[i]) then Flags else Code, "/", "", depth, resume))
    }

    method FlagLetters()
      requires AtFlags()
      modifies this`i, this`line
      ensures InCode("/", "")
      ensures i >= old(i)
    {
      hide StateAt, CommentsTo, LiteralsTo, Newlines, CodeStep, CommentStep, QuotedStep, TemplateStep,
           RegexStep;
      while i < |src| && IsLetter(src[i])
        invariant i >= old(i)
        invariant AtFlags()
      {
        Moves(src, i);
        Step();
      }
    }

    method LineCommentText()
      requires i < |src| && InCode(last, word) && src[i] == '/' && Next?(src, i, '/')
      modifies this`i, this`comments
      ensures InCode(last, word)
      ensures i > old(i)
    {
      hide StateAt, CommentsTo, LiteralsTo, Newlines, JsAutomaton.Step;
      var j := LineEnd();
      assert src[0..i] == src[..i];
      assert CommentAt(src, i, j, 0) == Comment(line, Slice(src, i + 2, j), i, j);
      comments := comments + [Comment(line, Slice(src, i + 2, j), i, j)];
      i := j;
    }

    /** Where the line comment at `i` ends. */
    method LineEnd() returns (j: nat)
      requires i < |src| && InCode(last, word) && src[i] == '/' && Next?(src, i, '/')
      ensures i + 2 <= j <= |src| && line == 1 + Newlines(src[..i]) == 1 + Newlines(src[..j])
      ensures LiteralsTo(src, j) == literals && StateAt(src, j) == State(Code, last, word, depth, resume)
      ensures CommentsTo(src, j) == comments + [CommentAt(src, i, j, 0)]
    {
      hide StateAt, CommentsTo, LiteralsTo, Newlines, QuotedStep, TemplateStep, RegexStep, TokenStep,
           OperandExpected,
           CommentAt, IsSpace, IsWord;
      Moves(src, i);
      Moves(src, i + 1);
      NewlinesStep(src, i);
      NewlinesStep(src, i + 1);
      hide CodeStep;
      j := i + 2;
      while j < |src| && src[j] != '\n'
        invariant i + 2 <= j <= |src| && line == 1 + Newlines(src[..i]) == 1 + Newlines(src[..j])
        invariant LiteralsTo(src, j) == literals
        invariant
          var over := j == |src| || src[j] == '\n';
          && StateAt(src, j) == State(if over then Code else LineComment(i), last, word, depth, resume)
          && CommentsTo(src, j) == if over then comments + [CommentAt(src, i, j, 0)] else comments
      {
        Moves(src, j);
        NewlinesStep(src, j);
        j := j + 1;
      }
    }

    method BlockCommentText()
      requires i < |src| && InCode(last, word) && src[i] == '/' && Next?(src, i, '*')
      modifies this`i, this`line, this`comments
      ensures InCode(last, word)
      ensures i > old(i)
    {
      hide StateAt, CommentsTo, LiteralsTo, Newlines, JsAutomaton.Step;
      var end := IndexOf(src, "*/", i + 2);
      var stop := if end < 0 then |src| else end + 2;
      ghost var from := i;
      comments := comments + [Comment(line, Slice(src, i + 2, if end < 0 then |src| else end), i, stop)];
      assert src[0..from] == src[..from];
      OccursPair(src, '/', '*', i);
      BlockCommentRun(src, from, stop);
      StepTo(stop);
    }

    method StepTo(stop: nat)
      requires i <= stop <= |src| && LineCounted()
      modifies this`i, this`line
      ensures i == stop && LineCounted()
    {
      while i < stop
        invariant i <= stop && LineCounted()
      {
        Step();
      }
    }

    method StringLiteral()
      requires i < |src| && InCode(last, word) && src[i] in "'\""
      modifies this`i, this`line, this`last, this`word, this`literals
      ensures InCode(last, word)
      ensures i > old(i)
    {
      hide StateAt, CommentsTo, LiteralsTo, Newlines, CommentStep, TemplateStep, RegexStep, TokenStep,
           OperandExpected;
      var c := src[i];
      Moves(src, i);
      Step();
      var from := i;
      StringText(c);
      if i < |src| { Moves(src, i); }
      literals := literals + [Span(from, i)];
      Step();
      last, word := [c], "";
    }

    /** The text of a string, up to its quote, a newline or the end. */
    method StringText(c: char)
      requires c in "'\"" && InText(Quoted(c, i))
      modifies this`i, this`line
      ensures InText(Quoted(c, old(i))) && i >= old(i)
      ensures i < |src| ==> src[i] == c || src[i] == '\n'
    {
      hide StateAt, CommentsTo, LiteralsTo, Newlines, CodeStep, CommentStep, TemplateStep, RegexStep,
           TokenStep;
      ghost var from := i;
      while i < |src| && src[i] != c && src[i] != '\n'
        invariant i >= from
        invariant InText(Quoted(c, from))
      {
        if src[i] == '\\' {
          Escaped(Quoted(c, from));
        } else {
          Moves(src, i);
          Step();
        }
      }
    }

    /** A template from its opening backtick, or on from the `}` of a substitution. */
    method TemplateLiteral()
      requires i < |src| && InCode(last, word)
      requires src[i] == '`' || (src[i] == '}' && resume != [] && resume[|resume| - 1] == depth - 1)
      modifies this`i, this`line, this`last, this`word, this`depth, this`resume, this`literals
      ensures InCode(last, word)
      ensures i > old(i)
    {
      hide StateAt, CommentsTo, LiteralsTo, Newlines, QuotedStep, RegexStep, CommentStep, TokenStep,
           OperandExpected;
      Moves(src, i);
      if src[i] == '}' { resume, depth := resume[..|resume| - 1], depth - 1; }
      Step();
      var closed := TemplateText();
      last, word := if closed then "`" else "{", "";
    }

    method WordText()
      requires i < |src| && InCode(last, word) && IsWord(src[i])
      modifies this`i, this`last, this`word
      ensures InCode(last, word)
      ensures i > old(i)
    {
      hide StateAt, CommentsTo, LiteralsTo, Newlines, QuotedStep, TemplateStep, RegexStep, CommentStep,
           OperandExpected, IsSpace, IsWord;
      WordIsPlain(src[i]);
      Moves(src, i);
      NewlinesStep(src, i);
      var j := i + 1;
      while j < |src| && IsWord(src[j])
        invariant i < j <= |src| && line == 1 + Newlines(src[..j])
        invariant comments == CommentsTo(src, j) && literals == LiteralsTo(src, j)
        invariant StateAt(src, j) ==
          State(if j < |src| && IsWord(src[j]) then Word else Code, [src[j - 1]], src[i..j], depth, resume)
      {
        WordIsPlain(src[j]);
        Moves(src, j);
        NewlinesStep(src, j);
        j := j + 1;
      }
      word := src[i..j];
      last := [src[j - 1]];
      i := j;
    }

    /** The main loop, to the end of the source. */
    method Scan()
      requires InCode(last, word)
      modifies this`i, this`line, this`last, this`word, this`depth, this`resume, this`comments, this`literals
      ensures comments == Comments(src) && literals == Literals(src)
    {
      hide StateAt, CommentsTo, LiteralsTo, Newlines, CommentStep, TokenStep, QuotedStep, TemplateStep,
           RegexStep, OperandExpected, IsSpace, IsWord;
      while i < |src|
        invariant InCode(last, word)
        decreases |src| - i
      {
        var c := src[i];
        if c == '/' && Next?(src, i, '/') {
          LineCommentText();
        } else if c == '/' && Next?(src, i, '*') {
          BlockCommentText();
        } else if c == '\'' || c == '"' {
          StringLiteral();
        } else if c == '`' || (c == '}' && resume != [] && resume[|resume| - 1] == depth - 1) {
          TemplateLiteral();
        } else if c == '/' && OperandExpected(last, word) {
          RegexLiteral();
          last, word := "/", "";
        } else if IsSpace(c) {
          Moves(src, i);
          Step();
        } else if IsWord(c) {
          WordText();
        } else {
          Moves(src, i);
          if c == '{' { depth := depth + 1; } else if c == '}' { depth := depth - 1; }
          last, word := [c], "";
          Step();
        }
      }
    }
  }

  /** The scan of a whole source: every comment and the text of every literal. */
  method JsScan(src: string) returns (comments: seq<Comment>, literals: seq<Span>)
    ensures comments == Comments(src) && literals == Literals(src)
  {
    var scanner := new Scanner(src);
    scanner.Scan();
    return scanner.comments, scanner.literals;
  }
}
