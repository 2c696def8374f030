/** Object literals whose keys the reader loses or makes up, one for each way it goes wrong. */
module ObjectKeysMisread {
  import opened Chars
  import opened Wrappers
  import opened ObjectKeys
  import opened ObjectTokens
  import opened ObjectKeysRoundTrip
  import JsTokens

  // --- accessors and methods behind a modifier ---

  /** The name of an accessor in brackets is dropped for its modifier, */
  lemma ComputedAccessorMisread()
    ensures var r := Read("{get [x](){}}", 0); r.keys == ["get"] && r.unreadable == None
  {
    hide Read, Walk;
    var name := Group('[', Cons(Ch('x'), Nil));
    assert ToksText(Cons(Ch('x'), Nil)) == "x";
    assert TokText(name) == "[x]";
    assert FitAll(Cons(Ch('x'), Nil), "]") && AllMeant(Cons(Ch('x'), Nil), Ch('['));
    AccessorMisread("{get [x](){}}", name);
  }

  /** and so is one in quotes. */
  lemma QuotedAccessorMisread()
    ensures var r := Read("{get 'k'(){}}", 0); r.keys == ["get"] && r.unreadable == None
  {
    hide Read, Walk;
    var name := Str('\'', [JsTokens.Plain('k')]);
    assert JsTokens.PrintText([JsTokens.Plain('k')]) == "k";
    assert TokText(name) == "'k'";
    AccessorMisread("{get 'k'(){}}", name);
  }

  lemma AccessorMisread(src: string, name: Tok)
    requires (name.Str? || (name.Group? && name.open == '[')) && Fits(name, "") && Meant(name, Ch(')'))
    requires src == "{get " + (TokText(name) + "(){}}")
    ensures Read(src, 0).keys == ["get"] && Read(src, 0).unreadable == None
  {
    hide Read, Walk, Fits, Meant, TokText;
    var tail := Cons(name, ParametersAndBody());
    var e := Keyed(Nil, One("get"), Cons(Ch(' '), Nil), Call(tail));
    ParametersAndBodyText();
    GetIsPlain();
    assert ToksText(tail) == TokText(name) + "(){}";
    assert EntryText(e) == "" + ("get" + (" " + (TokText(name) + "(){}")));
    OneEntryRead(src, e);
  }

  /** A comment between the words of a key leaves no space: the words become one name. */
  lemma JoinedAccessorMisread()
    ensures var r := Read("{get/**/x(){}}", 0); r.keys == ["getx"] && r.unreadable == None
  {
    hide Read, Walk, Fits, Meant, TokText, IsWordText, IsPlainName, IsSpread, IsGap, IsCallTail, ToksText,
         WordsText, KeyText;
    var e := Keyed(Nil, GetThenX(), Nil, Call(ParametersAndBody()));
    ParametersAndBodyText();
    GetIsPlain();
    GetThenXText();
    assert EntryText(e) == "" + ("get/**/x" + ("" + "(){}"));
    OneEntryRead("{get/**/x(){}}", e);
  }

  function GetThenX(): Words {
    Then("get", Cons(BlockNote(""), Nil), One("x"))
  }

  lemma GetThenXText()
    ensures WordsText(GetThenX()) == "get/**/x" && KeyText(GetThenX()) == "getx" && WordsFit(GetThenX())
    ensures !IsSpread("getx") && !IsSpread("get")
  {
    hide IsWordText, IsPlainName, IsSpace;
    GetIsPlain();
    var note := BlockNote("");
    assert TokText(note) == "/**/" && ToksText(Cons(note, Nil)) == "/**/" + "";
    assert IsGapTok(note) && IsGap(Cons(note, Nil));
    assert GapBlanks(Cons(note, Nil)) == "" + "";
    assert "getx"[0] != '.' && "getx"[..3][0] == 'g';
  }

  function ParametersAndBody(): Toks {
    Cons(Group('(', Nil), Cons(Group('{', Nil), Nil))
  }

  lemma ParametersAndBodyText()
    ensures ToksText(ParametersAndBody()) == "(){}" && ToksText(Cons(Ch(' '), Nil)) == " " && ToksText(Nil) == ""
    ensures IsCallTail(ParametersAndBody()) && TailMeant(ParametersAndBody()) && IsGap(Cons(Ch(' '), Nil)) && IsGap(Nil)
  {
    var body := Group('{', Nil);
    assert TokText(Group('(', Nil)) == "()" && TokText(body) == "{}" && ToksText(Cons(body, Nil)) == "{}";
    assert Fits(body, "") && Fits(Group('(', Nil), "") && Meant(body, Ch(')')) && Meant(Group('(', Nil), Ch(')'));
    assert IsCallTail(Cons(body, Nil)) && TailMeant(Cons(body, Nil));
    assert IsGapTok(Ch(' ')) && TokText(Ch(' ')) == " ";
  }

  lemma GetIsPlain()
    ensures IsPlainName("get") && IsPlainName("getx") && IsWordText("get") && IsWordText("x")
  {
    hide IsLetter;
    LettersArePlain('g');
    LettersArePlain('e');
    LettersArePlain('t');
    LettersArePlain('x');
  }

  lemma LettersArePlain(c: char)
    requires 'a' <= c <= 'z'
    ensures IsWord(c) && !IsDigit(c) && !IsSpace(c) && c !in "'\"`([{)]}/:,"
  {
  }

  lemma OneEntryRead(src: string, e: Entry)
    requires EntryFits(e) && EntryMeant(e) && src == "{" + (EntryText(e) + "}")
    ensures Read(src, 0).keys == KeysOf(e) && Read(src, 0).unreadable == WhyOf(e)
  {
    hide Read, EntryFits, EntryMeant, EntryText, KeysOf, WhyOf;
    assert src[0..|src|] == src;
    ObjectKeysRoundTrip.ObjectKeysRoundTrip(src, 0, [e]);
    assert [e][1..] == [] && KeysOf(e) + [] == KeysOf(e);
  }

  // --- the walk over the examples below ---

  /** In the value of an entry, right behind its colon. */
  function InValue(keys: seq<string>): Walker {
    Walker(1, None, "", None, true, ":", keys, None)
  }

  lemma OpensLiteral(src: string)
    requires |src| > 0 && src[0] == '{'
    ensures Goes(src, 0, FRESH, 1, Begin("{", [], None))
  {
    hide Walk, PushKey;
    ColonIsNoSpace();
    CharGoes(src, 0, FRESH);
  }

  /** A key of one letter and its colon. */
  lemma KeyAndColon(src: string, j: nat, key: char, w: Walker)
    requires j + 1 < |src| && src[j] == key && src[j + 1] == ':' && 'a' <= key <= 'z'
    requires w == Begin(w.prev, w.keys, None)
    ensures Goes(src, j, w, j + 2, InValue(w.keys + [[key]]))
  {
    hide Walk, Goes, IsSpace, RegexMayFollow, PushKey, IsPlainName, OccursAt;
    LetterKey(key);
    LettersArePlain(key);
    OccursChar(src, key, j);
    var named := WordsGo(src, j, [key], w);
    assert named.tok == "" + [key] + "";
    ColonEndsKey(src, j + 1, key, named);
    GoesOn(src, j, w, j + 1, named, j + 2, InValue(w.keys + [[key]]));
  }

  lemma ColonEndsKey(src: string, j: nat, key: char, w: Walker)
    requires j < |src| && src[j] == ':' && 'a' <= key <= 'z'
    requires InKey(w) && w.tok == "" + [key] + "" && w.quoted.None? && w.unreadable.None?
    ensures Goes(src, j, w, j + 1, InValue(w.keys + [[key]]))
  {
    hide Walk, IsSpace, RegexMayFollow, PushKey, IsPlainName;
    ColonIsNoSpace();
    LetterKey(key);
    CharGoes(src, j, w);
    PushesKey(w.(prev := ":"), "", [key], "");
  }

  lemma LetterKey(key: char)
    requires 'a' <= key <= 'z'
    ensures IsKeyText([key]) && IsPlainName([key]) && IsBlank("")
  {
    LettersArePlain(key);
  }

  /** From the start of a literal to the value of its first key. */
  lemma FirstValue(src: string)
    requires |src| > 3 && src[0] == '{' && src[1] == 'a' && src[2] == ':'
    ensures Goes(src, 0, FRESH, 3, InValue(["a"]))
  {
    hide Walk, Goes;
    OpensLiteral(src);
    KeyAndColon(src, 1, 'a', Begin("{", [], None));
    assert [] + [['a']] == ["a"];
    GoesOn(src, 0, FRESH, 1, Begin("{", [], None), 3, InValue(["a"]));
  }

  // --- templates in templates ---

  /** A template in a substitution of a template: the outer one is taken to end where the inner begins,
      and the inner one's text is read as code. */
  lemma NestedTemplateMisread()
    ensures var r := Read("{a:`${`,b:`}`}", 0); r.keys == ["a", "b"] && r.unreadable == None && r.end == 13
  {
    hide Walk, PushKey, IsSpace, RegexMayFollow, StringEnd, Goes;
    var src := "{a:`${`,b:`}`}";
    var w, w' := InValue(["a"]), InValue(["a", "b"]);
    FirstValue(src);
    assert StringEnd(src, 4, '`') == 6 by { EndsSoon(src, 4, 6); }
    SkippedInValue(src, 3, w);
    CommaGoes(src, 7, w.(prev := "`"), ["a"], None);
    KeyAndColon(src, 8, 'b', Begin(",", ["a"], None));
    assert ["a"] + [['b']] == ["a", "b"];
    assert StringEnd(src, 11, '`') == 12 by { EndsSoon(src, 11, 12); }
    SkippedInValue(src, 10, w');
    BraceEnds(src, 13, w'.(prev := "`"), ["a", "b"], None);
    GoesOn(src, 0, FRESH, 3, w, 7, w.(prev := "`"));
    GoesOn(src, 0, FRESH, 7, w.(prev := "`"), 8, Begin(",", ["a"], None));
    GoesOn(src, 0, FRESH, 8, Begin(",", ["a"], None), 10, w');
    GoesOn(src, 0, FRESH, 10, w', 13, w'.(prev := "`"));
    SameWalk(src, 0, FRESH, 13, w'.(prev := "`"));
  }

  /** What is taken for a template in a value is skipped. */
  lemma SkippedInValue(src: string, j: nat, w: Walker)
    requires j < |src| && src[j] == '`' && w.str.None? && StringEnd(src, j + 1, '`') < |src|
    ensures Goes(src, j, w, StringEnd(src, j + 1, '`') + 1, w.(prev := "`"))
  {
    hide Walk, StringEnd, Goes;
    var inside := w.(prev := "`", str := Some(Text('`', false, "")));
    TemplateOpens(src, j, w);
    SkipsString(src, j + 1, inside);
    assert inside.(str := None, prev := "`") == w.(prev := "`");
    GoesOn(src, j, w, j + 1, inside, StringEnd(src, j + 1, '`') + 1, w.(prev := "`"));
  }

  lemma {:induction false} EndsSoon(src: string, k: nat, end: nat)
    requires k <= end < |src| && src[end] == '`' && forall i :: k <= i < end ==> src[i] != '`' && src[i] != '\\'
    ensures StringEnd(src, k, '`') == end
    decreases end - k
  {
    if k < end { EndsSoon(src, k + 1, end); }
  }

  lemma SameWalk(src: string, j: nat, w: Walker, k: nat, w': Walker)
    requires Goes(src, j, w, k, w')
    ensures Walk(src, j, w) == Walk(src, k, w')
  {
    hide Walk;
  }

  /** It need not go wrong: here the backticks pair up differently, but the keys are the same. */
  lemma NestedTemplateMayNotMatter()
    ensures var r := Read("{a:`x${`y`}`,b:c}", 0); r.keys == ["a", "b"] && r.unreadable == None && r.end == 16
    ensures Holds("${`y`}", '`')
  {
    hide Walk, PushKey, IsSpace, RegexMayFollow, StringEnd, Goes, Holds;
    var src := "{a:`x${`y`}`,b:c}";
    var w := InValue(["a"]);
    FirstValue(src);
    LettersArePlain('y');
    LettersArePlain('c');
    EndsSoon(src, 4, 7);
    SkippedInValue(src, 3, w);
    var inner := QuietChar(src, 8, w.(prev := "`"));
    EndsSoon(src, 10, 11);
    SkippedInValue(src, 9, inner);
    CommaGoes(src, 12, inner.(prev := "`"), ["a"], None);
    GoesOn(src, 0, FRESH, 3, w, 8, w.(prev := "`"));
    GoesOn(src, 0, FRESH, 8, w.(prev := "`"), 9, inner);
    GoesOn(src, 0, FRESH, 9, inner, 12, inner.(prev := "`"));
    GoesOn(src, 0, FRESH, 12, inner.(prev := "`"), 13, Begin(",", ["a"], None));
    SecondKey(src);
    BacktickInside();
  }

  lemma SecondKey(src: string)
    requires |src| == 17 && src[13..] == "b:c}" && Goes(src, 0, FRESH, 13, Begin(",", ["a"], None))
    ensures var (w, end) := Walk(src, 0, FRESH); end == 16 && w.keys == ["a", "b"] && w.unreadable == None
  {
    hide Walk, PushKey, IsSpace, RegexMayFollow, Goes;
    var w := InValue(["a", "b"]);
    assert src[13] == 'b' && src[14] == ':' && src[15] == 'c' && src[16] == '}';
    LettersArePlain('c');
    KeyAndColon(src, 13, 'b', Begin(",", ["a"], None));
    assert ["a"] + [['b']] == ["a", "b"];
    var behind := QuietChar(src, 15, w);
    BraceEnds(src, 16, behind, ["a", "b"], None);
    GoesOn(src, 0, FRESH, 13, Begin(",", ["a"], None), 15, w);
    GoesOn(src, 0, FRESH, 15, w, 16, behind);
    SameWalk(src, 0, FRESH, 16, behind);
  }

  lemma BacktickInside()
    ensures Holds("${`y`}", '`')
  {
    assert "${`y`}"[1..][1..] == "`y`}";
    assert Holds("`y`}", '`');
  }

  // --- slashes ---

  /** A division after `++`: it is taken to start a regular expression, and the next key is part of that. */
  lemma DivisionMisread()
    ensures var r := Read("{a:i++/2,b:1/1}", 0); r.keys == ["a"] && r.unreadable == None && r.end == 14
  {
    hide Walk, Goes, PushKey, IsSpace, RegexMayFollow, ToksText, FitAll, AllTaken, Increment;
    var src := "{a:i++/2,b:1/1}";
    var w := InValue(["a"]);
    FirstValue(src);
    IncrementText();
    assert src[3..6] == "i++";
    var before := QuietToks(src, 3, Increment(), w, "/");
    GoesOn(src, 0, FRESH, 3, w, 6, before);
    var behind := SwallowsKey(src, before);
    GoesOn(src, 0, FRESH, 6, before, 14, behind);
    BraceEnds(src, 14, behind, ["a"], None);
    SameWalk(src, 0, FRESH, 14, behind);
  }

  lemma SwallowsKey(src: string, w: Walker) returns (w': Walker)
    requires src == "{a:i++/2,b:1/1}" && w == InValue(w.keys).(prev := "+")
    ensures Goes(src, 6, w, 14, w') && w' == w.(prev := "1")
  {
    hide Walk, IsSpace, RegexMayFollow, EndOfRegex, TakeTurn;
    IncrementText();
    RegexToTheSlash(src);
    WalkStep(src, 6, w);
    SlashTurn(src, 6, w);
    OneIsNoSpace();
    w' := QuietChar(src, 13, w.(prev := "/"));
  }

  lemma OneIsNoSpace()
    ensures !IsSpace('1')
  {
  }

  function Increment(): Toks {
    Cons(Ch('i'), Cons(Ch('+'), Cons(Ch('+'), Nil)))
  }

  lemma IncrementText()
    ensures ToksText(Increment()) == "i++" && FitAll(Increment(), "/") && AllTaken(Increment(), ":")
    ensures NoComma(Increment())
    ensures PrevAfterAll(Increment(), ":") == "+" && RegexMayFollow("+")
  {
    var one := Cons(Ch('+'), Nil);
    var two := Cons(Ch('+'), one);
    NoMarks();
    assert ToksText(one) == "+" && FitAll(one, "/") && AllTaken(one, "+") && PrevAfterAll(one, "+") == "+";
    assert ToksText(two) == "++" && FitAll(two, "/") && AllTaken(two, "i") && PrevAfterAll(two, "i") == "+";
    assert NoComma(one) && NoComma(two);
  }

  lemma RegexToTheSlash(src: string)
    requires src == "{a:i++/2,b:1/1}"
    ensures EndOfRegex(src, 6) == 12
  {
    assert EndOfRegexText(src, 11, false) == 12;
    assert EndOfRegexText(src, 9, false) == 12;
    assert EndOfRegexText(src, 7, false) == 12;
  }

  /** A regular expression after a word: it is taken for a division, so the bracket in it is counted
      and the next `/` starts the regular expression instead, which runs off with the rest. */
  lemma RegexAfterWordMisread()
    ensures var r := Read("{a:b in/{/,c:d}", 0); r.keys == ["a"] && r.unreadable == None && r.end > 15
  {
    hide Walk, PushKey, IsSpace, RegexMayFollow, EndOfRegex;
    var src := "{a:b in/{/,c:d}";
    var w := InValue(["a"]);
    FirstValue(src);
    BeforeTheSlashText();
    assert src[3..8] == "b in/" && src[8] == '{';
    var before := QuietToks(src, 3, BeforeTheSlash(), w, "{");
    OpenGoes(src, 8, before);
    SlashRunsOff(src, before.(prev := "{", depth := 2));
  }

  function BeforeTheSlash(): Toks {
    Cons(Ch('b'), Cons(Ch(' '), Cons(Ch('i'), Cons(Ch('n'), Cons(Ch('/'), Nil)))))
  }

  lemma BeforeTheSlashText()
    ensures ToksText(BeforeTheSlash()) == "b in/" && FitAll(BeforeTheSlash(), "{") && AllTaken(BeforeTheSlash(), ":")
    ensures PrevAfterAll(BeforeTheSlash(), ":") == "/" && NoComma(BeforeTheSlash())
  {
    hide IsSpace, RegexMayFollow;
    var one := Cons(Ch('/'), Nil);
    var two := Cons(Ch('n'), one);
    var three := Cons(Ch('i'), two);
    var four := Cons(Ch(' '), three);
    NoMarks();
    assert ToksText(one) == "/" && FitAll(one, "{") && AllTaken(one, "n") && PrevAfterAll(one, "n") == "/";
    assert ToksText(two) == "n/" && FitAll(two, "{") && AllTaken(two, "i") && PrevAfterAll(two, "i") == "/";
    assert ToksText(three) == "in/" && FitAll(three, "{") && AllTaken(three, "b") && PrevAfterAll(three, "b") == "/";
    assert ToksText(four) == " in/" && FitAll(four, "{") && AllTaken(four, "b") && PrevAfterAll(four, "b") == "/";
  }

  lemma NoMarks()
    ensures !IsSpace('b') && IsSpace(' ') && !IsSpace('i') && !IsSpace('n') && !IsSpace('/') && !IsSpace('+')
    ensures !RegexMayFollow("n")
  {
    LettersArePlain('b');
    LettersArePlain('i');
    LettersArePlain('n');
    SpaceAndSigns();
    hide IsSpace;
  }

  lemma SpaceAndSigns()
    ensures IsSpace(' ') && !IsSpace('/') && !IsSpace('+')
  {
  }

  lemma SlashRunsOff(src: string, w: Walker)
    requires src == "{a:b in/{/,c:d}" && w.str.None? && w.prev == "{"
    ensures Walk(src, 9, w) == (w.(prev := "/"), 16)
  {
    hide Walk, TakeTurn, EndOfRegex;
    RegexRunsOff(src);
    WalkStep(src, 9, w);
    SlashTurn(src, 9, w);
    WalkOver(src, 16, w.(prev := "/"));
  }

  lemma RegexRunsOff(src: string)
    requires src == "{a:b in/{/,c:d}"
    ensures EndOfRegex(src, 9) == 15
  {
    assert EndOfRegexText(src, 14, false) == 15;
    assert EndOfRegexText(src, 12, false) == 15;
    assert EndOfRegexText(src, 10, false) == 15;
  }
}
