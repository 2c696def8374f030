/** Reading the top-level keys of an object literal: the loop, and the walk it computes. */
module ObjectKeys {
  import opened Chars
  import opened Wrappers
  import opened Brackets

  /** Why a key cannot be read. */
  datatype Why =
    | ComputedKey
    | NotPlain(text: string)
    | AfterQuoted(quoted: string, text: string)
    | EscapeInQuoted(quoted: string)

  /** The string being skipped or, where a key starts, read as the key. */
  datatype Text = Text(q: char, key: bool, text: string)

  /** The walker's variables. `prev` is the last character that is no space, empty at first. */
  datatype Walker = Walker(depth: int, str: Option<Text>, tok: string, quoted: Option<string>, skipValue: bool,
                           prev: string, keys: seq<string>, unreadable: Option<Why>)

  const FRESH := Walker(0, None, "", None, false, "", [], None)

  datatype Reading = Reading(keys: seq<string>, end: nat, spread: bool, unreadable: Option<Why>)

  predicate Quote(c: char) { c in "'\"`" }

  /** `/^$|[(,=:[!&|?{};+\-*%<>~^]/` */
  predicate RegexMayFollow(prev: string) {
    prev == "" || prev[0] in "(,=:[!&|?{};+-*%<>~^"
  }

  /** `/^[A-Za-z_$][\w$]*$/` */
  predicate IsPlainName(t: string) {
    t != "" && !IsDigit(t[0]) && forall k :: 0 <= k < |t| ==> IsWord(t[k])
  }

  /** The names character by character. */
  lemma PlainNamesAre(t: string)
    ensures IsPlainName(t) <==>
              && t != "" && (t[0] in LOWER || t[0] in UPPER || t[0] in "_$")
              && forall k :: 0 <= k < |t| ==> t[k] in LOWER || t[k] in UPPER || t[k] in DIGITS || t[k] in "_$"
  {
    hide IsWord, IsDigit;
    forall k | 0 <= k < |t| { ClassesAre(t[k]); }
    if t != "" && t[0] in DIGITS { NoDigitStarts(t[0]); }
  }

  lemma NoDigitStarts(c: char)
    requires c in DIGITS
    ensures c !in LOWER && c !in UPPER && c !in "_$"
  {
    hide LOWER, UPPER, DIGITS;
    LowerAre(c);
    UpperAre(c);
    DigitsAre(c);
  }

  predicate IsSpread(t: string) {
    |t| >= 3 && t[..3] == "..."
  }

  function CannotRead(unreadable: Option<Why>, why: Why): Option<Why> {
    if unreadable.None? then Some(why) else unreadable
  }

  function PushKey(w: Walker): Walker {
    var t := Trim(w.tok);
    var done := w.(tok := "", quoted := None);
    if w.quoted.Some? then
      if t != "" then done.(unreadable := CannotRead(w.unreadable, AfterQuoted(w.quoted.value, t)))
      else if '\\' in w.quoted.value then done.(unreadable := CannotRead(w.unreadable, EscapeInQuoted(w.quoted.value)))
      else done.(keys := w.keys + [w.quoted.value])
    else if IsPlainName(t) then done.(keys := w.keys + [t])
    else if t != "" && !IsSpread(t) then done.(unreadable := CannotRead(w.unreadable, NotPlain(t)))
    else done
  }

  /** The index of the last character of the regular expression at `at`, its flags included. */
  function EndOfRegex(src: string, at: nat): nat {
    EndOfFlags(src, EndOfRegexText(src, at + 1, false))
  }

  function EndOfRegexText(src: string, j: nat, inClass: bool): (end: nat)
    ensures j <= end
    decreases |src| - j
  {
    if j >= |src| || src[j] == '\n' then j
    else if src[j] == '\\' then EndOfRegexText(src, j + 2, inClass)
    else if src[j] == '[' then EndOfRegexText(src, j + 1, true)
    else if src[j] == ']' then EndOfRegexText(src, j + 1, false)
    else if src[j] == '/' && !inClass then j
    else EndOfRegexText(src, j + 1, inClass)
  }

  function EndOfFlags(src: string, j: nat): (end: nat)
    ensures j <= end
    decreases |src| - j
  {
    if j + 1 < |src| && IsLetter(src[j + 1]) then EndOfFlags(src, j + 1) else j
  }

  /** One turn of the walker's loop: the variables, the index it goes on at, and whether it stops at `j`. */
  datatype Turn = Turn(w: Walker, next: nat, over: bool)

  function TakeTurn(src: string, j: nat, w: Walker): (t: Turn)
    requires j < |src|
    ensures t.next > j
  {
    var c := src[j];
    if w.str.Some? then TextTurn(src, j, w, w.str.value)
    else if c == '/' && Next?(src, j, '/') then
      var nl := IndexOf(src, "\n", j);
      OccursChar(src, '\n', if nl < 0 then 0 else nl);
      Turn(w, if nl < 0 then |src| + 1 else nl, false)
    else if c == '/' && Next?(src, j, '*') then
      var e := IndexOf(src, "*/", j + 2);
      Turn(w, if e < 0 then |src| + 1 else e + 2, false)
    else if c == '/' && RegexMayFollow(w.prev) then Turn(w.(prev := "/"), EndOfRegex(src, j) + 1, false)
    else CodeTurn(c, j, if IsSpace(c) then w else w.(prev := [c]))
  }

  function TextTurn(src: string, j: nat, w: Walker, s: Text): Turn
    requires j < |src|
  {
    var c := src[j];
    if c == '\\' then
      var escaped := if j + 1 < |src| then [src[j + 1]] else "";
      Turn(if s.key then w.(str := Some(s.(text := s.text + [c] + escaped))) else w, j + 2, false)
    else if c == s.q then
      Turn(w.(str := None, prev := [c], quoted := if s.key then Some(s.text) else w.quoted), j + 1, false)
    else Turn(if s.key then w.(str := Some(s.(text := s.text + [c]))) else w, j + 1, false)
  }

  predicate AtKey(w: Walker) {
    w.depth == 1 && !w.skipValue && IsBlank(w.tok) && w.quoted.None?
  }

  function CodeTurn(c: char, j: nat, w: Walker): Turn {
    if Quote(c) then Turn(w.(str := Some(Text(c, AtKey(w) && c != '`', ""))), j + 1, false)
    else
      var w := if AtKey(w) && c == '[' then w.(unreadable := CannotRead(w.unreadable, ComputedKey)) else w;
      if Opens(c) then Turn(w.(depth := w.depth + 1), j + 1, false)
      else if Closes(c) then
        if w.depth - 1 == 0 then
          Turn(if w.skipValue then w.(depth := 0) else PushKey(w.(depth := 0)), j + 1, true)
        else Turn(w.(depth := w.depth - 1), j + 1, false)
      else Turn(if w.depth == 1 then TopLevel(c, w) else w, j + 1, false)
  }

  /** A separator, or a character of a key, at the top level of the literal. */
  function TopLevel(c: char, w: Walker): Walker {
    if c == ':' && !w.skipValue then PushKey(w).(skipValue := true)
    else if c == ',' then (if w.skipValue then w else PushKey(w)).(tok := "", quoted := None, skipValue := false)
    else if w.skipValue then w
    else w.(tok := w.tok + [c])
  }

  /** The walk from `j` on: the variables at its end and the index it ends at. */
  function Walk(src: string, j: nat, w: Walker): (Walker, nat)
    decreases |src| - j
  {
    if j >= |src| then (w, j)
    else
      var t := TakeTurn(src, j, w);
      if t.over then (t.w, j) else Walk(src, t.next, t.w)
  }

  function Read(src: string, open: nat): Reading {
    var (w, end) := Walk(src, open, FRESH);
    Reading(w.keys, end, IndexOf(Slice(src, open, end + 1), "...", 0) >= 0, w.unreadable)
  }

  // --- the walker's loops ---

  method EndOfRegexAt(src: string, at: nat) returns (end: nat)
    ensures end == EndOfRegex(src, at)
  {
    var j := at + 1;
    var inClass := false;
    while j < |src| && src[j] != '\n'
      invariant EndOfRegexText(src, at + 1, false) == EndOfRegexText(src, j, inClass)
      decreases |src| - j
    {
      var c := src[j];
      if c == '\\' {
        j := j + 2;
        continue;
      }
      if c == '[' {
        inClass := true;
      } else if c == ']' {
        inClass := false;
      } else if c == '/' && !inClass {
        break;
      }
      j := j + 1;
    }
    while j + 1 < |src| && IsLetter(src[j + 1])
      invariant EndOfRegex(src, at) == EndOfFlags(src, j)
      decreases |src| - j
    {
      j := j + 1;
    }
    return j;
  }

  /** One turn of the walk. */
  lemma WalkStep(src: string, j: nat, w: Walker)
    requires j < |src|
    ensures var t := TakeTurn(src, j, w); Walk(src, j, w) == if t.over then (t.w, j) else Walk(src, t.next, t.w)
  {
  }

  class KeyReader {
    const src: string
    var keys: seq<string>
    var unreadable: Option<Why>
    var depth: int
    var str: Option<Text>
    var tok: string
    var quoted: Option<string>
    var j: nat
    var skipValue: bool
    var prev: string

    constructor (src: string, open: nat)
      ensures this.src == src && j == open && State() == FRESH
    {
      this.src := src;
      keys, unreadable := [], None;
      depth, str, tok, quoted, j, skipValue, prev := 0, None, "", None, open, false, "";
    }

    ghost function State(): Walker
      reads this
    {
      Walker(depth, str, tok, quoted, skipValue, prev, keys, unreadable)
    }

    method CannotReadIt(why: Why)
      modifies this`unreadable
      ensures unreadable == CannotRead(old(unreadable), why)
    {
      if unreadable.None? { unreadable := Some(why); }
    }

    method PushIt()
      modifies this`keys, this`unreadable, this`tok, this`quoted
      ensures State() == PushKey(old(State()))
    {
      var t := Trim(tok);
      if quoted.Some? {
        if t != "" {
          CannotReadIt(AfterQuoted(quoted.value, t));
        } else if '\\' in quoted.value {
          CannotReadIt(EscapeInQuoted(quoted.value));
        } else {
          keys := keys + [quoted.value];
        }
      } else if IsPlainName(t) {
        keys := keys + [t];
      } else if t != "" && !IsSpread(t) {
        CannotReadIt(NotPlain(t));
      }
      tok, quoted := "", None;
    }

    /** A character of a string: the string may end, and where it is a key its text is kept. */
    method TextCharacter()
      requires j < |src| && str.Some?
      modifies this`j, this`str, this`quoted, this`prev
      ensures var t := TextTurn(src, old(j), old(State()), old(str.value)); State() == t.w && j == t.next && !t.over
    {
      var c := src[j];
      if c == '\\' {
        if str.value.key {
          str := Some(str.value.(text := str.value.text + [c] + (if j + 1 < |src| then [src[j + 1]] else "")));
        }
        j := j + 2;
        return;
      }
      if c == str.value.q {
        if str.value.key { quoted := Some(str.value.text); }
        str, prev, j := None, [c], j + 1;
        return;
      }
      if str.value.key { str := Some(str.value.(text := str.value.text + [c])); }
      j := j + 1;
    }

    /** A character outside strings, comments and regular expressions. */
    method CodeCharacter() returns (over: bool)
      requires j < |src|
      modifies this
      ensures var before := old(if IsSpace(src[j]) then State() else State().(prev := [src[j]]));
              var t := CodeTurn(src[old(j)], old(j), before);
              State() == t.w && over == t.over && j == if over then old(j) else t.next
    {
      hide IsSpace, PushKey, IsBlank, TopLevel;
      over := false;
      var c := src[j];
      if !IsSpace(c) { prev := [c]; }
      var atKey := depth == 1 && !skipValue && IsBlank(tok) && quoted.None?;
      if Quote(c) {
        str := Some(Text(c, atKey && c != '`', ""));
        j := j + 1;
        return;
      }
      if atKey && c == '[' { CannotReadIt(ComputedKey); }
      if Opens(c) {
        depth, j := depth + 1, j + 1;
        return;
      }
      if Closes(c) {
        depth := depth - 1;
        if depth == 0 {
          if !skipValue { PushIt(); }
          return true;
        }
        j := j + 1;
        return;
      }
      if depth == 1 { TopLevelCharacter(c); }
      j := j + 1;
    }

    method TopLevelCharacter(c: char)
      modifies this`keys, this`unreadable, this`tok, this`quoted, this`skipValue
      ensures State() == TopLevel(c, old(State()))
    {
      hide PushKey;
      if c == ':' && !skipValue {
        PushIt();
        skipValue := true;
      } else if c == ',' {
        if !skipValue { PushIt(); }
        tok, quoted, skipValue := "", None, false;
      } else if !skipValue {
        tok := tok + [c];
      }
    }

    method Run(ghost open: nat)
      requires j == open && State() == FRESH
      modifies this
      ensures Walk(src, open, FRESH) == (State(), j)
    {
      hide IsSpace, Walk, PushKey, RegexMayFollow, IndexOf, TextTurn, CodeTurn, EndOfRegex;
      while j < |src|
        invariant Walk(src, open, FRESH) == Walk(src, j, State())
        decreases |src| - j
      {
        var c := src[j];
        WalkStep(src, j, State());
        if str.Some? {
          TextCharacter();
        } else if c == '/' && Next?(src, j, '/') {
          var nl := IndexOf(src, "\n", j);
          OccursChar(src, '\n', if nl < 0 then 0 else nl);
          j := if nl < 0 then |src| + 1 else nl;
        } else if c == '/' && Next?(src, j, '*') {
          var e := IndexOf(src, "*/", j + 2);
          j := if e < 0 then |src| + 1 else e + 2;
        } else if c == '/' && RegexMayFollow(prev) {
          var end := EndOfRegexAt(src, j);
          j, prev := end + 1, "/";
        } else {
          var over := CodeCharacter();
          if over { return; }
        }
      }
      WalkOver(src, j, State());
    }
  }

  lemma WalkOver(src: string, j: nat, w: Walker)
    ensures j >= |src| ==> Walk(src, j, w) == (w, j)
  {
  }

  method ReadObjectKeys(src: string, open: nat) returns (reading: Reading)
    ensures reading == Read(src, open)
  {
    var reader := new KeyReader(src, open);
    reader.Run(open);
    return Reading(reader.keys, reader.j, IndexOf(Slice(src, open, reader.j + 1), "...", 0) >= 0, reader.unreadable);
  }
}
