/** The command names registered in `generate_handler![...]`. */
module HandlerList {
  import opened Chars
  import opened Wrappers
  import opened RustBlanker

  // --- the string methods used ---

  /** The string method `split` with a one-character separator. */
  function Split(s: string, sep: char): (parts: seq<string>)
    ensures parts != []
  {
    if s == "" then [""]
    else if s[0] == sep then [""] + Split(s[1..], sep)
    else var rest := Split(s[1..], sep); [[s[0]] + rest[0]] + rest[1..]
  }

  /** The last part of `split('::')`. */
  function LastSegment(path: string): string
    decreases |path|
  {
    var at := IndexOf(path, "::", 0);
    if at < 0 then path else LastSegment(path[at + 2..])
  }

  /** `^[a-z_][a-z0-9_]*$` */
  predicate IsCommandName(s: string) {
    && s != "" && ('a' <= s[0] <= 'z' || s[0] == '_')
    && forall k :: 0 <= k < |s| ==> 'a' <= s[k] <= 'z' || IsDigit(s[k]) || s[k] == '_'
  }

  // --- attributes ---

  /** The index of the `]` that closes the attribute whose `[` is at or after `j`, or the end. */
  function AttributeEnd(body: string, j: nat, depth: int): (end: nat)
    requires j <= |body|
    ensures j <= end <= |body|
    decreases |body| - j
  {
    if j == |body| then j
    else if body[j] == '[' then AttributeEnd(body, j + 1, depth + 1)
    else if body[j] == ']' then if depth - 1 == 0 then j else AttributeEnd(body, j + 1, depth - 1)
    else AttributeEnd(body, j + 1, depth)
  }

  predicate AttributeAt(body: string, i: nat) {
    i + 1 < |body| && body[i] == '#' && body[i + 1] == '['
  }

  /** `body` from `i` on without its attributes. */
  function Stripped(body: string, i: nat): string
    decreases |body| - i
  {
    if i >= |body| then ""
    else if AttributeAt(body, i) then Stripped(body, AttributeEnd(body, i + 1, 0) + 1)
    else [body[i]] + Stripped(body, i + 1)
  }

  method StripRustAttributes(body: string) returns (out: string)
    ensures out == Stripped(body, 0)
  {
    out := "";
    var i := 0;
    while i < |body|
      invariant Stripped(body, 0) == out + Stripped(body, i)
      decreases |body| - i
    {
      if AttributeAt(body, i) {
        var depth := 0;
        var j := i + 1;
        while j < |body|
          invariant i < j <= |body| && AttributeEnd(body, i + 1, 0) == AttributeEnd(body, j, depth)
        {
          if body[j] == '[' {
            depth := depth + 1;
          } else if body[j] == ']' {
            depth := depth - 1;
            if depth == 0 { break; }
          }
          j := j + 1;
        }
        i := j + 1;
        continue;
      }
      out := out + [body[i]];
      i := i + 1;
    }
  }

  // --- the list ---

  const MACRO := "generate_handler!"

  function SkipSpaces(code: string, k: nat): (j: nat)
    requires k <= |code|
    ensures k <= j <= |code|
    ensures forall p :: k <= p < j ==> IsSpace(code[p])
    ensures j < |code| ==> !IsSpace(code[j])
    decreases |code| - k
  {
    if k < |code| && IsSpace(code[k]) then SkipSpaces(code, k + 1) else k
  }

  /** `generate_handler!\s*\[` matches at `k`. */
  predicate HandlerAt(code: string, k: nat) {
    OccursAt(code, MACRO, k) && var j := SkipSpaces(code, k + |MACRO|); j < |code| && code[j] == '['
  }

  /** Where the list that is read from `i` on ends: at the first `]` without its own `[`; else the end. */
  function ListEnd(code: string, i: nat, depth: nat): (end: nat)
    requires i <= |code|
    ensures i <= end <= |code|
    decreases |code| - i
  {
    if i == |code| then i
    else if code[i] == '[' then ListEnd(code, i + 1, depth + 1)
    else if code[i] == ']' then if depth == 0 then i else ListEnd(code, i + 1, depth - 1)
    else ListEnd(code, i + 1, depth)
  }

  function EntryName(entry: string): string {
    Trim(LastSegment(Trim(entry)))
  }

  function NamesIn(entries: seq<string>): set<string> {
    set e | e in entries && IsCommandName(EntryName(e)) :: EntryName(e)
  }

  /** The names in the handler list of a source whose comments are blanked and whose list begins at `at`. */
  function NamesFrom(code: string, at: nat): Option<set<string>> {
    var open := IndexOf(code, "[", at) + 1;
    if open < 0 || open > |code| then None else NamesInside(code, open)
  }

  function NamesInside(code: string, open: nat): Option<set<string>>
    requires open <= |code|
  {
    var end := ListEnd(code, open, 0);
    if end == |code| then None else Some(NamesIn(Split(Stripped(code[open..end], 0), ',')))
  }

  /** `at` is the first match of the search for the handler list, or negative without one. */
  ghost predicate FirstHandler(code: string, at: int) {
    && (at >= 0 ==> HandlerAt(code, at))
    && forall k: nat :: at < 0 || k < at ==> !HandlerAt(code, k)
  }

  /** What the parser must return: nothing without a complete list, else the names in the first one. */
  ghost predicate Parsed(src: string, names: Option<set<string>>) {
    var code := Blanked(src);
    exists at :: FirstHandler(code, at) && names == if at < 0 then None else NamesFrom(code, at)
  }

  method Search(code: string) returns (at: int)
    ensures FirstHandler(code, at)
  {
    hide SkipSpaces;
    for k := 0 to |code|
      invariant forall p: nat :: p < k ==> !HandlerAt(code, p)
    {
      if HandlerAt(code, k) { return k; }
    }
    assert forall p: nat :: p >= |code| ==> !HandlerAt(code, p);
    return -1;
  }

  method ParseRegisteredCommands(src: string) returns (names: Option<set<string>>)
    ensures Parsed(src, names)
  {
    hide Blanked, HandlerAt, NamesInside, IndexOf, FirstHandler;
    var code := BlankRustComments(src);
    var at := Search(code);
    if at < 0 { return None; }
    FirstMatches(code, at);
    BracketFollows(code, at);
    names := ReadNames(code, IndexOf(code, "[", at) + 1);
  }

  /** The names in the list whose `[` is just before `open`. */
  method ReadNames(code: string, open: nat) returns (names: Option<set<string>>)
    requires open <= |code|
    ensures names == NamesInside(code, open)
  {
    hide Stripped, Split, NamesIn, ListEnd;
    var i := open;
    var body := "";
    var depth := 0;
    while i < |code|
      invariant open <= i <= |code| && depth >= 0 && body == code[open..i]
      invariant ListEnd(code, open, 0) == ListEnd(code, i, depth)
    {
      var c := code[i];
      ListEndStep(code, i, depth);
      if c == '[' { depth := depth + 1; }
      if c == ']' {
        if depth == 0 {
          var stripped := StripRustAttributes(body);
          var found := CommandNames(Split(stripped, ','));
          return Some(found);
        }
        depth := depth - 1;
      }
      body := body + [c];
      i := i + 1;
    }
    return None;
  }

  lemma ListEndStep(code: string, i: nat, depth: nat)
    requires i <= |code|
    ensures ListEnd(code, i, depth) ==
      if i == |code| then i
      else if code[i] == '[' then ListEnd(code, i + 1, depth + 1)
      else if code[i] == ']' then if depth == 0 then i else ListEnd(code, i + 1, depth - 1)
      else ListEnd(code, i + 1, depth)
  {
  }

  method CommandNames(entries: seq<string>) returns (found: set<string>)
    ensures found == NamesIn(entries)
  {
    hide EntryName, IsCommandName;
    found := {};
    for k := 0 to |entries|
      invariant found == NamesIn(entries[..k])
    {
      var name := EntryName(entries[k]);
      assert entries[..k + 1] == entries[..k] + [entries[k]];
      if IsCommandName(name) { found := found + {name}; }
    }
    assert entries[..|entries|] == entries;
  }

  lemma FirstMatches(code: string, at: nat)
    requires FirstHandler(code, at)
    ensures HandlerAt(code, at)
  {
  }

  /** The first `[` after the start of the match is the one that the match ends with. */
  lemma BracketFollows(code: string, at: nat)
    requires HandlerAt(code, at)
    ensures at + |MACRO| <= |code| && IndexOf(code, "[", at) == SkipSpaces(code, at + |MACRO|) < |code|
  {
    hide IndexOf;
    var j := SkipSpaces(code, at + |MACRO|);
    forall k: nat | at <= k < j
      ensures !OccursAt(code, "[", k)
    {
      if k < at + |MACRO| {
        assert code[at..at + |MACRO|][k - at] == MACRO[k - at];
      }
      OccursChar(code, '[', k);
    }
    OccursChar(code, '[', j);
  }
}
