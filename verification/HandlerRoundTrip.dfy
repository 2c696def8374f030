/** Handler lists printed with comments and attributes anywhere, and the names they must give back. */
module HandlerRoundTrip {
  import opened Chars
  import opened Wrappers
  import opened RustBlanker
  import opened HandlerList
  import opened HandlerAttributes
  import JsTokens

  /** What may stand around an entry. */
  datatype Deco = Space(c: char) | LineNote(text: string) | BlockNote(text: string) | Attribute(parts: seq<Part>)

  /** A name of a path, with the gaps around the `::` behind it, if there is one. */
  datatype Segment = Segment(name: string, before: seq<Deco>, after: seq<Deco>)

  /** A path such as `assistant::mcp::mcp_list_servers`; an entry without one is empty. */
  datatype Entry = Entry(before: seq<Deco>, path: seq<Segment>, after: seq<Deco>)

  function DecoText(d: Deco, level: Level): string {
    match d
    case Space(c) => [c]
    case LineNote(text) => LineNoteText(text, level)
    case BlockNote(text) => BlockNoteText(text, level)
    case Attribute(parts) => if level.NoAttributes? then "" else AttributeText(parts, level)
  }

  predicate DecoFits(d: Deco) {
    match d
    case Space(c) => IsSpace(c)
    case LineNote(text) => '\n' !in text
    case BlockNote(text) => IndexOf(text, "*/", 0) < 0
    case Attribute(parts) => PartsFit(parts)
  }

  function DecosText(ds: seq<Deco>, level: Level): string {
    if ds == [] then "" else DecoText(ds[0], level) + DecosText(ds[1..], level)
  }

  predicate DecosFit(ds: seq<Deco>) {
    forall k :: 0 <= k < |ds| ==> DecoFits(ds[k])
  }

  /** Each attribute's brackets, those in its strings included, first balance at its own `]`. */
  predicate DecosWhole(ds: seq<Deco>) {
    forall k :: 0 <= k < |ds| && ds[k].Attribute? ==> Closed(ds[k].parts)
  }

  /** Spaces and comments. */
  predicate IsGap(gap: seq<Deco>) {
    DecosFit(gap) && forall k :: 0 <= k < |gap| ==> !gap[k].Attribute?
  }

  function PathText(path: seq<Segment>, level: Level): string {
    if path == [] then ""
    else if |path| == 1 then path[0].name
    else
      path[0].name + (DecosText(path[0].before, level) + ("::" +
        (DecosText(path[0].after, level) + PathText(path[1..], level))))
  }

  predicate IsName(name: string) {
    name != "" && forall k :: 0 <= k < |name| ==> IsWord(name[k])
  }

  predicate PathFits(path: seq<Segment>) {
    forall k :: 0 <= k < |path| ==> IsName(path[k].name) && IsGap(path[k].before) && IsGap(path[k].after)
  }

  function EntryText(e: Entry, level: Level): string {
    DecosText(e.before, level) + (PathText(e.path, level) + DecosText(e.after, level))
  }

  predicate EntryFits(e: Entry) {
    DecosFit(e.before) && PathFits(e.path) && DecosFit(e.after)
  }

  predicate EntryWhole(e: Entry) {
    DecosWhole(e.before) && DecosWhole(e.after)
  }

  function EntriesText(es: seq<Entry>, level: Level): string {
    if es == [] then ""
    else if |es| == 1 then EntryText(es[0], level)
    else EntryText(es[0], level) + ("," + EntriesText(es[1..], level))
  }

  predicate EntriesFit(es: seq<Entry>) {
    forall k :: 0 <= k < |es| ==> EntryFits(es[k])
  }

  predicate EntriesWhole(es: seq<Entry>) {
    forall k :: 0 <= k < |es| ==> EntryWhole(es[k])
  }

  // --- comments are blanked, and nothing else ---

  lemma DecoBlanks(src: string, p: nat, d: Deco)
    requires OccursAt(src, DecoText(d, Source), p) && StateAt(src, p).Code? && DecoFits(d)
    ensures BlanksTo(src, p, DecoText(d, Source), DecoText(d, NoComments))
  {
    hide StateAt, Blanked, OccursAt;
    match d
    case Space(c) => PlainStays(src, p, [c]);
    case LineNote(text) => LineNoteBlanks(src, p, text);
    case BlockNote(text) => BlockNoteBlanks(src, p, text);
    case Attribute(parts) => AttributeBlanks(src, p, parts);
  }

  lemma {:induction false} DecosBlank(src: string, p: nat, ds: seq<Deco>)
    requires OccursAt(src, DecosText(ds, Source), p) && StateAt(src, p).Code? && DecosFit(ds)
    ensures BlanksTo(src, p, DecosText(ds, Source), DecosText(ds, NoComments))
    decreases |ds|
  {
    hide StateAt, Blanked, OccursAt, DecoText, DecoFits;
    if ds == [] {
      PlainStays(src, p, "");
    } else {
      var s, rest := DecoText(ds[0], Source), DecosText(ds[1..], Source);
      OccursInParts(src, s, rest, p);
      DecoBlanks(src, p, ds[0]);
      DecosBlank(src, p + |s|, ds[1..]);
      BlanksInTwo(src, p, s, DecoText(ds[0], NoComments), rest, DecosText(ds[1..], NoComments));
    }
  }

  /** Blanked comments and spaces: no bracket, no comma, nothing but space. */
  lemma DecoIsSpace(d: Deco, level: Level)
    requires DecoFits(d) && !level.Source? && (d.Attribute? ==> level.NoAttributes?)
    ensures forall k :: 0 <= k < |DecoText(d, level)| ==> IsSpace(DecoText(d, level)[k])
  {
    if d.LineNote? {
      forall k | 0 <= k < |d.text| + 2 { BlankIsSpace(("//" + d.text)[k]); }
    } else if d.BlockNote? {
      forall k | 0 <= k < |d.text| + 4 { BlankIsSpace(("/*" + (d.text + "*/"))[k]); }
    }
  }

  lemma SpaceIsPlain(c: char)
    requires IsSpace(c)
    ensures c !in "[],#:" && !IsWord(c)
  {
  }

  lemma WordIsNoBracket(c: char)
    requires IsWord(c)
    ensures c !in "[],#:" && !IsSpace(c)
  {
  }

  lemma {:induction false} DecosAreSpace(ds: seq<Deco>)
    requires DecosFit(ds)
    ensures forall k :: 0 <= k < |DecosText(ds, NoAttributes)| ==> IsSpace(DecosText(ds, NoAttributes)[k])
    decreases |ds|
  {
    hide DecoText, DecoFits, IsSpace;
    if ds != [] {
      DecoIsSpace(ds[0], NoAttributes);
      DecosAreSpace(ds[1..]);
    }
  }

  lemma {:induction false} GapIsSpace(gap: seq<Deco>)
    requires IsGap(gap)
    ensures DecosText(gap, NoComments) == DecosText(gap, NoAttributes)
    decreases |gap|
  {
    if gap != [] { GapIsSpace(gap[1..]); }
  }

  /** A blanked path holds word characters, colons and spaces, with a word character at either end. */
  lemma {:induction false} PathChars(path: seq<Segment>)
    requires PathFits(path)
    ensures PathText(path, NoComments) == PathText(path, NoAttributes)
    ensures var text := PathText(path, NoAttributes);
            && (forall k :: 0 <= k < |text| ==> IsWord(text[k]) || text[k] == ':' || IsSpace(text[k]))
            && (path != [] ==> text != "" && IsWord(text[0]) && IsWord(text[|text| - 1]))
    decreases |path|
  {
    hide IsWord, IsSpace, DecosText, IsGap;
    if |path| > 1 {
      PathChars(path[1..]);
      GapChars(path[0].before);
      GapChars(path[0].after);
    }
  }

  lemma GapChars(gap: seq<Deco>)
    requires IsGap(gap)
    ensures var text := DecosText(gap, NoAttributes); forall k :: 0 <= k < |text| ==> IsSpace(text[k])
    ensures DecosText(gap, NoComments) == DecosText(gap, NoAttributes)
  {
    hide IsSpace, DecosText;
    DecosAreSpace(gap);
    GapIsSpace(gap);
  }

  /** No character of a blanked path means anything to the code that splits the list. */
  lemma PathIsPlain(path: seq<Segment>)
    requires PathFits(path)
    ensures var text := PathText(path, NoComments);
            forall k :: 0 <= k < |text| ==> text[k] != '[' && text[k] != ']' && text[k] != '#' && text[k] != ','
  {
    hide IsWord, IsSpace, PathText, PathFits;
    PathChars(path);
    var text := PathText(path, NoComments);
    forall k | 0 <= k < |text|
      ensures text[k] != '[' && text[k] != ']' && text[k] != '#' && text[k] != ','
    {
      if IsWord(text[k]) { WordIsNoBracket(text[k]); }
      if IsSpace(text[k]) { SpaceIsPlain(text[k]); }
    }
  }

  lemma {:induction false} PathBlanks(src: string, p: nat, path: seq<Segment>)
    requires OccursAt(src, PathText(path, Source), p) && StateAt(src, p).Code? && PathFits(path)
    ensures BlanksTo(src, p, PathText(path, Source), PathText(path, NoComments))
    decreases |path|
  {
    hide StateAt, Blanked, OccursAt, DecosText, IsName, IsGap;
    if path == [] {
      PlainStays(src, p, "");
    } else if |path| == 1 {
      NameStays(src, p, path[0].name);
    } else {
      var name, before, after := path[0].name, DecosText(path[0].before, Source), DecosText(path[0].after, Source);
      var rest := PathText(path[1..], Source);
      var before', after' := DecosText(path[0].before, NoComments), DecosText(path[0].after, NoComments);
      var rest' := PathText(path[1..], NoComments);
      var q := p + |name|;
      var k := q + |before| + 2;
      OccursInParts(src, name, before + ("::" + (after + rest)), p);
      OccursInParts(src, before, "::" + (after + rest), q);
      OccursInParts(src, "::", after + rest, q + |before|);
      OccursInParts(src, after, rest, k);
      NameStays(src, p, name);
      GapBlanks(src, q, path[0].before);
      PlainStays(src, q + |before|, "::");
      GapBlanks(src, k, path[0].after);
      PathBlanks(src, k + |after|, path[1..]);
      BlanksInTwo(src, k, after, after', rest, rest');
      BlanksInTwo(src, q + |before|, "::", "::", after + rest, after' + rest');
      BlanksInTwo(src, q, before, before', "::" + (after + rest), "::" + (after' + rest'));
      BlanksInTwo(src, p, name, name, before + ("::" + (after + rest)), before' + ("::" + (after' + rest')));
    }
  }

  lemma NameStays(src: string, p: nat, name: string)
    requires OccursAt(src, name, p) && StateAt(src, p).Code? && IsName(name)
    ensures BlanksTo(src, p, name, name)
  {
    hide StateAt, Blanked, OccursAt;
    PlainStays(src, p, name);
  }

  lemma GapBlanks(src: string, p: nat, gap: seq<Deco>)
    requires OccursAt(src, DecosText(gap, Source), p) && StateAt(src, p).Code? && IsGap(gap)
    ensures BlanksTo(src, p, DecosText(gap, Source), DecosText(gap, NoComments))
  {
    hide StateAt, Blanked, OccursAt, DecosText;
    DecosBlank(src, p, gap);
  }

  lemma EntryBlanks(src: string, p: nat, e: Entry)
    requires OccursAt(src, EntryText(e, Source), p) && StateAt(src, p).Code? && EntryFits(e)
    ensures BlanksTo(src, p, EntryText(e, Source), EntryText(e, NoComments))
  {
    hide StateAt, Blanked, OccursAt, DecosText, PathText, DecosFit, PathFits;
    var before, path, after := DecosText(e.before, Source), PathText(e.path, Source), DecosText(e.after, Source);
    var path', after' := PathText(e.path, NoComments), DecosText(e.after, NoComments);
    OccursInParts(src, before, path + after, p);
    OccursInParts(src, path, after, p + |before|);
    DecosBlank(src, p, e.before);
    PathBlanks(src, p + |before|, e.path);
    DecosBlank(src, p + |before| + |path|, e.after);
    BlanksInTwo(src, p + |before|, path, path', after, after');
    BlanksInTwo(src, p, before, DecosText(e.before, NoComments), path + after, path' + after');
  }

  lemma {:induction false} EntriesBlank(src: string, p: nat, es: seq<Entry>)
    requires OccursAt(src, EntriesText(es, Source), p) && StateAt(src, p).Code? && EntriesFit(es)
    ensures BlanksTo(src, p, EntriesText(es, Source), EntriesText(es, NoComments))
    decreases |es|
  {
    hide StateAt, Blanked, OccursAt, EntryText, EntryFits;
    if es == [] {
      PlainStays(src, p, "");
    } else if |es| == 1 {
      EntryBlanks(src, p, es[0]);
    } else {
      var first, rest := EntryText(es[0], Source), EntriesText(es[1..], Source);
      OccursInParts(src, first, "," + rest, p);
      OccursInParts(src, ",", rest, p + |first|);
      EntryBlanks(src, p, es[0]);
      PlainStays(src, p + |first|, ",");
      EntriesBlank(src, p + |first| + 1, es[1..]);
      var rest' := EntriesText(es[1..], NoComments);
      BlanksInTwo(src, p + |first|, ",", ",", rest, rest');
      BlanksInTwo(src, p, first, EntryText(es[0], NoComments), "," + rest, "," + rest');
    }
  }

  // --- brackets: the list's own `]` is found ---

  lemma DecoPasses(code: string, i: nat, d: Deco)
    requires OccursAt(code, DecoText(d, NoComments), i) && DecoFits(d)
    requires d.Attribute? ==> Closed(d.parts)
    ensures PassedAt(code, i, DecoText(d, NoComments))
  {
    hide OccursAt, ListEnd, IsSpace;
    if d.Attribute? {
      AttributeIsWhole(code, i, d.parts);
    } else {
      DecoIsSpace(d, NoComments);
      var s := DecoText(d, NoComments);
      forall k | 0 <= k < |s| { SpaceIsPlain(s[k]); }
      FlatPasses(code, i, s);
    }
  }

  lemma {:induction false} DecosPass(code: string, i: nat, ds: seq<Deco>)
    requires OccursAt(code, DecosText(ds, NoComments), i) && DecosFit(ds)
    requires DecosWhole(ds)
    ensures PassedAt(code, i, DecosText(ds, NoComments))
    decreases |ds|
  {
    hide OccursAt, ListEnd, DecoText, DecoFits;
    if ds == [] {
      FlatPasses(code, i, "");
    } else {
      OccursInParts(code, DecoText(ds[0], NoComments), DecosText(ds[1..], NoComments), i);
      DecoPasses(code, i, ds[0]);
      DecosPass(code, i + |DecoText(ds[0], NoComments)|, ds[1..]);
    }
  }

  lemma PathPasses(code: string, i: nat, path: seq<Segment>)
    requires OccursAt(code, PathText(path, NoComments), i) && PathFits(path)
    ensures PassedAt(code, i, PathText(path, NoComments))
  {
    hide PathText, PathFits;
    PathIsPlain(path);
    FlatPasses(code, i, PathText(path, NoComments));
  }

  lemma EntryPasses(code: string, i: nat, e: Entry)
    requires OccursAt(code, EntryText(e, NoComments), i) && EntryFits(e)
    requires EntryWhole(e)
    ensures PassedAt(code, i, EntryText(e, NoComments))
  {
    hide OccursAt, ListEnd, DecosText, PathText, DecosFit, PathFits;
    var before, path := DecosText(e.before, NoComments), PathText(e.path, NoComments);
    var after := DecosText(e.after, NoComments);
    OccursInParts(code, before, path + after, i);
    OccursInParts(code, path, after, i + |before|);
    DecosPass(code, i, e.before);
    PathPasses(code, i + |before|, e.path);
    DecosPass(code, i + |before| + |path|, e.after);
  }

  lemma {:induction false} EntriesPass(code: string, i: nat, es: seq<Entry>)
    requires OccursAt(code, EntriesText(es, NoComments), i) && EntriesFit(es)
    requires EntriesWhole(es)
    ensures PassedAt(code, i, EntriesText(es, NoComments))
    decreases |es|
  {
    hide OccursAt, ListEnd, EntryText, EntryFits;
    if es == [] {
      FlatPasses(code, i, "");
    } else if |es| == 1 {
      EntryPasses(code, i, es[0]);
    } else {
      var first, rest := EntryText(es[0], NoComments), EntriesText(es[1..], NoComments);
      OccursInParts(code, first, "," + rest, i);
      OccursInParts(code, ",", rest, i + |first|);
      EntryPasses(code, i, es[0]);
      FlatPasses(code, i + |first|, ",");
      EntriesPass(code, i + |first| + 1, es[1..]);
    }
  }

  // --- attributes are stripped, and nothing else ---

  /** From `i` on, stripping `s` leaves `t`. */
  ghost predicate StripsTo(body: string, i: nat, s: string, t: string) {
    i + |s| <= |body| && Stripped(body, i) == t + Stripped(body, i + |s|)
  }

  lemma {:induction false} FlatStays(body: string, i: nat, s: string)
    requires OccursAt(body, s, i) && forall k :: 0 <= k < |s| ==> s[k] != '#'
    ensures StripsTo(body, i, s, s)
    decreases |s|
  {
    if s != "" {
      assert s == [s[0]] + s[1..];
      OccursInParts(body, [s[0]], s[1..], i);
      assert body[i] == s[0];
      FlatStays(body, i + 1, s[1..]);
    }
  }

  lemma DecoStrips(body: string, i: nat, d: Deco)
    requires OccursAt(body, DecoText(d, NoComments), i) && DecoFits(d)
    requires d.Attribute? ==> Closed(d.parts)
    ensures StripsTo(body, i, DecoText(d, NoComments), DecoText(d, NoAttributes))
  {
    hide OccursAt, AttributeEnd, IsSpace, PartsText;
    if d.Attribute? {
      AttributeIsWhole(body, i, d.parts);
    } else {
      var s := DecoText(d, NoComments);
      DecoIsSpace(d, NoComments);
      forall k | 0 <= k < |s| { SpaceIsPlain(s[k]); }
      FlatStays(body, i, s);
    }
  }

  lemma {:induction false} DecosStrip(body: string, i: nat, ds: seq<Deco>)
    requires OccursAt(body, DecosText(ds, NoComments), i) && DecosFit(ds)
    requires DecosWhole(ds)
    ensures StripsTo(body, i, DecosText(ds, NoComments), DecosText(ds, NoAttributes))
    decreases |ds|
  {
    hide OccursAt, DecoFits, DecoText, Stripped;
    if ds == [] {
      FlatStays(body, i, "");
    } else {
      var s := DecoText(ds[0], NoComments);
      OccursInParts(body, s, DecosText(ds[1..], NoComments), i);
      DecoStrips(body, i, ds[0]);
      DecosStrip(body, i + |s|, ds[1..]);
    }
  }

  lemma EntryStrips(body: string, i: nat, e: Entry)
    requires OccursAt(body, EntryText(e, NoComments), i) && EntryFits(e)
    requires EntryWhole(e)
    ensures StripsTo(body, i, EntryText(e, NoComments), EntryText(e, NoAttributes))
  {
    hide OccursAt, Stripped, DecosText, PathText, DecosFit, PathFits, IsWord;
    var before, path := DecosText(e.before, NoComments), PathText(e.path, NoComments);
    var after := DecosText(e.after, NoComments);
    OccursInParts(body, before, path + after, i);
    OccursInParts(body, path, after, i + |before|);
    DecosStrip(body, i, e.before);
    PathChars(e.path);
    PathIsPlain(e.path);
    FlatStays(body, i + |before|, path);
    DecosStrip(body, i + |before| + |path|, e.after);
  }

  lemma {:induction false} EntriesStrip(body: string, i: nat, es: seq<Entry>)
    requires OccursAt(body, EntriesText(es, NoComments), i) && EntriesFit(es)
    requires EntriesWhole(es)
    ensures StripsTo(body, i, EntriesText(es, NoComments), EntriesText(es, NoAttributes))
    decreases |es|
  {
    hide OccursAt, Stripped, EntryText, EntryFits;
    if es == [] {
      FlatStays(body, i, "");
    } else if |es| == 1 {
      EntryStrips(body, i, es[0]);
    } else {
      var first, rest := EntryText(es[0], NoComments), EntriesText(es[1..], NoComments);
      OccursInParts(body, first, "," + rest, i);
      OccursInParts(body, ",", rest, i + |first|);
      EntryStrips(body, i, es[0]);
      FlatStays(body, i + |first|, ",");
      EntriesStrip(body, i + |first| + 1, es[1..]);
    }
  }

  // --- entries are split, trimmed and named ---

  lemma {:induction false} SplitFirst(s: string, rest: string, sep: char)
    requires sep !in s
    ensures Split(s, sep) == [s]
    ensures Split(s + ([sep] + rest), sep) == [s] + Split(rest, sep)
    decreases |s|
  {
    if s == "" {
      assert s + ([sep] + rest) == [sep] + rest;
    } else {
      var all := s + ([sep] + rest);
      assert all[1..] == s[1..] + ([sep] + rest) && s == [s[0]] + s[1..];
      SplitFirst(s[1..], rest, sep);
    }
  }

  ghost function EntryTexts(es: seq<Entry>): seq<string> {
    if es == [] then [] else [EntryText(es[0], NoAttributes)] + EntryTexts(es[1..])
  }

  lemma EntryHasNoComma(e: Entry)
    requires EntryFits(e)
    ensures ',' !in EntryText(e, NoAttributes)
  {
    hide DecosText, PathText, DecosFit, PathFits, IsSpace, IsWord;
    DecosAreSpace(e.before);
    DecosAreSpace(e.after);
    PathChars(e.path);
    PathIsPlain(e.path);
    var before, after := DecosText(e.before, NoAttributes), DecosText(e.after, NoAttributes);
    var path := PathText(e.path, NoAttributes);
    SpacesHaveNoComma(before);
    SpacesHaveNoComma(after);
    assert ',' !in path;
  }

  lemma SpacesHaveNoComma(space: string)
    requires forall k :: 0 <= k < |space| ==> IsSpace(space[k])
    ensures ',' !in space && ':' !in space
  {
  }

  lemma {:induction false} EntriesSplit(es: seq<Entry>)
    requires es != [] && EntriesFit(es)
    ensures Split(EntriesText(es, NoAttributes), ',') == EntryTexts(es)
    decreases |es|
  {
    hide EntryText, EntryFits, Split;
    EntryHasNoComma(es[0]);
    if |es| == 1 {
      SplitFirst(EntryText(es[0], NoAttributes), "", ',');
      assert EntryTexts(es[1..]) == [];
    } else {
      SplitFirst(EntryText(es[0], NoAttributes), EntriesText(es[1..], NoAttributes), ',');
      EntriesSplit(es[1..]);
    }
  }

  /** Where the first `::` of a path is, if its first segment holds no colon. */
  lemma FirstColons(head: string, rest: string)
    requires ':' !in head
    ensures IndexOf(head, "::", 0) < 0
    ensures IndexOf(head + ("::" + rest), "::", 0) == |head|
  {
    hide IndexOf;
    var text := head + ("::" + rest);
    forall k: nat
      ensures !OccursAt(head, "::", k)
      ensures k < |head| ==> !OccursAt(text, "::", k)
    {
      OccursPair(head, ':', ':', k);
      OccursPair(text, ':', ':', k);
      assert k < |head| ==> text[k] == head[k];
    }
    OccursPair(text, ':', ':', |head|);
  }

  /** The last segment of a blanked path, behind whatever blanks, is its last name behind blanks. */
  lemma {:induction false} LastOfPath(space: string, path: seq<Segment>) returns (blank: string)
    requires path != [] && PathFits(path) && IsBlank(space)
    ensures LastSegment(space + PathText(path, NoAttributes)) == blank + path[|path| - 1].name && IsBlank(blank)
    decreases |path|
  {
    hide IsWord, IsSpace, IndexOf, DecosText, IsGap;
    var name := path[0].name;
    NameHasNoColon(name);
    BlankHasNoColon(space);
    if |path| == 1 {
      FirstColons(space + name, "");
      blank := space;
    } else {
      var before, after := DecosText(path[0].before, NoAttributes), DecosText(path[0].after, NoAttributes);
      var head, rest := space + name + before, after + PathText(path[1..], NoAttributes);
      GapChars(path[0].before);
      GapChars(path[0].after);
      BlankHasNoColon(before);
      FirstColons(head, rest);
      assert space + PathText(path, NoAttributes) == head + ("::" + rest);
      assert (head + ("::" + rest))[|head| + 2..] == rest;
      blank := LastOfPath(after, path[1..]);
    }
  }

  lemma NameHasNoColon(name: string)
    requires IsName(name)
    ensures ':' !in name
  {
    hide IsWord;
    forall k | 0 <= k < |name| { WordIsNoBracket(name[k]); }
  }

  lemma BlankHasNoColon(space: string)
    requires IsBlank(space)
    ensures ':' !in space
  {
    SpacesHaveNoComma(space);
  }

  /** The name an entry registers: the last segment of its path. */
  lemma EntryNamed(e: Entry)
    requires EntryFits(e)
    ensures EntryName(EntryText(e, NoAttributes)) == if e.path == [] then "" else e.path[|e.path| - 1].name
  {
    hide DecosText, DecosFit, IsSpace, IsWord, Trim, LastSegment, IsGap;
    var before, after := DecosText(e.before, NoAttributes), DecosText(e.after, NoAttributes);
    DecosAreSpace(e.before);
    DecosAreSpace(e.after);
    var path := PathText(e.path, NoAttributes);
    if e.path == [] {
      TrimWord(before, "", after);
      NoSegments();
      TrimWord("", "", "");
      assert "" + ("" + "") == "";
    } else {
      PathChars(e.path);
      WordIsNoBracket(path[0]);
      WordIsNoBracket(path[|path| - 1]);
      TrimWord(before, path, after);
      assert "" + path == path;
      var blank := LastOfPath("", e.path);
      TrimmedName(blank, e.path[|e.path| - 1].name);
    }
  }

  lemma TrimmedName(blank: string, name: string)
    requires IsBlank(blank) && IsName(name)
    ensures Trim(blank + name) == name
  {
    hide IsSpace, IsWord, Trim;
    WordIsNoBracket(name[0]);
    WordIsNoBracket(name[|name| - 1]);
    TrimWord(blank, name, "");
    assert blank + (name + "") == blank + name;
  }

  lemma NoSegments()
    ensures LastSegment("") == ""
  {
  }

  // --- which names are command names ---

  /** Lower-case letters, digits and underscores. */
  predicate SnakeText(s: string) {
    forall k :: 0 <= k < |s| ==> s[k] in LOWER || s[k] in DIGITS || s[k] == '_'
  }

  /** The same with no digit first. */
  predicate CommandText(name: string) {
    name != "" && (name[0] in LOWER || name[0] == '_') && SnakeText(name)
  }

  lemma CommandNamesAre(name: string)
    ensures IsCommandName(name) <==> CommandText(name)
  {
    hide IsDigit;
    forall k | 0 <= k < |name|
      ensures ('a' <= name[k] <= 'z' <==> name[k] in LOWER) && (IsDigit(name[k]) <==> name[k] in DIGITS)
    {
      LowerAre(name[k]);
      ClassesAre(name[k]);
    }
  }

  function Snake(words: seq<string>): string {
    if words == [] then "" else if |words| == 1 then words[0] else words[0] + ("_" + Snake(words[1..]))
  }

  lemma {:induction false} SnakeIsPlain(words: seq<string>)
    requires forall w <- words :: forall k :: 0 <= k < |w| ==> w[k] in LOWER || w[k] in DIGITS
    ensures SnakeText(Snake(words))
    decreases |words|
  {
    if |words| > 1 {
      SnakeIsPlain(words[1..]);
      assert SnakeText(words[0]) by { assert words[0] in words; }
      SnakeJoins(words[0], Snake(words[1..]));
    } else if words != [] {
      assert words[0] in words;
    }
  }

  lemma SnakeJoins(s: string, t: string)
    requires SnakeText(s) && SnakeText(t)
    ensures SnakeText(s + ("_" + t))
  {
  }

  /** Words of lower-case letters and digits joined by underscores are a command name when the first begins
      with a letter, or is empty and so leaves an underscore in front. */
  lemma SnakeCaseIsCommand(words: seq<string>)
    requires forall w <- words :: forall k :: 0 <= k < |w| ==> w[k] in LOWER || w[k] in DIGITS
    requires words != [] && if words[0] == "" then |words| > 1 else words[0][0] in LOWER
    ensures CommandText(Snake(words))
  {
    SnakeIsPlain(words);
    SnakeStarts(words);
  }

  lemma SnakeStarts(words: seq<string>)
    requires words != [] && (words[0] == "" ==> |words| > 1)
    ensures Snake(words) != "" && Snake(words)[0] == if words[0] == "" then '_' else words[0][0]
  {
  }

  /** The names a list of entries registers: the last segments of its paths that are command names. */
  function Registered(es: seq<Entry>): set<string> {
    set e | e in es && e.path != [] && CommandText(e.path[|e.path| - 1].name) :: e.path[|e.path| - 1].name
  }

  lemma {:induction false} EntryTextsAre(es: seq<Entry>)
    ensures |EntryTexts(es)| == |es| && forall k :: 0 <= k < |es| ==>
              EntryTexts(es)[k] == EntryText(es[k], NoAttributes)
    decreases |es|
  {
    if es != [] { EntryTextsAre(es[1..]); }
  }

  lemma NamesRegistered(es: seq<Entry>)
    requires EntriesFit(es)
    ensures NamesIn(EntryTexts(es)) == Registered(es)
  {
    hide EntryName, EntryText, EntryFits, IsCommandName, CommandText, EntryTexts;
    EntryTextsAre(es);
    forall k | 0 <= k < |es| { EntryNamed(es[k]); }
    EmptyIsNoName();
    forall k | 0 <= k < |es| && es[k].path != [] { CommandNamesAre(es[k].path[|es[k].path| - 1].name); }
    var texts := EntryTexts(es);
    forall name
      ensures name in NamesIn(texts) <==> name in Registered(es)
    {
      if name in NamesIn(texts) {
        var k :| 0 <= k < |texts| && IsCommandName(EntryName(texts[k])) && name == EntryName(texts[k]);
        assert es[k] in es;
      }
      if name in Registered(es) {
        var k :| 0 <= k < |es| && es[k].path != [] && CommandText(es[k].path[|es[k].path| - 1].name)
          && name == es[k].path[|es[k].path| - 1].name;
        assert texts[k] in texts;
      }
    }
  }

  lemma EmptyIsNoName()
    ensures !IsCommandName("")
  {
  }

  // --- the round trip ---

  lemma {:induction false} SpacesSkipped(code: string, k: nat, space: string)
    requires OccursAt(code, space, k) && forall j :: 0 <= j < |space| ==> IsSpace(space[j])
    requires k + |space| < |code| ==> !IsSpace(code[k + |space|])
    ensures SkipSpaces(code, k) == k + |space|
    decreases |space|
  {
    hide IsSpace;
    if space != "" {
      assert space == [space[0]] + space[1..];
      OccursInParts(code, [space[0]], space[1..], k);
      assert code[k] == space[0];
      SpacesSkipped(code, k + 1, space[1..]);
    }
  }

  /** The list as printed, up to its closing bracket. */
  function ListText(gap: seq<Deco>, es: seq<Entry>, level: Level): string {
    MACRO + (DecosText(gap, level) + ("[" + EntriesText(es, level)))
  }

  lemma MacroIsPlain()
    ensures forall k :: 0 <= k < |MACRO| ==> MACRO[k] != '"' && MACRO[k] != '/' && MACRO[k] != '['
    ensures !IsSpace('[')
  {
  }

  /** The comments of a printed list are blanked. */
  lemma ListBlanks(src: string, p: nat, gap: seq<Deco>, es: seq<Entry>)
    requires OccursAt(src, ListText(gap, es, Source), p) && StateAt(src, p).Code? && IsGap(gap) && EntriesFit(es)
    ensures BlanksTo(src, p, ListText(gap, es, Source), ListText(gap, es, NoComments))
  {
    hide StateAt, Blanked, OccursAt, DecosText, EntriesText, DecosFit, EntriesFit, MACRO;
    var between, list := DecosText(gap, Source), EntriesText(es, Source);
    var q := p + |MACRO|;
    OccursInParts(src, MACRO, between + ("[" + list), p);
    OccursInParts(src, between, "[" + list, q);
    OccursInParts(src, "[", list, q + |between|);
    MacroIsPlain();
    PlainStays(src, p, MACRO);
    DecosBlank(src, q, gap);
    PlainStays(src, q + |between|, "[");
    EntriesBlank(src, q + |between| + 1, es);
    var between', list' := DecosText(gap, NoComments), EntriesText(es, NoComments);
    BlanksInTwo(src, q + |between|, "[", "[", list, list');
    BlanksInTwo(src, q, between, between', "[" + list, "[" + list');
    BlanksInTwo(src, p, MACRO, MACRO, between + ("[" + list), between' + ("[" + list'));
  }

  /** The search finds a printed list, and the list's entries begin after its bracket. */
  lemma ListFound(code: string, p: nat, gap: seq<Deco>, es: seq<Entry>)
    requires OccursAt(code, ListText(gap, es, NoComments), p) && IsGap(gap) && EntriesFit(es)
    ensures HandlerAt(code, p)
    ensures var open := IndexOf(code, "[", p) + 1;
            0 < open <= |code| && OccursAt(code, EntriesText(es, NoComments), open)
            && open + |EntriesText(es, NoComments)| == p + |ListText(gap, es, NoComments)|
  {
    hide OccursAt, DecosText, EntriesText, DecosFit, EntriesFit, MACRO, SkipSpaces, IndexOf, IsSpace;
    var between, list := DecosText(gap, NoComments), EntriesText(es, NoComments);
    var q := p + |MACRO|;
    OccursInParts(code, MACRO, between + ("[" + list), p);
    OccursInParts(code, between, "[" + list, q);
    OccursInParts(code, "[", list, q + |between|);
    OccursChar(code, '[', q + |between|);
    MacroIsPlain();
    GapIsSpace(gap);
    DecosAreSpace(gap);
    SpacesSkipped(code, q, between);
    BracketFollows(code, p);
  }

  /** Entries printed from `open` on are read to their end, and named. */
  lemma EntriesNamed(code: string, open: nat, es: seq<Entry>)
    requires OccursAt(code, EntriesText(es, NoComments), open) && es != [] && EntriesFit(es)
    requires EntriesWhole(es)
    ensures var end := open + |EntriesText(es, NoComments)|;
            && end <= |code|
            && (end == |code| ==> NamesInside(code, open) == None)
            && (end < |code| && code[end] == ']' ==> NamesInside(code, open) == Some(Registered(es)))
  {
    hide EntriesText, EntriesFit, ListEnd, Stripped, Split, NamesIn, Registered;
    var list := EntriesText(es, NoComments);
    var end := open + |list|;
    EntriesPass(code, open, es);
    assert ListEnd(code, open, 0) == ListEnd(code, end, 0);
    ListEndStep(code, end, 0);
    var body := code[open..end];
    assert OccursAt(body, list, 0);
    EntriesStrip(body, 0, es);
    NothingStripped(body);
    assert Stripped(body, 0) == EntriesText(es, NoAttributes) + "" == EntriesText(es, NoAttributes);
    EntriesSplit(es);
    NamesRegistered(es);
  }

  lemma NothingStripped(body: string)
    ensures Stripped(body, |body|) == ""
  {
  }

  /** A printed handler list - comments of any text, gaps and attributes around its entries - is parsed
      back to exactly the last segments of its paths that are command names; without its closing bracket
      it is no list. Nothing before it may match the search, once comments are blanked. */
  lemma HandlerListRoundTrip(prefix: string, gap: seq<Deco>, es: seq<Entry>, suffix: string, names: Option<set<string>>)
    requires IsGap(gap) && es != [] && EntriesFit(es)
    requires EntriesWhole(es)
    requires var src := prefix + (ListText(gap, es, Source) + suffix);
             && StateAt(src, |prefix|).Code?
             && forall k: nat :: k < |prefix| ==> !HandlerAt(Blanked(src), k)
    requires suffix == "" || suffix[0] == ']'
    requires Parsed(prefix + (ListText(gap, es, Source) + suffix), names)
    ensures names == if suffix == "" then None else Some(Registered(es))
  {
    hide StateAt, Blanked, EntriesText, IsGap, EntriesFit, HandlerAt, ListText, Registered, NamesInside,
         FirstHandler, IndexOf, OccursAt;
    var src, list := prefix + (ListText(gap, es, Source) + suffix), ListText(gap, es, Source);
    var code, p, end := Blanked(src), |prefix|, |prefix| + |list|;
    ListOccurs(prefix, list, suffix);
    ListBlanks(src, p, gap, es);
    ListFound(code, p, gap, es);
    var at :| FirstHandler(code, at) && names == if at < 0 then None else NamesFrom(code, at);
    OnlyFirst(code, p, at);
    ClosingStays(src, end);
    EntriesNamed(code, IndexOf(code, "[", p) + 1, es);
  }

  lemma ListOccurs(prefix: string, list: string, suffix: string)
    ensures OccursAt(prefix + (list + suffix), list, |prefix|)
    ensures var src, end := prefix + (list + suffix), |prefix| + |list|;
            suffix != "" ==> end < |src| && src[end] == suffix[0]
  {
    var src := prefix + (list + suffix);
    assert src[|prefix|..|prefix| + |list|] == list;
  }

  lemma OnlyFirst(code: string, p: nat, at: int)
    requires FirstHandler(code, at) && HandlerAt(code, p) && forall k: nat :: k < p ==> !HandlerAt(code, k)
    ensures at == p
  {
    hide HandlerAt;
  }

  /** A bracket in code is not blanked. */
  lemma ClosingStays(src: string, end: nat)
    requires end <= |src| && StateAt(src, end).Code?
    ensures end < |src| && src[end] == ']' ==> Blanked(src)[end] == ']'
  {
    hide StateAt;
  }

  // --- an attribute that is not whole ---

  /** A bracket in an attribute's string counts: here it ends the attribute, the attribute's own ends the
      list, and the command is lost without a word. */
  lemma UnevenAttributeLosesNames(names: Option<set<string>>)
    requires Parsed("generate_handler![#[d=\"]\"]a]", names)
    ensures names == Some({})
  {
    hide Blanked, StateAt, HandlerAt, MACRO, ListEnd, Stripped, NamesIn, Split, IndexOf;
    var src := "generate_handler![#[d=\"]\"]a]";
    var code := Blanked(src);
    UnevenListIsPrinted(src);
    var at :| FirstHandler(code, at) && names == if at < 0 then None else NamesFrom(code, at);
    OnlyFirst(code, 0, at);
    UnevenEnds(code);
    UnevenStripped();
    QuoteIsNoName();
    assert code[18..25] == code[18..][..7] == "#[d=\"]\"";
    assert NamesInside(code, 18) == Some({});
  }

  /** The list of the example, with the one entry it should be read as. */
  lemma UnevenListIsPrinted(src: string)
    requires src == "generate_handler![#[d=\"]\"]a]"
    ensures |Blanked(src)| == |src| && Blanked(src)[18..] == "#[d=\"]\"]a]"
    ensures HandlerAt(Blanked(src), 0) && IndexOf(Blanked(src), "[", 0) == 17
  {
    hide Blanked, StateAt, HandlerAt, IndexOf, ListText, EntriesText, IsGap, EntriesFit;
    var es := UnevenList();
    var code := Blanked(src);
    StartsInCode(src);
    UnevenText(src, Source);
    UnevenText(src, NoComments);
    UnevenFits();
    assert src[0..27] == src[..27];
    ListBlanks(src, 0, [], es);
    ListFound(code, 0, [], es);
    ClosingStays(src, 27);
    assert code[0..27] == src[..27];
    assert code == code[0..27] + [code[27]] && src == src[..27] + [src[27]];
  }

  function UnevenList(): seq<Entry> {
    [Entry([Attribute([Ch('d'), Ch('='), Lit([JsTokens.Plain(']')])])], [Segment("a", [], [])], [])]
  }

  lemma UnevenText(src: string, level: Level)
    requires src == "generate_handler![#[d=\"]\"]a]" && level != NoAttributes
    ensures ListText([], UnevenList(), level) == src[..27] && EntriesText(UnevenList(), level) == src[18..27]
  {
    hide AttributeText;
    var e := UnevenList()[0];
    UnevenParts(level);
    assert DecosText(e.before, level) == AttributeText(e.before[0].parts, level) + "";
    assert EntryText(e, level) == "#[d=\"]\"]" + ("a" + "");
  }

  lemma UnevenParts(level: Level)
    requires level != NoAttributes
    ensures AttributeText(UnevenList()[0].before[0].parts, level) == "#[d=\"]\"]"
  {
    var ps := UnevenList()[0].before[0].parts;
    assert JsTokens.PrintText([JsTokens.Plain(']')]) == "]";
    assert ps[1..][1..] == [ps[2]] && ps[2..] == [ps[2]];
    assert PartsText([ps[2]], level) == "\"]\"" + "";
    assert PartsText(ps[1..], level) == "=" + "\"]\"";
    assert PartsText(ps, level) == "d" + "=\"]\"";
  }

  lemma UnevenFits()
    ensures EntriesFit(UnevenList()) && IsGap([])
  {
    var ps := [Ch('d'), Ch('='), Lit([JsTokens.Plain(']')])];
    assert ps[1..][1..] == [ps[2]] && PartsFit([ps[2]]) && PartsFit(ps[1..]) && PartsFit(ps);
    assert IsWord('a');
  }

  lemma UnevenEnds(code: string)
    requires |code| == 28 && code[18..] == "#[d=\"]\"]a]"
    ensures ListEnd(code, 18, 0) == 25
  {
    assert forall k :: 0 <= k < 10 ==> code[18 + k] == code[18..][k];
    ListEndStep(code, 18, 0);
    ListEndStep(code, 19, 0);
    ListEndStep(code, 20, 1);
    ListEndStep(code, 21, 1);
    ListEndStep(code, 22, 1);
    ListEndStep(code, 23, 1);
    ListEndStep(code, 24, 0);
    ListEndStep(code, 25, 0);
  }

  lemma UnevenStripped()
    ensures Stripped("#[d=\"]\"", 0) == "\""
  {
    var body := "#[d=\"]\"";
    assert AttributeEnd(body, 3, 1) == 5;
    assert AttributeEnd(body, 1, 0) == 5;
    assert Stripped(body, 6) == "\"";
  }

  lemma QuoteIsNoName()
    ensures NamesIn(Split("\"", ',')) == {}
  {
    SplitFirst("\"", "", ',');
    FirstColons("\"", "");
    TrimWord("", "\"", "");
    assert "" + ("\"" + "") == "\"";
  }
}
