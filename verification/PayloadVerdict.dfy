/** From a printed payload to the verdict on its call site. */
module PayloadVerdict {
  import opened Chars
  import opened Wrappers
  import opened ObjectKeys
  import opened ObjectKeysRoundTrip
  import opened ObjectKeysMisread
  import opened Verdict

  /** The call site of a command whose payload is an object literal: not checked statically when the
      literal has a spread or a key that cannot be read. */
  function SiteOf(cmd: string, file: string, line: nat, literal: Reading, why: string): Site {
    Site(Some(cmd), file, line, literal.keys, literal.spread || literal.unreadable.Some?, why)
  }

  /** Whether three dots stand anywhere in the literal, be it in a string or in a comment. */
  predicate HasDots(es: seq<Entry>) {
    IndexOf("{" + (EntriesText(es) + "}"), "...", 0) >= 0
  }

  /** Every one of these keys is expected, and every required one is among them. */
  ghost predicate KeysRight(keys: seq<string>, def: Def) {
    && (forall key <- keys :: key in Expected(def))
    && (forall a <- def.args :: !a.optional ==> a.key in keys)
  }

  /** The verdict on the site of any printed payload, misread entries included: it passes if and only if
      the command is known and registered, the reader has no reason to give and sees no dots, and the
      keys it finds are right. */
  lemma SiteVerdictIs(src: string, open: nat, es: seq<Entry>, site: Site, cmds: Commands, registered: set<string>)
    requires es != [] && EntriesFit(es) && ReadAsMeant(es) && OccursAt(src, "{" + (EntriesText(es) + "}"), open)
    requires site.cmd.Some? && site == SiteOf(site.cmd.value, site.file, site.line, Read(src, open), site.why)
    ensures Right(site, cmds, registered) <==>
              && site.cmd.value in cmds && site.cmd.value in registered
              && FirstWhy(es) == None && !HasDots(es) && KeysRight(AllKeys(es), cmds[site.cmd.value])
  {
    hide EntriesFit, ReadAsMeant, EntriesText, AllKeys, FirstWhy, Read, IndexOf, Expected, OccursAt, HasDots;
    ObjectKeysRoundTrip.ObjectKeysRoundTrip(src, open, es);
    SpreadOfText(src, open, es);
  }

  /** A payload as the command wants it: every key can be read, no dots may stand for others, every key is
      expected and every required one is there. */
  ghost predicate PayloadRight(es: seq<Entry>, def: Def) {
    !AnyUnreadable(es) && !HasDots(es) && KeysRight(AllNames(es), def)
  }

  /** Without a misread entry the verdict on the site is the verdict on the payload as printed. */
  lemma SiteIsRight(src: string, open: nat, es: seq<Entry>, site: Site, cmds: Commands, registered: set<string>)
    requires es != [] && EntriesFit(es) && ReadAsMeant(es) && OccursAt(src, "{" + (EntriesText(es) + "}"), open)
    requires !AnyMisread(es)
    requires site.cmd.Some? && site == SiteOf(site.cmd.value, site.file, site.line, Read(src, open), site.why)
    ensures Right(site, cmds, registered) <==>
              site.cmd.value in cmds && site.cmd.value in registered && PayloadRight(es, cmds[site.cmd.value])
  {
    hide EntriesFit, ReadAsMeant, EntriesText, AnyMisread, AnyUnreadable, AllNames, AllKeys, FirstWhy,
         Read, IndexOf,
         Expected, OccursAt, HasDots, KeysRight, Right;
    ObjectKeysRoundTrip.ObjectKeysRoundTrip(src, open, es);
    NothingDroppedQuietly(src, open, es);
    SiteVerdictIs(src, open, es, site, cmds, registered);
  }

  lemma SpreadOfText(src: string, open: nat, es: seq<Entry>)
    requires es != [] && EntriesFit(es) && ReadAsMeant(es) && OccursAt(src, "{" + (EntriesText(es) + "}"), open)
    ensures Read(src, open).spread <==> HasDots(es)
  {
    hide EntriesFit, ReadAsMeant, EntriesText, Walk, IndexOf;
    ObjectKeysRoundTrip.ObjectKeysRoundTrip(src, open, es);
    var text := "{" + (EntriesText(es) + "}");
    assert Slice(src, open, open + |text|) == text;
  }

  /** The whole way: when no problem is found and every name is said to be checked, every site whose
      payload was printed without a misread entry names a known, registered command, hides no key, sends
      only expected ones and all that are required. */
  lemma PrintedCallsAreRight(sites: seq<Site>, cmds: Commands, registered: set<string>,
                             src: string, open: nat, es: seq<Entry>, site: Site)
    requires AllProblems(sites, cmds, registered) == [] && Unchecked(sites, cmds, registered) == []
    requires es != [] && EntriesFit(es) && ReadAsMeant(es) && OccursAt(src, "{" + (EntriesText(es) + "}"), open)
    requires !AnyMisread(es)
    requires site in sites && site.cmd.Some?
    requires site == SiteOf(site.cmd.value, site.file, site.line, Read(src, open), site.why)
    ensures site.cmd.value in cmds && site.cmd.value in registered && PayloadRight(es, cmds[site.cmd.value])
    ensures !exists e <- es :: e.Spread?
  {
    hide EntriesFit, ReadAsMeant, EntriesText, AnyMisread, PayloadRight, Read, AllProblems, Unchecked,
         OccursAt;
    VerdictSound(sites, cmds, registered);
    SiteIsRight(src, open, es, site, cmds, registered);
    ObjectKeysRoundTrip.ObjectKeysRoundTrip(src, open, es);
  }

  /** A misread entry gets past the verdict: this accessor is no key `get`, yet the call passes. */
  lemma MisreadPayloadPasses()
    ensures var def := Def([Arg("get", false)], "lib.rs", 1);
            var site := SiteOf("c", "app.js", 1, Read("{get [x](){}}", 0), "");
            Right(site, map["c" := def], {"c"})
  {
    hide Walk, IndexOf;
    ComputedAccessorMisread();
    NoDots();
    var def := Def([Arg("get", false)], "lib.rs", 1);
    assert def.args[0] in def.args;
  }

  lemma NoDots()
    ensures !Read("{get [x](){}}", 0).spread
  {
    hide Walk, IndexOf;
    var src := "{get [x](){}}";
    var slice := Slice(src, 0, Read(src, 0).end + 1);
    assert '.' !in slice;
    var k := IndexOf(slice, "...", 0);
    if k >= 0 { DotIn(slice, k); }
  }

  lemma DotIn(s: string, k: nat)
    requires OccursAt(s, "...", k)
    ensures '.' in s
  {
    assert s[k] == s[k..k + 3][0];
  }
}
