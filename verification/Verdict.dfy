/** The verdict on the call sites: which problems they have, and which of them could not be checked. */
module Verdict {
  import opened Chars
  import opened Wrappers

  datatype Arg = Arg(key: string, optional: bool)

  datatype Def = Def(args: seq<Arg>, file: string, line: nat)

  /** A call site; without a command when that cannot be read, dynamic when its payload cannot. */
  datatype Site = Site(cmd: Option<string>, file: string, line: nat, keys: seq<string>, dynamic: bool, why: string)

  datatype Problem =
    | UnknownCommand(site: Site)
    | NotRegistered(site: Site, def: Def)
    | UnexpectedArg(site: Site, key: string, meant: Option<string>)
    | MissingArg(site: Site, key: string)

  type Commands = map<string, Def>

  /** `_x` becomes `X`, for a letter or a digit. */
  function ToCamel(s: string): string {
    if s == "" then ""
    else if s[0] == '_' && |s| > 1 && 'a' <= s[1] <= 'z' then
      [(s[1] as int - 'a' as int + 'A' as int) as char] + ToCamel(s[2..])
    else if s[0] == '_' && |s| > 1 && IsDigit(s[1]) then [s[1]] + ToCamel(s[2..])
    else [s[0]] + ToCamel(s[1..])
  }

  function Expected(def: Def): set<string> {
    set a | a in def.args :: a.key
  }

  /** The problems with the arguments a site sends: first what is unexpected, then what is missing. */
  function Unexpected(site: Site, def: Def, keys: seq<string>): seq<Problem> {
    if keys == [] then []
    else
      var k := keys[|keys| - 1];
      Unexpected(site, def, keys[..|keys| - 1]) +
      if k in Expected(def) then []
      else [UnexpectedArg(site, k, if ToCamel(k) in Expected(def) then Some(ToCamel(k)) else None)]
  }

  function Missing(site: Site, args: seq<Arg>): seq<Problem> {
    if args == [] then []
    else
      var a := args[|args| - 1];
      Missing(site, args[..|args| - 1]) + if !a.optional && a.key !in site.keys then [MissingArg(site, a.key)] else []
  }

  function SiteProblems(s: Site, cmds: Commands, registered: set<string>): seq<Problem> {
    if s.cmd.None? then []
    else if s.cmd.value !in cmds then [UnknownCommand(s)]
    else if s.cmd.value !in registered then [NotRegistered(s, cmds[s.cmd.value])]
    else if s.dynamic then []
    else Unexpected(s, cmds[s.cmd.value], s.keys) + Missing(s, cmds[s.cmd.value].args)
  }

  function AllProblems(sites: seq<Site>, cmds: Commands, registered: set<string>): seq<Problem> {
    if sites == [] then []
    else AllProblems(sites[..|sites| - 1], cmds, registered) + SiteProblems(sites[|sites| - 1], cmds, registered)
  }

  method FindProblems(sites: seq<Site>, cmds: Commands, registered: set<string>) returns (problems: seq<Problem>)
    ensures problems == AllProblems(sites, cmds, registered)
  {
    problems := [];
    for i := 0 to |sites|
      invariant problems == AllProblems(sites[..i], cmds, registered)
    {
      var s := sites[i];
      assert sites[..i + 1][..i] == sites[..i];
      if s.cmd.None? { continue; }
      if s.cmd.value !in cmds {
        problems := problems + [UnknownCommand(s)];
        continue;
      }
      var def := cmds[s.cmd.value];
      if s.cmd.value !in registered {
        problems := problems + [NotRegistered(s, def)];
        continue;
      }
      if s.dynamic { continue; }
      var arguments := ArgumentProblems(s, def);
      problems := problems + arguments;
    }
    assert sites[..|sites|] == sites;
  }

  /** The two argument loops of `findProblems`. */
  method ArgumentProblems(s: Site, def: Def) returns (problems: seq<Problem>)
    ensures problems == Unexpected(s, def, s.keys) + Missing(s, def.args)
  {
    problems := [];
    var expected := set a | a in def.args :: a.key;
    for k := 0 to |s.keys|
      invariant problems == Unexpected(s, def, s.keys[..k])
    {
      var key := s.keys[k];
      assert s.keys[..k + 1][..k] == s.keys[..k];
      if key !in expected {
        problems := problems + [UnexpectedArg(s, key, if ToCamel(key) in expected then Some(ToCamel(key)) else None)];
      }
    }
    assert s.keys[..|s.keys|] == s.keys;
    ghost var unexpected := problems;
    for k := 0 to |def.args|
      invariant problems == unexpected + Missing(s, def.args[..k])
    {
      var a := def.args[k];
      assert def.args[..k + 1][..k] == def.args[..k];
      if !a.optional && a.key !in s.keys { problems := problems + [MissingArg(s, a.key)]; }
    }
    assert def.args[..|def.args|] == def.args;
  }

  // --- the summary ---

  datatype Line =
    | Checked(sites: nat, commands: nat, registered: nat)
    | MoreNotChecked(sites: nat)
    | NotCheckedSite(site: Site)
    | EveryNameChecked

  predicate NotChecked(s: Site, cmds: Commands, registered: set<string>) {
    s.cmd.None? || (s.dynamic && s.cmd.value in cmds && s.cmd.value in registered)
  }

  function Unchecked(sites: seq<Site>, cmds: Commands, registered: set<string>): (r: seq<Site>)
    ensures |r| <= |sites|
  {
    if sites == [] then []
    else
      Unchecked(sites[..|sites| - 1], cmds, registered)
      + if NotChecked(sites[|sites| - 1], cmds, registered) then [sites[|sites| - 1]] else []
  }

  function SiteLines(sites: seq<Site>): seq<Line> {
    seq(|sites|, i requires 0 <= i < |sites| => NotCheckedSite(sites[i]))
  }

  method SummaryLines(sites: seq<Site>, cmds: Commands, registered: set<string>) returns (lines: seq<Line>)
    ensures var rest := Unchecked(sites, cmds, registered);
            lines == [Checked(|sites| - |rest|, |cmds|, |registered|)]
                     + if rest == [] then [EveryNameChecked] else [MoreNotChecked(|rest|)] + SiteLines(rest)
  {
    var notChecked: seq<Site> := [];
    for i := 0 to |sites|
      invariant notChecked == Unchecked(sites[..i], cmds, registered)
    {
      assert sites[..i + 1][..i] == sites[..i];
      if NotChecked(sites[i], cmds, registered) { notChecked := notChecked + [sites[i]]; }
    }
    assert sites[..|sites|] == sites;
    lines := [Checked(|sites| - |notChecked|, |cmds|, |registered|)];
    if notChecked != [] {
      lines := lines + [MoreNotChecked(|notChecked|)];
      ghost var head := lines;
      for i := 0 to |notChecked|
        invariant lines == head + SiteLines(notChecked[..i])
      {
        lines := lines + [NotCheckedSite(notChecked[i])];
      }
      assert notChecked[..|notChecked|] == notChecked;
    } else {
      lines := lines + [EveryNameChecked];
    }
  }

  // --- soundness ---

  /** The call is right: a known, registered command, sent only what it expects and all it requires. */
  ghost predicate Right(s: Site, cmds: Commands, registered: set<string>) {
    && s.cmd.Some? && s.cmd.value in cmds && s.cmd.value in registered && !s.dynamic
    && var def := cmds[s.cmd.value];
    && (forall k <- s.keys :: k in Expected(def))
    && (forall a <- def.args :: !a.optional ==> a.key in s.keys)
  }

  lemma {:induction false} UnexpectedMeans(site: Site, def: Def, keys: seq<string>)
    ensures Unexpected(site, def, keys) == [] <==> forall k <- keys :: k in Expected(def)
  {
    if keys != [] {
      var front, last := keys[..|keys| - 1], keys[|keys| - 1];
      UnexpectedMeans(site, def, front);
      assert keys == front + [last];
    }
  }

  lemma {:induction false} MissingMeans(site: Site, args: seq<Arg>)
    ensures Missing(site, args) == [] <==> forall a <- args :: !a.optional ==> a.key in site.keys
  {
    if args != [] {
      var front, last := args[..|args| - 1], args[|args| - 1];
      MissingMeans(site, front);
      assert args == front + [last];
    }
  }

  /** A site is right exactly when it has no problem and is not listed as not checked. */
  lemma SiteVerdict(s: Site, cmds: Commands, registered: set<string>)
    ensures Right(s, cmds, registered) <==> SiteProblems(s, cmds, registered) == [] && !NotChecked(s, cmds, registered)
  {
    hide Unexpected, Missing;
    if s.cmd.Some? && s.cmd.value in cmds {
      UnexpectedMeans(s, cmds[s.cmd.value], s.keys);
      MissingMeans(s, cmds[s.cmd.value].args);
    }
  }

  lemma {:induction false} NothingFound(sites: seq<Site>, cmds: Commands, registered: set<string>)
    ensures AllProblems(sites, cmds, registered) == [] && Unchecked(sites, cmds, registered) == []
            <==> forall s <- sites :: SiteProblems(s, cmds, registered) == [] && !NotChecked(s, cmds, registered)
  {
    hide SiteProblems, NotChecked;
    if sites != [] {
      var front, last := sites[..|sites| - 1], sites[|sites| - 1];
      NothingFound(front, cmds, registered);
      assert sites == front + [last];
    }
  }

  /** The verdict is sound and complete: no problem is found and the summary says that every argument
      name was checked, exactly when every call site is right. */
  lemma VerdictSound(sites: seq<Site>, cmds: Commands, registered: set<string>)
    ensures AllProblems(sites, cmds, registered) == [] && Unchecked(sites, cmds, registered) == []
            <==> forall s <- sites :: Right(s, cmds, registered)
  {
    hide Right, SiteProblems, NotChecked;
    NothingFound(sites, cmds, registered);
    forall s <- sites { SiteVerdict(s, cmds, registered); }
  }

  lemma {:induction false} UncheckedAre(sites: seq<Site>, cmds: Commands, registered: set<string>, s: Site)
    ensures s in Unchecked(sites, cmds, registered) <==> s in sites && NotChecked(s, cmds, registered)
  {
    if sites != [] {
      var front, last := sites[..|sites| - 1], sites[|sites| - 1];
      UncheckedAre(front, cmds, registered, s);
      assert s in sites <==> s in front || s == last;
    }
  }

  lemma {:induction false} ProblemsAre(sites: seq<Site>, cmds: Commands, registered: set<string>, p: Problem)
    ensures p in AllProblems(sites, cmds, registered) <==> exists s <- sites :: p in SiteProblems(s, cmds, registered)
  {
    hide SiteProblems;
    if sites != [] {
      var front, last := sites[..|sites| - 1], sites[|sites| - 1];
      ProblemsAre(front, cmds, registered, p);
      assert forall s :: s in sites <==> s in front || s == last;
    }
  }

  lemma {:induction false} OwnArguments(s: Site, def: Def, keys: seq<string>, args: seq<Arg>)
    ensures forall p <- Unexpected(s, def, keys) :: p.site == s
    ensures forall p <- Missing(s, args) :: p.site == s
    decreases |keys| + |args|
  {
    if keys != [] { OwnArguments(s, def, keys[..|keys| - 1], args); }
    if args != [] { OwnArguments(s, def, keys, args[..|args| - 1]); }
  }

  /** No wrong call goes unmentioned: it has a problem of its own or is listed as not checked. */
  lemma WrongCallIsMentioned(sites: seq<Site>, cmds: Commands, registered: set<string>, s: Site)
    requires s in sites && !Right(s, cmds, registered)
    ensures s in Unchecked(sites, cmds, registered) || exists p <- AllProblems(sites, cmds, registered) :: p.site == s
  {
    hide Unchecked, AllProblems, Unexpected, Missing, Right;
    SiteVerdict(s, cmds, registered);
    UncheckedAre(sites, cmds, registered, s);
    var own := SiteProblems(s, cmds, registered);
    if own != [] {
      if s.cmd.value in cmds { OwnArguments(s, cmds[s.cmd.value], s.keys, cmds[s.cmd.value].args); }
      assert own[0] in own && own[0].site == s;
      ProblemsAre(sites, cmds, registered, own[0]);
    }
  }
}
