/** Which problem is told of which site, with which key and hint, and in which order. */
module VerdictProblems {
  import opened Chars
  import opened Wrappers
  import opened Verdict

  /** A site whose command is defined and registered and whose payload can be read. */
  predicate Compared(s: Site, cmds: Commands, registered: set<string>) {
    s.cmd.Some? && s.cmd.value in cmds && s.cmd.value in registered && !s.dynamic
  }

  predicate Takes(def: Def, key: string) {
    exists a <- def.args :: a.key == key
  }

  /** What each kind of problem says of its site. */
  predicate Told(p: Problem, s: Site, cmds: Commands, registered: set<string>) {
    match p
    case UnknownCommand(site) => site == s && s.cmd.Some? && s.cmd.value !in cmds
    case NotRegistered(site, def) =>
      site == s && s.cmd.Some? && s.cmd.value in cmds && def == cmds[s.cmd.value] && s.cmd.value !in registered
    case UnexpectedArg(site, key, meant) =>
      && site == s && Compared(s, cmds, registered) && key in s.keys
      && var def := cmds[s.cmd.value];
         !Takes(def, key) && meant == if Takes(def, ToCamel(key)) then Some(ToCamel(key)) else None
    case MissingArg(site, key) =>
      && site == s && Compared(s, cmds, registered) && key !in s.keys
      && exists a <- cmds[s.cmd.value].args :: a.key == key && !a.optional
  }

  lemma {:induction false} UnexpectedAre(s: Site, def: Def, keys: seq<string>, p: Problem)
    ensures p in Unexpected(s, def, keys) <==>
              && p.UnexpectedArg? && p.site == s && p.key in keys && !Takes(def, p.key)
              && p.meant == if Takes(def, ToCamel(p.key)) then Some(ToCamel(p.key)) else None
    decreases |keys|
  {
    hide ToCamel;
    if keys != [] {
      var front, last := keys[..|keys| - 1], keys[|keys| - 1];
      UnexpectedAre(s, def, front, p);
      assert p.UnexpectedArg? ==> (p.key in keys <==> p.key in front || p.key == last);
      TakesIs(def, last);
      TakesIs(def, ToCamel(last));
    }
  }

  lemma TakesIs(def: Def, key: string)
    ensures key in Expected(def) <==> Takes(def, key)
  {
  }

  lemma {:induction false} MissingAre(s: Site, args: seq<Arg>, p: Problem)
    ensures p in Missing(s, args) <==>
              p.MissingArg? && p.site == s && p.key !in s.keys && exists a <- args :: a.key == p.key && !a.optional
    decreases |args|
  {
    if args != [] {
      var front, last := args[..|args| - 1], args[|args| - 1];
      MissingAre(s, front, p);
      assert args == front + [last];
    }
  }

  /** A site has a problem if and only if what that says of it is so: command, key and hint. */
  lemma ProblemsOfSite(s: Site, cmds: Commands, registered: set<string>, p: Problem)
    ensures p in SiteProblems(s, cmds, registered) <==> Told(p, s, cmds, registered)
  {
    hide Unexpected, Missing, ToCamel, Takes;
    if s.cmd.Some? && s.cmd.value in cmds {
      UnexpectedAre(s, cmds[s.cmd.value], s.keys, p);
      MissingAre(s, cmds[s.cmd.value].args, p);
    }
  }

  /** All that is told, of all sites, and nothing else. */
  lemma ProblemsTold(sites: seq<Site>, cmds: Commands, registered: set<string>, p: Problem)
    ensures p in AllProblems(sites, cmds, registered) <==> exists s <- sites :: Told(p, s, cmds, registered)
  {
    hide SiteProblems, AllProblems, Told;
    ProblemsAre(sites, cmds, registered, p);
    forall s <- sites { ProblemsOfSite(s, cmds, registered, p); }
  }

  // --- order ---

  /** The problems, and the sites not checked, come site by site. */
  lemma {:induction false} SiteBySite(a: seq<Site>, b: seq<Site>, cmds: Commands, registered: set<string>)
    ensures AllProblems(a + b, cmds, registered) == AllProblems(a, cmds, registered) + AllProblems(b, cmds, registered)
    ensures Unchecked(a + b, cmds, registered) == Unchecked(a, cmds, registered) + Unchecked(b, cmds, registered)
    decreases |b|
  {
    hide SiteProblems, NotChecked;
    if b == [] {
      assert a + b == a;
    } else {
      var front, last := b[..|b| - 1], b[|b| - 1];
      assert (a + b)[..|a + b| - 1] == a + front && (a + b)[|a + b| - 1] == last;
      SiteBySite(a, front, cmds, registered);
    }
  }

  lemma {:induction false} KeyByKey(s: Site, def: Def, a: seq<string>, b: seq<string>)
    ensures Unexpected(s, def, a + b) == Unexpected(s, def, a) + Unexpected(s, def, b)
    decreases |b|
  {
    hide ToCamel, Expected;
    if b == [] {
      assert a + b == a;
    } else {
      var front, last := b[..|b| - 1], b[|b| - 1];
      assert (a + b)[..|a + b| - 1] == a + front && (a + b)[|a + b| - 1] == last;
      KeyByKey(s, def, a, front);
    }
  }

  lemma {:induction false} ArgByArg(s: Site, a: seq<Arg>, b: seq<Arg>)
    ensures Missing(s, a + b) == Missing(s, a) + Missing(s, b)
    decreases |b|
  {
    if b == [] {
      assert a + b == a;
    } else {
      var front, last := b[..|b| - 1], b[|b| - 1];
      assert (a + b)[..|a + b| - 1] == a + front && (a + b)[|a + b| - 1] == last;
      ArgByArg(s, a, front);
    }
  }

  /** Of one site the unexpected keys come first, in the order they are sent, then the missing ones, in the
      order the command declares them. */
  lemma UnexpectedFirst(s: Site, cmds: Commands, registered: set<string>, i: nat, j: nat)
    requires i < |SiteProblems(s, cmds, registered)| && j < |SiteProblems(s, cmds, registered)|
    requires SiteProblems(s, cmds, registered)[i].UnexpectedArg? && SiteProblems(s, cmds, registered)[j].MissingArg?
    ensures i < j
  {
    hide Unexpected, Missing;
    var def := cmds[s.cmd.value];
    var first, second := Unexpected(s, def, s.keys), Missing(s, def.args);
    var all := SiteProblems(s, cmds, registered);
    if i >= |first| {
      MissingAre(s, def.args, second[i - |first|]);
    }
    if j < |first| {
      UnexpectedAre(s, def, s.keys, first[j]);
    }
  }

  // --- the hint ---

  /** The capital of a small letter; any other character as it is. */
  function Capital(c: char): char {
    var k := IndexOf(LOWER, [c], 0);
    if 0 <= k < 26 then UPPER[k] else c
  }

  function Capitalized(word: string): string {
    if word == "" then "" else [Capital(word[0])] + word[1..]
  }

  predicate IsWordPart(word: string) {
    && word != "" && (word[0] in LOWER || word[0] in DIGITS) && '_' !in word
  }

  /** Words joined by underscores, and the same words with the first letters of all but the first capital. */
  function Snake(words: seq<string>): string {
    if words == [] then "" else if |words| == 1 then words[0] else words[0] + ("_" + Snake(words[1..]))
  }

  function Camel(words: seq<string>): string {
    if words == [] then "" else words[0] + Capitals(words[1..])
  }

  function Capitals(words: seq<string>): string {
    if words == [] then "" else Capitalized(words[0]) + Capitals(words[1..])
  }

  lemma CapitalIs(c: char)
    requires c in LOWER || c in DIGITS
    ensures [Capital(c)] == if 'a' <= c <= 'z' then [(c as int - 'a' as int + 'A' as int) as char] else [c]
    ensures 'a' <= c <= 'z' || IsDigit(c)
  {
    hide IndexOf;
    LowerAre(c);
    DigitsAre(c);
    var k := IndexOf(LOWER, [c], 0);
    if 'a' <= c <= 'z' {
      OccursChar(LOWER, c, c as int - 'a' as int);
      assert LOWER[c as int - 'a' as int] == c;
      OccursChar(LOWER, c, if k < 0 then 0 else k);
      CapitalAt(c, c as int - 'a' as int);
    } else if k >= 0 {
      OccursChar(LOWER, c, k);
    }
  }

  lemma CapitalAt(c: char, n: nat)
    requires n < 26 && LOWER[n] == c
    ensures IndexOf(LOWER, [c], 0) == n && UPPER[n] == (n + 'A' as int) as char && c == (n + 'a' as int) as char
  {
    hide IndexOf, LOWER, UPPER;
    LettersInOrder(n);
    OccursChar(LOWER, c, n);
    var k := IndexOf(LOWER, [c], 0);
    LettersInOrder(if 0 <= k < n then k else n);
    if 0 <= k < n { OccursChar(LOWER, c, k); }
  }

  lemma LettersInOrder(n: nat)
    requires n < 26
    ensures |LOWER| == |UPPER| == 26
    ensures LOWER[n] == (n + 'a' as int) as char && UPPER[n] == (n + 'A' as int) as char
  {
  }

  lemma {:induction false} PlainStays(word: string, rest: string)
    requires '_' !in word
    ensures ToCamel(word + rest) == word + ToCamel(rest)
    decreases |word|
  {
    if word == "" {
      assert word + rest == rest;
    } else {
      assert (word + rest)[1..] == word[1..] + rest;
      PlainStays(word[1..], rest);
    }
  }

  lemma UnderscoreGoes(word: string, rest: string)
    requires IsWordPart(word)
    ensures ToCamel("_" + (word + rest)) == Capitalized(word) + ToCamel(rest)
  {
    hide Capital, LOWER, DIGITS, ToCamel;
    CapitalIs(word[0]);
    PlainStays(word[1..], rest);
    UnderscoreStep("_" + (word + rest), word[1..] + rest);
  }

  lemma UnderscoreStep(s: string, rest: string)
    requires |s| > 1 && s[0] == '_' && s[2..] == rest && ('a' <= s[1] <= 'z' || IsDigit(s[1]))
    ensures ToCamel(s) ==
              (if 'a' <= s[1] <= 'z' then [(s[1] as int - 'a' as int + 'A' as int) as char] else [s[1]]) + ToCamel(rest)
  {
  }

  /** The hint is the key in camel case: `job_id` is `jobId`. */
  lemma {:induction false} HintIsCamel(words: seq<string>)
    requires words != [] && '_' !in words[0] && forall k :: 1 <= k < |words| ==> IsWordPart(words[k])
    ensures ToCamel(Snake(words)) == Camel(words)
    decreases |words|
  {
    hide IsWordPart;
    TailIsCapitals(words[1..]);
    var tail := if |words| == 1 then "" else "_" + Snake(words[1..]);
    PlainStays(words[0], tail);
    assert Snake(words) == words[0] + tail;
  }

  lemma {:induction false} TailIsCapitals(words: seq<string>)
    requires forall k :: 0 <= k < |words| ==> IsWordPart(words[k])
    ensures ToCamel(if words == [] then "" else "_" + Snake(words)) == Capitals(words)
    decreases |words|
  {
    hide IsWordPart, Capitalized;
    if words != [] {
      var tail := if |words| == 1 then "" else "_" + Snake(words[1..]);
      TailIsCapitals(words[1..]);
      UnderscoreGoes(words[0], tail);
      assert "_" + Snake(words) == "_" + (words[0] + tail);
    }
  }
}
