/** Blanking the comments of Rust source: string literals are left alone, newlines and positions kept. */
module RustBlanker {
  import opened Chars

  datatype Mode = Code | Line | BlockOpen | Block | BlockClose | Str | StrEscape
  {
    predicate Comment?() { Line? || BlockOpen? || Block? || BlockClose? }
  }

  predicate OpensComment(src: string, i: nat)
    requires i < |src|
  {
    src[i] == '/' && (Next?(src, i, '/') || Next?(src, i, '*'))
  }

  /** One character, at most one looked ahead at. */
  function Step(src: string, i: nat, mode: Mode): Mode
    requires i < |src|
  {
    var c := src[i];
    match mode
    case Code =>
      if c == '"' then Str
      else if !OpensComment(src, i) then Code
      else if Next?(src, i, '/') then Line else BlockOpen
    case Line => if i + 1 < |src| && src[i + 1] != '\n' then Line else Code
    case BlockOpen => Block
    case Block => if c == '*' && Next?(src, i, '/') then BlockClose else Block
    case BlockClose => Code
    case Str => if c == '"' then Code else if c == '\\' then StrEscape else Str
    case StrEscape => Str
  }

  function StateAt(src: string, i: nat): Mode
    requires i <= |src|
  {
    if i == 0 then Code else Step(src, i - 1, StateAt(src, i - 1))
  }

  predicate InComment(src: string, i: nat)
    requires i < |src|
  {
    StateAt(src, i).Comment?() || (StateAt(src, i).Code? && OpensComment(src, i))
  }

  ghost function Blanked(src: string): (r: string)
    ensures |r| == |src|
    ensures forall k :: 0 <= k < |src| ==> r[k] == if InComment(src, k) then Blank(src[k]) else src[k]
  {
    seq(|src|, k requires 0 <= k < |src| => if InComment(src, k) then Blank(src[k]) else src[k])
  }

  lemma Moves(src: string, i: nat)
    requires i < |src|
    ensures StateAt(src, i + 1) == Step(src, i, StateAt(src, i))
  {
  }

  method BlankRustComments(src: string) returns (out: string)
    ensures out == Blanked(src)
  {
    hide StateAt;
    StartsInCode(src);
    out := "";
    var i := 0;
    while i < |src|
      invariant i < |src| ==> StateAt(src, i) == Code
      invariant out == Blanked(src)[..if i <= |src| then i else |src|]
      decreases |src| - i
    {
      var c := src[i];
      if c == '"' {
        i, out := KeepString(src, i, out);
      } else if c == '/' && Next?(src, i, '/') {
        i, out := BlankLine(src, i, out);
      } else if c == '/' && Next?(src, i, '*') {
        var end := IndexOf(src, "*/", i + 2);
        var stop := if end < 0 then |src| else end + 2;
        BlockRuns(src, i, stop);
        out := out + Blanks(src[i..stop]);
        i := stop;
      } else {
        Moves(src, i);
        out := out + [c];
        i := i + 1;
      }
    }
  }

  lemma StartsInCode(src: string)
    ensures StateAt(src, 0) == Code
  {
  }

  method KeepString(src: string, at: nat, before: string) returns (i: nat, out: string)
    requires at < |src| && StateAt(src, at) == Code && src[at] == '"' && before == Blanked(src)[..at]
    ensures at < i && (i <= |src| ==> StateAt(src, i) == Code)
    ensures out == Blanked(src)[..if i <= |src| then i else |src|]
  {
    hide StateAt;
    Moves(src, at);
    var j := at + 1;
    while j < |src| && src[j] != '"'
      invariant at < j <= |src| + 1 && (j <= |src| ==> StateAt(src, j) == Str)
      invariant forall k :: at <= k < j && k < |src| ==> !InComment(src, k)
    {
      Moves(src, j);
      if src[j] == '\\' && j + 1 < |src| { Moves(src, j + 1); }
      j := j + if src[j] == '\\' then 2 else 1;
    }
    if j < |src| { Moves(src, j); }
    out := before + Slice(src, at, j + 1);
    i := j + 1;
  }

  method BlankLine(src: string, at: nat, before: string) returns (i: nat, out: string)
    requires at < |src| && StateAt(src, at) == Code && src[at] == '/' && Next?(src, at, '/')
    requires before == Blanked(src)[..at]
    ensures at < i <= |src| && StateAt(src, i) == Code && out == Blanked(src)[..i]
  {
    hide StateAt;
    i := at;
    out := before;
    while i < |src| && src[i] != '\n'
      invariant at <= i <= |src| && out == Blanked(src)[..i]
      invariant i == at || StateAt(src, i) == if i < |src| && src[i] != '\n' then Line else Code
    {
      Moves(src, i);
      out := out + [' '];
      i := i + 1;
    }
  }

  /** A block comment runs to its first closing delimiter, or to the end. */
  lemma {:induction false} BlockReaches(src: string, from: nat, k: nat)
    requires from < |src| && StateAt(src, from) == Code && src[from] == '/' && Next?(src, from, '*')
    requires var end := IndexOf(src, "*/", from + 2); from < k <= if end < 0 then |src| else end + 2
    ensures var end := IndexOf(src, "*/", from + 2);
            StateAt(src, k) == if k == from + 1 then BlockOpen
                               else if end < 0 || k <= end then Block
                               else if k == end + 1 then BlockClose
                               else Code
    decreases k
  {
    hide StateAt, IndexOf;
    if k > from + 1 { BlockReaches(src, from, k - 1); }
    Moves(src, k - 1);
    if from + 2 < k < |src| {
      assert OccursAt(src, "*/", k - 1) <==> src[k - 1] == '*' && src[k] == '/';
    }
  }

  lemma BlockRuns(src: string, from: nat, stop: nat)
    requires from < |src| && StateAt(src, from) == Code && src[from] == '/' && Next?(src, from, '*')
    requires var end := IndexOf(src, "*/", from + 2); stop == if end < 0 then |src| else end + 2
    ensures from < stop <= |src| && (IndexOf(src, "*/", from + 2) >= 0 ==> StateAt(src, stop) == Code)
    ensures forall k :: from <= k < stop ==> InComment(src, k)
  {
    hide StateAt, IndexOf;
    BlockReaches(src, from, stop);
    forall k | from < k < stop { BlockReaches(src, from, k); }
  }

  // --- blanking twice ---

  lemma {:induction false} BlankedScans(src: string, i: nat)
    requires i <= |src|
    ensures StateAt(Blanked(src), i) == if StateAt(src, i).Comment?() then Code else StateAt(src, i)
    ensures forall k :: 0 <= k < i ==> !InComment(Blanked(src), k)
  {
    hide StateAt;
    var out := Blanked(src);
    StartsInCode(src);
    StartsInCode(out);
    if i > 0 {
      BlankedScans(src, i - 1);
      Moves(src, i - 1);
      Moves(out, i - 1);
    }
  }

  /** Blanking keeps length, line numbers and everything outside comments, and blanks nothing twice. */
  lemma BlankingConserves(src: string)
    ensures |Blanked(src)| == |src|
    ensures forall p :: 0 <= p <= |src| ==> Newlines(Blanked(src)[..p]) == Newlines(src[..p])
    ensures forall k :: 0 <= k < |src| && (StateAt(src, k).Str? || StateAt(src, k).StrEscape?) ==>
              Blanked(src)[k] == src[k]
    ensures Blanked(Blanked(src)) == Blanked(src)
  {
    hide StateAt;
    BlankedScans(src, |src|);
    forall p | 0 <= p <= |src| { NewlinesAgree(Blanked(src)[..p], src[..p]); }
  }
}
