/** The recogniser of complete tool-call histories. */
module ToolHistory {

  /** A wire message: an assistant's with the ids of its tool calls, a tool's result, or another role's. */
  datatype Message = Assistant(calls: seq<string>) | Tool(callId: string) | Other

  method Complete(messages: seq<Message>) returns (complete: bool)
    ensures complete <==> IsHistory(messages)
  {
    var pending: set<string> := {};
    for k := 0 to |messages|
      invariant Accepted(messages, {}) <==> Accepted(messages[k..], pending)
    {
      var m := messages[k];
      HistoryIsAccepted(messages);
      assert messages[k..][0] == m && messages[k..][1..] == messages[k + 1..];
      match m
      case Assistant(calls) =>
        if pending != {} { return false; }
        for c := 0 to |calls|
          invariant pending == set id | id in calls[..c]
        {
          pending := pending + {calls[c]};
        }
        assert calls[..|calls|] == calls;
      case Tool(callId) =>
        if callId !in pending { return false; }
        pending := pending - {callId};
      case Other =>
        if pending != {} { return false; }
    }
    HistoryIsAccepted(messages);
    return pending == {};
  }

  /** Reading on with these calls still unanswered. */
  ghost predicate Accepted(ms: seq<Message>, pending: set<string>) {
    if ms == [] then pending == {}
    else match ms[0]
      case Assistant(calls) => pending == {} && Accepted(ms[1..], set id | id in calls)
      case Tool(callId) => callId in pending && Accepted(ms[1..], pending - {callId})
      case Other => pending == {} && Accepted(ms[1..], {})
  }

  // --- the language ---

  /** One result for each id, in any order, and nothing else. */
  ghost predicate Answers(results: seq<Message>, ids: set<string>) {
    && (forall r <- results :: r.Tool? && r.callId in ids)
    && (forall i, j :: 0 <= i < j < |results| ==> results[i] != results[j])
    && (forall id <- ids :: Tool(id) in results)
  }

  /** A message of another role, or an assistant's message with the results of its calls. */
  ghost predicate Group(ms: seq<Message>) {
    || ms == [Other]
    || (ms != [] && ms[0].Assistant? && Answers(ms[1..], set id | id in ms[0].calls))
  }

  ghost function Flatten(groups: seq<seq<Message>>): seq<Message> {
    if groups == [] then [] else groups[0] + Flatten(groups[1..])
  }

  ghost predicate GroupsOf(ms: seq<Message>, groups: seq<seq<Message>>) {
    ms == Flatten(groups) && forall g <- groups :: Group(g)
  }

  ghost predicate IsHistory(ms: seq<Message>) {
    exists groups :: GroupsOf(ms, groups)
  }

  /** The unanswered calls are answered first; what follows is a history of its own. */
  lemma {:induction false} AnsweredFirst(ms: seq<Message>, pending: set<string>) returns (n: nat)
    requires Accepted(ms, pending)
    ensures n <= |ms| && Answers(ms[..n], pending) && Accepted(ms[n..], {})
    decreases |ms|
  {
    if pending == {} {
      n := 0;
      assert ms[0..] == ms;
    } else {
      var id := ms[0].callId;
      var rest := AnsweredFirst(ms[1..], pending - {id});
      n := rest + 1;
      assert ms[..n] == [ms[0]] + ms[1..][..rest] && ms[n..] == ms[1..][rest..];
      forall other <- pending
        ensures Tool(other) in ms[..n]
      {
        if other != id { assert Tool(other) in ms[1..][..rest]; }
      }
    }
  }

  lemma {:induction false} AnswersAccepted(results: seq<Message>, rest: seq<Message>, pending: set<string>)
    requires Answers(results, pending) && Accepted(rest, {})
    ensures Accepted(results + rest, pending)
    decreases |results|
  {
    if results == [] {
      assert results + rest == rest;
    } else {
      var id := results[0].callId;
      assert (results + rest)[1..] == results[1..] + rest;
      forall other <- pending - {id}
        ensures Tool(other) in results[1..]
      {
        assert Tool(other) in results && results == [results[0]] + results[1..];
      }
      forall r <- results[1..]
        ensures r.Tool? && r.callId in pending - {id}
      {
        var k :| 0 <= k < |results| - 1 && results[1..][k] == r;
        assert results[k + 1] == r;
      }
      AnswersAccepted(results[1..], rest, pending - {id});
    }
  }

  lemma {:induction false} GroupsAccepted(groups: seq<seq<Message>>)
    requires forall g <- groups :: Group(g)
    ensures Accepted(Flatten(groups), {})
    decreases |groups|
  {
    if groups != [] {
      var g, rest := groups[0], Flatten(groups[1..]);
      assert Group(g) by { assert g in groups; }
      GroupsAccepted(groups[1..]);
      assert (g + rest)[1..] == g[1..] + rest;
      if g == [Other] {
        assert g[1..] + rest == rest;
      } else {
        AnswersAccepted(g[1..], rest, set id | id in g[0].calls);
      }
    }
  }

  lemma {:induction false} AcceptedGroups(ms: seq<Message>) returns (groups: seq<seq<Message>>)
    requires Accepted(ms, {})
    ensures GroupsOf(ms, groups)
    decreases |ms|
  {
    if ms == [] {
      groups := [];
    } else {
      var n := 0;
      if ms[0].Assistant? { n := AnsweredFirst(ms[1..], set id | id in ms[0].calls); }
      var g := ms[..n + 1];
      assert g[1..] == ms[1..][..n] && ms[n + 1..] == ms[1..][n..];
      var more := AcceptedGroups(ms[n + 1..]);
      groups := [g] + more;
      assert groups[1..] == more && ms == g + ms[n + 1..];
    }
  }

  /** The recogniser accepts exactly the concatenations of groups. */
  lemma HistoryIsAccepted(ms: seq<Message>)
    ensures IsHistory(ms) <==> Accepted(ms, {})
  {
    if IsHistory(ms) {
      var groups :| GroupsOf(ms, groups);
      GroupsAccepted(groups);
    }
    if Accepted(ms, {}) {
      var groups := AcceptedGroups(ms);
    }
  }

  lemma {:induction false} AcceptedCut(ms: seq<Message>, pending: set<string>, k: nat)
    requires k <= |ms|
    ensures Accepted(ms[..k], pending) && Accepted(ms[k..], {}) ==> Accepted(ms, pending)
    ensures Accepted(ms, pending) && (k < |ms| ==> !ms[k].Tool?) ==> Accepted(ms[..k], pending) && Accepted(ms[k..], {})
    decreases k
  {
    if k == 0 {
      assert ms[0..] == ms;
    } else {
      assert ms[..k][1..] == ms[1..][..k - 1] && ms[k..] == ms[1..][k - 1..] && ms[..k][0] == ms[0];
      match ms[0]
      case Assistant(calls) => AcceptedCut(ms[1..], (set id | id in calls), k - 1);
      case Tool(callId) => AcceptedCut(ms[1..], pending - {callId}, k - 1);
      case Other => AcceptedCut(ms[1..], {}, k - 1);
    }
  }

  /** A history may be cut anywhere but before a tool's result: both parts are histories exactly when
      the whole is and the second part does not begin with a result. */
  lemma CutHistory(ms: seq<Message>, k: nat)
    requires k <= |ms|
    ensures IsHistory(ms[..k]) && IsHistory(ms[k..]) <==> IsHistory(ms) && (k < |ms| ==> !ms[k].Tool?)
  {
    HistoryIsAccepted(ms);
    HistoryIsAccepted(ms[..k]);
    HistoryIsAccepted(ms[k..]);
    AcceptedCut(ms, {}, k);
  }
}
