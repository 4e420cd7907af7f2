/** PublicLabeler: make sure an issue carries the `public` label. The label's
    id is looked up at most once per labeler; the once-guard becomes a
    `resolved` flag beside the stored id and error. Each operation also
    returns the client calls it made, in order. */
module Labeler {
  import opened Wrappers
  import opened Errors
  import opened LinearTypes
  import opened LinearClient

  const PublicLabel := "public"

  /** A client call, as the labeler makes it. */
  datatype Call =
    | FetchIssueCall(identifier: string)
    | FetchLabelCall(teamKey: string, name: string)
    | AddLabelCall(issueId: string, labelId: string)

  /** The once-guarded fields: whether the lookup ran, and what it left. */
  datatype LabelState = LabelState(resolved: bool, labelId: string, labelErr: Option<Error>)

  const Unresolved := LabelState(false, "", None)

  /** A resolved state without an error holds a real id. */
  predicate ValidState(st: LabelState) {
    st.resolved && st.labelErr.None? ==> st.labelId != ""
  }

  /** The body run under the once-guard: look the label up; an empty id with
      no error becomes "label not found". */
  function Lookup(c: Client, teamKey: string): (st: LabelState)
    ensures st.resolved && ValidState(st)
    ensures st.labelErr.None? <==>
      FetchLabelByName(c, teamKey, PublicLabel).Success? && FetchLabelByName(c, teamKey, PublicLabel).value != ""
    ensures FetchLabelByName(c, teamKey, PublicLabel) == Success("") ==>
      st.labelErr == Some(LabelNotFound(PublicLabel, teamKey))
    ensures st.labelErr.None? ==> st.labelId == FetchLabelByName(c, teamKey, PublicLabel).value
  {
    match FetchLabelByName(c, teamKey, PublicLabel)
    case Failure(e) => LabelState(true, "", Some(e))
    case Success(id) =>
      if id == "" then LabelState(true, "", Some(LabelNotFound(PublicLabel, teamKey)))
      else LabelState(true, id, None)
  }

  /** resolveLabelID: run the lookup unless it already ran; its calls. */
  function ResolveStep(c: Client, teamKey: string, st: LabelState): (r: (LabelState, seq<Call>))
    ensures r.0.resolved
    ensures ValidState(st) ==> ValidState(r.0)
    ensures st.resolved ==> r == (st, [])
    ensures !st.resolved ==> r == (Lookup(c, teamKey), [FetchLabelCall(teamKey, PublicLabel)])
  {
    if st.resolved then (st, []) else (Lookup(c, teamKey), [FetchLabelCall(teamKey, PublicLabel)])
  }

  /** What one EnsurePublicLabel call returns, which calls it makes and the
      state it leaves. */
  datatype Step = Step(err: Option<Error>, calls: seq<Call>, state: LabelState)

  /** EnsurePublicLabel as a function of the labeler's state. */
  function Ensure(c: Client, teamKey: string, st: LabelState, identifier: string): (s: Step)
    ensures |s.calls| >= 1 && s.calls[0] == FetchIssueCall(identifier)
    ensures ValidState(st) ==> ValidState(s.state)
  {
    AfterFetch(c, teamKey, st, identifier, FetchIssue(c, identifier))
  }

  /** The rest of EnsurePublicLabel, once the issue has been fetched. */
  function AfterFetch(c: Client, teamKey: string, st: LabelState, identifier: string,
                      fetched: Result<Option<Issue>, Error>): (s: Step)
    ensures |s.calls| >= 1 && s.calls[0] == FetchIssueCall(identifier)
    ensures ValidState(st) ==> ValidState(s.state)
  {
    var fetch := [FetchIssueCall(identifier)];
    match fetched
    case Failure(e) => Step(Some(FetchIssueFailed(identifier, e)), fetch, st)
    case Success(None) => Step(None, fetch, st)
    case Success(Some(issue)) =>
      if HasLabel(issue, PublicLabel) then Step(None, fetch, st)
      else
        var (st', lookup) := ResolveStep(c, teamKey, st);
        if st'.labelErr.Some? then Step(st'.labelErr, fetch + lookup, st')
        else
          var add := [AddLabelCall(issue.id, st'.labelId)];
          match AddLabel(c, issue.id, st'.labelId)
          case Some(e) => Step(Some(AddLabelFailed(identifier, e)), fetch + lookup + add, st')
          case None => Step(None, fetch + lookup + add, st')
  }

  /** A fetch error is returned wrapped, with nothing else called. */
  lemma EnsureFetchError(c: Client, teamKey: string, st: LabelState, identifier: string)
    requires FetchIssue(c, identifier).Failure?
    ensures Ensure(c, teamKey, st, identifier)
      == Step(Some(FetchIssueFailed(identifier, FetchIssue(c, identifier).error)), [FetchIssueCall(identifier)], st)
  {
  }

  /** An absent issue, or one already labelled, is a success with nothing
      else called. */
  lemma EnsureNothingToDo(c: Client, teamKey: string, st: LabelState, identifier: string)
    requires FetchIssue(c, identifier) == Success(None)
      || (FetchIssue(c, identifier).Success? && FetchIssue(c, identifier).value.Some?
          && HasLabel(FetchIssue(c, identifier).value.value, PublicLabel))
    ensures Ensure(c, teamKey, st, identifier) == Step(None, [FetchIssueCall(identifier)], st)
  {
  }

  /** On a fresh labeler the success path makes exactly three calls: fetch,
      lookup, then AddLabel(issue.id, resolved id). */
  lemma EnsureFreshSuccess(c: Client, teamKey: string, identifier: string, issue: Issue, labelId: string)
    requires FetchIssue(c, identifier) == Success(Some(issue)) && !HasLabel(issue, PublicLabel)
    requires FetchLabelByName(c, teamKey, PublicLabel) == Success(labelId) && labelId != ""
    requires AddLabel(c, issue.id, labelId).None?
    ensures Ensure(c, teamKey, Unresolved, identifier) == Step(None,
      [FetchIssueCall(identifier), FetchLabelCall(teamKey, PublicLabel), AddLabelCall(issue.id, labelId)],
      LabelState(true, labelId, None))
  {
  }

  /** An issue that needs the label, on a labeler whose lookup failed or will
      fail: the lookup's error is returned and AddLabel is not called. */
  lemma EnsureResolveError(c: Client, teamKey: string, st: LabelState, identifier: string, issue: Issue)
    requires FetchIssue(c, identifier) == Success(Some(issue)) && !HasLabel(issue, PublicLabel)
    requires ResolveStep(c, teamKey, st).0.labelErr.Some?
    ensures var s := Ensure(c, teamKey, st, identifier);
      s.err == ResolveStep(c, teamKey, st).0.labelErr && forall call :: call in s.calls ==> !call.AddLabelCall?
  {
  }

  /** A lookup that finds no label becomes "label not found". */
  lemma EnsureLabelMissing(c: Client, teamKey: string, identifier: string, issue: Issue)
    requires FetchIssue(c, identifier) == Success(Some(issue)) && !HasLabel(issue, PublicLabel)
    requires FetchLabelByName(c, teamKey, PublicLabel) == Success("")
    ensures Ensure(c, teamKey, Unresolved, identifier).err == Some(LabelNotFound(PublicLabel, teamKey))
  {
  }

  /** An AddLabel failure is returned wrapped. */
  lemma EnsureAddLabelError(c: Client, teamKey: string, st: LabelState, identifier: string, issue: Issue)
    requires FetchIssue(c, identifier) == Success(Some(issue)) && !HasLabel(issue, PublicLabel)
    requires ResolveStep(c, teamKey, st).0.labelErr.None?
    requires AddLabel(c, issue.id, ResolveStep(c, teamKey, st).0.labelId).Some?
    ensures Ensure(c, teamKey, st, identifier).err
      == Some(AddLabelFailed(identifier, AddLabel(c, issue.id, ResolveStep(c, teamKey, st).0.labelId).value))
  {
  }

  /** The number of label lookups in a call list. */
  function Lookups(calls: seq<Call>): nat
    decreases |calls|
  {
    if calls == [] then 0
    else Lookups(calls[..|calls| - 1]) + (if calls[|calls| - 1].FetchLabelCall? then 1 else 0)
  }

  lemma {:induction false} LookupsAppend(a: seq<Call>, b: seq<Call>)
    ensures Lookups(a + b) == Lookups(a) + Lookups(b)
    decreases |b|
  {
    if b == [] {
      assert a + b == a;
    } else {
      assert (a + b)[..|a + b| - 1] == a + b[..|b| - 1];
      LookupsAppend(a, b[..|b| - 1]);
    }
  }

  /** One call makes a lookup only if the labeler had not resolved, and then
      leaves it resolved. */
  lemma EnsureLookups(c: Client, teamKey: string, st: LabelState, identifier: string)
    ensures var s := Ensure(c, teamKey, st, identifier);
      Lookups(s.calls) <= (if st.resolved then 0 else 1)
      && (Lookups(s.calls) == 1 ==> s.state.resolved)
      && (st.resolved ==> s.state == st)
  {
    AfterFetchLookups(c, teamKey, st, identifier, FetchIssue(c, identifier));
  }

  lemma AfterFetchLookups(c: Client, teamKey: string, st: LabelState, identifier: string,
                          fetched: Result<Option<Issue>, Error>)
    ensures var s := AfterFetch(c, teamKey, st, identifier, fetched);
      Lookups(s.calls) <= (if st.resolved then 0 else 1)
      && (Lookups(s.calls) == 1 ==> s.state.resolved)
      && (st.resolved ==> s.state == st)
  {
    var fetch := [FetchIssueCall(identifier)];
    assert Lookups(fetch) == 0 by { assert fetch[..0] == []; }
    match fetched
    case Failure(_) =>
    case Success(None) =>
    case Success(Some(issue)) =>
      if !HasLabel(issue, PublicLabel) {
        var (st', lookup) := ResolveStep(c, teamKey, st);
        var add := [AddLabelCall(issue.id, st'.labelId)];
        assert Lookups(add) == 0 by { assert add[..0] == []; }
        assert Lookups(lookup) == if st.resolved then 0 else 1 by {
          if !st.resolved { assert lookup[..0] == []; }
        }
        LookupsAppend(fetch, lookup);
        LookupsAppend(fetch + lookup, add);
      }
  }

  /** The labeler's effect over a run of EnsurePublicLabel calls, in order:
      the errors returned, every call made, and the final state. */
  datatype RunResult = RunResult(errs: seq<Option<Error>>, calls: seq<Call>, state: LabelState)

  function Run(c: Client, teamKey: string, st: LabelState, identifiers: seq<string>): (r: RunResult)
    ensures |r.errs| == |identifiers|
    decreases |identifiers|
  {
    if identifiers == [] then RunResult([], [], st)
    else
      var prev := Run(c, teamKey, st, identifiers[..|identifiers| - 1]);
      var s := Ensure(c, teamKey, prev.state, identifiers[|identifiers| - 1]);
      RunResult(prev.errs + [s.err], prev.calls + s.calls, s.state)
  }

  /** However many identifiers a labeler handles, the label is looked up at
      most once: never again after a lookup, and never from a resolved state. */
  lemma {:induction false} RunLooksUpOnce(c: Client, teamKey: string, st: LabelState, identifiers: seq<string>)
    ensures var r := Run(c, teamKey, st, identifiers);
      Lookups(r.calls) <= (if st.resolved then 0 else 1)
      && (Lookups(r.calls) == 1 ==> r.state.resolved)
      && (st.resolved ==> r.state == st)
    decreases |identifiers|
  {
    if identifiers != [] {
      var prefix := identifiers[..|identifiers| - 1];
      RunLooksUpOnce(c, teamKey, st, prefix);
      var prev := Run(c, teamKey, st, prefix);
      var s := Ensure(c, teamKey, prev.state, identifiers[|identifiers| - 1]);
      EnsureLookups(c, teamKey, prev.state, identifiers[|identifiers| - 1]);
      LookupsAppend(prev.calls, s.calls);
      if !prev.state.resolved {
        assert Lookups(prev.calls) == 0;
      }
    }
  }

  /** A stored lookup error is returned again, without a new lookup, to every
      later issue that needs the label. */
  lemma StoredErrorReused(c: Client, teamKey: string, st: LabelState, identifier: string, issue: Issue)
    requires st.resolved && st.labelErr.Some?
    requires FetchIssue(c, identifier) == Success(Some(issue)) && !HasLabel(issue, PublicLabel)
    ensures Ensure(c, teamKey, st, identifier) == Step(st.labelErr, [FetchIssueCall(identifier)], st)
  {
    assert [FetchIssueCall(identifier)] + [] == [FetchIssueCall(identifier)];
  }

  class PublicLabeler {
    const client: Client
    const teamKey: string
    var resolved: bool
    var labelId: string
    var labelErr: Option<Error>

    function State(): LabelState
      reads this
    {
      LabelState(resolved, labelId, labelErr)
    }

    /** NewPublicLabeler */
    constructor (client: Client, teamKey: string)
      ensures this.client == client && this.teamKey == teamKey
      ensures State() == Unresolved
    {
      this.client := client;
      this.teamKey := teamKey;
      resolved := false;
      labelId := "";
      labelErr := None;
    }

    /** resolveLabelID: the lookup runs only the first time. */
    method ResolveLabelId() returns (id: string, err: Option<Error>, calls: seq<Call>)
      modifies this
      ensures (State(), calls) == ResolveStep(client, teamKey, old(State()))
      ensures id == labelId && err == labelErr
    {
      calls := [];
      if !resolved {
        match FetchLabelByName(client, teamKey, PublicLabel) {
          case Failure(e) =>
            labelId, labelErr := "", Some(e);
          case Success(found) =>
            labelId, labelErr := found, None;
        }
        if labelErr.None? && labelId == "" {
          labelErr := Some(LabelNotFound(PublicLabel, teamKey));
        }
        resolved := true;
        calls := [FetchLabelCall(teamKey, PublicLabel)];
      }
      id, err := labelId, labelErr;
    }

    /** EnsurePublicLabel: fetch, skip an absent or already labelled issue,
        resolve the label, add it. */
    method EnsurePublicLabel(identifier: string) returns (err: Option<Error>, calls: seq<Call>)
      modifies this
      ensures Step(err, calls, State()) == Ensure(client, teamKey, old(State()), identifier)
    {
      calls := [FetchIssueCall(identifier)];
      var fetched := FetchIssue(client, identifier);
      if fetched.Failure? {
        return Some(FetchIssueFailed(identifier, fetched.error)), calls;
      }
      if fetched.value.None? {
        return None, calls;
      }
      var issue := fetched.value.value;
      if HasLabel(issue, PublicLabel) {
        return None, calls;
      }
      var id, resolveErr, lookup := ResolveLabelId();
      calls := calls + lookup;
      if resolveErr.Some? {
        return resolveErr, calls;
      }
      calls := calls + [AddLabelCall(issue.id, id)];
      var addErr := AddLabel(client, issue.id, id);
      if addErr.Some? {
        return Some(AddLabelFailed(identifier, addErr.value)), calls;
      }
      return None, calls;
    }
  }
}
