/** The tracker's issue record, with the fields the client fills in. */
module LinearTypes {

  datatype Label = Label(id: string, name: string, color: string)

  datatype Attachment = Attachment(url: string, title: string)

  /** stateType is one of backlog, unstarted, started, completed, cancelled */
  datatype State = State(name: string, color: string, stateType: string)

  /** Times are instants in nanoseconds; only their identity matters here. */
  datatype Issue = Issue(
    id: string,
    identifier: string,
    title: string,
    description: string,
    state: State,
    priority: int,
    labels: seq<Label>,
    attachments: seq<Attachment>,
    url: string,
    createdAt: int,
    updatedAt: int)

  /** The search loop of HasLabel, over labels[from..]. */
  function AnyLabelNamed(labels: seq<Label>, name: string, from: nat): (r: bool)
    requires from <= |labels|
    ensures r <==> exists i :: from <= i < |labels| && labels[i].name == name
    decreases |labels| - from
  {
    if from == |labels| then false
    else if labels[from].name == name then true
    else AnyLabelNamed(labels, name, from + 1)
  }

  /** Issue.HasLabel: some label carries exactly this name. */
  function HasLabel(issue: Issue, name: string): (r: bool)
    ensures r <==> exists l :: l in issue.labels && l.name == name
  {
    AnyLabelNamed(issue.labels, name, 0)
  }

  function WithLabels(issue: Issue, labels: seq<Label>): Issue {
    issue.(labels := labels)
  }

  /** No labels, no match. */
  lemma HasLabelEmpty(issue: Issue, name: string)
    requires issue.labels == []
    ensures !HasLabel(issue, name)
  {
  }

  /** Appending a label with the name makes it present; appending another
      name changes nothing. */
  lemma HasLabelAppend(issue: Issue, l: Label, name: string)
    ensures HasLabel(WithLabels(issue, issue.labels + [l]), name)
      == (l.name == name || HasLabel(issue, name))
  {
    var ls := issue.labels + [l];
    assert l == ls[|ls| - 1];
    assert forall x :: x in ls <==> x in issue.labels || x == l;
  }

  /** The answer does not depend on label order (or on which copy of a label
      comes first). */
  lemma HasLabelOrderFree(a: Issue, b: Issue, name: string)
    requires multiset(a.labels) == multiset(b.labels)
    ensures HasLabel(a, name) == HasLabel(b, name)
  {
    forall l ensures l in a.labels <==> l in b.labels {
      assert l in a.labels <==> l in multiset(a.labels);
      assert l in b.labels <==> l in multiset(b.labels);
    }
  }

  /** Names compare exactly: "nonpublic" and "Public" are not "public". */
  lemma HasLabelExact(issue: Issue)
    requires issue.labels == [Label("l1", "nonpublic", "#000"), Label("l2", "Public", "#fff")]
    ensures !HasLabel(issue, "public")
    ensures HasLabel(issue, "nonpublic")
  {
    assert issue.labels[0] in issue.labels;
  }
}
