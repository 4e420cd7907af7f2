/** The tracker's GraphQL client, above the wire: identifier parsing, the
    classification of a reply, node selection and the issue mapping. The HTTP
    exchange is a function from the query sent to the reply received, and a
    reply body arrives already decoded (None when it does not decode). */
module LinearClient {
  import opened Wrappers
  import opened Errors
  import opened Strings
  import opened Sequences
  import opened LinearTypes
  import Http

  const MinInt64: int := -0x8000_0000_0000_0000
  const MaxInt64: int := 0x7fff_ffff_ffff_ffff

  // ----- strconv.Atoi -----

  function DigitValue(c: char): nat
    requires IsDigit(c)
  {
    c as int - '0' as int
  }

  /** The value of a run of decimal digits, most significant first. */
  function DigitsValue(d: string): nat
    requires AllDigits(d)
    decreases |d|
  {
    if d == [] then 0 else DigitsValue(d[..|d| - 1]) * 10 + DigitValue(d[|d| - 1])
  }

  /** What Atoi accepts: an optional sign, then at least one digit. */
  predicate AtoiSyntax(s: string)
    ensures AtoiSyntax(s) ==> |s| > 0 && IsDigit(s[|s| - 1]) && (IsDigit(s[0]) || s[0] == '+' || s[0] == '-')
  {
    |s| > 0 &&
    var digits := if s[0] == '+' || s[0] == '-' then s[1..] else s;
    |digits| > 0 && AllDigits(digits)
  }

  /** strconv.Atoi: None for a syntax error and for a value out of the
      64-bit range (int is 64 bits on the platforms the bridge runs on). */
  function Atoi(s: string): (r: Option<int>)
    ensures r.Some? ==> AtoiSyntax(s) && MinInt64 <= r.value <= MaxInt64
    ensures !AtoiSyntax(s) ==> r.None?
  {
    if s == [] then None
    else
      var neg := s[0] == '-';
      var digits := if s[0] == '+' || s[0] == '-' then s[1..] else s;
      if digits == [] || !AllDigits(digits) then None
      else
        var v := DigitsValue(digits);
        var n: int := if neg then -(v as int) else v;
        if MinInt64 <= n <= MaxInt64 then Some(n) else None
  }

  function DigitChar(d: nat): (c: char)
    requires d < 10
    ensures IsDigit(c) && DigitValue(c) == d
  {
    ('0' as int + d) as char
  }

  /** The decimal spelling of n, as strconv.Itoa writes it. */
  function Decimal(n: nat): (s: string)
    ensures |s| > 0 && AllDigits(s) && DigitsValue(s) == n
    decreases n
  {
    var last := [DigitChar(n % 10)];
    if n < 10 then last
    else
      var s := Decimal(n / 10) + last;
      assert s[..|s| - 1] == Decimal(n / 10);
      s
  }

  /** Atoi reads back what Decimal writes, with either sign. */
  lemma AtoiDecimal(n: nat)
    ensures Atoi(Decimal(n)) == if n <= MaxInt64 then Some(n) else None
    ensures Atoi("-" + Decimal(n)) == if n <= MaxInt64 + 1 then Some(-(n as int)) else None
    ensures Atoi("+" + Decimal(n)) == if n <= MaxInt64 then Some(n) else None
  {
    var d := Decimal(n);
    assert ("-" + d)[1..] == d && ("+" + d)[1..] == d;
    assert IsDigit(d[0]);
  }

  /** A sign alone, words and the empty string are not numbers; the range ends
      at the 64-bit limits. */
  lemma AtoiRejects()
    ensures Atoi("") == None && Atoi("-") == None && Atoi("+") == None
    ensures Atoi("abc") == None && Atoi("4x2") == None
  {
    assert !IsDigit('a') && !IsDigit('x');
    assert "4x2"[1] == 'x';
  }

  // ----- ParseIdentifier -----

  /** The three results of ParseIdentifier: ("", 0, error) on failure. */
  datatype Parsed = Parsed(teamKey: string, number: int, err: Option<Error>)

  /** ParseIdentifier: split at the first '-'; the part after it must be an
      Atoi integer. */
  function ParseIdentifier(identifier: string): (r: Parsed)
    ensures r.err.Some? ==> r.teamKey == "" && r.number == 0
    ensures r.err == Some(InvalidIdentifierFormat(identifier)) <==> '-' !in identifier
    ensures r.err.None? ==>
      && '-' !in r.teamKey && HasPrefix(identifier, r.teamKey + "-")
      && Atoi(identifier[|r.teamKey| + 1..]) == Some(r.number)
    ensures r.err.Some? ==>
      || r.err == Some(InvalidIdentifierFormat(identifier))
      || r.err == Some(InvalidIssueNumber(identifier))
  {
    if '-' !in identifier then Parsed("", 0, Some(InvalidIdentifierFormat(identifier)))
    else
      var k := FirstIndex(identifier, '-');
      match Atoi(identifier[k + 1..])
      case None => Parsed("", 0, Some(InvalidIssueNumber(identifier)))
      case Some(n) =>
        SplitAt(identifier, k);
        Parsed(identifier[..k], n, None)
  }

  /** The part before a '-' at k, with the '-', is a prefix. */
  lemma SplitAt(s: string, k: nat)
    requires k < |s| && s[k] == '-'
    ensures HasPrefix(s, s[..k] + "-") && |s[..k]| == k
  {
    assert s[..k] + "-" == s[..k + 1];
  }

  /** key + "-" + decimal(n) parses back to (key, n), for a key without '-'. */
  lemma {:induction false} ParseIdentifierRoundTrip(key: string, n: nat)
    requires '-' !in key && n <= MaxInt64
    ensures ParseIdentifier(key + "-" + Decimal(n)) == Parsed(key, n, None)
  {
    var id := key + "-" + Decimal(n);
    assert id[|key|] == '-' && id[..|key|] == key;
    FirstIndexUnique(id, '-', |key|);
    assert id[|key| + 1..] == Decimal(n);
    AtoiDecimal(n);
  }

  /** The sign belongs to the number: key + "--" + decimal(n) parses to (key, -n). */
  lemma {:induction false} ParseIdentifierNegative(key: string, n: nat)
    requires '-' !in key && n <= MaxInt64 + 1
    ensures ParseIdentifier(key + "--" + Decimal(n)) == Parsed(key, -(n as int), None)
  {
    var id := key + "--" + Decimal(n);
    assert id[|key|] == '-' && id[..|key|] == key;
    FirstIndexUnique(id, '-', |key|);
    assert id[|key| + 1..] == "-" + Decimal(n);
    AtoiDecimal(n);
  }

  /** Without a '-' the identifier has the wrong format. */
  lemma ParseIdentifierNoHyphen()
    ensures ParseIdentifier("MIR42") == Parsed("", 0, Some(InvalidIdentifierFormat("MIR42")))
  {
  }

  /** After the first '-' there must be an integer. */
  lemma ParseIdentifierBadNumber()
    ensures ParseIdentifier("MIR-abc") == Parsed("", 0, Some(InvalidIssueNumber("MIR-abc")))
    ensures ParseIdentifier("MIR-") == Parsed("", 0, Some(InvalidIssueNumber("MIR-")))
  {
    AtoiRejects();
    FirstIndexUnique("MIR-abc", '-', 3);
    assert "MIR-abc"[4..] == "abc";
    FirstIndexUnique("MIR-", '-', 3);
    assert "MIR-"[4..] == "";
  }

  // ----- the GraphQL exchange -----

  /** The three operations the client sends. */
  datatype Query =
    | IssueByIdentifier(teamKey: string, number: int)
    | LabelByName(teamKey: string, labelName: string)
    | AddLabelMutation(issueId: string, labelId: string)

  datatype LabelNode = LabelNode(id: string, name: string, color: string)

  datatype AttachmentNode = AttachmentNode(url: string, title: string)

  datatype StateJSON = StateJSON(name: string, color: string, stateType: string)

  /** issueJSON: one node of the issues list. */
  datatype IssueJSON = IssueJSON(
    id: string,
    identifier: string,
    title: string,
    description: string,
    url: string,
    priority: int,
    createdAt: int,
    updatedAt: int,
    state: StateJSON,
    labelNodes: seq<LabelNode>,
    attachmentNodes: seq<AttachmentNode>)

  /** The "data" member, as each caller decodes it: the issues nodes and the
      issueLabels node ids, each None when data does not have that shape. */
  datatype Data = Data(issueNodes: Option<seq<IssueJSON>>, labelIds: Option<seq<string>>)

  /** The envelope: data and the "errors" messages. */
  datatype GraphQLResponse = GraphQLResponse(data: Data, errors: seq<string>)

  /** What the exchange gives back: nothing (the request could not be sent or
      the body read), or a status and a body that may not decode. */
  datatype HttpReply = TransportError | Reply(status: int, body: Option<GraphQLResponse>)

  datatype Client = Client(transport: Query -> HttpReply)

  /** do: classify the reply to q. */
  function Do(c: Client, q: Query): (r: Result<Data, Error>)
    ensures r.Success? <==>
      c.transport(q).Reply? && c.transport(q).status == Http.StatusOK
      && c.transport(q).body.Some? && c.transport(q).body.value.errors == []
    ensures r.Success? ==> r.value == c.transport(q).body.value.data
    ensures c.transport(q).Reply? && c.transport(q).status != Http.StatusOK ==>
      r == Failure(LinearStatus(c.transport(q).status))
    ensures (c.transport(q).Reply? && c.transport(q).status == Http.StatusOK
             && c.transport(q).body.Some? && c.transport(q).body.value.errors != []) ==>
      r == Failure(LinearApiError(c.transport(q).body.value.errors[0]))
  {
    match c.transport(q)
    case TransportError => Failure(TransportFailure)
    case Reply(status, body) =>
      if status != Http.StatusOK then Failure(LinearStatus(status))
      else if body.None? then Failure(DecodeResponse)
      else if body.value.errors != [] then Failure(LinearApiError(body.value.errors[0]))
      else Success(body.value.data)
  }

  // ----- toIssue -----

  function LabelOf(n: LabelNode): Label {
    Label(n.id, n.name, n.color)
  }

  function AttachmentOf(n: AttachmentNode): Attachment {
    Attachment(n.url, n.title)
  }

  /** The Issue that toIssue builds from a node. */
  function IssueOf(j: IssueJSON): (issue: Issue)
    ensures issue.id == j.id && issue.identifier == j.identifier
    ensures |issue.labels| == |j.labelNodes| && |issue.attachments| == |j.attachmentNodes|
    ensures forall i :: 0 <= i < |j.labelNodes| ==> issue.labels[i].name == j.labelNodes[i].name
  {
    Issue(j.id, j.identifier, j.title, j.description,
      State(j.state.name, j.state.color, j.state.stateType),
      j.priority,
      seq(|j.labelNodes|, i requires 0 <= i < |j.labelNodes| => LabelOf(j.labelNodes[i])),
      seq(|j.attachmentNodes|, i requires 0 <= i < |j.attachmentNodes| => AttachmentOf(j.attachmentNodes[i])),
      j.url, j.createdAt, j.updatedAt)
  }

  /** toIssue: fill the label and attachment arrays by index, then the record. */
  method ToIssue(j: IssueJSON) returns (issue: Issue)
    ensures issue == IssueOf(j)
    ensures |issue.labels| == |j.labelNodes| && |issue.attachments| == |j.attachmentNodes|
    ensures forall i :: 0 <= i < |j.labelNodes| ==>
      issue.labels[i].id == j.labelNodes[i].id && issue.labels[i].name == j.labelNodes[i].name
      && issue.labels[i].color == j.labelNodes[i].color
    ensures forall i :: 0 <= i < |j.attachmentNodes| ==>
      issue.attachments[i].url == j.attachmentNodes[i].url
      && issue.attachments[i].title == j.attachmentNodes[i].title
    ensures issue.id == j.id && issue.identifier == j.identifier && issue.title == j.title
      && issue.description == j.description && issue.priority == j.priority && issue.url == j.url
      && issue.createdAt == j.createdAt && issue.updatedAt == j.updatedAt
      && issue.state == State(j.state.name, j.state.color, j.state.stateType)
  {
    var labels := new Label[|j.labelNodes|];
    for i := 0 to |j.labelNodes|
      invariant forall t :: 0 <= t < i ==> labels[t] == LabelOf(j.labelNodes[t])
    {
      var n := j.labelNodes[i];
      labels[i] := Label(n.id, n.name, n.color);
    }
    var ls := labels[..];
    assert ls == IssueOf(j).labels;
    var attachments := new Attachment[|j.attachmentNodes|];
    for i := 0 to |j.attachmentNodes|
      invariant forall t :: 0 <= t < i ==> attachments[t] == AttachmentOf(j.attachmentNodes[t])
    {
      var n := j.attachmentNodes[i];
      attachments[i] := Attachment(n.url, n.title);
    }
    assert attachments[..] == IssueOf(j).attachments;
    issue := Issue(j.id, j.identifier, j.title, j.description,
      State(j.state.name, j.state.color, j.state.stateType),
      j.priority, ls, attachments[..], j.url, j.createdAt, j.updatedAt);
  }

  /** The mapped issue has a label exactly when the node listed one by that name. */
  lemma IssueOfHasLabel(j: IssueJSON, name: string)
    ensures HasLabel(IssueOf(j), name) <==> exists n :: n in j.labelNodes && n.name == name
  {
    var ls := IssueOf(j).labels;
    if n :| n in j.labelNodes && n.name == name {
      var i :| 0 <= i < |j.labelNodes| && j.labelNodes[i] == n;
      assert ls[i] in ls;
    }
    if l :| l in ls && l.name == name {
      var i :| 0 <= i < |ls| && ls[i] == l;
      assert j.labelNodes[i] in j.labelNodes;
    }
  }

  // ----- the three operations -----

  /** FetchIssue: parse, query, decode, then None for no node or the first node. */
  function FetchIssue(c: Client, identifier: string): (r: Result<Option<Issue>, Error>)
    ensures ParseIdentifier(identifier).err.Some? ==> r == Failure(ParseIdentifier(identifier).err.value)
    ensures var p := ParseIdentifier(identifier);
      var d := Do(c, IssueByIdentifier(p.teamKey, p.number));
      r.Success? <==> p.err.None? && d.Success? && d.value.issueNodes.Some?
    ensures var p := ParseIdentifier(identifier);
      var d := Do(c, IssueByIdentifier(p.teamKey, p.number));
      r.Success? ==>
        var nodes := d.value.issueNodes.value;
        r.value == if nodes == [] then None else Some(IssueOf(nodes[0]))
  {
    var p := ParseIdentifier(identifier);
    if p.err.Some? then Failure(p.err.value)
    else
      match Do(c, IssueByIdentifier(p.teamKey, p.number))
      case Failure(e) => Failure(e)
      case Success(d) =>
        if d.issueNodes.None? then Failure(DecodeIssueData)
        else if d.issueNodes.value == [] then Success(None)
        else Success(Some(IssueOf(d.issueNodes.value[0])))
  }

  /** A malformed identifier is reported before any request: the reply does
      not matter. */
  lemma FetchIssueParsesFirst(c1: Client, c2: Client, identifier: string)
    requires ParseIdentifier(identifier).err.Some?
    ensures FetchIssue(c1, identifier) == FetchIssue(c2, identifier)
    ensures FetchIssue(c1, identifier).Failure?
  {
  }

  /** FetchLabelByName: "" for no node, else the first node's id. */
  function FetchLabelByName(c: Client, teamKey: string, name: string): (r: Result<string, Error>)
    ensures r.Success? <==>
      Do(c, LabelByName(teamKey, name)).Success? && Do(c, LabelByName(teamKey, name)).value.labelIds.Some?
    ensures r.Success? ==>
      var ids := Do(c, LabelByName(teamKey, name)).value.labelIds.value;
      r.value == (if ids == [] then "" else ids[0])
  {
    match Do(c, LabelByName(teamKey, name))
    case Failure(e) => Failure(e)
    case Success(d) =>
      if d.labelIds.None? then Failure(DecodeLabelData)
      else if d.labelIds.value == [] then Success("")
      else Success(d.labelIds.value[0])
  }

  /** AddLabel: the mutation's error, if any; its data is ignored. */
  function AddLabel(c: Client, issueId: string, labelId: string): (r: Option<Error>)
    ensures r.None? <==> Do(c, AddLabelMutation(issueId, labelId)).Success?
  {
    match Do(c, AddLabelMutation(issueId, labelId))
    case Failure(e) => Some(e)
    case Success(_) => None
  }
}
