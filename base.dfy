/** Option and Result, the failure-carrying wrappers every module returns. */
module Wrappers {
  datatype Option<+T> = None | Some(value: T)

  datatype Result<+T, +E> = Success(value: T) | Failure(error: E)
}

/** The errors the bridge reports. Go builds them with fmt.Errorf and %w; here
    each wrapping keeps its cause as a field, and message text is left out. */
module Errors {
  datatype Error =
    | InvalidIdentifierFormat(identifier: string)      // no '-' in the identifier
    | InvalidIssueNumber(identifier: string)           // the part after '-' is not an int
    | TransportFailure                                 // request not sent, or reply not read
    | LinearStatus(code: int)                          // the tracker answered with a non-200 status
    | DecodeResponse                                   // the reply is not a GraphQL envelope
    | LinearApiError(message: string)                  // the first entry of the GraphQL errors list
    | DecodeIssueData                                  // issue data of the wrong shape
    | DecodeLabelData                                  // label data of the wrong shape
    | FetchIssueFailed(identifier: string, cause: Error)
    | LabelNotFound(name: string, teamKey: string)
    | AddLabelFailed(identifier: string, cause: Error)
    | GitLogFailed                                     // the git log command failed
    | GitHubStatus(code: int)                          // a listing page answered with a non-200 status
    | GitHubDecode                                     // a listing page could not be decoded
    | SourceFailed(source: string, cause: Error)       // "scan <source>: <cause>"
}

/** The HTTP status codes the core produces or tests for. */
module Http {
  const StatusOK := 200
  const StatusBadRequest := 400
  const StatusForbidden := 403
  const StatusNotFound := 404
  const StatusInternalServerError := 500
}

/** The few functions of Go's strings package the core uses, on ASCII. */
module Strings {
  predicate IsDigit(c: char) { '0' <= c <= '9' }

  predicate AllDigits(s: string) { forall i :: 0 <= i < |s| ==> IsDigit(s[i]) }

  /** strings.HasPrefix */
  predicate HasPrefix(s: string, p: string) { |p| <= |s| && s[..|p|] == p }

  /** s[i..] starts with sub */
  predicate OccursAt(s: string, sub: string, i: nat) {
    i + |sub| <= |s| && s[i..i + |sub|] == sub
  }

  /** strings.Contains, searching left to right */
  function Contains(s: string, sub: string): (r: bool)
    ensures r <==> exists i: nat :: OccursAt(s, sub, i)
    decreases |s|
  {
    if |sub| > |s| then
      assert forall i: nat :: !OccursAt(s, sub, i);
      false
    else if s[..|sub|] == sub then
      assert OccursAt(s, sub, 0);
      true
    else
      var r := Contains(s[1..], sub);
      assert forall i: nat :: OccursAt(s[1..], sub, i) <==> OccursAt(s, sub, i + 1) by {
        forall i: nat ensures OccursAt(s[1..], sub, i) <==> OccursAt(s, sub, i + 1) {
          if i + 1 + |sub| <= |s| {
            assert s[1..][i..i + |sub|] == s[i + 1..i + 1 + |sub|];
          }
        }
      }
      assert !OccursAt(s, sub, 0);
      assert (exists i: nat :: OccursAt(s, sub, i)) ==> exists i: nat :: OccursAt(s[1..], sub, i) by {
        if i: nat :| OccursAt(s, sub, i) {
          assert i != 0;
          assert OccursAt(s[1..], sub, i - 1);
        }
      }
      r
  }

  /** Appending text never removes an occurrence, and `p + q` contains both parts. */
  lemma ContainsAppend(s: string, t: string, sub: string)
    ensures Contains(s, sub) ==> Contains(s + t, sub)
    ensures Contains(s + sub, sub)
  {
    if Contains(s, sub) {
      var i: nat :| OccursAt(s, sub, i);
      assert (s + t)[i..i + |sub|] == s[i..i + |sub|];
      assert OccursAt(s + t, sub, i);
    }
    assert (s + sub)[|s|..|s| + |sub|] == sub;
    assert OccursAt(s + sub, sub, |s|);
  }

  /** unicode.ToUpper restricted to ASCII: a-z become A-Z, every other char is kept */
  function UpperChar(c: char): char {
    if 'a' <= c <= 'z' then (c as int - 32) as char else c
  }

  /** strings.ToUpper, character by character */
  function ToUpper(s: string): (r: string)
    ensures |r| == |s|
    ensures forall i :: 0 <= i < |s| ==> r[i] == UpperChar(s[i])
  {
    seq(|s|, i requires 0 <= i < |s| => UpperChar(s[i]))
  }

  /** Upper-casing twice is upper-casing once. */
  lemma ToUpperIdempotent(s: string)
    ensures ToUpper(ToUpper(s)) == ToUpper(s)
  {
  }
}
