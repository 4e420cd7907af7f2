/** The GitHub webhook endpoint (handler.go): read at most 1 MiB of the body,
    check the HMAC-SHA256 signature, pull the texts out of the event's
    payload, and ask the labeler to label every issue of the team mentioned
    in them. */
module Webhook {
  import opened Wrappers
  import opened Strings
  import opened Sequences
  import opened Scanner
  import opened Json
  import opened Labeler
  import Http

  newtype byte = x: int | 0 <= x < 256

  /** maxBodySize: 1 << 20 bytes. */
  const MaxBodySize: nat := 0x10_0000

  /** A request body as the server delivers it: the bytes it yields, then
      end of file, or a read error when fails is set. */
  datatype BodyReader = BodyReader(data: seq<byte>, fails: bool)

  /** io.ReadAll(io.LimitReader(body, maxBodySize)): the limit ends the read
      without an error once it is reached, so an error is seen only when it
      comes before the limit. */
  function ReadLimited(r: BodyReader): (res: Option<seq<byte>>)
    ensures res.None? <==> r.fails && |r.data| < MaxBodySize
    ensures res.Some? ==> |res.value| <= MaxBodySize && |res.value| <= |r.data| && res.value == r.data[..|res.value|]
    ensures res.Some? && |res.value| < MaxBodySize ==> res.value == r.data
  {
    if |r.data| >= MaxBodySize then Some(r.data[..MaxBodySize])
    else if r.fails then None
    else Some(r.data)
  }

  /** A body longer than the limit is cut to its first MaxBodySize bytes,
      whatever follows them. */
  lemma ReadTruncates(data: seq<byte>, fails: bool)
    requires |data| > MaxBodySize
    ensures ReadLimited(BodyReader(data, fails)) == Some(data[..MaxBodySize])
  {
  }

  // ---- hex, as encoding/hex reads and writes it ----

  /** The value of a hex digit of either case. */
  function HexValue(c: char): (r: Option<byte>)
    ensures r.Some? ==> r.value < 16
  {
    if '0' <= c <= '9' then Some((c as int - '0' as int) as byte)
    else if 'a' <= c <= 'f' then Some((c as int - 'a' as int + 10) as byte)
    else if 'A' <= c <= 'F' then Some((c as int - 'A' as int + 10) as byte)
    else None
  }

  predicate IsHex(s: string) {
    forall i :: 0 <= i < |s| ==> HexValue(s[i]).Some?
  }

  /** hex.DecodeString: pairs of hex digits, high nibble first. */
  function HexDecode(s: string): (r: Option<seq<byte>>)
    ensures r.Some? <==> |s| % 2 == 0 && IsHex(s)
    ensures r.Some? ==> |r.value| * 2 == |s|
    decreases |s|
  {
    if |s| == 0 then Some([])
    else if |s| == 1 then
      assert !(|s| % 2 == 0);
      None
    else
      var hi, lo, rest := HexValue(s[0]), HexValue(s[1]), HexDecode(s[2..]);
      assert IsHex(s) <==> hi.Some? && lo.Some? && IsHex(s[2..]) by {
        if hi.Some? && lo.Some? && IsHex(s[2..]) {
          forall i | 2 <= i < |s| ensures HexValue(s[i]).Some? {
            assert s[i] == s[2..][i - 2];
          }
        }
      }
      if hi.None? || lo.None? || rest.None? then None
      else Some([hi.value * 16 + lo.value] + rest.value)
  }

  function HexDigit(n: byte): char
    requires n < 16
  {
    if n < 10 then ('0' as int + n as int) as char else ('a' as int + n as int - 10) as char
  }

  /** hex.EncodeToString: two lower-case digits per byte. */
  function HexEncode(b: seq<byte>): (s: string)
    ensures |s| == 2 * |b|
    decreases |b|
  {
    if b == [] then "" else [HexDigit(b[0] / 16), HexDigit(b[0] % 16)] + HexEncode(b[1..])
  }

  /** Decoding undoes encoding. */
  lemma {:induction false} HexRoundTrip(b: seq<byte>)
    ensures HexDecode(HexEncode(b)) == Some(b)
    decreases |b|
  {
    if b != [] {
      HexRoundTrip(b[1..]);
      var s := HexEncode(b);
      assert s == [HexDigit(b[0] / 16), HexDigit(b[0] % 16)] + HexEncode(b[1..]);
      assert s[2..] == HexEncode(b[1..]);
      ByteDigits(b[0]);
      assert HexDecode(s) == Some([b[0]] + b[1..]);
      assert [b[0]] + b[1..] == b;
    }
  }

  lemma HexDigitValue(n: byte)
    requires n < 16
    ensures HexValue(HexDigit(n)) == Some(n)
  {
  }

  /** A byte's two digits read back as its two nibbles, and so as the byte. */
  lemma ByteDigits(x: byte)
    ensures HexValue(HexDigit(x / 16)) == Some(x / 16)
    ensures HexValue(HexDigit(x % 16)) == Some(x % 16)
    ensures (x / 16) * 16 + x % 16 == x
  {
    HexDigitValue(x / 16);
    HexDigitValue(x % 16);
  }

  /** A byte made of two nibbles has them as its digits. */
  lemma NibblesOf(hi: byte, lo: byte)
    requires hi < 16 && lo < 16
    ensures (hi * 16 + lo) / 16 == hi && (hi * 16 + lo) % 16 == lo
  {
  }

  /** hex digits of either case, lower-cased */
  function LowerHex(s: string): (r: string)
    ensures |r| == |s|
  {
    seq(|s|, i requires 0 <= i < |s| => LowerChar(s[i]))
  }

  /** Encoding undoes decoding up to the case of the digits: the only
      strings that decode to b are the spellings of HexEncode(b). */
  lemma {:induction false} HexDecodeCanonical(s: string, b: seq<byte>)
    requires HexDecode(s) == Some(b)
    ensures HexEncode(b) == LowerHex(s)
    decreases |s|
  {
    if |s| >= 2 {
      var rest := HexDecode(s[2..]).value;
      HexDecodeCanonical(s[2..], rest);
      assert b == [b[0]] + rest;
      assert b[1..] == rest;
      var hi, lo := HexValue(s[0]).value, HexValue(s[1]).value;
      assert b[0] == hi * 16 + lo;
      NibblesOf(hi, lo);
      HexDigitOf(s[0]);
      HexDigitOf(s[1]);
      assert LowerHex(s) == [LowerChar(s[0]), LowerChar(s[1])] + LowerHex(s[2..]);
    }
  }

  lemma HexDigitOf(c: char)
    requires HexValue(c).Some?
    ensures HexDigit(HexValue(c).value) == LowerChar(c)
  {
  }

  /** Decoding ignores the case of the digits. */
  lemma {:induction false} HexDecodeLower(s: string)
    ensures HexDecode(LowerHex(s)) == HexDecode(s)
    decreases |s|
  {
    if |s| >= 2 {
      var t := LowerHex(s);
      HexDecodeLower(s[2..]);
      assert t[2..] == LowerHex(s[2..]);
      HexValueLower(s[0]);
      HexValueLower(s[1]);
      HexDecodeStep(s);
      HexDecodeStep(t);
    }
  }

  lemma HexValueLower(c: char)
    ensures HexValue(LowerChar(c)) == HexValue(c)
  {
  }

  /** One pair of digits. */
  lemma HexDecodeStep(s: string)
    requires |s| >= 2
    ensures var hi, lo, rest := HexValue(s[0]), HexValue(s[1]), HexDecode(s[2..]);
      HexDecode(s) == if hi.None? || lo.None? || rest.None? then None else Some([hi.value * 16 + lo.value] + rest.value)
  {
  }

  // ---- the signature ----

  /** HMAC-SHA256 of a message under a key, as crypto/hmac computes it. */
  type Mac = (seq<byte>, seq<byte>) -> seq<byte>

  const SignaturePrefix := "sha256="

  /** verifySignature: "sha256=" followed by the hex of the body's MAC. */
  function VerifySignature(mac: Mac, secret: seq<byte>, body: seq<byte>, signature: string): (ok: bool)
    ensures ok ==> HasPrefix(signature, SignaturePrefix)
    ensures ok ==> |signature| == |SignaturePrefix| + 2 * |mac(secret, body)|
  {
    if !HasPrefix(signature, SignaturePrefix) then false
    else
      match HexDecode(signature[|SignaturePrefix|..])
      case None => false
      case Some(sig) => sig == mac(secret, body)
  }

  /** A signature is accepted exactly when it is "sha256=" and the hex of the
      body's MAC, in digits of either case. */
  lemma SignatureIff(mac: Mac, secret: seq<byte>, body: seq<byte>, signature: string)
    ensures VerifySignature(mac, secret, body, signature) <==>
      HasPrefix(signature, SignaturePrefix)
      && LowerHex(signature[|SignaturePrefix|..]) == HexEncode(mac(secret, body))
  {
    if HasPrefix(signature, SignaturePrefix) {
      var rest := signature[|SignaturePrefix|..];
      var m := mac(secret, body);
      if HexDecode(rest) == Some(m) {
        HexDecodeCanonical(rest, m);
      }
      if LowerHex(rest) == HexEncode(m) {
        HexDecodeLower(rest);
        HexRoundTrip(m);
      }
    }
  }

  /** The signature GitHub sends is accepted. */
  lemma SignatureOfBody(mac: Mac, secret: seq<byte>, body: seq<byte>)
    ensures VerifySignature(mac, secret, body, SignaturePrefix + HexEncode(mac(secret, body)))
  {
    var signature := SignaturePrefix + HexEncode(mac(secret, body));
    assert signature[..|SignaturePrefix|] == SignaturePrefix;
    assert signature[|SignaturePrefix|..] == HexEncode(mac(secret, body));
    HexRoundTrip(mac(secret, body));
  }

  /** A missing header, a remainder of odd length and one with a non-hex
      character are all rejected. */
  lemma SignatureRejected(mac: Mac, secret: seq<byte>, body: seq<byte>, signature: string)
    requires || !HasPrefix(signature, SignaturePrefix)
             || (|signature| - |SignaturePrefix|) % 2 == 1
             || !IsHex(signature[|SignaturePrefix|..])
    ensures !VerifySignature(mac, secret, body, signature)
  {
  }

  // ---- the payloads ----

  /** One commit of a push, as decoded: only its message. */
  datatype Commit = Commit(message: string)

  /** A pull request's or an issue's title and body. */
  datatype TitleBody = TitleBody(title: string, body: string)

  function CommitField(c: Commit, m: Member): Option<Commit> {
    if KeyMatches(m.key, "message") then
      match DecodeString(c.message, m.value)
      case None => None
      case Some(s) => Some(Commit(s))
    else Some(c)
  }

  function TitleBodyField(t: TitleBody, m: Member): Option<TitleBody> {
    if KeyMatches(m.key, "title") then
      match DecodeString(t.title, m.value)
      case None => None
      case Some(s) => Some(t.(title := s))
    else if KeyMatches(m.key, "body") then
      match DecodeString(t.body, m.value)
      case None => None
      case Some(s) => Some(t.(body := s))
    else Some(t)
  }

  /** A struct with a single string field "body". */
  function BodyField(b: string, m: Member): Option<string> {
    if KeyMatches(m.key, "body") then DecodeString(b, m.value) else Some(b)
  }

  /** The elements of a commits array, each decoded into a fresh Commit. */
  function DecodeCommits(items: seq<Value>): (r: Option<seq<Commit>>)
    ensures r.Some? ==> |r.value| == |items|
    decreases |items|
  {
    if items == [] then Some([])
    else
      match (DecodeStruct(Commit(""), items[0], CommitField), DecodeCommits(items[1..]))
      case (Some(c), Some(cs)) => Some([c] + cs)
      case _ => None
  }

  /** The "commits" field: an array replaces it, null empties it. */
  function CommitsField(cs: seq<Commit>, m: Member): Option<seq<Commit>> {
    if KeyMatches(m.key, "commits") then
      match m.value
      case JNull => Some([])
      case JArray(items) => DecodeCommits(items)
      case _ => None
    else Some(cs)
  }

  /** A struct whose one field, named tag, is a TitleBody. */
  function TitleBodyIn(tag: string): (TitleBody, Member) -> Option<TitleBody> {
    (t: TitleBody, m: Member) => if KeyMatches(m.key, tag) then DecodeStruct(t, m.value, TitleBodyField) else Some(t)
  }

  /** A struct whose one field, named tag, is a struct holding a body. */
  function BodyIn(tag: string): (string, Member) -> Option<string> {
    (b: string, m: Member) => if KeyMatches(m.key, tag) then DecodeStruct(b, m.value, BodyField) else Some(b)
  }

  /** The commits of a push payload; None when the body does not parse or
      does not decode. */
  function PushPayload(parsed: Option<Value>): Option<seq<Commit>> {
    match parsed
    case None => None
    case Some(v) => DecodeStruct([], v, CommitsField)
  }

  /** extractPushTexts: the commit messages, in order. */
  function PushTexts(parsed: Option<Value>): (texts: seq<string>)
    ensures PushPayload(parsed).None? ==> texts == []
    ensures PushPayload(parsed).Some? ==>
      var cs := PushPayload(parsed).value;
      |texts| == |cs| && forall i :: 0 <= i < |cs| ==> texts[i] == cs[i].message
  {
    match PushPayload(parsed)
    case None => []
    case Some(cs) => seq(|cs|, i requires 0 <= i < |cs| => cs[i].message)
  }

  /** extractPushTexts, with its loop. */
  method ExtractPushTexts(parsed: Option<Value>) returns (texts: seq<string>)
    ensures texts == PushTexts(parsed)
  {
    var payload := PushPayload(parsed);
    if payload.None? {
      return [];
    }
    var commits := payload.value;
    texts := [];
    for i := 0 to |commits|
      invariant |texts| == i
      invariant forall j :: 0 <= j < i ==> texts[j] == commits[j].message
    {
      texts := texts + [commits[i].message];
    }
  }

  /** extractPullRequestTexts and extractIssueTexts: title then body of the
      object under tag, "" for a field that is absent or null. */
  function TitleBodyTexts(tag: string, parsed: Option<Value>): (texts: seq<string>)
    ensures texts == [] || |texts| == 2
  {
    match parsed
    case None => []
    case Some(v) =>
      match DecodeStruct(TitleBody("", ""), v, TitleBodyIn(tag))
      case None => []
      case Some(t) => [t.title, t.body]
  }

  /** extractIssueCommentTexts, extractPRReviewTexts and
      extractPRReviewCommentTexts: the body of the object under tag. */
  function BodyTexts(tag: string, parsed: Option<Value>): (texts: seq<string>)
    ensures texts == [] || |texts| == 1
  {
    match parsed
    case None => []
    case Some(v) =>
      match DecodeStruct("", v, BodyIn(tag))
      case None => []
      case Some(b) => [b]
  }

  /** extractTexts: the texts of an event of the given type. */
  function EventTexts(eventType: string, parsed: Option<Value>): (texts: seq<string>)
    ensures eventType !in KnownEvents ==> texts == []
  {
    if eventType == "push" then PushTexts(parsed)
    else if eventType == "pull_request" then TitleBodyTexts("pull_request", parsed)
    else if eventType == "issues" then TitleBodyTexts("issue", parsed)
    else if eventType == "issue_comment" then BodyTexts("comment", parsed)
    else if eventType == "pull_request_review" then BodyTexts("review", parsed)
    else if eventType == "pull_request_review_comment" then BodyTexts("comment", parsed)
    else []
  }

  const KnownEvents: set<string> :=
    {"push", "pull_request", "issues", "issue_comment", "pull_request_review", "pull_request_review_comment"}

  /** extractTexts, calling the push extractor's loop. */
  method ExtractTexts(eventType: string, parsed: Option<Value>) returns (texts: seq<string>)
    ensures texts == EventTexts(eventType, parsed)
  {
    if eventType == "push" {
      texts := ExtractPushTexts(parsed);
    } else {
      texts := EventTexts(eventType, parsed);
    }
  }

  /** A body that is not JSON yields no texts, whatever the event. */
  lemma MalformedHasNoTexts(eventType: string)
    ensures EventTexts(eventType, None) == []
  {
  }

  /** The title and body of a pull request or an issue, in that order. */
  lemma TitleBodyOf(tag: string, title: string, body: string)
    ensures TitleBodyTexts(tag, Some(JObject([Member(tag, JObject([Member("title", JString(title)), Member("body", JString(body))]))])))
      == [title, body]
  {
    var inner := [Member("title", JString(title)), Member("body", JString(body))];
    assert TitleBodyField(TitleBody("", ""), inner[0]) == Some(TitleBody(title, ""));
    assert TitleBodyField(TitleBody(title, ""), inner[1]) == Some(TitleBody(title, body));
    assert inner[1..][1..] == [];
    assert DecodeMembers(TitleBody(title, body), inner[1..][1..], TitleBodyField) == Some(TitleBody(title, body));
    assert DecodeMembers(TitleBody(title, ""), inner[1..], TitleBodyField) == Some(TitleBody(title, body));
    assert DecodeMembers(TitleBody("", ""), inner, TitleBodyField) == Some(TitleBody(title, body));
    var outer := [Member(tag, JObject(inner))];
    assert DecodeStruct(TitleBody("", ""), JObject(inner), TitleBodyField) == Some(TitleBody(title, body));
    assert TitleBodyIn(tag)(TitleBody("", ""), outer[0]) == Some(TitleBody(title, body));
    assert outer[1..] == [];
    assert DecodeMembers(TitleBody(title, body), outer[1..], TitleBodyIn(tag)) == Some(TitleBody(title, body));
    assert DecodeMembers(TitleBody("", ""), outer, TitleBodyIn(tag)) == Some(TitleBody(title, body));
  }

  /** An object without the event's field decodes to empty texts, not to
      none: [ "", "" ] for a pull request or issue, [ "" ] for a comment or
      review. */
  lemma AbsentFieldsAreEmpty(tag: string)
    ensures TitleBodyTexts(tag, Some(JObject([]))) == ["", ""]
    ensures BodyTexts(tag, Some(JObject([]))) == [""]
  {
  }

  /** No member of ms names the field tag. */
  predicate NoneNamed(ms: seq<Member>, tag: string) {
    forall i :: 0 <= i < |ms| ==> !KeyMatches(ms[i].key, tag)
  }

  /** The body of a comment or review, whatever other members the event and
      the object under tag carry. */
  lemma BodyOf(tag: string, outerPre: seq<Member>, pre: seq<Member>, b: string, post: seq<Member>, outerPost: seq<Member>)
    requires NoneNamed(pre, "body") && NoneNamed(post, "body")
    requires NoneNamed(outerPre, tag) && NoneNamed(outerPost, tag)
    ensures BodyTexts(tag, Some(JObject(outerPre + [Member(tag, JObject(pre + [Member("body", JString(b))] + post))] + outerPost)))
      == [b]
  {
    var m := Member("body", JString(b));
    assert BodyField("", m) == Some(b);
    DecodeOnly("", pre, m, post, BodyField, b);
    var o := Member(tag, JObject(pre + [m] + post));
    assert BodyIn(tag)("", o) == Some(b);
    DecodeOnly("", outerPre, o, outerPost, BodyIn(tag), b);
  }

  /** The payload of a comment or review event, reduced to its body. */
  function BodyPayload(tag: string, b: string): Value {
    JObject([Member(tag, JObject([Member("body", JString(b))]))])
  }

  /** The payload of a pull request or issue event, reduced to its title and body. */
  function TitleBodyPayload(tag: string, title: string, body: string): Value {
    JObject([Member(tag, JObject([Member("title", JString(title)), Member("body", JString(body))]))])
  }

  lemma BodyPayloadOf(tag: string, b: string)
    ensures BodyTexts(tag, Some(BodyPayload(tag, b))) == [b]
  {
    assert [] + [Member("body", JString(b))] + [] == [Member("body", JString(b))];
    assert [] + [Member(tag, JObject([Member("body", JString(b))]))] + [] == [Member(tag, JObject([Member("body", JString(b))]))];
    BodyOf(tag, [], [], b, [], []);
  }

  /** Each event type reads its own object: issue_comment and
      pull_request_review_comment the comment, pull_request_review the
      review, pull_request the pull request, issues the issue; an object
      under another key is ignored. */
  lemma EventObjects(title: string, b: string)
    ensures EventTexts("issue_comment", Some(BodyPayload("comment", b))) == [b]
    ensures EventTexts("pull_request_review", Some(BodyPayload("review", b))) == [b]
    ensures EventTexts("pull_request_review_comment", Some(BodyPayload("comment", b))) == [b]
    ensures EventTexts("pull_request", Some(TitleBodyPayload("pull_request", title, b))) == [title, b]
    ensures EventTexts("issues", Some(TitleBodyPayload("issue", title, b))) == [title, b]
    ensures EventTexts("pull_request_review", Some(BodyPayload("comment", b))) == [""]
  {
    BodyPayloadOf("comment", b);
    BodyPayloadOf("review", b);
    TitleBodyOf("pull_request", title, b);
    TitleBodyOf("issue", title, b);
    var ms := [Member("comment", JObject([Member("body", JString(b))]))];
    assert !KeyMatches("comment", "review");
    assert BodyIn("review")("", ms[0]) == Some("");
    DecodeMembersIgnored("", ms, BodyIn("review"));
  }

  /** A payload of the wrong type yields no texts. */
  lemma WrongTypeHasNoTexts(tag: string, v: Value)
    requires !v.JObject? && !v.JNull?
    ensures PushTexts(Some(v)) == []
    ensures TitleBodyTexts(tag, Some(v)) == []
    ensures BodyTexts(tag, Some(v)) == []
  {
  }

  /** The messages of a push, in order. */
  lemma PushOf(messages: seq<string>)
    ensures PushTexts(Some(JObject([Member("commits", JArray(CommitObjects(messages)))])))
      == messages
  {
    var ms := [Member("commits", JArray(CommitObjects(messages)))];
    DecodeCommitObjects(messages);
    var cs := CommitsOf(messages);
    assert CommitsField([], ms[0]) == Some(cs);
    assert ms[1..] == [];
    assert DecodeMembers(cs, ms[1..], CommitsField) == Some(cs);
    assert DecodeMembers([], ms, CommitsField) == Some(cs);
  }

  function CommitObjects(messages: seq<string>): (r: seq<Value>)
    ensures |r| == |messages|
  {
    seq(|messages|, i requires 0 <= i < |messages| => JObject([Member("message", JString(messages[i]))]))
  }

  function CommitsOf(messages: seq<string>): (r: seq<Commit>)
    ensures |r| == |messages| && forall i :: 0 <= i < |messages| ==> r[i] == Commit(messages[i])
  {
    seq(|messages|, i requires 0 <= i < |messages| => Commit(messages[i]))
  }

  lemma {:induction false} DecodeCommitObjects(messages: seq<string>)
    ensures DecodeCommits(CommitObjects(messages)) == Some(CommitsOf(messages))
    decreases |messages|
  {
    if messages != [] {
      DecodeCommitObjects(messages[1..]);
      assert CommitObjects(messages)[1..] == CommitObjects(messages[1..]);
      var ms := [Member("message", JString(messages[0]))];
      assert CommitField(Commit(""), ms[0]) == Some(Commit(messages[0]));
      assert ms[1..] == [];
      assert DecodeMembers(Commit(messages[0]), ms[1..], CommitField) == Some(Commit(messages[0]));
      assert DecodeMembers(Commit(""), ms, CommitField) == Some(Commit(messages[0]));
      assert CommitObjects(messages)[0] == JObject(ms);
      var tail := messages[1..];
      var cs := CommitsOf(messages);
      assert cs == [Commit(messages[0])] + CommitsOf(tail);
      var objs := CommitObjects(messages);
      assert DecodeCommits(objs[1..]) == Some(CommitsOf(tail));
      assert DecodeCommits(objs) == Some(cs);
      assert DecodeStruct(Commit(""), CommitObjects(messages)[0], CommitField) == Some(Commit(messages[0]));
    }
  }

  // ---- from texts to labeler calls ----

  /** The builder loop: each text followed by '\n'. */
  method JoinLines(texts: seq<string>) returns (all: string)
    ensures all == Joined(texts)
  {
    all := "";
    for i := 0 to |texts|
      invariant all == Joined(texts[..i])
    {
      assert texts[..i + 1][..i] == texts[..i];
      all := all + texts[i] + "\n";
    }
    assert texts[..|texts|] == texts;
  }

  /** The identifiers the labeler is asked for, in order. */
  function Wanted(teamKey: string, texts: seq<string>): (ids: seq<string>)
    ensures NoDuplicates(ids)
    ensures forall x :: x in ids ==> HasPrefix(x, TeamPrefix(teamKey))
  {
    KeepPrefixedUnique(TeamPrefix(teamKey), Dedup(FindAll(Joined(texts))));
    KeepPrefixed(TeamPrefix(teamKey), Dedup(FindAll(Joined(texts))))
  }

  lemma {:induction false} KeepPrefixedUnique(prefix: string, s: seq<string>)
    requires NoDuplicates(s)
    ensures NoDuplicates(KeepPrefixed(prefix, s))
    decreases |s|
  {
    if s != [] {
      var s' := s[..|s| - 1];
      KeepPrefixedUnique(prefix, s');
      assert s[|s| - 1] !in s';
    }
  }

  /** Joining the texts first asks for what collecting them one by one
      collects: each of the team's identifiers that occurs in some text, once,
      in first-occurrence order. */
  lemma WantedIsCollected(teamKey: string, texts: seq<string>)
    ensures Wanted(teamKey, texts) == Dedup(KeepPrefixed(TeamPrefix(teamKey), AllMatches(texts)))
  {
    var prefix := TeamPrefix(teamKey);
    FindAllJoined(texts);
    ExtendKeepDedup([], prefix, AllMatches(texts));
    KeepPrefixedUnique(prefix, Dedup(AllMatches(texts)));
    DedupOfUnique(KeepPrefixed(prefix, Dedup(AllMatches(texts))));
  }

  /** The labeler is asked once for each identifier of the team that occurs
      in one of the texts, and for nothing else. */
  lemma WantedSpec(teamKey: string, texts: seq<string>)
    ensures var ids := Wanted(teamKey, texts);
      && NoDuplicates(ids)
      && (forall x :: x in ids <==> HasPrefix(x, TeamPrefix(teamKey)) && exists i :: 0 <= i < |texts| && Occurs(texts[i], x))
  {
    WantedIsCollected(teamKey, texts);
    CollectedIds(TeamPrefix(teamKey), texts);
  }

  /** The requests of a webhook delivery that the handler reads. */
  datatype Delivery = Delivery(body: BodyReader, signature: string, eventType: string)

  class WebhookHandler {
    const secret: seq<byte>
    const teamKey: string
    const labeler: PublicLabeler
    /** crypto/hmac with SHA-256 */
    const mac: Mac
    /** encoding/json's parser, None for a body that is not JSON */
    const parse: seq<byte> -> Option<Value>

    /** NewWebhookHandler */
    constructor (secret: seq<byte>, teamKey: string, labeler: PublicLabeler, mac: Mac, parse: seq<byte> -> Option<Value>)
      ensures this.secret == secret && this.teamKey == teamKey && this.labeler == labeler
      ensures this.mac == mac && this.parse == parse
    {
      this.secret := secret;
      this.teamKey := teamKey;
      this.labeler := labeler;
      this.mac := mac;
      this.parse := parse;
    }

    /** The loop over the identifiers found: the team's ones are handed to
        the labeler in order, each whatever the previous one returned. */
    method LabelAll(identifiers: seq<string>) returns (labeled: seq<string>, calls: seq<Call>)
      modifies labeler
      ensures labeled == KeepPrefixed(TeamPrefix(teamKey), identifiers)
      ensures var run := Run(labeler.client, labeler.teamKey, old(labeler.State()), labeled);
        calls == run.calls && labeler.State() == run.state
    {
      labeled, calls := [], [];
      var prefix := TeamPrefix(teamKey);
      ghost var st := labeler.State();
      for n := 0 to |identifiers|
        invariant labeled == KeepPrefixed(prefix, identifiers[..n])
        invariant calls == Run(labeler.client, labeler.teamKey, st, labeled).calls
        invariant labeler.State() == Run(labeler.client, labeler.teamKey, st, labeled).state
      {
        var id := identifiers[n];
        assert identifiers[..n + 1][..n] == identifiers[..n];
        if HasPrefix(id, prefix) {
          var err, c := labeler.EnsurePublicLabel(id);
          assert (labeled + [id])[..|labeled|] == labeled;
          labeled := labeled + [id];
          calls := calls + c;
        }
      }
      assert identifiers[..|identifiers|] == identifiers;
    }

    /** The texts of a delivery whose body was read and verified. */
    function TextsOf(d: Delivery, body: seq<byte>): seq<string> {
      EventTexts(d.eventType, parse(body))
    }

    /** ServeHTTP: 400 when the body cannot be read, 403 when the signature
        does not verify, otherwise 200 after one EnsurePublicLabel per wanted
        identifier, whatever each of them returns. labeled lists the
        identifiers handed to the labeler, calls what the labeler then did. */
    method ServeHTTP(d: Delivery) returns (status: int, labeled: seq<string>, calls: seq<Call>)
      modifies labeler
      ensures var body := ReadLimited(d.body);
        && (status == Http.StatusBadRequest <==> body.None?)
        && (status == Http.StatusForbidden <==> body.Some? && !VerifySignature(mac, secret, body.value, d.signature))
        && (status == Http.StatusOK <==> body.Some? && VerifySignature(mac, secret, body.value, d.signature))
        && (status != Http.StatusOK ==> labeled == [] && calls == [] && labeler.State() == old(labeler.State()))
        && (status == Http.StatusOK ==>
              var run := Run(labeler.client, labeler.teamKey, old(labeler.State()), labeled);
              && labeled == Wanted(teamKey, TextsOf(d, body.value))
              && calls == run.calls && labeler.State() == run.state)
    {
      labeled, calls := [], [];
      var body := ReadLimited(d.body);
      if body.None? {
        return Http.StatusBadRequest, labeled, calls;
      }
      if !VerifySignature(mac, secret, body.value, d.signature) {
        return Http.StatusForbidden, labeled, calls;
      }
      var texts := ExtractTexts(d.eventType, parse(body.value));
      var all := JoinLines(texts);
      var identifiers := ScanIdentifiers(all);
      labeled, calls := LabelAll(identifiers);
      return Http.StatusOK, labeled, calls;
    }
  }
}
