/** The part of encoding/json that the webhook's extractors depend on: a
    parsed JSON value decoded into a Go struct. Parsing bytes into a value is
    not modelled; decoding follows json.Unmarshal into a struct. */
module Json {
  import opened Wrappers

  datatype Value =
    | JNull
    | JBool(b: bool)
    | JNumber(literal: string)
    | JString(s: string)
    | JArray(items: seq<Value>)
    | JObject(members: seq<Member>)

  /** One key/value pair of an object, in document order. */
  datatype Member = Member(key: string, value: Value)

  function LowerChar(c: char): char {
    if 'A' <= c <= 'Z' then (c as int + 32) as char else c
  }

  /** A key names a field when it equals the field's tag, ignoring ASCII case. */
  predicate KeyMatches(key: string, tag: string)
    ensures key == tag ==> KeyMatches(key, tag)
    ensures KeyMatches(key, tag) ==> |key| == |tag|
  {
    |key| == |tag| && forall i :: 0 <= i < |key| ==> LowerChar(key[i]) == LowerChar(tag[i])
  }

  /** Decoding into a string field: a string replaces it, null leaves it as
      it was, any other value is a type error. */
  function DecodeString(cur: string, v: Value): (r: Option<string>)
    ensures r.Some? <==> v.JString? || v.JNull?
    ensures v.JNull? ==> r == Some(cur)
  {
    match v
    case JString(s) => Some(s)
    case JNull => Some(cur)
    case _ => None
  }

  /** Decoding an object into a struct value: each member in order, applied
      by field (which leaves the struct as it is for a key naming no field);
      null leaves the struct unchanged; any other value is a type error. */
  function DecodeStruct<T>(cur: T, v: Value, field: (T, Member) -> Option<T>): (r: Option<T>)
    ensures v.JNull? ==> r == Some(cur)
    ensures !v.JNull? && !v.JObject? ==> r.None?
  {
    match v
    case JNull => Some(cur)
    case JObject(ms) => DecodeMembers(cur, ms, field)
    case _ => None
  }

  /** The members applied in document order; the first failing one fails the
      whole. An empty object leaves the struct, a one-member object decodes
      as its member, and DecodeMembersAppend splits the rest. */
  function DecodeMembers<T>(cur: T, ms: seq<Member>, field: (T, Member) -> Option<T>): (r: Option<T>)
    ensures ms == [] ==> r == Some(cur)
    ensures |ms| == 1 ==> r == field(cur, ms[0])
    decreases |ms|
  {
    if ms == [] then Some(cur)
    else
      match field(cur, ms[0])
      case None => None
      case Some(next) => DecodeMembers(next, ms[1..], field)
  }

  /** Members that name no field leave the struct as it is. */
  lemma {:induction false} DecodeMembersIgnored<T>(cur: T, ms: seq<Member>, field: (T, Member) -> Option<T>)
    requires forall i :: 0 <= i < |ms| ==> field(cur, ms[i]) == Some(cur)
    ensures DecodeMembers(cur, ms, field) == Some(cur)
    decreases |ms|
  {
    if ms != [] {
      assert field(cur, ms[0]) == Some(cur);
      forall i | 0 <= i < |ms[1..]| ensures field(cur, ms[1..][i]) == Some(cur) {
        assert ms[1..][i] == ms[i + 1];
      }
      DecodeMembersIgnored(cur, ms[1..], field);
    }
  }

  /** The members of a + b are the members of a, then those of b. */
  lemma {:induction false} DecodeMembersAppend<T>(cur: T, a: seq<Member>, b: seq<Member>, field: (T, Member) -> Option<T>)
    ensures DecodeMembers(cur, a + b, field)
      == match DecodeMembers(cur, a, field)
         case None => None
         case Some(next) => DecodeMembers(next, b, field)
    decreases |a|
  {
    if a == [] {
      assert a + b == b;
    } else {
      assert (a + b)[0] == a[0];
      assert (a + b)[1..] == a[1..] + b;
      match field(cur, a[0])
      case None =>
      case Some(next) => DecodeMembersAppend(next, a[1..], b, field);
    }
  }

  /** An object of which only m names a field decodes as m alone does. */
  lemma DecodeOnly<T>(cur: T, pre: seq<Member>, m: Member, post: seq<Member>, field: (T, Member) -> Option<T>, r: T)
    requires forall i :: 0 <= i < |pre| ==> field(cur, pre[i]) == Some(cur)
    requires field(cur, m) == Some(r)
    requires forall i :: 0 <= i < |post| ==> field(r, post[i]) == Some(r)
    ensures DecodeMembers(cur, pre + [m] + post, field) == Some(r)
  {
    DecodeMembersIgnored(cur, pre, field);
    assert DecodeMembers(cur, [m], field) == Some(r) by {
      assert [m][1..] == [];
    }
    DecodeMembersAppend(cur, pre, [m], field);
    DecodeMembersIgnored(r, post, field);
    DecodeMembersAppend(cur, pre + [m], post, field);
  }

  /** A failing member fails the whole object. */
  lemma {:induction false} DecodeMembersFails<T>(cur: T, ms: seq<Member>, field: (T, Member) -> Option<T>, n: nat)
    requires n < |ms|
    requires forall i :: 0 <= i < n ==> field(cur, ms[i]) == Some(cur)
    requires field(cur, ms[n]) == None
    ensures DecodeMembers(cur, ms, field) == None
    decreases n
  {
    if n > 0 {
      assert field(cur, ms[0]) == Some(cur);
      forall i | 0 <= i < n - 1 ensures field(cur, ms[1..][i]) == Some(cur) {
        assert ms[1..][i] == ms[i + 1];
      }
      DecodeMembersFails(cur, ms[1..], field, n - 1);
    }
  }
}
