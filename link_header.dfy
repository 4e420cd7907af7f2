/** nextPageURL: the target of the Link header's rel="next" entry, found as
    the pattern `<([^>]+)>;\s*rel="next"` finds it: the leftmost '<' that
    starts a match, with the capture running to the first '>' after it. */
module LinkHeader {
  import opened Strings

  /** RE2's \s: tab, newline, form feed, carriage return, space */
  predicate IsSpace(c: char) {
    c == '\t' || c == '\n' || c as int == 12 || c == '\r' || c == ' '
  }

  const RelNext := "rel=\"next\""

  /** The first '>' at or after i, or |h|. */
  function CloseAngle(h: string, i: nat): (k: nat)
    requires i <= |h|
    ensures i <= k <= |h|
    ensures forall t :: i <= t < k ==> h[t] != '>'
    ensures k == |h| || h[k] == '>'
    decreases |h| - i
  {
    if i == |h| || h[i] == '>' then i else CloseAngle(h, i + 1)
  }

  lemma CloseAngleIs(h: string, i: nat, k: nat)
    requires i <= k <= |h|
    requires forall t :: i <= t < k ==> h[t] != '>'
    requires k == |h| || h[k] == '>'
    ensures CloseAngle(h, i) == k
  {
  }

  /** The end of the run of \s characters starting at i. */
  function SpaceEnd(h: string, i: nat): (k: nat)
    requires i <= |h|
    ensures i <= k <= |h|
    ensures forall t :: i <= t < k ==> IsSpace(h[t])
    ensures k == |h| || !IsSpace(h[k])
    decreases |h| - i
  {
    if i < |h| && IsSpace(h[i]) then SpaceEnd(h, i + 1) else i
  }

  lemma SpaceEndIs(h: string, i: nat, k: nat)
    requires i <= k <= |h|
    requires forall t :: i <= t < k ==> IsSpace(h[t])
    requires k == |h| || !IsSpace(h[k])
    ensures SpaceEnd(h, i) == k
  {
  }

  /** The pattern, read declaratively: '<' at m, one or more non-'>' up to the
      '>' at c, then ';', spaces up to w, then rel="next". */
  ghost predicate LinkNextMatch(h: string, m: int, c: int, w: int)
    ensures LinkNextMatch(h, m, c, w) ==>
      0 <= m && m + 1 < c < w && w + |RelNext| <= |h| && |h[m + 1..c]| > 0 && '>' !in h[m + 1..c]
  {
    && 0 <= m && m + 1 < c && c + 2 <= w && OccursAt(h, RelNext, w)
    && h[m] == '<'
    && (forall t :: m < t < c ==> h[t] != '>')
    && h[c] == '>' && h[c + 1] == ';'
    && (forall t :: c + 2 <= t < w ==> IsSpace(h[t]))
  }

  /** A match starts at m, tested the way the engine does it: the capture
      runs to the first '>', the spaces are taken greedily. */
  predicate LinkNextAt(h: string, m: nat) {
    m < |h| && h[m] == '<' &&
    var c := CloseAngle(h, m + 1);
    m + 1 < c && c + 1 < |h| && h[c + 1] == ';' && OccursAt(h, RelNext, SpaceEnd(h, c + 2))
  }

  /** The group captured by a match at m. */
  function Capture(h: string, m: nat): string
    requires m < |h|
  {
    h[m + 1..CloseAngle(h, m + 1)]
  }

  /** The greedy test admits exactly the declarative matches, and its capture
      is theirs. */
  lemma LinkNextAtIff(h: string, m: nat)
    ensures LinkNextAt(h, m) <==> exists c, w :: LinkNextMatch(h, m, c, w)
    ensures forall c, w :: LinkNextMatch(h, m, c, w) ==> Capture(h, m) == h[m + 1..c]
  {
    if LinkNextAt(h, m) {
      var c := CloseAngle(h, m + 1);
      assert LinkNextMatch(h, m, c, SpaceEnd(h, c + 2));
    }
    forall c, w | LinkNextMatch(h, m, c, w) ensures LinkNextAt(h, m) && Capture(h, m) == h[m + 1..c] {
      CloseAngleIs(h, m + 1, c);
      assert h[w] == 'r';
      SpaceEndIs(h, c + 2, w);
    }
  }

  /** The leftmost match at or after from, or "" when there is none. */
  function NextPageURLFrom(h: string, from: nat): string
    requires from <= |h|
    decreases |h| - from
  {
    if from == |h| then ""
    else if LinkNextAt(h, from) then Capture(h, from)
    else NextPageURLFrom(h, from + 1)
  }

  /** nextPageURL (NextPageURLSpec states what it returns) */
  function NextPageURL(h: string): string {
    NextPageURLFrom(h, 0)
  }

  /** NextPageURLFrom finds the leftmost match, and is "" exactly when none
      starts at or after from. */
  lemma {:induction false} NextPageURLFromSpec(h: string, from: nat, m: nat)
    requires from <= m < |h|
    ensures (LinkNextAt(h, m) && forall t :: from <= t < m ==> !LinkNextAt(h, t)) ==>
      NextPageURLFrom(h, from) == Capture(h, m) && Capture(h, m) != ""
    decreases m - from
  {
    if from < m && !LinkNextAt(h, from) {
      NextPageURLFromSpec(h, from + 1, m);
    }
  }

  lemma {:induction false} NextPageURLFromNone(h: string, from: nat)
    requires from <= |h|
    ensures NextPageURLFrom(h, from) == "" <==> forall t :: from <= t < |h| ==> !LinkNextAt(h, t)
    decreases |h| - from
  {
    if from < |h| {
      NextPageURLFromNone(h, from + 1);
    }
  }

  /** The next URL is the capture of the leftmost rel="next" entry, and ""
      exactly when there is no such entry. */
  lemma NextPageURLSpec(h: string)
    ensures NextPageURL(h) == "" <==> forall m :: 0 <= m < |h| ==> !LinkNextAt(h, m)
    ensures forall m :: 0 <= m < |h| && LinkNextAt(h, m) && (forall t :: 0 <= t < m ==> !LinkNextAt(h, t)) ==>
      NextPageURL(h) == Capture(h, m)
  {
    NextPageURLFromNone(h, 0);
    forall m | 0 <= m < |h| && LinkNextAt(h, m) && (forall t :: 0 <= t < m ==> !LinkNextAt(h, t))
      ensures NextPageURL(h) == Capture(h, m)
    {
      NextPageURLFromSpec(h, 0, m);
    }
  }

  /** In the pattern's own terms: the next URL is "" exactly when the header
      holds no match, and otherwise it is the capture of a match. */
  lemma NextPageURLMatches(h: string)
    ensures NextPageURL(h) == "" <==> !exists m, c, w :: LinkNextMatch(h, m, c, w)
    ensures NextPageURL(h) != "" ==> exists m, c, w :: LinkNextMatch(h, m, c, w) && NextPageURL(h) == h[m + 1..c]
  {
    NextPageURLSpec(h);
    if exists m, c, w :: LinkNextMatch(h, m, c, w) {
      var m, c, w :| LinkNextMatch(h, m, c, w);
      LinkNextAtIff(h, m);
      assert LinkNextAt(h, m);
    }
    if NextPageURL(h) != "" {
      var m := Leftmost(h, 0);
      LinkNextAtIff(h, m);
      var c, w :| LinkNextMatch(h, m, c, w);
      assert NextPageURL(h) == h[m + 1..c];
    }
  }

  /** The leftmost position at or after from where a match starts, when the
      search from there finds one. */
  lemma {:induction false} Leftmost(h: string, from: nat) returns (m: nat)
    requires from <= |h| && NextPageURLFrom(h, from) != ""
    ensures from <= m < |h| && LinkNextAt(h, m) && NextPageURLFrom(h, from) == Capture(h, m)
    decreases |h| - from
  {
    if LinkNextAt(h, from) {
      m := from;
    } else {
      m := Leftmost(h, from + 1);
    }
  }

  /** A header holding a single "next" entry yields its target. */
  lemma NextOnly(u: string)
    requires u != [] && '>' !in u
    ensures NextPageURL("<" + u + ">; " + RelNext) == u
  {
    var h := "<" + u + ">; " + RelNext;
    NextEntryAt(h, 0, u);
    NextPageURLFromSpec(h, 0, 0);
  }

  /** No match starts inside a leading "prev" entry: its only '<' opens an
      entry with another rel. */
  lemma PrevEntrySkipped(h: string, p: string)
    requires p != [] && '>' !in p && '<' !in p
    requires HasPrefix(h, "<" + p + ">; rel=\"prev\"")
    ensures forall t :: 0 <= t < |p| + 14 ==> !LinkNextAt(h, t)
  {
    PrevChars(h, p);
    PrevCharsSkipped(h, p);
  }

  /** The characters of a leading "prev" entry, position by position. */
  lemma PrevChars(h: string, p: string)
    requires '<' !in p
    requires HasPrefix(h, "<" + p + ">; rel=\"prev\"")
    ensures |h| >= |p| + 14 && h[0] == '<'
    ensures forall i :: 1 <= i <= |p| ==> h[i] == p[i - 1]
    ensures h[|p| + 1] == '>' && h[|p| + 2] == ';' && h[|p| + 3] == ' ' && h[|p| + 4] == 'r' && h[|p| + 9] == 'p'
    ensures forall i :: 1 <= i < |p| + 14 ==> h[i] != '<'
  {
    var prev := "<" + p + ">; rel=\"prev\"";
    assert h[..|prev|] == prev;
    assert forall i :: 0 <= i < |prev| ==> h[i] == prev[i];
    forall i | 1 <= i <= |p| ensures h[i] == p[i - 1] {
      assert prev[i] == p[i - 1];
    }
  }

  /** Those characters admit no match: the '<' at 0 is followed by rel="prev". */
  lemma PrevCharsSkipped(h: string, p: string)
    requires p != [] && '>' !in p
    requires |h| >= |p| + 14 && h[0] == '<'
    requires forall i :: 1 <= i <= |p| ==> h[i] == p[i - 1]
    requires h[|p| + 1] == '>' && h[|p| + 2] == ';' && h[|p| + 3] == ' ' && h[|p| + 4] == 'r' && h[|p| + 9] == 'p'
    requires forall i :: 1 <= i < |p| + 14 ==> h[i] != '<'
    ensures forall t :: 0 <= t < |p| + 14 ==> !LinkNextAt(h, t)
  {
    var c := |p| + 1;
    assert forall i :: 1 <= i < c ==> h[i] != '>' by {
      forall i | 1 <= i < c ensures h[i] != '>' {
        assert h[i] == p[i - 1];
      }
    }
    CloseAngleIs(h, 1, c);
    SpaceEndIs(h, c + 2, c + 3);
    assert h[c + 3 + 5] == 'p';
  }

  /** The characters of a "next" entry at n, position by position: its '<'
      at n, the target up to the '>' at c, then ';', one space, and rel="next"
      at w. */
  lemma EntryChars(h: string, n: nat, u: string, c: nat, w: nat)
    requires n <= |h| && h[n..] == "<" + u + ">; " + RelNext
    requires c == n + |u| + 1 && w == c + 3
    ensures |h| == w + |RelNext| && h[n] == '<'
    ensures forall i :: n + 1 <= i < c ==> h[i] == u[i - n - 1]
    ensures h[c] == '>' && h[c + 1] == ';' && h[c + 2] == ' ' && h[w] == 'r'
    ensures h[w..] == RelNext
  {
    var e := "<" + u + ">; " + RelNext;
    assert forall i :: 0 <= i < |e| ==> h[n + i] == e[i];
    assert forall i :: n + 1 <= i < c ==> h[i] == e[i - n];
    assert h[w..] == h[n..][|u| + 4..];
  }

  /** Those characters make a match at n capturing the target. */
  lemma EntryMatch(h: string, n: nat, u: string, c: nat, w: nat)
    requires u != [] && '>' !in u && c == n + |u| + 1 && w == c + 3
    requires |h| == w + |RelNext| && h[n] == '<'
    requires forall i :: n + 1 <= i < c ==> h[i] == u[i - n - 1]
    requires h[c] == '>' && h[c + 1] == ';' && h[c + 2] == ' ' && h[w] == 'r'
    requires h[w..] == RelNext
    ensures LinkNextAt(h, n) && Capture(h, n) == u
  {
    CloseAngleIs(h, n + 1, c);
    SpaceEndIs(h, c + 2, w);
    assert OccursAt(h, RelNext, w);
    assert h[n + 1..c] == u;
  }

  /** A "next" entry at n is a match whose capture is its target. */
  lemma NextEntryAt(h: string, n: nat, u: string)
    requires u != [] && '>' !in u
    requires n <= |h| && h[n..] == "<" + u + ">; " + RelNext
    ensures LinkNextAt(h, n) && Capture(h, n) == u
  {
    EntryChars(h, n, u, n + |u| + 1, n + |u| + 4);
    EntryMatch(h, n, u, n + |u| + 1, n + |u| + 4);
  }

  /** The "prev" entry of a header with a prev and a next entry is skipped. */
  lemma PrevThenNext(p: string, u: string)
    requires p != [] && '>' !in p && '<' !in p && u != [] && '>' !in u
    ensures NextPageURL("<" + p + ">; rel=\"prev\", <" + u + ">; " + RelNext) == u
  {
    var prev := "<" + p + ">; rel=\"prev\"";
    var h := prev + ", " + "<" + u + ">; " + RelNext;
    assert h == "<" + p + ">; rel=\"prev\", <" + u + ">; " + RelNext;
    var n := |prev| + 2;
    assert h[..|prev|] == prev;
    PrevEntrySkipped(h, p);
    assert h[n - 2] == ',' && h[n - 1] == ' ';
    assert h[n..] == "<" + u + ">; " + RelNext;
    NextEntryAt(h, n, u);
    LeftmostEntry(h, n, u);
  }

  /** The target of the leftmost entry is the next URL. */
  lemma LeftmostEntry(h: string, n: nat, u: string)
    requires n < |h| && LinkNextAt(h, n) && Capture(h, n) == u
    requires forall t :: 0 <= t < n ==> !LinkNextAt(h, t)
    ensures NextPageURL(h) == u
  {
    NextPageURLFromSpec(h, 0, n);
  }

  /** A header with only a "prev" entry has no next page. */
  lemma PrevOnly(p: string)
    requires p != [] && '>' !in p && '<' !in p
    ensures NextPageURL("<" + p + ">; rel=\"prev\"") == ""
  {
    var h := "<" + p + ">; rel=\"prev\"";
    PrevEntrySkipped(h, p);
    NextPageURLFromNone(h, 0);
  }

  lemma EmptyHeader()
    ensures NextPageURL("") == ""
  {
  }
}
