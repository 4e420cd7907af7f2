/** The identifier grammar: the pattern `\b([A-Z]+-\d+)\b` as Go's RE2 engine
    applies it (ASCII word boundaries, leftmost non-overlapping matches), and
    ScanIdentifiers, which keeps the first occurrence of each match. */
module Scanner {
  import opened Wrappers
  import opened Sequences
  import opened Strings

  predicate IsUpper(c: char) { 'A' <= c <= 'Z' }

  /** RE2's \w, the class \b looks at: ASCII letters, digits and '_' */
  predicate IsWordChar(c: char) { IsUpper(c) || 'a' <= c <= 'z' || IsDigit(c) || c == '_' }

  datatype CharClass = Upper | Digit

  predicate InClass(c: char, cls: CharClass) {
    match cls
    case Upper => IsUpper(c)
    case Digit => IsDigit(c)
  }

  /** The end of the longest run of `cls` characters starting at i. */
  function RunEnd(s: string, i: nat, cls: CharClass): (k: nat)
    requires i <= |s|
    ensures i <= k <= |s|
    ensures forall t :: i <= t < k ==> InClass(s[t], cls)
    ensures k == |s| || !InClass(s[k], cls)
    decreases |s| - i
  {
    if i < |s| && InClass(s[i], cls) then RunEnd(s, i + 1, cls) else i
  }

  /** A run is maximal in exactly one place. */
  lemma RunEndIs(s: string, i: nat, cls: CharClass, k: nat)
    requires i <= k <= |s|
    requires forall t :: i <= t < k ==> InClass(s[t], cls)
    requires k == |s| || !InClass(s[k], cls)
    ensures RunEnd(s, i, cls) == k
  {
  }

  /** The pattern, read declaratively: s[i..j] is one or more A-Z, the hyphen
      at k, one or more 0-9, with the text's edge or a non-word character on
      each side. */
  ghost predicate MatchSpan(s: string, i: int, k: int, j: int)
  {
    && 0 <= i < k && k + 1 < j <= |s|
    && (i == 0 || !IsWordChar(s[i - 1]))
    && (forall t :: i <= t < k ==> IsUpper(s[t]))
    && s[k] == '-'
    && (forall t :: k < t < j ==> IsDigit(s[t]))
    && (j == |s| || !IsWordChar(s[j]))
  }

  /** m occurs in s as a whole match of the pattern */
  ghost predicate Occurs(s: string, m: string) {
    exists i, k, j :: MatchSpan(s, i, k, j) && m == s[i..j]
  }

  /** The strings the pattern describes: [A-Z]+-[0-9]+ */
  ghost predicate IsIdentifierShape(m: string) {
    exists k :: 0 < k < |m| - 1 && m[k] == '-'
      && (forall t :: 0 <= t < k ==> IsUpper(m[t]))
      && (forall t :: k < t < |m| ==> IsDigit(m[t]))
  }

  /** The end of the match that starts at i, if one does, found the way the
      regexp engine finds it: greedy runs, then the boundary test. */
  function MatchEnd(s: string, i: nat): (r: Option<nat>)
    requires i <= |s|
    ensures r.Some? ==> i < r.value <= |s|
  {
    if i < |s| && (i == 0 || !IsWordChar(s[i - 1])) then
      var k := RunEnd(s, i, Upper);
      if i < k < |s| && s[k] == '-' then
        var j := RunEnd(s, k + 1, Digit);
        if k + 1 < j && (j == |s| || !IsWordChar(s[j])) then Some(j) else None
      else None
    else None
  }

  /** The greedy search finds exactly the declarative matches. */
  lemma MatchEndSpan(s: string, i: nat, j: nat)
    requires i <= |s|
    ensures MatchEnd(s, i) == Some(j) <==> exists k :: MatchSpan(s, i, k, j)
  {
    if MatchEnd(s, i) == Some(j) {
      assert MatchSpan(s, i, RunEnd(s, i, Upper), j);
    }
    if k :| MatchSpan(s, i, k, j) {
      RunEndIs(s, i, Upper, k);
      RunEndIs(s, k + 1, Digit, j);
    }
  }

  /** issuePattern.FindAllString(text, -1) from position pos: the leftmost
      match at or after pos, then the matches after its end. */
  function FindAllFrom(s: string, pos: nat): seq<string>
    requires pos <= |s|
    decreases |s| - pos
  {
    if pos == |s| then []
    else
      match MatchEnd(s, pos)
      case Some(j) => [s[pos..j]] + FindAllFrom(s, j)
      case None => FindAllFrom(s, pos + 1)
  }

  /** issuePattern.FindAllString(text, -1) (FindAllMember states which
      strings it reports, FindAllFromShape their shape) */
  function FindAll(s: string): seq<string> {
    FindAllFrom(s, 0)
  }

  /** Every string FindAllFrom reports has the identifier shape. */
  lemma FindAllFromShape(s: string, pos: nat)
    requires pos <= |s|
    ensures forall m :: m in FindAllFrom(s, pos) ==> IsIdentifierShape(m)
  {
    FindAllFromSound(s, pos);
    forall m | m in FindAllFrom(s, pos) ensures IsIdentifierShape(m) {
      var i, k, j :| MatchSpan(s, i, k, j) && m == s[i..j];
      MatchShape(s, i, k, j);
    }
  }

  /** Where no match starts, the search moves one character on. */
  lemma FindAllFromSkip(s: string, pos: nat)
    requires pos < |s| && MatchEnd(s, pos).None?
    ensures FindAllFrom(s, pos) == FindAllFrom(s, pos + 1)
  {
  }

  /** Where a match starts, it is reported and the search resumes at its end. */
  lemma FindAllFromTake(s: string, pos: nat, j: nat)
    requires pos < |s| && MatchEnd(s, pos) == Some(j)
    ensures FindAllFrom(s, pos) == [s[pos..j]] + FindAllFrom(s, j)
  {
  }

  /** Every string FindAll reports is a whole match in the text. */
  lemma {:induction false} FindAllFromSound(s: string, pos: nat)
    requires pos <= |s|
    ensures forall m :: m in FindAllFrom(s, pos) ==> Occurs(s, m)
    decreases |s| - pos
  {
    if pos < |s| {
      match MatchEnd(s, pos)
      case Some(j) =>
        MatchEndSpan(s, pos, j);
        var k :| MatchSpan(s, pos, k, j);
        FindAllFromSound(s, j);
      case None =>
        FindAllFromSound(s, pos + 1);
    }
  }

  /** Two matches never overlap: a match cannot start inside another one. */
  lemma MatchesDisjoint(s: string, p: int, kp: int, jp: int, i: int, k: int, j: int)
    requires MatchSpan(s, p, kp, jp) && MatchSpan(s, i, k, j)
    requires p < i
    ensures jp <= i
  {
    assert IsUpper(s[i]) && !IsDigit(s[i]);
    assert i - 1 >= jp || i - 1 == kp;
  }

  /** Every match at or after pos is reported. */
  lemma {:induction false} FindAllFromComplete(s: string, pos: nat, i: int, k: int, j: int)
    requires pos <= i && MatchSpan(s, i, k, j)
    ensures s[i..j] in FindAllFrom(s, pos)
    decreases |s| - pos
  {
    if pos == i {
      MatchEndSpan(s, i, j);
    } else {
      match MatchEnd(s, pos)
      case Some(jp) =>
        MatchEndSpan(s, pos, jp);
        var kp :| MatchSpan(s, pos, kp, jp);
        MatchesDisjoint(s, pos, kp, jp, i, k, j);
        FindAllFromComplete(s, jp, i, k, j);
      case None =>
        FindAllFromComplete(s, pos + 1, i, k, j);
    }
  }

  /** A whole match has the identifier shape. */
  lemma MatchShape(s: string, i: int, k: int, j: int)
    requires MatchSpan(s, i, k, j)
    ensures IsIdentifierShape(s[i..j])
  {
    var m := s[i..j];
    assert m[k - i] == '-';
    assert forall t :: 0 <= t < k - i ==> m[t] == s[i + t];
  }

  /** A string is reported exactly when it is a whole match in the text. */
  lemma FindAllMember(s: string, m: string)
    ensures m in FindAll(s) <==> Occurs(s, m)
  {
    FindAllFromSound(s, 0);
    if Occurs(s, m) {
      var i, k, j :| MatchSpan(s, i, k, j) && m == s[i..j];
      FindAllFromComplete(s, 0, i, k, j);
    }
  }

  /** What the pattern's matches, without repeats, promise: each is a whole
      match of identifier shape, every match is there, once, and there are
      none exactly when the text has no match. */
  lemma DedupMatches(text: string)
    ensures var unique := Dedup(FindAll(text));
      && NoDuplicates(unique)
      && (forall m :: m in unique ==> IsIdentifierShape(m) && Occurs(text, m))
      && (forall i, k, j :: MatchSpan(text, i, k, j) ==> text[i..j] in unique)
      && (unique == [] <==> forall i, k, j :: !MatchSpan(text, i, k, j))
  {
    FindAllFromSound(text, 0);
    forall m | m in Dedup(FindAll(text)) ensures IsIdentifierShape(m) && Occurs(text, m) {
      var i, k, j :| MatchSpan(text, i, k, j) && m == text[i..j];
      MatchShape(text, i, k, j);
    }
    forall i, k, j | MatchSpan(text, i, k, j) ensures text[i..j] in Dedup(FindAll(text)) {
      FindAllFromComplete(text, 0, i, k, j);
    }
  }

  /** ScanIdentifiers: the pattern's matches, first occurrences only, in
      order (DedupOrder states the order). */
  method ScanIdentifiers(text: string) returns (unique: seq<string>)
    ensures unique == Dedup(FindAll(text))
  {
    var matches := FindAll(text);
    var seen: set<string> := {};
    unique := [];
    for n := 0 to |matches|
      invariant unique == Dedup(matches[..n])
      invariant forall x :: x in seen <==> x in unique
    {
      var m := matches[n];
      DedupStep(matches, n);
      if m !in seen {
        seen := seen + {m};
        unique := unique + [m];
      }
    }
    assert matches[..|matches|] == matches;
  }

  /** The prefix a team's identifiers start with: upper(teamKey) + "-". */
  function TeamPrefix(teamKey: string): string {
    ToUpper(teamKey) + "-"
  }

  /** The identifiers that start with prefix, in order. */
  function KeepPrefixed(prefix: string, ids: seq<string>): (r: seq<string>)
    ensures forall x :: x in r <==> x in ids && HasPrefix(x, prefix)
    decreases |ids|
  {
    if ids == [] then []
    else
      var r := KeepPrefixed(prefix, ids[..|ids| - 1]);
      var x := ids[|ids| - 1];
      assert ids == ids[..|ids| - 1] + [x];
      if HasPrefix(x, prefix) then r + [x] else r
  }

  lemma {:induction false} KeepPrefixedAppend(prefix: string, a: seq<string>, b: seq<string>)
    ensures KeepPrefixed(prefix, a + b) == KeepPrefixed(prefix, a) + KeepPrefixed(prefix, b)
    decreases |b|
  {
    if b == [] {
      assert a + b == a;
    } else {
      var b', x := b[..|b| - 1], b[|b| - 1];
      assert b == b' + [x];
      assert (a + b)[..|a + b| - 1] == a + b';
      KeepPrefixedAppend(prefix, a, b');
    }
  }

  /** Collecting the filtered first occurrences is collecting the filtered
      matches: the per-text deduplication of ScanIdentifiers does not change
      what an accumulator keeps. */
  lemma {:induction false} ExtendKeepDedup(acc: seq<string>, prefix: string, x: seq<string>)
    ensures Extend(acc, KeepPrefixed(prefix, Dedup(x))) == Extend(acc, KeepPrefixed(prefix, x))
    decreases |x|
  {
    if x != [] {
      var x', e := x[..|x| - 1], x[|x| - 1];
      assert x == x' + [e];
      ExtendKeepDedup(acc, prefix, x');
      ExtendStep([], x', e);
      KeepPrefixedAppend(prefix, x', [e]);
      assert KeepPrefixed(prefix, [e]) == if HasPrefix(e, prefix) then [e] else [];
      ExtendAppend(acc, KeepPrefixed(prefix, x'), KeepPrefixed(prefix, [e]));
      if e in x' {
        if HasPrefix(e, prefix) {
          ExtendStep(acc, KeepPrefixed(prefix, x'), e);
        }
      } else {
        KeepPrefixedAppend(prefix, Dedup(x'), [e]);
        ExtendAppend(acc, KeepPrefixed(prefix, Dedup(x')), KeepPrefixed(prefix, [e]));
      }
    }
  }

  /** The matches of each text in turn. */
  function AllMatches(texts: seq<string>): seq<string>
    decreases |texts|
  {
    if texts == [] then [] else AllMatches(texts[..|texts| - 1]) + FindAll(texts[|texts| - 1])
  }

  lemma AllMatchesLast(texts: seq<string>, t: string)
    ensures AllMatches(texts + [t]) == AllMatches(texts) + FindAll(t)
  {
    assert (texts + [t])[..|texts|] == texts;
  }

  lemma {:induction false} AllMatchesAppend(a: seq<string>, b: seq<string>)
    ensures AllMatches(a + b) == AllMatches(a) + AllMatches(b)
    decreases |b|
  {
    if b == [] {
      assert a + b == a;
    } else {
      var b', t := b[..|b| - 1], b[|b| - 1];
      assert b == b' + [t];
      ConcatAssoc(a, b', [t]);
      AllMatchesLast(a + b', t);
      AllMatchesLast(b', t);
      AllMatchesAppend(a, b');
      ConcatAssoc(AllMatches(a), AllMatches(b'), FindAll(t));
    }
  }

  /** A string is among the matches of the texts exactly when it is a whole
      match in one of them. */
  lemma {:induction false} AllMatchesMember(texts: seq<string>, m: string)
    ensures m in AllMatches(texts) <==> exists i :: 0 <= i < |texts| && Occurs(texts[i], m)
    decreases |texts|
  {
    if texts != [] {
      var ts := texts[..|texts| - 1];
      AllMatchesMember(ts, m);
      FindAllMember(texts[|texts| - 1], m);
      assert forall i :: 0 <= i < |ts| ==> ts[i] == texts[i];
    }
  }

  /** The identifiers collected from texts: each prefixed identifier that
      occurs as a whole match in one of them, once. */
  lemma CollectedIds(prefix: string, ts: seq<string>)
    ensures var ids := Dedup(KeepPrefixed(prefix, AllMatches(ts)));
      && NoDuplicates(ids)
      && (forall x :: x in ids ==> HasPrefix(x, prefix))
      && (forall x :: x in ids <==> HasPrefix(x, prefix) && exists i :: 0 <= i < |ts| && Occurs(ts[i], x))
  {
    forall x ensures x in AllMatches(ts) <==> exists i :: 0 <= i < |ts| && Occurs(ts[i], x) {
      AllMatchesMember(ts, x);
    }
  }

  /** Collecting one more text into an accumulator of filtered matches. */
  lemma AccumulateStep(acc: seq<string>, prefix: string, texts: seq<string>, t: string)
    ensures Extend(acc, KeepPrefixed(prefix, AllMatches(texts + [t])))
      == Extend(Extend(acc, KeepPrefixed(prefix, AllMatches(texts))), KeepPrefixed(prefix, FindAll(t)))
  {
    assert (texts + [t])[..|texts|] == texts;
    KeepPrefixedAppend(prefix, AllMatches(texts), FindAll(t));
    ExtendAppend(acc, KeepPrefixed(prefix, AllMatches(texts)), KeepPrefixed(prefix, FindAll(t)));
  }

  /** Collecting two runs of texts one after the other is collecting their
      concatenation. */
  lemma AccumulateTexts(acc: seq<string>, prefix: string, a: seq<string>, b: seq<string>)
    ensures Extend(acc, KeepPrefixed(prefix, AllMatches(a + b)))
      == Extend(Extend(acc, KeepPrefixed(prefix, AllMatches(a))), KeepPrefixed(prefix, AllMatches(b)))
  {
    AllMatchesAppend(a, b);
    KeepPrefixedAppend(prefix, AllMatches(a), AllMatches(b));
    ExtendAppend(acc, KeepPrefixed(prefix, AllMatches(a)), KeepPrefixed(prefix, AllMatches(b)));
  }

  /** Texts written one after another, each followed by '\n'. */
  function Joined(texts: seq<string>): (r: string)
    ensures r == "" <==> texts == []
    ensures r != "" ==> r[|r| - 1] == '\n'
    decreases |texts|
  {
    if texts == [] then "" else Joined(texts[..|texts| - 1]) + texts[|texts| - 1] + "\n"
  }

  /** A slice of a suffix is a slice of the whole. */
  lemma SliceOfSuffix(c: string, n: nat, q: nat, j: nat)
    requires n <= |c| && q <= j <= |c| - n
    ensures c[n..][q..j] == c[n + q..n + j]
  {
  }

  /** A slice of a prefix is a slice of the whole. */
  lemma SliceOfPrefix(c: string, n: nat, p: nat, j: nat)
    requires p <= j <= n <= |c|
    ensures c[..n][p..j] == c[p..j]
  {
  }

  /** Below a '\n' that follows a, matching at p <= |a| behaves as in a alone. */
  lemma MatchEndPrefix(a: string, c: string, p: nat)
    requires |a| < |c| && c[..|a|] == a && c[|a|] == '\n' && p <= |a|
    ensures MatchEnd(c, p) == MatchEnd(a, p)
  {
    if p < |a| {
      var k := RunEnd(a, p, Upper);
      RunEndIs(c, p, Upper, k);
      if p < k < |a| && a[k] == '-' {
        RunEndIs(c, k + 1, Digit, RunEnd(a, k + 1, Digit));
      }
    }
  }

  lemma {:induction false} FindAllFromPrefix(a: string, c: string, p: nat)
    requires |a| < |c| && c[..|a|] == a && c[|a|] == '\n' && p <= |a|
    ensures FindAllFrom(c, p) == FindAllFrom(a, p) + FindAllFrom(c, |a|)
    decreases |a| - p
  {
    if p < |a| {
      MatchEndPrefix(a, c, p);
      match MatchEnd(a, p)
      case Some(j) =>
        SliceOfPrefix(c, |a|, p, j);
        FindAllFromTake(c, p, j);
        FindAllFromTake(a, p, j);
        FindAllFromPrefix(a, c, j);
        calc {
          FindAllFrom(c, p);
          [c[p..j]] + FindAllFrom(c, j);
          [a[p..j]] + (FindAllFrom(a, j) + FindAllFrom(c, |a|));
          { ConcatAssoc([a[p..j]], FindAllFrom(a, j), FindAllFrom(c, |a|)); }
          ([a[p..j]] + FindAllFrom(a, j)) + FindAllFrom(c, |a|);
          FindAllFrom(a, p) + FindAllFrom(c, |a|);
        }
      case None =>
        FindAllFromSkip(c, p);
        FindAllFromSkip(a, p);
        FindAllFromPrefix(a, c, p + 1);
    }
  }

  /** After a non-word character at n - 1, matching in c from n + q behaves as
      matching in c[n..] from q. */
  lemma MatchEndShift(b: string, c: string, n: nat, q: nat)
    requires 0 < n <= |c| && c[n..] == b && !IsWordChar(c[n - 1]) && q <= |b|
    ensures MatchEnd(c, n + q) == Shifted(MatchEnd(b, q), n)
  {
    assert forall t :: 0 <= t < |b| ==> c[n + t] == b[t];
    if q < |b| {
      var k := RunEnd(b, q, Upper);
      RunEndIs(c, n + q, Upper, n + k);
      if q < k < |b| && b[k] == '-' {
        var j := RunEnd(b, k + 1, Digit);
        RunEndIs(c, n + k + 1, Digit, n + j);
      }
    }
  }

  /** A match end found in c[n..], as a position in c. */
  function Shifted(r: Option<nat>, n: nat): Option<nat> {
    match r
    case Some(j) => Some(n + j)
    case None => None
  }

  /** After a non-word character at n - 1, c yields from n + q the strings b
      = c[n..] yields from q. */
  lemma {:induction false} FindAllFromShift(b: string, c: string, n: nat, q: nat)
    requires 0 < n <= |c| && c[n..] == b && !IsWordChar(c[n - 1]) && q <= |b|
    ensures FindAllFrom(c, n + q) == FindAllFrom(b, q)
    decreases |b| - q
  {
    if q < |b| {
      MatchEndShift(b, c, n, q);
      match MatchEnd(b, q)
      case Some(j) =>
        SliceOfSuffix(c, n, q, j);
        FindAllFromTake(c, n + q, n + j);
        FindAllFromTake(b, q, j);
        FindAllFromShift(b, c, n, j);
      case None =>
        FindAllFromSkip(c, n + q);
        FindAllFromSkip(b, q);
        FindAllFromShift(b, c, n, q + 1);
    }
  }

  /** The pieces of a + "\n" + b. */
  lemma NewlineParts(a: string, b: string)
    ensures var c := a + "\n" + b;
      && |c| == |a| + 1 + |b| && c[..|a|] == a && c[|a|] == '\n' && c[|a| + 1..] == b
  {
  }

  /** No match spans a '\n': the matches of a + "\n" + b are those of a, then those of b. */
  lemma FindAllSplit(a: string, b: string)
    ensures FindAll(a + "\n" + b) == FindAll(a) + FindAll(b)
  {
    var c := a + "\n" + b;
    NewlineParts(a, b);
    FindAllFromPrefix(a, c, 0);
    MatchEndPrefix(a, c, |a|);
    FindAllFromSkip(c, |a|);
    FindAllFromShift(b, c, |a| + 1, 0);
  }

  /** Scanning the joined texts finds each text's matches, in turn. */
  lemma {:induction false} FindAllJoined(texts: seq<string>)
    ensures FindAll(Joined(texts)) == AllMatches(texts)
    decreases |texts|
  {
    if texts != [] {
      var ts, t := texts[..|texts| - 1], texts[|texts| - 1];
      FindAllJoined(ts);
      if ts == [] {
        assert Joined(texts) == t + "\n" + "";
        FindAllSplit(t, "");
      } else {
        var a := Joined(ts[..|ts| - 1]) + ts[|ts| - 1];
        assert Joined(ts) == a + "\n" + "";
        FindAllSplit(a, "");
        assert Joined(texts) == a + "\n" + (t + "\n");
        FindAllSplit(a, t + "\n");
        assert t + "\n" == t + "\n" + "";
        FindAllSplit(t, "");
      }
    }
  }
}
