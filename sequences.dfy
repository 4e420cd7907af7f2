/** The order-preserving, deduplicating accumulation that both the identifier
    scanner and the backfill's collect step perform: a `seen` set beside a
    result slice, where an element is appended only the first time it is seen. */
module Sequences {

  predicate NoDuplicates<T(==,!new)>(s: seq<T>) {
    forall i, j :: 0 <= i < j < |s| ==> s[i] != s[j]
  }

  /** acc, followed by each element of s that is not yet present, in the order
      s first shows it. Defined on the last element, as a loop appends. */
  function Extend<T(==,!new)>(acc: seq<T>, s: seq<T>): (r: seq<T>)
    ensures forall x :: x in r <==> x in acc || x in s
    ensures NoDuplicates(acc) ==> NoDuplicates(r)
    ensures |acc| <= |r| && r[..|acc|] == acc
    decreases |s|
  {
    if s == [] then acc
    else
      var e := Extend(acc, s[..|s| - 1]);
      assert forall x :: x in s <==> x in s[..|s| - 1] || x == s[|s| - 1] by {
        assert s == s[..|s| - 1] + [s[|s| - 1]];
      }
      if s[|s| - 1] in e then e else e + [s[|s| - 1]]
  }

  /** The first occurrences of s's elements, in order. */
  function Dedup<T(==,!new)>(s: seq<T>): (r: seq<T>)
    ensures NoDuplicates(r)
    ensures forall x :: x in r <==> x in s
  {
    Extend([], s)
  }

  /** One step of the accumulation: append x unless it was already collected. */
  lemma ExtendStep<T(!new)>(acc: seq<T>, s: seq<T>, x: T)
    ensures Extend(acc, s + [x]) == if x in Extend(acc, s) then Extend(acc, s) else Extend(acc, s) + [x]
  {
    assert (s + [x])[..|s|] == s;
  }

  lemma ConcatAssoc<T>(a: seq<T>, b: seq<T>, c: seq<T>)
    ensures (a + b) + c == a + (b + c)
  {
  }

  /** The first occurrences among one element more. */
  lemma DedupStep<T(!new)>(s: seq<T>, n: nat)
    requires n < |s|
    ensures Dedup(s[..n + 1]) == if s[n] in Dedup(s[..n]) then Dedup(s[..n]) else Dedup(s[..n]) + [s[n]]
  {
    assert s[..n + 1] == s[..n] + [s[n]];
    ExtendStep([], s[..n], s[n]);
  }

  /** Accumulating s + t is accumulating s, then t. */
  lemma {:induction false} ExtendAppend<T(!new)>(acc: seq<T>, s: seq<T>, t: seq<T>)
    ensures Extend(acc, s + t) == Extend(Extend(acc, s), t)
    decreases |t|
  {
    if t == [] {
      assert s + t == s;
    } else {
      var t', x := t[..|t| - 1], t[|t| - 1];
      assert t == t' + [x];
      assert s + t == (s + t') + [x];
      ExtendAppend(acc, s, t');
      ExtendStep(acc, s + t', x);
      ExtendStep(Extend(acc, s), t', x);
    }
  }

  /** The index of the first occurrence of x in s. */
  function FirstIndex<T(==,!new)>(s: seq<T>, x: T): (i: nat)
    requires x in s
    ensures i < |s| && s[i] == x && x !in s[..i]
  {
    if s[0] == x then 0
    else
      assert s == [s[0]] + s[1..];
      var i := FirstIndex(s[1..], x);
      assert s[..i + 1] == [s[0]] + s[1..][..i];
      i + 1
  }

  /** The first-occurrence property determines the index. */
  lemma FirstIndexUnique<T(!new)>(s: seq<T>, x: T, i: nat)
    requires i < |s| && s[i] == x && x !in s[..i]
    ensures FirstIndex(s, x) == i
  {
  }

  /** Appending an element leaves the first occurrence of earlier elements in place. */
  lemma FirstIndexAppend<T(!new)>(s: seq<T>, e: T, x: T)
    requires x in s
    ensures FirstIndex(s + [e], x) == FirstIndex(s, x)
  {
    var i := FirstIndex(s, x);
    assert (s + [e])[..i] == s[..i];
    FirstIndexUnique(s + [e], x, i);
  }

  /** Dedup keeps first-occurrence order: an element listed earlier was first
      seen earlier in the input. */
  lemma {:induction false} DedupOrder<T(!new)>(s: seq<T>)
    ensures forall p, q :: 0 <= p < q < |Dedup(s)| ==> FirstIndex(s, Dedup(s)[p]) < FirstIndex(s, Dedup(s)[q])
    decreases |s|
  {
    if s != [] {
      var s', e := s[..|s| - 1], s[|s| - 1];
      assert s == s' + [e];
      DedupOrder(s');
      ExtendStep([], s', e);
      var d, d' := Dedup(s), Dedup(s');
      forall p, q | 0 <= p < q < |d|
        ensures FirstIndex(s, d[p]) < FirstIndex(s, d[q])
      {
        assert d[p] in d' && d[p] in s';
        FirstIndexAppend(s', e, d[p]);
        if q < |d'| {
          assert d[q] == d'[q] && d[q] in s';
          FirstIndexAppend(s', e, d[q]);
        } else {
          assert d[q] == e && e !in s';
          assert s[..|s'|] == s';
          FirstIndexUnique(s, e, |s'|);
        }
      }
    }
  }

  /** Dedup of a sequence with no repeated element is that sequence. */
  lemma {:induction false} DedupOfUnique<T(!new)>(s: seq<T>)
    requires NoDuplicates(s)
    ensures Dedup(s) == s
    decreases |s|
  {
    if s != [] {
      var s', e := s[..|s| - 1], s[|s| - 1];
      assert s == s' + [e];
      DedupOfUnique(s');
      ExtendStep([], s', e);
      assert e !in s';
    }
  }
}
