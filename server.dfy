/** The public issue page, GET /{identifier} (main.go): upper-case the path,
    check it against the team's identifier pattern, look the issue up through
    the cache, and answer with the not-found page, a server error, the stub
    page of a private issue or the page of a public one. */
module IssueServer {
  import opened Wrappers
  import opened Errors
  import opened Strings
  import opened LinearTypes
  import opened LinearClient
  import opened IssueCache
  import Labeler
  import Http

  /** identifierPattern.MatchString: `^` + upper(teamKey) + `-\d+$`, the key
      taken literally. */
  function MatchesIdentifier(teamKey: string, id: string): (r: bool)
    ensures r <==> exists d :: |d| > 0 && AllDigits(d) && id == ToUpper(teamKey) + "-" + d
  {
    var p := ToUpper(teamKey) + "-";
    var ok := HasPrefix(id, p) && |id| > |p| && AllDigits(id[|p|..]);
    if ok then
      assert id == p + id[|p|..];
      ok
    else
      assert forall d :: |d| > 0 && AllDigits(d) && id == p + d ==> id[|p|..] == d;
      ok
  }

  /** What the handler writes. */
  datatype Page = NotFoundPage | ServerError | StubPage(identifier: string) | IssuePage(issue: Issue)

  datatype Response = Response(status: int, page: Page)

  /** The answer for a valid identifier, from what the cache returned. */
  function Answer(identifier: string, got: Result<Option<Issue>, Error>): (resp: Response)
    ensures resp.status == Http.StatusInternalServerError <==> got.Failure?
    ensures resp.status == Http.StatusNotFound <==> got == Success(None)
    ensures resp.status == Http.StatusOK <==> got.Success? && got.value.Some?
    ensures resp.page.IssuePage? <==> got.Success? && got.value.Some? && HasLabel(got.value.value, Labeler.PublicLabel)
    ensures resp.page.StubPage? ==> resp.page.identifier == identifier
    ensures resp.page.IssuePage? ==> got == Success(Some(resp.page.issue))
  {
    match got
    case Failure(_) => Response(Http.StatusInternalServerError, ServerError)
    case Success(None) => Response(Http.StatusNotFound, NotFoundPage)
    case Success(Some(issue)) =>
      if !HasLabel(issue, Labeler.PublicLabel) then Response(Http.StatusOK, StubPage(identifier))
      else Response(Http.StatusOK, IssuePage(issue))
  }

  /** The handler's effect: the response and the cache entries after it. */
  datatype Served = Served(resp: Response, entries: map<string, Entry>)

  /** The handler as a function of the cache's entries; the cache fetches
      with the tracker client, at now, storing at storedAt. */
  function Serve(c: Client, entries: map<string, Entry>, ttl: int, teamKey: string, path: string,
                 now: int, storedAt: int): (s: Served)
    ensures !MatchesIdentifier(teamKey, ToUpper(path)) ==>
      s == Served(Response(Http.StatusNotFound, NotFoundPage), entries)
    ensures s.resp.status in {Http.StatusOK, Http.StatusNotFound, Http.StatusInternalServerError}
    ensures MatchesIdentifier(teamKey, ToUpper(path)) ==>
      var o := GetSpec(entries, ttl, ToUpper(path), now, storedAt, FetchIssue(c, ToUpper(path)));
      s == Served(Answer(ToUpper(path), o.result), o.entries)
  {
    var identifier := ToUpper(path);
    if !MatchesIdentifier(teamKey, identifier) then Served(Response(Http.StatusNotFound, NotFoundPage), entries)
    else
      var o := GetSpec(entries, ttl, identifier, now, storedAt, FetchIssue(c, identifier));
      Served(Answer(identifier, o.result), o.entries)
  }

  /** GET /{identifier} */
  method ServeIssue(c: Client, cache: Cache, teamKey: string, path: string, now: int, storedAt: int)
    returns (resp: Response)
    modifies cache
    ensures Served(resp, cache.entries) == Serve(c, old(cache.entries), cache.ttl, teamKey, path, now, storedAt)
  {
    var identifier := ToUpper(path);
    if !MatchesIdentifier(teamKey, identifier) {
      return Response(Http.StatusNotFound, NotFoundPage);
    }
    var got, _ := cache.Get(identifier, now, storedAt, FetchIssue(c, identifier));
    resp := Answer(identifier, got);
  }

  /** A valid identifier with a fresh cache entry is answered from the entry,
      without a fetch and without a change to the cache. */
  lemma ServeCached(c: Client, entries: map<string, Entry>, ttl: int, teamKey: string, path: string,
                    now: int, storedAt: int)
    requires MatchesIdentifier(teamKey, ToUpper(path)) && Fresh(entries, ttl, ToUpper(path), now)
    ensures var s := Serve(c, entries, ttl, teamKey, path, now, storedAt);
      && s.entries == entries
      && s.resp == Answer(ToUpper(path), Success(entries[ToUpper(path)].issue))
  {
  }

  /** A valid identifier without a fresh entry is fetched: a fetch error is a
      server error and stores nothing; otherwise the answer is stored, and it
      is the not-found page, the stub page of a private issue or the page of
      a public one. */
  lemma ServeFetched(c: Client, entries: map<string, Entry>, ttl: int, teamKey: string, path: string,
                     now: int, storedAt: int)
    requires MatchesIdentifier(teamKey, ToUpper(path)) && !Fresh(entries, ttl, ToUpper(path), now)
    ensures var id := ToUpper(path);
      var s := Serve(c, entries, ttl, teamKey, path, now, storedAt);
      var got := FetchIssue(c, id);
      && (got.Failure? ==> s == Served(Response(Http.StatusInternalServerError, ServerError), entries))
      && (got.Success? ==> s.entries == entries[id := Entry(got.value, storedAt)])
      && (got == Success(None) ==> s.resp == Response(Http.StatusNotFound, NotFoundPage))
      && (got.Success? && got.value.Some? && !HasLabel(got.value.value, Labeler.PublicLabel) ==>
            s.resp == Response(Http.StatusOK, StubPage(id)))
      && (got.Success? && got.value.Some? && HasLabel(got.value.value, Labeler.PublicLabel) ==>
            s.resp == Response(Http.StatusOK, IssuePage(got.value.value)))
  {
  }

  /** The path is matched without regard to case. */
  lemma PathCaseIgnored(c: Client, entries: map<string, Entry>, ttl: int, teamKey: string, path: string,
                        now: int, storedAt: int)
    ensures Serve(c, entries, ttl, teamKey, ToUpper(path), now, storedAt) == Serve(c, entries, ttl, teamKey, path, now, storedAt)
  {
    ToUpperIdempotent(path);
  }

  /** Every decimal issue number of the team is a valid identifier. */
  lemma NumberMatches(teamKey: string, n: nat)
    ensures MatchesIdentifier(teamKey, ToUpper(teamKey) + "-" + Decimal(n))
  {
  }

  lemma UpperHasNoHyphen(s: string)
    requires '-' !in s
    ensures '-' !in ToUpper(s)
  {
    forall i | 0 <= i < |s| ensures ToUpper(s)[i] != '-' {
      assert s[i] != '-';
    }
  }

  /** A valid identifier of a key without '-' parses to the upper-cased key
      and its number, while the number fits in 64 bits. */
  lemma ValidIdentifierParses(teamKey: string, d: string)
    requires '-' !in teamKey && |d| > 0 && AllDigits(d) && DigitsValue(d) <= MaxInt64
    ensures ParseIdentifier(ToUpper(teamKey) + "-" + d) == Parsed(ToUpper(teamKey), DigitsValue(d), None)
  {
    var key := ToUpper(teamKey);
    var id := key + "-" + d;
    UpperHasNoHyphen(teamKey);
    SplitKey(key, d);
    assert id[|key| + 1..] == d;
    assert IsDigit(d[0]);
  }

  /** The first '-' of key + "-" + rest, for a key without one, ends the key. */
  lemma SplitKey(key: string, rest: string)
    requires '-' !in key
    ensures Sequences.FirstIndex(key + "-" + rest, '-') == |key|
    ensures (key + "-" + rest)[..|key|] == key
  {
    var id := key + "-" + rest;
    assert id[|key|] == '-';
    assert forall i :: 0 <= i < |key| ==> id[i] == key[i];
    Sequences.FirstIndexUnique(id, '-', |key|);
  }

  /** An identifier whose number does not fit in 64 bits passes the pattern
      but fails to parse, so the handler answers it with a server error,
      not with the not-found page, unless it is cached. */
  lemma OutOfRangeIsServerError(c: Client, entries: map<string, Entry>, ttl: int, teamKey: string,
                                d: string, now: int, storedAt: int)
    requires '-' !in teamKey && |d| > 0 && AllDigits(d) && DigitsValue(d) > MaxInt64
    requires !Fresh(entries, ttl, ToUpper(teamKey) + "-" + d, now)
    ensures Serve(c, entries, ttl, teamKey, ToUpper(teamKey) + "-" + d, now, storedAt).resp
      == Response(Http.StatusInternalServerError, ServerError)
  {
    var key := ToUpper(teamKey);
    var id := key + "-" + d;
    ToUpperIdempotent(teamKey);
    UpperDigits(key, d);
    assert MatchesIdentifier(teamKey, id);
    OutOfRangeFails(teamKey, d);
    assert FetchIssue(c, id).Failure?;
  }

  /** Such an identifier is an invalid issue number to the client. */
  lemma OutOfRangeFails(teamKey: string, d: string)
    requires '-' !in teamKey && |d| > 0 && AllDigits(d) && DigitsValue(d) > MaxInt64
    ensures var id := ToUpper(teamKey) + "-" + d;
      ParseIdentifier(id).err == Some(InvalidIssueNumber(id))
  {
    var key := ToUpper(teamKey);
    var id := key + "-" + d;
    UpperHasNoHyphen(teamKey);
    SplitKey(key, d);
    assert id[|key| + 1..] == d;
    assert IsDigit(d[0]);
    assert Atoi(d).None?;
  }

  /** Upper-casing leaves '-' and digits alone. */
  lemma UpperDigits(key: string, d: string)
    requires ToUpper(key) == key && AllDigits(d)
    ensures ToUpper(key + "-" + d) == key + "-" + d
  {
    var id := key + "-" + d;
    forall i | 0 <= i < |id| ensures UpperChar(id[i]) == id[i] {
      if i < |key| {
        assert id[i] == key[i] && ToUpper(key)[i] == UpperChar(key[i]);
      } else if i > |key| {
        assert id[i] == d[i - |key| - 1];
      }
    }
  }
}
