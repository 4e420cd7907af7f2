/** The repository backfill: scan the git log and four GitHub listings for
    identifiers of one team, keeping each identifier once, in the order it is
    first seen. The git log output and the listing pages are parameters: the
    git command's output (None when it fails) and, per listing, the sequence
    of page replies in the order the requests are made. */
module Backfill {
  import opened Wrappers
  import opened Errors
  import opened Strings
  import opened Sequences
  import opened Scanner
  import opened LinkHeader
  import Http

  const DefaultBaseURL := "https://api.github.com"
  const PerPageParam := "per_page="
  const GitLogSource := "git log"

  // ----- request building -----

  /** The per_page rewrite at the top of paginate: a URL that does not
      already choose a page size asks for 100, joined with '?' or '&'. */
  function WithPerPage(url: string): (r: string)
    ensures Contains(r, PerPageParam)
    ensures HasPrefix(r, url)
    ensures Contains(url, PerPageParam) ==> r == url
    ensures !Contains(url, PerPageParam) ==>
      r == url + (if Contains(url, "?") then "&" else "?") + PerPageParam + "100"
  {
    if Contains(url, PerPageParam) then url
    else
      var sep := if Contains(url, "?") then "&" else "?";
      var r := url + sep + PerPageParam + "100";
      assert r == (url + sep) + PerPageParam + "100";
      ContainsAppend(url + sep, "", PerPageParam);
      assert url + sep + PerPageParam == url + sep + PerPageParam + "";
      ContainsAppend(url + sep + PerPageParam, "100", PerPageParam);
      assert r[..|url|] == url;
      r
  }

  /** Rewriting twice is rewriting once. */
  lemma WithPerPageIdempotent(url: string)
    ensures WithPerPage(WithPerPage(url)) == WithPerPage(url)
  {
  }

  /** The Authorization header: "Bearer " + token, or none for an empty token. */
  function AuthHeader(token: string): (a: Option<string>)
    ensures a.Some? <==> token != ""
    ensures a.Some? ==> a.value == "Bearer " + token
  {
    if token == "" then None else Some("Bearer " + token)
  }

  /** A GET request as the model sees it: its URL and its Authorization header. */
  datatype Request = Request(url: string, authorization: Option<string>)

  // ----- listings -----

  datatype SourceKind = PullRequests | IssuesListing | IssueComments | ReviewComments

  /** The listings, in the order ScanRepo visits them. */
  const Sources: seq<SourceKind> := [PullRequests, IssuesListing, IssueComments, ReviewComments]

  /** The listing's name in log lines and in "scan %s: %w"; never the git
      log's, so a wrapped error tells where it came from. */
  function SourceName(k: SourceKind): (n: string)
    ensures n != "" && n != GitLogSource
  {
    match k
    case PullRequests => "pull requests"
    case IssuesListing => "issues"
    case IssueComments => "issue comments"
    case ReviewComments => "review comments"
  }

  /** The listing's path under the repository; the two listings with a
      state filter already carry a query, so per_page joins it with '&'. */
  function SourcePath(k: SourceKind): (p: string)
    ensures |p| > 0 && p[0] == '/'
    ensures '?' in p <==> Titled(k)
  {
    match k
    case PullRequests => "/pulls?state=all"
    case IssuesListing => "/issues?state=all"
    case IssueComments => "/issues/comments"
    case ReviewComments => "/pulls/comments"
  }

  /** Pull requests and issues have a title; comments only a body. */
  predicate Titled(k: SourceKind) {
    k == PullRequests || k == IssuesListing
  }

  /** The scanner's repository settings. */
  datatype Repo = Repo(baseURL: string, token: string, owner: string, repo: string, gitDir: string)

  /** repoURL: "%s/repos/%s/%s%s" of the base URL, owner, repository and path */
  function RepoURL(cfg: Repo, path: string): string {
    cfg.baseURL + "/repos/" + cfg.owner + "/" + cfg.repo + path
  }

  /** One decoded listing element; a comment's title is not read. */
  datatype Item = Item(title: string, body: string)

  /** The reply to a page request: none (not sent, or the body not read), or
      a status, the page decoded (None when it does not decode) and the Link
      header. */
  datatype PageResponse = NoResponse | Page(status: int, items: Option<seq<Item>>, link: string)

  /** The texts an element hands to collect: title, then body. */
  function ItemTexts(k: SourceKind, item: Item): seq<string> {
    if Titled(k) then [item.title, item.body] else [item.body]
  }

  /** The texts of a decoded page, element after element. */
  function PageTexts(k: SourceKind, items: seq<Item>): seq<string>
    decreases |items|
  {
    if items == [] then [] else PageTexts(k, items[..|items| - 1]) + ItemTexts(k, items[|items| - 1])
  }

  predicate PageOK(p: PageResponse) {
    p.Page? && p.status == Http.StatusOK && p.items.Some?
  }

  /** Why a reply stops the walk, if it does: no reply, a status other than
      200, or a body that does not decode, tested in that order. */
  function PageError(p: PageResponse): (e: Option<Error>)
    ensures e.None? <==> PageOK(p)
  {
    if p.NoResponse? then Some(TransportFailure)
    else if p.status != Http.StatusOK then Some(GitHubStatus(p.status))
    else if p.items.None? then Some(GitHubDecode)
    else None
  }

  /** The texts of a run of good pages, in order. */
  function PagesTexts(k: SourceKind, pages: seq<PageResponse>): seq<string>
    requires forall i :: 0 <= i < |pages| ==> PageOK(pages[i])
    decreases |pages|
  {
    if pages == [] then []
    else
      assert PageOK(pages[0]);
      PageTexts(k, pages[0].items.value) + PagesTexts(k, pages[1..])
  }

  /** What paginate yields: the texts of every page, or the first failure,
      and the requests it made. */
  datatype WalkResult = WalkResult(texts: Result<seq<string>, Error>, requests: seq<Request>)

  /** paginate's loop from url on, answered by pages in order; running out of
      replies is a failure to reach the server. */
  function Walk(url: string, pages: seq<PageResponse>, auth: Option<string>, k: SourceKind): (w: WalkResult)
    ensures url != "" ==> |w.requests| >= 1 && w.requests[0].url == url
    ensures forall r :: r in w.requests ==> r.authorization == auth
    decreases |pages|
  {
    if url == "" then WalkResult(Success([]), [])
    else
      var req := [Request(url, auth)];
      if pages == [] then WalkResult(Failure(TransportFailure), req)
      else if PageError(pages[0]).Some? then WalkResult(Failure(PageError(pages[0]).value), req)
      else
        var rest := Walk(NextPageURL(pages[0].link), pages[1..], auth, k);
        var texts := match rest.texts
          case Success(t) => Success(PageTexts(k, pages[0].items.value) + t)
          case Failure(e) => Failure(e);
        WalkResult(texts, req + rest.requests)
  }

  /** A successful walk requested page after page, each URL the next link of
      the page before, stopped at the first page without a next link, and
      collected the texts of exactly those pages. */
  lemma {:induction false} WalkFollowsLinks(url: string, pages: seq<PageResponse>, auth: Option<string>, k: SourceKind)
    requires url != ""
    ensures var w := Walk(url, pages, auth, k);
      var n := |w.requests|;
      w.texts.Success? ==>
        && 1 <= n <= |pages|
        && (forall i :: 0 <= i < n ==> PageOK(pages[i]))
        && (forall i :: 0 <= i < n - 1 ==> w.requests[i + 1].url == NextPageURL(pages[i].link))
        && NextPageURL(pages[n - 1].link) == ""
        && w.texts.value == PagesTexts(k, pages[..n])
    decreases |pages|
  {
    var w := Walk(url, pages, auth, k);
    if w.texts.Success? {
      WalkUnfold(url, pages, auth, k);
      var next := NextPageURL(pages[0].link);
      var rest := Walk(next, pages[1..], auth, k);
      if next == "" {
        assert pages[..1] == [pages[0]];
        assert PagesTexts(k, pages[..1]) == PageTexts(k, pages[0].items.value) + PagesTexts(k, []);
      } else {
        WalkFollowsLinks(next, pages[1..], auth, k);
        WalkFollowsLinksStep(url, pages, auth, k, w, rest);
      }
    }
  }

  /** A successful walk from url took its first page and went on from the
      page's next link. */
  lemma WalkUnfold(url: string, pages: seq<PageResponse>, auth: Option<string>, k: SourceKind)
    requires url != "" && Walk(url, pages, auth, k).texts.Success?
    ensures pages != [] && PageOK(pages[0])
    ensures var w := Walk(url, pages, auth, k);
      var rest := Walk(NextPageURL(pages[0].link), pages[1..], auth, k);
      && rest.texts.Success?
      && w.requests == [Request(url, auth)] + rest.requests
      && w.texts.value == PageTexts(k, pages[0].items.value) + rest.texts.value
  {
    assert PageError(pages[0]).None?;
  }

  /** The properties of the rest of the walk carry over to the whole walk. */
  lemma WalkFollowsLinksStep(url: string, pages: seq<PageResponse>, auth: Option<string>, k: SourceKind,
                             w: WalkResult, rest: WalkResult)
    requires pages != [] && PageOK(pages[0])
    requires w.texts.Success? && rest.texts.Success?
    requires w.requests == [Request(url, auth)] + rest.requests
    requires rest.requests != [] && rest.requests[0].url == NextPageURL(pages[0].link)
    requires w.texts.value == PageTexts(k, pages[0].items.value) + rest.texts.value
    requires var m := |rest.requests|;
      && m <= |pages| - 1
      && (forall i :: 0 <= i < m ==> PageOK(pages[1..][i]))
      && (forall i :: 0 <= i < m - 1 ==> rest.requests[i + 1].url == NextPageURL(pages[1..][i].link))
      && NextPageURL(pages[1..][m - 1].link) == ""
      && rest.texts.value == PagesTexts(k, pages[1..][..m])
    ensures var n := |w.requests|;
      && 1 <= n <= |pages|
      && (forall i :: 0 <= i < n ==> PageOK(pages[i]))
      && (forall i :: 0 <= i < n - 1 ==> w.requests[i + 1].url == NextPageURL(pages[i].link))
      && NextPageURL(pages[n - 1].link) == ""
      && w.texts.value == PagesTexts(k, pages[..n])
  {
    var n := |w.requests|;
    forall i | 0 <= i < n ensures PageOK(pages[i]) {
      if i > 0 { assert pages[i] == pages[1..][i - 1]; }
    }
    forall i | 0 <= i < n - 1 ensures w.requests[i + 1].url == NextPageURL(pages[i].link) {
      assert w.requests[i + 1] == rest.requests[i];
      if i > 0 { assert pages[i] == pages[1..][i - 1]; }
    }
    assert pages[n - 1] == pages[1..][n - 2];
    assert pages[..n][1..] == pages[1..][..n - 1];
  }

  /** A failing page ends the walk with its error. */
  lemma WalkFailsAt(url: string, pages: seq<PageResponse>, auth: Option<string>, k: SourceKind)
    requires url != "" && pages != [] && pages[0].Page? && pages[0].status != Http.StatusOK
    ensures Walk(url, pages, auth, k) == WalkResult(Failure(GitHubStatus(pages[0].status)), [Request(url, auth)])
  {
  }

  /** done followed by a walk's texts, or the walk's failure. */
  function After(done: seq<string>, r: Result<seq<string>, Error>): Result<seq<string>, Error> {
    match r
    case Success(t) => Success(done + t)
    case Failure(e) => Failure(e)
  }

  /** One step of a walk. */
  lemma WalkStep(url: string, pages: seq<PageResponse>, auth: Option<string>, k: SourceKind, done: seq<string>)
    requires url != "" && pages != [] && PageOK(pages[0])
    ensures var w := Walk(url, pages, auth, k);
      var next := Walk(NextPageURL(pages[0].link), pages[1..], auth, k);
      && w.requests == [Request(url, auth)] + next.requests
      && After(done, w.texts) == After(done + PageTexts(k, pages[0].items.value), next.texts)
  {
    var next := Walk(NextPageURL(pages[0].link), pages[1..], auth, k);
    if next.texts.Success? {
      assert done + PageTexts(k, pages[0].items.value) + next.texts.value
        == done + (PageTexts(k, pages[0].items.value) + next.texts.value);
    }
  }

  // ----- the scan as a whole -----

  /** The page replies of each listing. */
  datatype Replies = Replies(pullRequests: seq<PageResponse>, issues: seq<PageResponse>,
                             issueComments: seq<PageResponse>, reviewComments: seq<PageResponse>)

  function RepliesFor(r: Replies, k: SourceKind): seq<PageResponse> {
    match k
    case PullRequests => r.pullRequests
    case IssuesListing => r.issues
    case IssueComments => r.issueComments
    case ReviewComments => r.reviewComments
  }

  /** The walk of one listing. */
  function SourceWalk(cfg: Repo, k: SourceKind, replies: Replies): WalkResult {
    Walk(WithPerPage(RepoURL(cfg, SourcePath(k))), RepliesFor(replies, k), AuthHeader(cfg.token), k)
  }

  /** The git log's text, when a git directory is set. */
  function GitTexts(cfg: Repo, gitLog: Option<string>): (r: Result<seq<string>, Error>)
    ensures cfg.gitDir == "" ==> r == Success([])
    ensures cfg.gitDir != "" ==> (r.Success? <==> gitLog.Some?)
    ensures r.Success? && cfg.gitDir != "" ==> r.value == [gitLog.value]
    ensures r.Failure? ==> r.error == SourceFailed(GitLogSource, GitLogFailed)
  {
    if cfg.gitDir == "" then Success([])
    else if gitLog.None? then Failure(SourceFailed(GitLogSource, GitLogFailed))
    else Success([gitLog.value])
  }

  /** Each listing's walk. */
  function Walks(cfg: Repo, replies: Replies): SourceKind -> WalkResult {
    k => SourceWalk(cfg, k, replies)
  }

  /** The texts of the given listings in turn, or the first listing's failure. */
  function SourcesTexts(kinds: seq<SourceKind>, walks: SourceKind -> WalkResult): (r: Result<seq<string>, Error>)
    ensures r.Failure? ==> r.error.SourceFailed? && r.error.source != GitLogSource
    decreases |kinds|
  {
    if kinds == [] then Success([])
    else
      match SourcesTexts(kinds[..|kinds| - 1], walks)
      case Failure(e) => Failure(e)
      case Success(t) =>
        var k := kinds[|kinds| - 1];
        match walks(k).texts
        case Failure(e) => Failure(SourceFailed(SourceName(k), e))
        case Success(t') => Success(t + t')
  }

  /** Every text ScanRepo collects, in the order it collects them. */
  function ScanTexts(cfg: Repo, gitLog: Option<string>, replies: Replies): (r: Result<seq<string>, Error>)
    ensures r.Success? && cfg.gitDir != "" ==> gitLog.Some? && |r.value| > 0 && r.value[0] == gitLog.value
    ensures cfg.gitDir == "" ==> r == SourcesTexts(Sources, Walks(cfg, replies))
  {
    var sources := SourcesTexts(Sources, Walks(cfg, replies));
    match GitTexts(cfg, gitLog)
    case Failure(e) => Failure(e)
    case Success(g) =>
      match sources
      case Failure(e) => Failure(e)
      case Success(t) => assert g == [] ==> g + t == t; Success(g + t)
  }

  /** ScanRepo's answer: the team's identifiers among the matches of every
      text, first occurrences only; or the first failure. */
  function ScanSpec(cfg: Repo, teamKey: string, gitLog: Option<string>, replies: Replies): (r: Result<seq<string>, Error>)
    ensures r.Failure? <==> ScanTexts(cfg, gitLog, replies).Failure?
    ensures r.Success? ==> NoDuplicates(r.value) && forall x :: x in r.value ==> HasPrefix(x, TeamPrefix(teamKey))
  {
    match ScanTexts(cfg, gitLog, replies)
    case Failure(e) => Failure(e)
    case Success(ts) => Success(Dedup(KeepPrefixed(TeamPrefix(teamKey), AllMatches(ts))))
  }

  /** ScanSpec once every text is gathered. */
  lemma ScanSpecDone(cfg: Repo, teamKey: string, gitLog: Option<string>, replies: Replies, git: seq<string>, done: seq<string>)
    requires GitTexts(cfg, gitLog) == Success(git)
    requires SourcesTexts(Sources, Walks(cfg, replies)) == Success(done)
    ensures ScanSpec(cfg, teamKey, gitLog, replies) == Success(Dedup(KeepPrefixed(TeamPrefix(teamKey), AllMatches(git + done))))
  {
  }

  /** ScanSpec when the listing at n is the first to fail. */
  lemma ScanSpecFailsAt(cfg: Repo, teamKey: string, gitLog: Option<string>, replies: Replies, git: seq<string>, n: nat)
    requires GitTexts(cfg, gitLog) == Success(git)
    requires n < |Sources| && SourcesTexts(Sources[..n], Walks(cfg, replies)).Success?
    requires SourceWalk(cfg, Sources[n], replies).texts.Failure?
    ensures ScanSpec(cfg, teamKey, gitLog, replies)
      == Failure(SourceFailed(SourceName(Sources[n]), SourceWalk(cfg, Sources[n], replies).texts.error))
  {
    assert Walks(cfg, replies)(Sources[n]) == SourceWalk(cfg, Sources[n], replies);
    SourcesTextsFailsAt(Sources, Walks(cfg, replies), n);
  }

  /** One more listing that succeeds: its texts follow the earlier ones, and
      collecting them extends what was collected. */
  lemma ScanStep(cfg: Repo, replies: Replies, prefix: string, git: seq<string>, done: seq<string>, n: nat,
                 before: seq<string>, after: seq<string>)
    requires n < |Sources| && SourcesTexts(Sources[..n], Walks(cfg, replies)) == Success(done)
    requires SourceWalk(cfg, Sources[n], replies).texts.Success?
    requires before == Extend([], KeepPrefixed(prefix, AllMatches(git + done)))
    requires after == Extend(before, KeepPrefixed(prefix, AllMatches(SourceWalk(cfg, Sources[n], replies).texts.value)))
    ensures var t := SourceWalk(cfg, Sources[n], replies).texts.value;
      && SourcesTexts(Sources[..n + 1], Walks(cfg, replies)) == Success(done + t)
      && after == Extend([], KeepPrefixed(prefix, AllMatches(git + (done + t))))
  {
    var t := SourceWalk(cfg, Sources[n], replies).texts.value;
    assert Walks(cfg, replies)(Sources[n]) == SourceWalk(cfg, Sources[n], replies);
    SourcesTextsStep(Sources, Walks(cfg, replies), n);
    ConcatAssoc(git, done, t);
    AccumulateTexts([], prefix, git + done, t);
  }

  /** The result lists each of the team's identifiers that occurs as a whole
      match in some collected text, once, and nothing else. */
  lemma ScanResult(cfg: Repo, teamKey: string, gitLog: Option<string>, replies: Replies)
    requires ScanSpec(cfg, teamKey, gitLog, replies).Success?
    ensures var ids := ScanSpec(cfg, teamKey, gitLog, replies).value;
      var ts := ScanTexts(cfg, gitLog, replies).value;
      && NoDuplicates(ids)
      && (forall x :: x in ids ==> HasPrefix(x, TeamPrefix(teamKey)))
      && (forall x :: x in ids <==> HasPrefix(x, TeamPrefix(teamKey)) && exists i :: 0 <= i < |ts| && Occurs(ts[i], x))
  {
    CollectedIds(TeamPrefix(teamKey), ScanTexts(cfg, gitLog, replies).value);
  }

  /** The result is in first-seen order over the collected matches. */
  lemma ScanOrder(cfg: Repo, teamKey: string, gitLog: Option<string>, replies: Replies)
    requires ScanSpec(cfg, teamKey, gitLog, replies).Success?
    ensures var ids := ScanSpec(cfg, teamKey, gitLog, replies).value;
      var kept := KeepPrefixed(TeamPrefix(teamKey), AllMatches(ScanTexts(cfg, gitLog, replies).value));
      forall p, q :: 0 <= p < q < |ids| ==> FirstIndex(kept, ids[p]) < FirstIndex(kept, ids[q])
  {
    DedupOrder(KeepPrefixed(TeamPrefix(teamKey), AllMatches(ScanTexts(cfg, gitLog, replies).value)));
  }

  /** Without a git directory the git log is not consulted; with one, its
      failure fails the scan, and its text comes before every listing's. */
  lemma GitLogOnlyWithDir(cfg: Repo, teamKey: string, log1: Option<string>, log2: Option<string>, replies: Replies)
    ensures cfg.gitDir == "" ==> ScanSpec(cfg, teamKey, log1, replies) == ScanSpec(cfg, teamKey, log2, replies)
    ensures cfg.gitDir != "" && log1.None? ==>
      ScanSpec(cfg, teamKey, log1, replies) == Failure(SourceFailed(GitLogSource, GitLogFailed))
    ensures cfg.gitDir != "" && log1.Some? && ScanTexts(cfg, log1, replies).Success? ==>
      ScanTexts(cfg, log1, replies).value[0] == log1.value
  {
  }

  /** The listings succeed together or not at all. */
  lemma {:induction false} SourcesTextsAllOrNothing(kinds: seq<SourceKind>, walks: SourceKind -> WalkResult)
    ensures SourcesTexts(kinds, walks).Success? <==> forall i :: 0 <= i < |kinds| ==> walks(kinds[i]).texts.Success?
    decreases |kinds|
  {
    if kinds != [] {
      var ks := kinds[..|kinds| - 1];
      SourcesTextsAllOrNothing(ks, walks);
      assert forall i :: 0 <= i < |ks| ==> ks[i] == kinds[i];
    }
  }

  /** The first failing listing is the one reported. */
  lemma {:induction false} SourcesTextsFirstFailure(kinds: seq<SourceKind>, walks: SourceKind -> WalkResult, n: nat)
    requires n < |kinds| && walks(kinds[n]).texts.Failure?
    requires forall i :: 0 <= i < n ==> walks(kinds[i]).texts.Success?
    ensures SourcesTexts(kinds, walks) == Failure(SourceFailed(SourceName(kinds[n]), walks(kinds[n]).texts.error))
    decreases |kinds|
  {
    var ks := kinds[..|kinds| - 1];
    if n < |ks| {
      assert forall i :: 0 <= i < n ==> ks[i] == kinds[i];
      SourcesTextsFirstFailure(ks, walks, n);
    } else {
      SourcesTextsAllOrNothing(ks, walks);
      assert forall i :: 0 <= i < |ks| ==> ks[i] == kinds[i];
    }
  }

  /** One listing more, when those before it succeeded. */
  lemma SourcesTextsStep(kinds: seq<SourceKind>, walks: SourceKind -> WalkResult, n: nat)
    requires n < |kinds| && SourcesTexts(kinds[..n], walks).Success? && walks(kinds[n]).texts.Success?
    ensures SourcesTexts(kinds[..n + 1], walks)
      == Success(SourcesTexts(kinds[..n], walks).value + walks(kinds[n]).texts.value)
  {
    assert kinds[..n + 1][..n] == kinds[..n];
  }

  /** The first listing to fail, after listings that succeeded, fails them all. */
  lemma SourcesTextsFailsAt(kinds: seq<SourceKind>, walks: SourceKind -> WalkResult, n: nat)
    requires n < |kinds| && SourcesTexts(kinds[..n], walks).Success? && walks(kinds[n]).texts.Failure?
    ensures SourcesTexts(kinds, walks) == Failure(SourceFailed(SourceName(kinds[n]), walks(kinds[n]).texts.error))
  {
    SourcesTextsAllOrNothing(kinds[..n], walks);
    assert forall i :: 0 <= i < n ==> kinds[..n][i] == kinds[i];
    SourcesTextsFirstFailure(kinds, walks, n);
  }

  /** ScanRepo succeeds exactly when the git log (if used) and every listing
      do; otherwise the first failure is returned, and no identifiers. */
  lemma ScanSucceedsIff(cfg: Repo, teamKey: string, gitLog: Option<string>, replies: Replies)
    ensures ScanSpec(cfg, teamKey, gitLog, replies).Success? <==>
      (cfg.gitDir == "" || gitLog.Some?)
      && forall i :: 0 <= i < |Sources| ==> Walks(cfg, replies)(Sources[i]).texts.Success?
  {
    SourcesTextsAllOrNothing(Sources, Walks(cfg, replies));
  }

  // ----- the scanner objects -----

  /** The collect closure and the seen/result state it updates. */
  class Collector {
    const prefix: string
    var seen: set<string>
    var result: seq<string>

    ghost predicate Valid()
      reads this
    {
      && (forall x :: x in seen <==> x in result)
      && NoDuplicates(result)
      && forall x :: x in result ==> HasPrefix(x, prefix)
    }

    constructor (prefix: string)
      ensures Valid() && this.prefix == prefix && result == []
    {
      this.prefix := prefix;
      seen := {};
      result := [];
    }

    /** collect(text): append each of the text's identifiers that has the
        prefix and has not been seen. */
    method Collect(text: string)
      requires Valid()
      modifies this
      ensures Valid()
      ensures result == Extend(old(result), KeepPrefixed(prefix, FindAll(text)))
    {
      ghost var acc := result;
      var ids := ScanIdentifiers(text);
      for n := 0 to |ids|
        invariant result == Extend(acc, KeepPrefixed(prefix, ids[..n]))
        invariant forall x :: x in seen <==> x in result
      {
        var id := ids[n];
        CollectStep(acc, prefix, ids, n);
        if HasPrefix(id, prefix) && id !in seen {
          seen := seen + {id};
          result := result + [id];
        }
      }
      assert ids[..|ids|] == ids;
      ExtendKeepDedup(acc, prefix, FindAll(text));
    }
  }

  /** One identifier more: appended when it has the prefix and is new. */
  lemma CollectStep(acc: seq<string>, prefix: string, ids: seq<string>, n: nat)
    requires n < |ids|
    ensures var e := Extend(acc, KeepPrefixed(prefix, ids[..n]));
      Extend(acc, KeepPrefixed(prefix, ids[..n + 1]))
        == if HasPrefix(ids[n], prefix) && ids[n] !in e then e + [ids[n]] else e
  {
    assert ids[..n + 1] == ids[..n] + [ids[n]];
    assert ids[..n + 1][..n] == ids[..n];
    if HasPrefix(ids[n], prefix) {
      ExtendStep(acc, KeepPrefixed(prefix, ids[..n]), ids[n]);
    }
  }

  /** One element's texts, title first, into the collector. */
  method CollectItem(k: SourceKind, item: Item, c: Collector)
    requires c.Valid()
    modifies c
    ensures c.Valid()
    ensures c.result == Extend(old(c.result), KeepPrefixed(c.prefix, AllMatches(ItemTexts(k, item))))
  {
    if Titled(k) {
      AccumulateStep(old(c.result), c.prefix, [], item.title);
      c.Collect(item.title);
      AccumulateStep(old(c.result), c.prefix, [item.title], item.body);
      assert [item.title] + [item.body] == ItemTexts(k, item);
    } else {
      AccumulateStep(old(c.result), c.prefix, [], item.body);
      assert [] + [item.body] == ItemTexts(k, item);
    }
    c.Collect(item.body);
  }

  /** The page handler of scanPullRequests, scanIssues, scanIssueComments
      and scanReviewComments: each element's texts, in order, into the
      collector. */
  method CollectItems(k: SourceKind, items: seq<Item>, c: Collector)
    requires c.Valid()
    modifies c
    ensures c.Valid()
    ensures c.result == Extend(old(c.result), KeepPrefixed(c.prefix, AllMatches(PageTexts(k, items))))
  {
    for i := 0 to |items|
      invariant c.Valid()
      invariant c.result == Extend(old(c.result), KeepPrefixed(c.prefix, AllMatches(PageTexts(k, items[..i]))))
    {
      assert items[..i + 1][..i] == items[..i];
      assert PageTexts(k, items[..i + 1]) == PageTexts(k, items[..i]) + ItemTexts(k, items[i]);
      AccumulateTexts(old(c.result), c.prefix, PageTexts(k, items[..i]), ItemTexts(k, items[i]));
      CollectItem(k, items[i], c);
    }
    assert items[..|items|] == items;
  }

  /** One reply inside paginate's loop: the status check, the decoding, and
      the page handler, which collects after the texts done so far. */
  method HandlePage(k: SourceKind, p: PageResponse, c: Collector, ghost acc: seq<string>, ghost done: seq<string>)
    returns (err: Option<Error>)
    requires c.Valid()
    requires c.result == Extend(acc, KeepPrefixed(c.prefix, AllMatches(done)))
    modifies c
    ensures c.Valid()
    ensures err == PageError(p)
    ensures err.None? ==> c.result == Extend(acc, KeepPrefixed(c.prefix, AllMatches(done + PageTexts(k, p.items.value))))
  {
    if p.NoResponse? {
      return Some(TransportFailure);
    }
    if p.status != Http.StatusOK {
      return Some(GitHubStatus(p.status));
    }
    if p.items.None? {
      return Some(GitHubDecode);
    }
    CollectItems(k, p.items.value, c);
    AccumulateTexts(acc, c.prefix, done, PageTexts(k, p.items.value));
    return None;
  }

  class RepoScanner {
    var baseURL: string
    var token: string
    var owner: string
    var repo: string
    var gitDir: string

    function Config(): Repo
      reads this
    {
      Repo(baseURL, token, owner, repo, gitDir)
    }

    /** NewRepoScanner: the public API, no git directory. */
    constructor (token: string, owner: string, repo: string)
      ensures Config() == Repo(DefaultBaseURL, token, owner, repo, "")
    {
      baseURL := DefaultBaseURL;
      this.token := token;
      this.owner := owner;
      this.repo := repo;
      gitDir := "";
    }

    method SetGitDir(dir: string)
      modifies this
      ensures Config() == old(Config()).(gitDir := dir)
    {
      gitDir := dir;
    }

    /** paginate: request pages until the Link header names no next page,
        handing each element's texts to the collector. */
    method Paginate(url: string, k: SourceKind, pages: seq<PageResponse>, c: Collector)
      returns (err: Option<Error>, requests: seq<Request>)
      requires c.Valid()
      modifies c
      ensures c.Valid()
      ensures var w := Walk(WithPerPage(url), pages, AuthHeader(token), k);
        && requests == w.requests
        && (err.None? <==> w.texts.Success?)
        && (err.Some? ==> w.texts == Failure(err.value))
        && (w.texts.Success? ==> c.result == Extend(old(c.result), KeepPrefixed(c.prefix, AllMatches(w.texts.value))))
    {
      ghost var acc := c.result;
      var auth := AuthHeader(token);
      ghost var whole := Walk(WithPerPage(url), pages, auth, k);
      var u := WithPerPage(url);
      var rest := pages;
      ghost var done: seq<string> := [];
      requests := [];
      assert whole.texts.Success? ==> [] + whole.texts.value == whole.texts.value;
      while u != ""
        invariant c.Valid()
        invariant c.result == Extend(acc, KeepPrefixed(c.prefix, AllMatches(done)))
        invariant var w := Walk(u, rest, auth, k);
          && whole.requests == requests + w.requests
          && whole.texts == After(done, w.texts)
        decreases |rest|
      {
        ghost var sent := requests;
        requests := requests + [Request(u, auth)];
        if rest == [] {
          return Some(TransportFailure), requests;
        }
        var p := rest[0];
        err := HandlePage(k, p, c, acc, done);
        if err.Some? {
          return err, requests;
        }
        var items := p.items.value;
        WalkStep(u, rest, auth, k, done);
        ghost var next := Walk(NextPageURL(p.link), rest[1..], auth, k);
        ConcatAssoc(sent, [Request(u, auth)], next.requests);
        done := done + PageTexts(k, items);
        u := NextPageURL(p.link);
        rest := rest[1..];
      }
      assert done + [] == done;
      return None, requests;
    }

    /** scanPullRequests, scanIssues, scanIssueComments, scanReviewComments:
        one listing, paginated from its repository URL into the collector. */
    method ScanSource(k: SourceKind, replies: Replies, c: Collector) returns (err: Option<Error>)
      requires c.Valid()
      modifies c
      ensures c.Valid()
      ensures var w := SourceWalk(Config(), k, replies);
        && (err.None? <==> w.texts.Success?)
        && (err.Some? ==> w.texts == Failure(err.value))
        && (w.texts.Success? ==> c.result == Extend(old(c.result), KeepPrefixed(c.prefix, AllMatches(w.texts.value))))
    {
      var requests;
      err, requests := Paginate(RepoURL(Config(), SourcePath(k)), k, RepliesFor(replies, k), c);
    }

    /** ScanRepo: the git log when a directory is set, then the listings in
        order, all into one collector; the first failure is returned alone. */
    method ScanRepo(teamKey: string, gitLog: Option<string>, replies: Replies) returns (r: Result<seq<string>, Error>)
      ensures r == ScanSpec(Config(), teamKey, gitLog, replies)
    {
      var prefix := ToUpper(teamKey) + "-";
      var c := new Collector(prefix);
      ghost var git: seq<string> := [];
      if gitDir != "" {
        if gitLog.None? {
          return Failure(SourceFailed(GitLogSource, GitLogFailed));
        }
        AccumulateStep([], prefix, [], gitLog.value);
        assert [] + [gitLog.value] == [gitLog.value];
        c.Collect(gitLog.value);
        git := [gitLog.value];
      }
      ghost var done: seq<string> := [];
      for n := 0 to |Sources|
        invariant c.Valid() && c.prefix == prefix
        invariant GitTexts(Config(), gitLog) == Success(git)
        invariant SourcesTexts(Sources[..n], Walks(Config(), replies)) == Success(done)
        invariant c.result == Extend([], KeepPrefixed(prefix, AllMatches(git + done)))
      {
        var k := Sources[n];
        ghost var before := c.result;
        var err := ScanSource(k, replies, c);
        if err.Some? {
          ScanSpecFailsAt(Config(), teamKey, gitLog, replies, git, n);
          return Failure(SourceFailed(SourceName(k), err.value));
        }
        ScanStep(Config(), replies, prefix, git, done, n, before, c.result);
        done := done + SourceWalk(Config(), k, replies).texts.value;
      }
      assert Sources[..|Sources|] == Sources;
      ScanSpecDone(Config(), teamKey, gitLog, replies, git, done);
      return Success(c.result);
    }
  }
}
