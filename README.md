# linear-issue-bridge, modelled in Dafny

linear-issue-bridge connects GitHub to the Linear issue tracker. It does three things:

- **The webhook endpoint** (`internal/github/handler.go`). It receives GitHub events and checks their HMAC-SHA256 signature. It pulls the commit messages, titles and bodies out of the payload and finds every issue identifier of the team in them (`ABC-123`). It asks the labeler to give each of those issues the `public` label.
- **The public issue page** (`main.go`). `GET /{identifier}` upper-cases the identifier and checks it against the team's pattern. It looks the issue up through a read-through cache in front of the Linear client. It then answers with one of four pages:
  - the not-found page;
  - a server error;
  - a stub page, for an issue without the `public` label;
  - the issue's page, for a public one.
- **The backfill scanner** (`internal/github/backfill.go`). It optionally reads the git log, then walks four paginated GitHub listings in order: pull requests, issues, issue comments and review comments. It follows each listing's `Link: rel="next"` header and collects the team's identifiers in first-seen order.

The model has one module for each core Go file, plus a few shared ones:

| module | file | |
|---|---|---|
| `Scanner` | `scanner.dfy` | the identifier regexp `\b([A-Z]+-\d+)\b` and `ScanIdentifiers` |
| `LinkHeader` | `link_header.dfy` | the `linkNextRe` regexp of the backfill |
| `Backfill` | `backfill.dfy` | `RepoScanner`, pagination and the collector |
| `Json` | `json.dfy` | decoding a parsed JSON value into a Go struct |
| `Webhook` | `handler.dfy` | body limit, signature, payload extraction, `WebhookHandler` |
| `LinearTypes` | `linear_types.dfy` | `Issue`, `Label`, `HasLabel` |
| `LinearClient` | `linear_client.dfy` | `ParseIdentifier` with `strconv.Atoi`, `do`, `FetchIssue`, `FetchLabelByName`, `AddLabel`, `toIssue` |
| `Labeler` | `labeler.dfy` | `PublicLabeler`, with the once-guarded label lookup |
| `IssueCache` | `cache.dfy` | the TTL cache |
| `IssueServer` | `server.dfy` | the `GET /{identifier}` handler |
| `Wrappers`, `Errors`, `Http`, `Strings` | `base.dfy` | shared definitions |
| `Sequences` | `sequences.dfy` | shared definitions |

Where the code changes state step by step, the model is imperative:

- the collector's `seen` set and `result` list;
- the labeler's `sync.Once` fields;
- the cache's map;
- the scanner's settings;
- the handler's loops.

Each such method is proved equal to a specification function of the old state. The properties are proved about that function. The regexps are modelled twice:

- once as a declarative description of a whole match (`MatchSpan`, `LinkNextMatch`);
- once as a leftmost, greedy search of the kind the regexp engine does (`MatchEnd`, `FindAll`, `NextPageURLFrom`).

Lemmas prove the two agree.

The outside world enters as parameters:

- **The Linear API** is a function from query to reply (`LinearClient.Client`).
- **Each GitHub listing** is the sequence of replies its page requests receive. Running out of replies counts as a transport failure.
- **The git log** is an optional text.
- **HMAC-SHA256** is a function of key and message.
- **The JSON parser** is a function from body bytes to an optional `Json.Value`.
- **The clock** is the readings `now` and `storedAt`.

`internal/linearapi/types.go` defines `Issue` without `ID` and `Attachments` and `Label` without `ID`. Yet `client.go` (`toIssue`) and `labeler.go` set and read those fields. The model follows `client.go`.

## Model

| member | source | states |
|---|---|---|
| Strings.Contains | internal/github/backfill.go:170-172 | true exactly when the substring occurs at some position |
| Strings.ContainsAppend | internal/github/backfill.go:170-175 | appending keeps a substring present, and the appended text is present |
| Strings.ToUpper | internal/github/backfill.go:37 | same length, each character upper-cased in place (ASCII) |
| Strings.ToUpperIdempotent | main.go:61 | upper-casing twice is upper-casing once |
| Sequences.Extend | internal/github/backfill.go:41-48 | the result holds exactly the elements of acc and s, keeps acc as its prefix, and stays duplicate-free when acc is |
| Sequences.Dedup | internal/github/scanner.go:10-17 | no duplicates, and the same elements as the input |
| Sequences.ExtendStep | internal/github/backfill.go:43-46 | one element more is appended exactly when it has not been seen |
| Sequences.DedupStep | internal/github/scanner.go:13-16 | the same step for deduplication of a prefix |
| Sequences.ExtendAppend | internal/github/backfill.go:41-48 | collecting s then t is collecting s + t |
| Sequences.FirstIndex | internal/linearapi/client.go:153 | the index of the first occurrence: it holds x and nothing earlier does |
| Sequences.FirstIndexUnique | internal/linearapi/client.go:153 | any index holding x with no earlier x is the first index |
| Sequences.FirstIndexAppend | internal/github/scanner.go:12-17 | appending does not move a first occurrence |
| Sequences.DedupOrder | internal/github/scanner.go:12-17 | deduplication keeps first-seen order |
| Sequences.DedupOfUnique | internal/github/scanner.go:12-17 | a duplicate-free list is left unchanged |
| Scanner.RunEnd | internal/github/scanner.go:5 | the greedy end of a run of upper-case letters or digits: all inside belong to the class, the next does not |
| Scanner.MatchSpan | internal/github/scanner.go:5 | no contract of its own: the pattern `\b([A-Z]+-\d+)\b` read as a whole match (letters, '-', digits, with no word character on either side); MatchEndSpan ties the engine's search to it and MatchShape gives the shape |
| Scanner.MatchEnd | internal/github/scanner.go:5 | a match starting at i ends after i and within the text |
| Scanner.MatchEndSpan | internal/github/scanner.go:5 | the search at i ends at j exactly when i..j is letters, '-', digits, with a word boundary on both sides |
| Scanner.FindAllFrom | internal/github/scanner.go:9 | no contract of its own: the leftmost-first search of FindAllString from a position; FindAllFromSkip, FindAllFromTake, FindAllFromSound and FindAllFromComplete pin it |
| Scanner.FindAll | internal/github/scanner.go:9 | no contract of its own: the search from the start of the text; FindAllMember states which strings it reports and FindAllFromShape their shape |
| Scanner.FindAllFromShape | internal/github/scanner.go:5-9 | every string found from any position has the shape [A-Z]+-[0-9]+ |
| Scanner.FindAllFromSkip | internal/github/scanner.go:9 | where no match starts, the search moves on by one character |
| Scanner.FindAllFromTake | internal/github/scanner.go:9 | a match found is reported and the search resumes at its end |
| Scanner.FindAllFromSound | internal/github/scanner.go:9 | every string found is a whole match in the text |
| Scanner.MatchesDisjoint | internal/github/scanner.go:5 | two matches starting at different places do not overlap |
| Scanner.FindAllFromComplete | internal/github/scanner.go:9 | every match starting at or after the search position is found |
| Scanner.MatchShape | internal/github/scanner.go:5 | a match has the form [A-Z]+-[0-9]+ |
| Scanner.FindAllMember | internal/github/scanner.go:9 | a string is found exactly when it occurs in the text as a whole match |
| Scanner.DedupMatches | internal/github/scanner.go:8-19 | the identifiers are duplicate-free, each is a whole match of identifier shape, every match is among them, and there are none exactly when the text has no match |
| Scanner.ScanIdentifiers | internal/github/scanner.go:8-19 | the result is the text's matches, deduplicated in first-seen order |
| Scanner.KeepPrefixed | internal/github/handler.go:58-62 | keeps exactly the identifiers that start with the prefix |
| Scanner.KeepPrefixedAppend | internal/github/handler.go:59-62 | filtering a concatenation filters each part |
| Scanner.ExtendKeepDedup | internal/github/backfill.go:41-48 | collecting a text's deduplicated matches is collecting all its matches, since the seen-set drops repeats anyway |
| Scanner.AllMatchesLast | internal/github/backfill.go:41-48 | the matches of one more text follow the earlier ones |
| Scanner.AllMatchesAppend | internal/github/backfill.go:41-48 | the matches of a + b are those of a, then those of b |
| Scanner.AllMatchesMember | internal/github/backfill.go:41-48 | a string is among the matches exactly when it is a whole match in one of the texts |
| Scanner.CollectedIds | internal/github/backfill.go:36-81 | the collected identifiers are duplicate-free and carry the prefix; an identifier is collected exactly when it has the prefix and is a whole match in some text |
| Scanner.AccumulateStep | internal/github/backfill.go:41-48 | collecting texts + [t] is collecting texts, then t |
| Scanner.AccumulateTexts | internal/github/backfill.go:41-48 | collecting a + b is collecting a, then b |
| Scanner.MatchEndPrefix | internal/github/handler.go:50-54 | in a text followed by '\n', a search starting inside the text sees no further than the newline |
| Scanner.Joined | internal/github/handler.go:50-54 | empty exactly when there are no texts, and otherwise ends with the '\n' written after the last text; JoinLines ties it to the builder loop |
| Scanner.FindAllFromPrefix | internal/github/handler.go:50-54 | the matches of a text followed by a newline and more are its own, then those after the newline |
| Scanner.MatchEndShift | internal/github/handler.go:50-54 | after a newline, the search behaves as in the following text alone, shifted |
| Scanner.FindAllFromShift | internal/github/handler.go:50-54 | after a non-word character, the matches of the rest of the text are that rest's own, so the matches after the newline are the following text's |
| Scanner.FindAllSplit | internal/github/handler.go:50-56 | FindAll(a + "\n" + b) is FindAll(a) followed by FindAll(b) |
| Scanner.FindAllJoined | internal/github/handler.go:50-56 | scanning the newline-joined texts finds each text's matches, text by text, in order |
| LinkHeader.LinkNextMatch | internal/github/backfill.go:219 | the pattern `<([^>]+)>;\s*rel="next"` read as a whole match; the capture of a match is non-empty and holds no '>', and rel="next" lies inside the header |
| LinkHeader.CloseAngle | internal/github/backfill.go:219 | the first '>' at or after i, or the end: `[^>]+` stops there |
| LinkHeader.SpaceEnd | internal/github/backfill.go:219 | the greedy end of `\s*` |
| LinkHeader.LinkNextAtIff | internal/github/backfill.go:219 | the engine's test at m holds exactly when a match `<…>;\s*rel="next"` starts at m, and then the capture is the text between '<' and the first '>' |
| LinkHeader.NextPageURLFromSpec | internal/github/backfill.go:221-227 | the leftmost match's capture is returned, and it is not empty |
| LinkHeader.NextPageURLFrom | internal/github/backfill.go:221-227 | no contract of its own: the leftmost-first test of each position from the given one on; NextPageURLFromSpec and NextPageURLFromNone pin it |
| LinkHeader.NextPageURL | internal/github/backfill.go:221-227 | no contract of its own: the search from the start of the header; NextPageURLSpec and NextPageURLMatches pin it |
| LinkHeader.NextPageURLMatches | internal/github/backfill.go:219-227 | "" exactly when the header holds no match of the pattern, and otherwise the capture `[^>]+` of a match, m[1] |
| LinkHeader.Leftmost | internal/github/backfill.go:222 | when the search finds a URL, it is the capture at the leftmost position where a match starts |
| LinkHeader.LeftmostEntry | internal/github/backfill.go:221-227 | an entry that is the leftmost match gives the next URL, its target |
| LinkHeader.NextPageURLFromNone | internal/github/backfill.go:221-227 | "" is returned exactly when no match starts in the header |
| LinkHeader.NextPageURLSpec | internal/github/backfill.go:221-227 | nextPageURL is "" exactly when there is no match, and otherwise the leftmost match's URL |
| LinkHeader.NextOnly | internal/github/backfill.go:219-227 | a lone next entry yields its URL |
| LinkHeader.PrevEntrySkipped | internal/github/backfill.go:219 | no match starts inside a leading rel="prev" entry |
| LinkHeader.NextEntryAt | internal/github/backfill.go:219 | a next entry at n is a match at n capturing its URL |
| LinkHeader.PrevThenNext | internal/github/backfill.go:219-227 | after a prev entry, the next entry's URL is returned |
| LinkHeader.PrevOnly | internal/github/backfill.go:219-227 | a header with only a prev entry ends the walk |
| LinkHeader.EmptyHeader | internal/github/backfill.go:221-227 | no Link header ends the walk |
| Backfill.RepoURL | internal/github/backfill.go:165-167 | no contract of its own: the format "%s/repos/%s/%s%s" written out as base URL, "/repos/", owner, "/", repository and path; it enters every listing's walk through Backfill.RepoScanner.ScanSource |
| Backfill.SourceName | internal/github/backfill.go:61-69 | each listing's name is non-empty and differs from "git log", so "scan %s: %w" tells a listing's failure from the git log's |
| Backfill.SourcePath | internal/github/backfill.go:93-163 | each listing's path starts with '/', and it has a query ('?') exactly for pull requests and issues, so per_page is joined with '&' there and with '?' for the comment listings |
| Backfill.WithPerPage | internal/github/backfill.go:170-176 | the URL always ends up with per_page= and starts with the original; a URL that had it is unchanged, otherwise per_page=100 is added after '&' or '?' |
| Backfill.WithPerPageIdempotent | internal/github/backfill.go:170-176 | adding the page size twice is adding it once |
| Backfill.AuthHeader | internal/github/backfill.go:187-189 | an Authorization header exactly when the token is set, "Bearer " + token |
| Backfill.PageError | internal/github/backfill.go:191-209 | a reply stops the walk exactly when it is missing, is not 200, or does not decode |
| Backfill.Walk | internal/github/backfill.go:180-215 | the first request goes to the start URL and every request carries the same authorization |
| Backfill.WalkFollowsLinks | internal/github/backfill.go:180-215 | on success, each reply was accepted, each request after the first goes to the previous reply's next link, the last reply names no next page, and the texts are the pages' texts in order |
| Backfill.WalkFailsAt | internal/github/backfill.go:201-203 | a non-200 reply fails the walk with its status after that one request |
| Backfill.WalkStep | internal/github/backfill.go:180-215 | an accepted page contributes its texts, then the walk continues at its next link |
| Backfill.WalkUnfold | internal/github/backfill.go:180-215 | a successful walk accepted its first page and succeeded from the next link on |
| Backfill.ScanResult | internal/github/backfill.go:36-81 | the identifiers are duplicate-free and carry the team prefix; an identifier is returned exactly when it has the prefix and is a whole match in one of the scanned texts |
| Backfill.GitTexts | internal/github/backfill.go:52-59 | without a git directory no text; with one, the log is the only text, and a failing log fails as "scan git log" |
| Backfill.SourcesTexts | internal/github/backfill.go:71-78 | a failure is always a listing's, wrapped with that listing's name and never with the git log's; SourcesTextsAllOrNothing and SourcesTextsFirstFailure say which |
| Backfill.ScanTexts | internal/github/backfill.go:36-81 | with a git directory the log is the first text scanned; without one the texts are the listings' alone |
| Backfill.ScanSpec | internal/github/backfill.go:36-81 | fails exactly when gathering the texts fails; otherwise the identifiers are duplicate-free and carry the team prefix |
| Backfill.ScanSpecDone | internal/github/backfill.go:71-80 | once the git log and every listing succeed, the result is the team's identifiers among all their texts, first occurrences only |
| Backfill.ScanStep | internal/github/backfill.go:71-78 | one successful listing extends the texts gathered so far by its own, and collecting its identifiers after the earlier ones leaves the same result as collecting from all the texts at once |
| Backfill.ScanSpecFailsAt | internal/github/backfill.go:71-75 | when the listing at n is the first to fail, the scan fails with that listing's error wrapped with its name |
| Backfill.ScanOrder | internal/github/backfill.go:41-48 | the identifiers come in the order of their first occurrence |
| Backfill.GitLogOnlyWithDir | internal/github/backfill.go:52-59 | without a git directory the log does not matter; with one, a failing git log fails the scan, and the log is the first text scanned |
| Backfill.SourcesTextsAllOrNothing | internal/github/backfill.go:71-78 | the listings succeed together exactly when each of them does |
| Backfill.SourcesTextsFirstFailure | internal/github/backfill.go:71-78 | the first failing listing's error is returned, wrapped with its name |
| Backfill.SourcesTextsStep | internal/github/backfill.go:71-78 | one more successful listing appends its texts |
| Backfill.SourcesTextsFailsAt | internal/github/backfill.go:71-78 | a listing that fails after successful ones decides the result |
| Backfill.ScanSucceedsIff | internal/github/backfill.go:52-78 | the scan succeeds exactly when the git log (if needed) and every listing do |
| Backfill.Collector.constructor | internal/github/backfill.go:37-39 | an empty collector for the prefix |
| Backfill.Collector.Collect | internal/github/backfill.go:41-48 | appends the text's new prefixed identifiers, keeping the seen-set equal to the result and the result duplicate-free and prefixed |
| Backfill.CollectStep | internal/github/backfill.go:43-46 | one identifier is appended exactly when it has the prefix and has not been seen |
| Backfill.CollectItem | internal/github/backfill.go:102-105 | collects an element's title (when it has one), then its body |
| Backfill.CollectItems | internal/github/backfill.go:99-108 | collects each element of a page in order |
| Backfill.HandlePage | internal/github/backfill.go:191-209 | the page's error is the reply's stop reason; an accepted page's texts are collected |
| Backfill.RepoScanner.constructor | internal/github/backfill.go:23-30 | the public GitHub API, the given token, owner and repository, no git directory |
| Backfill.RepoScanner.SetGitDir | internal/github/backfill.go:32-34 | only the git directory changes |
| Backfill.RepoScanner.Paginate | internal/github/backfill.go:169-217 | sends the walk's requests, fails exactly when the walk does and with its error, and otherwise collects the walk's texts |
| Backfill.RepoScanner.ScanSource | internal/github/backfill.go:93-163 | paginates one listing from its repository URL |
| Backfill.RepoScanner.ScanRepo | internal/github/backfill.go:36-81 | the result is the scan's specification: first failure, or the prefixed identifiers of git log and listings in first-seen order |
| Json.KeyMatches | internal/github/handler.go:104-109 | a key equal to a field's tag names the field, and a key that names it has the tag's length |
| Json.DecodeMembers | internal/github/handler.go:109 | an empty object leaves the struct as it was and a one-member object decodes as its member; with DecodeMembersAppend this fixes the member-by-member decode |
| Json.DecodeString | internal/github/handler.go:104-111 | a string or null decodes into a string field, null leaving it unchanged; anything else is a type error |
| Json.DecodeStruct | internal/github/handler.go:109 | null leaves the struct as it was, an object is decoded member by member, any other value is a type error |
| Json.DecodeMembersIgnored | internal/github/handler.go:109 | members naming no field leave the struct as it was |
| Json.DecodeMembersAppend | internal/github/handler.go:109 | the members of a + b are decoded as those of a, then those of b from where a left the struct |
| Json.DecodeOnly | internal/github/handler.go:109 | an object of which only one member names a field decodes as that member alone does |
| Json.DecodeMembersFails | internal/github/handler.go:109 | one member with a type error fails the whole decode |
| Webhook.ReadLimited | internal/github/handler.go:36-40 | the body read is a prefix of the data of at most 1 MiB, all of it when shorter; it fails exactly when a read error comes before the limit |
| Webhook.ReadTruncates | internal/github/handler.go:36 | a longer body is cut to its first 1 MiB, error or not |
| Webhook.HexValue | internal/github/handler.go:75 | a hex digit's value is below 16 |
| Webhook.HexDecode | internal/github/handler.go:75-78 | decoding succeeds exactly for an even number of hex digits, giving half as many bytes |
| Webhook.HexEncode | internal/github/handler.go:79-81 | two digits per byte |
| Webhook.HexRoundTrip | internal/github/handler.go:75 | decoding an encoding gives back the bytes |
| Webhook.HexDecodeCanonical | internal/github/handler.go:75-81 | a decodable string is the encoding of what it decodes to, up to the case of its letters |
| Webhook.HexDecodeLower | internal/github/handler.go:75 | the case of the hex digits does not change the decoding |
| Webhook.LowerHex | internal/github/handler.go:75 | lower-casing keeps the length |
| Webhook.VerifySignature | internal/github/handler.go:71-82 | an accepted signature has the prefix sha256= and two hex digits per MAC byte |
| Webhook.SignatureIff | internal/github/handler.go:71-82 | a signature is accepted exactly when it is sha256= followed by the HMAC of the body in hex, in either case |
| Webhook.SignatureOfBody | internal/github/handler.go:71-82 | the signature GitHub sends for the body is accepted |
| Webhook.SignatureRejected | internal/github/handler.go:72-78 | no prefix, an odd number of digits or a non-hex digit is rejected |
| Webhook.DecodeCommits | internal/github/handler.go:105-107 | a decoded commits array has one commit per element |
| Webhook.PushTexts | internal/github/handler.go:103-117 | nothing when the payload does not decode, otherwise the commit messages in order |
| Webhook.ExtractPushTexts | internal/github/handler.go:112-116 | the loop appends exactly the push texts |
| Webhook.TitleBodyTexts | internal/github/handler.go:119-143 | nothing, or the title and the body |
| Webhook.BodyTexts | internal/github/handler.go:145-179 | nothing, or the body |
| Webhook.BodyOf | internal/github/handler.go:145-179 | an event whose object under tag has a string body yields exactly [that body], whatever other members the event and the object carry |
| Webhook.BodyPayloadOf | internal/github/handler.go:145-179 | a comment or review object yields [its body] |
| Webhook.EventTexts | internal/github/handler.go:84-101 | an event type the handler does not know yields no texts |
| Webhook.EventObjects | internal/github/handler.go:84-179 | issue_comment and pull_request_review_comment yield the comment's body, pull_request_review the review's body, pull_request and issues the title and body of their object; an object under another key is not read |
| Webhook.ExtractTexts | internal/github/handler.go:84-101 | returns the event's texts |
| Webhook.MalformedHasNoTexts | internal/github/handler.go:109-111 | a body that is not JSON yields no texts, whatever the event |
| Webhook.TitleBodyOf | internal/github/handler.go:119-143 | a pull request or issue object yields its title, then its body |
| Webhook.AbsentFieldsAreEmpty | internal/github/handler.go:119-179 | absent fields decode as empty strings, which are still returned |
| Webhook.WrongTypeHasNoTexts | internal/github/handler.go:109-111 | a payload that is neither object nor null yields no texts |
| Webhook.PushOf | internal/github/handler.go:103-117 | a push with commit messages yields exactly those messages |
| Webhook.DecodeCommitObjects | internal/github/handler.go:105-107 | an array of commit objects decodes to those commits |
| Webhook.JoinLines | internal/github/handler.go:50-54 | the builder holds each text followed by a newline |
| Webhook.KeepPrefixedUnique | internal/github/handler.go:58-62 | filtering a duplicate-free list keeps it duplicate-free |
| Webhook.WantedIsCollected | internal/github/handler.go:47-62 | the identifiers handed to the labeler are the prefixed matches of the texts, deduplicated in first-seen order |
| Webhook.Wanted | internal/github/handler.go:50-62 | the identifiers handed to the labeler are duplicate-free and all carry the team prefix; WantedSpec says which they are |
| Webhook.WantedSpec | internal/github/handler.go:47-62 | they are duplicate-free, and an identifier is among them exactly when it has the team prefix and is a whole match in one of the texts |
| Webhook.WebhookHandler.constructor | internal/github/handler.go:27-33 | the handler holds the secret, team key and labeler |
| Webhook.WebhookHandler.LabelAll | internal/github/handler.go:58-66 | the team's identifiers are handed to the labeler in order, and the labeler's calls and state are those of that run |
| Webhook.WebhookHandler.ServeHTTP | internal/github/handler.go:35-69 | 400 exactly when the body cannot be read, 403 exactly when it can but the signature fails, otherwise 200; on 400 and 403 nothing is labelled and the labeler is unchanged; on 200 the wanted identifiers are labelled in order whatever each labelling returns |
| LinearTypes.AnyLabelNamed | internal/linearapi/types.go:29-34 | true exactly when some label from the position on has the name |
| LinearTypes.HasLabel | internal/linearapi/types.go:28-35 | true exactly when some label has exactly this name |
| LinearTypes.HasLabelEmpty | internal/linearapi/types.go:28-35 | an issue without labels has none |
| LinearTypes.HasLabelAppend | internal/linearapi/types.go:28-35 | adding a label makes the issue have it |
| LinearTypes.HasLabelOrderFree | internal/linearapi/types.go:28-35 | the order of the labels does not matter |
| LinearTypes.HasLabelExact | internal/linearapi/types.go:30 | names compare exactly: neither "nonpublic" nor "Public" counts as "public" |
| LinearClient.DigitsValue | internal/linearapi/client.go:157 | no contract of its own: the value of a run of decimal digits; AtoiDecimal pins it by reading every Decimal(n) back as n |
| LinearClient.AtoiSyntax | internal/linearapi/client.go:157 | the text strconv.Atoi accepts starts with a digit or a sign and ends with a digit |
| LinearClient.Atoi | internal/linearapi/client.go:157 | a value only for an optional sign followed by digits, and within the 64-bit range |
| LinearClient.DigitChar | internal/linearapi/client.go:157 | the digit character of a value below ten |
| LinearClient.Decimal | internal/linearapi/client.go:157 | decimal digits whose value is the number |
| LinearClient.AtoiDecimal | internal/linearapi/client.go:157 | Atoi reads back a decimal number, with or without sign, exactly while it fits in 64 bits |
| LinearClient.AtoiRejects | internal/linearapi/client.go:157-159 | empty, bare signs and non-digits are errors |
| LinearClient.SplitAt | internal/linearapi/client.go:153 | the text before a '-' at position k, with the '-', is a prefix of the identifier k + 1 long: SplitN's first part when k is the first '-' |
| LinearClient.ParseIdentifier | internal/linearapi/client.go:152-162 | without '-' an invalid format; otherwise the key is before the first '-' and the number is Atoi of the rest, else an invalid number |
| LinearClient.ParseIdentifierRoundTrip | internal/linearapi/client.go:152-162 | key-number parses back to the key and number |
| LinearClient.ParseIdentifierNegative | internal/linearapi/client.go:152-162 | key--number parses to a negative number |
| LinearClient.ParseIdentifierNoHyphen | internal/linearapi/client.go:154-156 | an identifier without '-' is an invalid format |
| LinearClient.ParseIdentifierBadNumber | internal/linearapi/client.go:157-160 | a non-numeric or empty number is an invalid number |
| LinearClient.Do | internal/linearapi/client.go:164-208 | data exactly for a 200 reply that decodes and carries no errors; non-200 is a status error, otherwise the first GraphQL error is reported |
| LinearClient.IssueOf | internal/linearapi/client.go:276-298 | keeps the id and the identifier, one label per label node and one attachment per attachment node, and each label has its node's name |
| LinearClient.LabelOf | internal/linearapi/client.go:279 | no contract of its own: a label node's id, name and colour; ToIssue and IssueOfHasLabel pin it |
| LinearClient.AttachmentOf | internal/linearapi/client.go:283 | no contract of its own: an attachment node's URL and title; ToIssue pins it |
| LinearClient.ToIssue | internal/linearapi/client.go:276-298 | copies the fields and converts each label and attachment node in order |
| LinearClient.IssueOfHasLabel | internal/linearapi/client.go:276-298 | the issue has a label exactly when one of its label nodes has that name |
| LinearClient.FetchIssue | internal/linearapi/client.go:212-236 | a bad identifier fails before any request; success exactly when the query and decoding succeed; no node is no issue, otherwise the first node |
| LinearClient.FetchIssueParsesFirst | internal/linearapi/client.go:213-216 | a bad identifier fails the same way whatever the API would answer |
| LinearClient.FetchLabelByName | internal/linearapi/client.go:240-265 | success exactly when the query and decoding succeed; "" for no node, otherwise the first node's id |
| LinearClient.AddLabel | internal/linearapi/client.go:268-274 | no error exactly when the mutation succeeds |
| Labeler.Lookup | internal/linearapi/labeler.go:55-60 | the lookup leaves the labeler resolved, with no error exactly when a non-empty id was found, and "label not found" for an empty one |
| Labeler.ResolveStep | internal/linearapi/labeler.go:54-62 | the lookup runs, with one call, only when the labeler is not yet resolved |
| Labeler.Ensure | internal/linearapi/labeler.go:26-52 | the issue is always fetched first, and a valid state stays valid |
| Labeler.AfterFetch | internal/linearapi/labeler.go:27-52 | the same, given what the fetch returned |
| Labeler.EnsureFetchError | internal/linearapi/labeler.go:27-30 | a fetch error is returned wrapped, with nothing else called |
| Labeler.EnsureNothingToDo | internal/linearapi/labeler.go:31-39 | an absent or already public issue is a success with nothing else called |
| Labeler.EnsureFreshSuccess | internal/linearapi/labeler.go:26-52 | a fresh labeler fetches, looks the label up, adds it and stores the id |
| Labeler.EnsureResolveError | internal/linearapi/labeler.go:41-44 | a lookup error is returned and the label is not added |
| Labeler.EnsureLabelMissing | internal/linearapi/labeler.go:57-59 | a label that is not found becomes "label not found" |
| Labeler.EnsureAddLabelError | internal/linearapi/labeler.go:46-48 | an AddLabel failure is returned wrapped |
| Labeler.LookupsAppend | internal/linearapi/labeler.go:55 | lookups of a + b count those of a and of b |
| Labeler.EnsureLookups | internal/linearapi/labeler.go:54-62 | one call looks the label up at most once, only when unresolved, and then leaves it resolved |
| Labeler.AfterFetchLookups | internal/linearapi/labeler.go:41-44 | the same, given what the fetch returned |
| Labeler.Run | internal/linearapi/labeler.go:26-52 | one error per identifier |
| Labeler.RunLooksUpOnce | internal/linearapi/labeler.go:54-62 | however many calls a labeler serves, the label is looked up at most once |
| Labeler.StoredErrorReused | internal/linearapi/labeler.go:54-62 | a stored lookup error is returned again without a new lookup |
| Labeler.PublicLabeler.constructor | internal/linearapi/labeler.go:19-24 | a labeler that has not looked the label up |
| Labeler.PublicLabeler.ResolveLabelId | internal/linearapi/labeler.go:54-62 | behaves as the once-guarded lookup and returns the stored id and error |
| Labeler.PublicLabeler.EnsurePublicLabel | internal/linearapi/labeler.go:26-52 | returns, calls and leaves the state its specification says |
| IssueCache.Fresh | internal/cache/cache.go:43 | only a present entry is fresh, and an entry stored at the current time is fresh exactly when the TTL is positive |
| IssueCache.GetSpec | internal/cache/cache.go:38-60 | the fetcher is called exactly when there is no fresh entry, and no entry is ever dropped |
| IssueCache.GetHit | internal/cache/cache.go:43-45 | a fresh entry is answered as stored, absent issues included, without fetching or changing anything |
| IssueCache.GetFetchError | internal/cache/cache.go:47-50 | a fetch error is returned and nothing is stored |
| IssueCache.GetStores | internal/cache/cache.go:52-59 | a successful fetch is returned and stored under its identifier alone |
| IssueCache.GetTwice | internal/cache/cache.go:38-60 | a second Get within the TTL of a store is answered from the cache with the same value |
| IssueCache.GetAllGrows | internal/cache/cache.go:38-60 | over any run of Gets the set of cached identifiers only grows |
| IssueCache.Cache.constructor | internal/cache/cache.go:30-36 | an empty cache with the TTL |
| IssueCache.Cache.Get | internal/cache/cache.go:38-60 | returns and stores what its specification says |
| IssueServer.MatchesIdentifier | main.go:49 | true exactly when the identifier is the upper-cased key, '-', and at least one digit |
| IssueServer.Answer | main.go:74-101 | 500 exactly for a fetch error, 404 exactly for no issue, 200 otherwise; the issue page exactly for an issue with the public label, the stub page otherwise, carrying the identifier |
| IssueServer.Serve | main.go:60-102 | a path that does not match is 404 with the cache untouched; a matching one is answered from what the cache's Get returns for the upper-cased identifier, fetching from the tracker, and leaves the cache as that Get does; the answer is always 200, 404 or 500 |
| IssueServer.ServeCached | main.go:74 | a fresh entry is answered as stored, with no fetch and the cache unchanged |
| IssueServer.ServeFetched | main.go:74-101 | on a miss: a fetch error is 500 with nothing stored; otherwise the result is stored, and the answer is 404 for no issue, the stub page for a private issue and the issue page for a public one |
| IssueServer.ServeIssue | main.go:60-102 | answers and updates the cache as its specification says |
| IssueServer.PathCaseIgnored | main.go:61 | the path's case does not matter |
| IssueServer.NumberMatches | main.go:49 | every number written in decimal makes a valid identifier |
| IssueServer.ValidIdentifierParses | main.go:49 | the client parses a valid identifier without '-' in its key into the key and number, while it fits in 64 bits |
| IssueServer.OutOfRangeIsServerError | main.go:74-79 | an identifier whose number does not fit in 64 bits passes the pattern, and without a fresh cache entry it is answered with 500, not 404 |
| IssueServer.OutOfRangeFails | internal/linearapi/client.go:157-160 | such an identifier is an invalid issue number to the client |

## Left out

- JSON parsing (bytes to value) is a parameter of the handler. Only decoding a parsed value into the payload structs is modelled.
- Json.KeyMatches compares keys case-insensitively over ASCII only. Go's `encoding/json` also folds a few non-ASCII letters (such as the Kelvin sign and the long s).
- Go may reuse slice elements when two "commits" keys decode into the same slice. The model decodes a fresh slice each time.
- After a type error, Go's `json.Unmarshal` goes on decoding before it reports the error. The extractors then return nil anyway, so the model stops at the error.
- Backfill page decoding is a parameter: each reply carries its decoded elements. The reuse of the `prs`/`issues` slice across pages in `backfill.go` is not modelled, nor is JSON for the GitHub listings.
- Webhook.ReadLimited: a read error delivered in the same `Read` call as the last bytes before the limit is treated like end of file.
- `[]byte(secret)` (UTF-8 encoding of the secret) is not modelled: the constructor takes the bytes.
- HMAC-SHA256 is a parameter, so the constant-time property of `hmac.Equal` is not modelled.
- Webhook.WebhookHandler.ServeHTTP is bound to `PublicLabeler` rather than to any `Labeler`. `labeled` records what any labeler would receive.
- The Linear HTTP transport, its headers and the JSON of requests and replies are left out. The client classifies an abstract reply.
- The Linear transport (`LinearClient.Client`) is one fixed function from query to reply, so within one run a reply never reflects an earlier `AddLabel` (an issue fetched again after labelling comes back as before). No stated property depends on this.
- The GitHub HTTP transport and the `Accept` header: each listing's replies are given. Running out of replies is a transport failure.
- Concurrency is left out: the cache's `RWMutex` and the guarantee of `sync.Once` under concurrent calls. Calls are sequential in the model.
- The clock is given as the readings `now` and `storedAt`.
- `git log` execution is left out. Its output is an optional text.
- Logging (`slog`) is left out.
- The HTML renderer is left out. The `Page` variants stand for the rendered pages.
- The CLI and server setup in `main.go` (flags, environment, `/health`, `/static/`, listening) are not modelled.
- The per-source page and item counters used for logging are not modelled.
- Strings.ToUpper upper-cases ASCII letters only. Go's `strings.ToUpper` covers all of Unicode.
- LinearClient.Atoi: it returns None for both of strconv's error kinds (syntax and range). The two errors are not told apart.
- Context timeouts and cancellation are left out.
- LinearClient.FetchIssue: the issue number is sent to the API as `float64(number)` (internal/linearapi/client.go:220). A number above 2^53 therefore reaches the API rounded. The model's query carries the exact integer.
- `cmd/backfill/main.go` is not part of this model.
