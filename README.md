# jellyfin-downloader, modelled in Dafny

jellyfin-downloader is a small Node.js server with a web page. It fetches
media into a Jellyfin library folder in two ways. The first is direct HTTP
downloads, run in-process with a limit on how many run at once. The second
hands magnet links to a qBittorrent daemon. It can also search torrent
indexers through Jackett.

This project models the decision logic of that program and proves what it
promises:

- **File names.** How names are cleaned up, how a custom name inherits the
  original extension, how a name is read from a URL, and how a collision
  with an existing file is avoided (`FileUtils`, `DownloadNames`).
- **Direct downloads.** The registry of direct downloads and the service
  that updates it, kept as a class whose methods change the registry in
  place: capacity gate, start, progress, completion, failure and expiry of
  failed entries, plus the decision taken on each HTTP response
  (`Downloads`, on top of the insertion-ordered map in `OrderedMap`).
- **The qBittorrent adapter.** Its session handling: login, the probe of a
  stored cookie, re-login after a rejected probe, adding a torrent and
  listing torrents. `TorrentSession` states it on values; `Torrents` is the
  object the server holds, with a mutable cookie, and a `Daemon` by which it
  can be talked to. `MakeRequest` concatenates the body chunk by chunk.
- **The Jackett adapter** (`Search`). Query building, reply parsing, quality
  extraction with the pattern's leftmost-first semantics, quality scores,
  and result formatting: the first twenty results, with non-linkable items
  dropped, then a stable sort by seeders and then score.
- **The HTTP routes** for direct downloads (`Routes`) and the non-DOM logic
  of the web page (`App`): merging the two listings, the flags and icon of
  a listed item, URL validation, and the guard before a torrent request.

Everything the program reads from outside is a parameter of the model:

- the clock (`Date.now()`);
- the outcome of `new URL(...)` (`Js.UrlParse`);
- the names already present in the download folder;
- `FileUtils.formatBytes` and `JSON.parse`;
- the replies of qBittorrent (a scripted queue of replies) and of Jackett
  (a function from request to reply).

Strings are sequences of Dafny characters, which are Unicode scalar values.
JavaScript strings are sequences of UTF-16 code units; the two agree on every
character of the Basic Multilingual Plane. White space in `IsSpace` is the
ECMAScript set.

The quality scores are modelled as written. `extractQuality` upper-cases
what it finds, for example `1080P`. The score table's keys keep mixed case,
for example `1080p`. So only `4K`, `HDTV`, `CAM` and `TS` ever score
(`Search.ExtractedScore`), and the sort's tie-break otherwise sees 0.

After a rejected probe, `ensureAuthenticated` in
`src/services/torrentService.js` clears the cookie and logs in again. It
re-authenticates but does not retry: the probe is not repeated, and the call
that follows is made once.

## Model

| member | source | states |
|---|---|---|
| FileUtils.ReplaceReserved | src/utils/fileUtils.js:30 | each of `< > : " / \ \| ? *` becomes `_` and every other character stays where it is; the length is unchanged and no reserved character is left |
| FileUtils.SanitizeFilename | src/utils/fileUtils.js:28-31 | `sanitizeFilename`: replace reserved characters, collapse white space, trim; `SanitizedIsClean`, `SanitizeJoinsWords` and `SanitizeIdempotent` state what it returns |
| FileUtils.SanitizedIsClean | src/utils/fileUtils.js:28-31 | the sanitized name has no reserved character, no white space except single plain spaces, and none at either end; its non-white-space characters are exactly the input's, in order, with each reserved one turned into `_` |
| FileUtils.SanitizeJoinsWords | src/utils/fileUtils.js:28-31 | the sanitized name is the words of the input (maximal runs of non-white-space characters), with each reserved character turned into `_`, joined by single spaces: each interior run of white space becomes one space, and white space at either end goes |
| FileUtils.CleanIsFixed | src/utils/fileUtils.js:28-31 | sanitizing an already clean name changes nothing |
| FileUtils.SanitizeIdempotent | src/utils/fileUtils.js:28-31 | sanitizing twice gives the same name as sanitizing once |
| FileUtils.TrimKeeps | src/utils/fileUtils.js:30 | `trim()` removes only white space and keeps a string free of reserved characters and of white-space runs |
| FileUtils.CollapseIsCollapsed | src/utils/fileUtils.js:30 | after `replace(/\s+/g, ' ')` every white-space character is a plain space and no two spaces are adjacent |
| FileUtils.Basename | src/utils/fileUtils.js:22 | `path.basename` returns a single path segment (no `/`), and returns a segment unchanged |
| FileUtils.SegmentExt | src/utils/fileUtils.js:36-37 | `path.extname` of a segment is a suffix of it; it is empty exactly for `..` and for a name with no dot after its first character; otherwise it starts with its only dot |
| FileUtils.ExtName | src/utils/fileUtils.js:36-37 | `path.extname` of a path is that of its basename, whose shape `SegmentExt` states |
| FileUtils.PreserveFileExtension | src/utils/fileUtils.js:33-50 | the three cases: no custom name gives the original name; a custom name with an extension is kept; otherwise the custom name gets the original's extension appended (possibly none) |
| FileUtils.PreservedExtension | src/utils/fileUtils.js:33-50 | a custom name without an extension ends up with exactly the original file's extension |
| FileUtils.GetFilenameFromUrl | src/utils/fileUtils.js:19-26 | the name is never empty and never a path; it is the basename of the URL's path, or `download` when that is empty or the URL does not parse |
| Js.NatToString | src/services/downloadService.js:44 | `Date.now().toString()` is a non-empty string of decimal digits, with no leading zero, whose value is the number |
| DownloadNames.CollisionMarker | src/services/downloadService.js:49-52 | the inserted marker is `_` followed by the timestamp's digits; it holds no dot, slash, reserved character or white space |
| DownloadNames.CollisionName | src/services/downloadService.js:47-53 | the name with the timestamp marker put in front of its extension; `CollisionNameShape` and `CollisionKeepsExtension` state its shape |
| DownloadNames.CollisionNameShape | src/services/downloadService.js:47-53 | the collision name is the chosen name with the marker inserted in front of its extension; removing the marker gives the chosen name back, so the two names differ |
| DownloadNames.CollisionKeepsExtension | src/services/downloadService.js:50-52 | the collision name has the same extension as the chosen name |
| DownloadNames.ChosenIsSegment | src/services/downloadService.js:38-42 | the name taken from the URL or the caller, after the extension rule and sanitizing, is one path segment |
| DownloadNames.Taken | src/services/downloadService.js:44-47 | a name whose path in the download folder exists: a file already there, or an empty name, `.` or `..` |
| DownloadNames.ResolveFilename | src/services/downloadService.js:38-53 | the name `startDownload` settles on; `ResolvedName` and `ResolvedNameIsClean` state it |
| DownloadNames.ResolvedName | src/services/downloadService.js:38-53 | the resolved name is the chosen name when it is free. It is taken when a file of that name exists, and always when it is empty, `.` or `..`, whose paths are the download folder itself and its parent. A taken name gives a different name with the same extension (except for `..`). The resolved name is never empty, `.` or `..` |
| DownloadNames.ResolvedNameIsClean | src/services/downloadService.js:38-53 | the resolved name is clean whether or not it had to avoid a taken name |
| Downloads.ProgressPercent | src/services/downloadService.js:171-172 | 0 when the total is unknown; otherwise the nearest integer to downloaded/total × 100, within 0..100 while downloaded ≤ total, and exactly 100 when all bytes have arrived |
| Downloads.ProgressStatus | src/services/downloadService.js:174-176 | the status always begins `Downloading... `; with a known total it shows `ProgressPercent` and both byte counts, otherwise the bytes received |
| Downloads.Started | src/services/downloadService.js:64-69 | the registry binds the id to `Starting...` at 0% with the name and URL; a new id is appended at the end and an existing one keeps its place |
| Downloads.Progressed | src/services/downloadService.js:168-183 | an id that is no longer registered leaves the registry unchanged; otherwise only that entry's status and progress change, and every entry keeps its place, filename and url |
| Downloads.Failed | src/services/downloadService.js:81-86 | the id is bound to `Failed: <message>` at 0% with its own filename and url, and keeps its place |
| Downloads.Removed | src/services/downloadService.js:75 | deleting an id unbinds exactly that id; the registry shrinks by one when the id was registered |
| Downloads.CompletedLeavesNoTrace | src/services/downloadService.js:64-76 | a download with a fresh id that starts and then completes leaves the registry exactly as before |
| Downloads.FailedKeepsItsSlot | src/services/downloadService.js:77-91 | a failed entry still counts towards the capacity until its grace period ends, then frees one slot |
| Downloads.Listing | src/services/downloadService.js:25-30 | the listing has one element per registry entry, in insertion order, each carrying its id and its record |
| Downloads.ClassifyResponse | src/services/downloadService.js:109-128 | 301 and 302 follow `location`; 200 streams the body with the content length as total; any other status fails with `HTTP <code>: <message>` |
| Downloads.DownloadService.constructor | src/services/downloadService.js:8-19 | the service starts with an empty registry and the given ceiling |
| Downloads.DownloadService.CanStartNewDownload | src/services/downloadService.js:21-23 | true exactly when fewer downloads are registered than the ceiling |
| Downloads.DownloadService.GetActiveDownloads | src/services/downloadService.js:25-30 | every registered download appears once, in insertion order, with its current record |
| Downloads.DownloadService.StartDownload | src/services/downloadService.js:32-99 | at capacity it fails with `Maximum concurrent downloads reached`; for a URL that does not parse it fails with the parser's message; in both cases the registry is untouched. Otherwise it registers `Starting...` under the clock's id with the resolved name (a taken name, including an empty one, `.` and `..`, gets its collision name) and returns id, name and message. It never takes the registry past the ceiling |
| Downloads.DownloadService.UpdateProgress | src/services/downloadService.js:168-183 | the new registry is `Progressed` of the old one |
| Downloads.DownloadService.CompleteDownload | src/services/downloadService.js:73-76 | the finished download's entry is deleted |
| Downloads.DownloadService.FailDownload | src/services/downloadService.js:77-87 | the entry is overwritten with the failure status |
| Downloads.DownloadService.ExpireDownload | src/services/downloadService.js:88-91 | after the grace period the failed entry is deleted |
| Downloads.Transfer.constructor | src/services/downloadService.js:105-106 | a transfer starts at 0 bytes received |
| Downloads.Transfer.OnData | src/services/downloadService.js:132-135 | the byte count grows by the chunk's length, and the registry shows the progress for the new count |
| TorrentSession.IsEnabled | src/services/torrentService.js:24-26 | switched on, with a daemon address and both credentials non-empty |
| TorrentSession.Interpret | src/services/torrentService.js:167-200 | how a request settles on a reply; `SessionCookieWins` and `StatusDecides` state its cases |
| TorrentSession.Authenticate | src/services/torrentService.js:73-94 | one login exchange; `AuthenticateStoresOnlyASessionCookie` states its outcome |
| TorrentSession.EnsureAuthenticated | src/services/torrentService.js:57-71 | the probe of a stored cookie, then a login; `ProbeKeepsSession`, `FailedProbeLogsInAgain`, `NoCookieLogsIn` and `AuthenticatedHasCookie` state it |
| TorrentSession.AddTorrentToClient | src/services/torrentService.js:96-110 | one exchange carrying the add form with the stored cookie, stated by `AddTorrentSendsForm` |
| TorrentSession.AddTorrent | src/services/torrentService.js:28-55 | `addTorrent`; `AddTorrentNeedsConfiguration`, `AddTorrentFailurePrefix`, `AddTorrentSendsForm` and `AddTorrentReportsLoginFailure` state it |
| TorrentSession.GetTorrentList | src/services/torrentService.js:112-141 | `getTorrentList`; `TorrentListShape` states it |
| TorrentSession.FirstSessionIndex | src/services/torrentService.js:171-174 | finds the first `set-cookie` value that starts with `SID=`; no earlier value does |
| TorrentSession.CookiePair | src/services/torrentService.js:175 | `split(';')[0]` is the longest prefix without `;` |
| TorrentSession.SessionCookieWins | src/services/torrentService.js:171-178 | a reply with a `SID=` cookie resolves to that cookie, cut at its first `;`, whatever its status; the result starts with `SID=` |
| TorrentSession.StatusDecides | src/services/torrentService.js:184-196 | without a session cookie, a 2xx status resolves: an empty body to `{}`, parsable JSON to its value, anything else to its raw text; any other status fails with `qBittorrent returned <code>: <message>` |
| TorrentSession.AuthenticateStoresOnlyASessionCookie | src/services/torrentService.js:73-94 | the login request is sent; login succeeds exactly when the reply yields a session cookie, and only then is the stored cookie replaced; every failure carries the `qBittorrent authentication failed: ` prefix. A `null` JSON body fails with the `TypeError` message for reading `cookie` of `null`, and any other reply without a cookie gets the no-cookie message |
| TorrentSession.ProbeKeepsSession | src/services/torrentService.js:57-62 | a stored cookie whose probe succeeds is kept, and nothing but the probe is sent |
| TorrentSession.FailedProbeLogsInAgain | src/services/torrentService.js:57-71 | after a failed probe the cookie is cleared and one login follows; if that login fails, no cookie is left |
| TorrentSession.NoCookieLogsIn | src/services/torrentService.js:57-71 | without a stored cookie a login is the only request made |
| TorrentSession.AuthenticatedHasCookie | src/services/torrentService.js:57-94 | after a successful `ensureAuthenticated` a truthy cookie is stored |
| TorrentSession.AddTorrentNeedsConfiguration | src/services/torrentService.js:28-31 | an unconfigured adapter fails with the configuration message and sends nothing |
| TorrentSession.AddTorrentFailurePrefix | src/services/torrentService.js:33-55 | every failure of a configured adapter carries the `Failed to add torrent: ` prefix |
| TorrentSession.AddTorrentSendsForm | src/services/torrentService.js:28-110 | success reports `Torrent added: <title>`; it happens only after a valid session was established, and the last request sent is the add form (link, save path, fixed category, sanitized title) with the stored cookie |
| TorrentSession.AddTorrentReportsLoginFailure | src/services/torrentService.js:28-94 | a failed login inside `addTorrent` is reported behind both prefixes, followed by the transport's message |
| TorrentSession.View | src/services/torrentService.js:124-135 | a torrent's progress fraction in [0, 1] becomes a percentage in 0..100 |
| TorrentSession.Views | src/services/torrentService.js:124-135 | one view per torrent, in order, each the torrent's `View` |
| TorrentSession.TorrentListShape | src/services/torrentService.js:112-141 | the list is empty when the adapter is unconfigured (nothing is sent), when the session cannot be established, or when the listing request fails. Otherwise the listing request goes out with the stored cookie; a reply that parses to a torrent list gives exactly `Views` of those torrents, and every other reply (an empty body, `null`, other JSON, raw text) gives an empty list |
| Torrents.Daemon.Send | src/services/torrentService.js:167-212 | a request is recorded as sent and gets the next scripted reply, or none (a timeout) when none is left |
| Torrents.TorrentService.constructor | src/services/torrentService.js:6-22 | the adapter starts without a session cookie |
| Torrents.TorrentService.IsEnabled | src/services/torrentService.js:24-26 | enabled exactly when switched on with a daemon URL and both credentials |
| Torrents.TorrentService.MakeRequest | src/services/torrentService.js:147-214 | the request is sent, the body chunks are concatenated in the order received, and the reply is read as `TorrentSession.Interpret` defines |
| Torrents.TorrentService.Authenticate | src/services/torrentService.js:73-94 | the result and the new cookie and daemon state are those of `TorrentSession.Authenticate` |
| Torrents.TorrentService.EnsureAuthenticated | src/services/torrentService.js:57-71 | the result and the new state are those of `TorrentSession.EnsureAuthenticated` |
| Torrents.TorrentService.AddTorrentToClient | src/services/torrentService.js:96-110 | one exchange carrying the add form with the stored cookie |
| Torrents.TorrentService.AddTorrent | src/services/torrentService.js:28-55 | the result and the new state are those of `TorrentSession.AddTorrent` |
| Torrents.TorrentService.GetTorrentList | src/services/torrentService.js:112-141 | the list and the new state are those of `TorrentSession.GetTorrentList` |
| Search.IsEnabled | src/services/searchService.js:21-23 | switched on, with a Jackett address and an API key |
| Search.GetCategoryFilter | src/services/searchService.js:65-75 | `2000` exactly for `movies`, `5000` exactly for `tv`, empty for every other content type |
| Search.BuildSearchRequest | src/services/searchService.js:54-63 | the request goes to the configured Jackett's all-indexers results endpoint with the API key, the query and the category filter |
| Search.ExtractQuality | src/services/searchService.js:113-117 | `extractQuality`; `ExtractedQuality`, `UpperMatchIsFirst` and `QualityIsToken` state it |
| Search.GetQualityScore | src/services/searchService.js:119-131 | the score table; `TokenScores`, `ScoringQualities` and `ExtractedScore` state it |
| Search.TokensAreUpper | src/services/searchService.js:114-116 | every alternative of the quality pattern is non-empty, already upper-case, and distinct from `Unknown` |
| Search.LeftmostMatch | src/services/searchService.js:114-115 | the match found is the leftmost position where some alternative occurs (ignoring case), and the first alternative in pattern order there; none means no alternative occurs anywhere |
| Search.UpperMatchIsFirst | src/services/searchService.js:113-117 | the extracted quality is `Unknown` exactly when no alternative occurs; otherwise it is the alternative of the pattern's first match, upper-cased |
| Search.ExtractedQuality | src/services/searchService.js:113-117 | `extractQuality` is `Unknown` exactly when no quality token occurs in the title, and otherwise the token the pattern finds first |
| Search.QualityIsToken | src/services/searchService.js:113-117 | the extracted quality is `Unknown` or one of the eleven tokens |
| Search.TokenScores | src/services/searchService.js:119-131 | the score of each quality `extractQuality` can return, including 0 for `Unknown` |
| Search.ExtractedScore | src/services/searchService.js:113-131 | an extracted quality scores only when it is `4K`, `HDTV`, `CAM` or `TS` |
| Search.ScoringQualities | src/services/searchService.js:119-131 | those four score 100, 30, 10 and 5 |
| Search.OrElse | src/services/searchService.js:85-91 | `s \|\| fallback` gives the string when it is truthy and the fallback otherwise |
| Search.FormatSize | src/services/searchService.js:108-111 | `Unknown` for an absent or zero size, otherwise the formatted byte count |
| Search.Shape | src/services/searchService.js:84-97 | the item one raw result becomes; `ListingHoldsLinkableShapes` relates it to the listing |
| Search.Shapes | src/services/searchService.js:84-97 | one item per result, in order |
| Search.KeepLinkable | src/services/searchService.js:98 | keeps exactly the items with a magnet link or a download link, each as often as it occurred |
| Search.SortItems | src/services/searchService.js:99-105 | the comparator's sort; `SortItemsSorts` and `SortItemsIsStable` state it |
| Search.InsertSorted | src/services/searchService.js:99-105 | inserting into a sorted list keeps it sorted and adds exactly the inserted item |
| Search.SortItemsSorts | src/services/searchService.js:99-105 | the sort returns a permutation of its input in which no item precedes one with more seeders, or with equal seeders and a higher score |
| Search.InsertKeepsTies | src/services/searchService.js:99-105 | inserting an item leaves the items tied with any given one in their order, with the inserted item ahead of them when it is tied too |
| Search.SortItemsIsStable | src/services/searchService.js:99-105 | the sort is stable: the items the comparator ties (same seeders, same score) come out in their input order |
| Search.Considered | src/services/searchService.js:83 | the first twenty results, or all of them when there are fewer |
| Search.ListingIsSortedAndLinkable | src/services/searchService.js:82-105 | the listing is sorted, no longer than its input, and every item has a link |
| Search.ListingHoldsLinkableShapes | src/services/searchService.js:82-105 | every listed item is the shape of a considered result, and every linkable shape appears in the listing as often as among the shapes |
| Search.FormattedResults | src/services/searchService.js:77-106 | no `Results` gives an empty listing; the function fails exactly when a considered result has no title; otherwise it yields the listing of at most twenty items |
| Search.FormatResults | src/services/searchService.js:77-106 | `formatResults`, stated by `FormattedResults` |
| Search.ReadReply | src/services/searchService.js:133-167 | a timeout, a transport error and a non-2xx status each fail with their message; a 2xx reply succeeds exactly when its body parses, and otherwise fails with the invalid-JSON message |
| Search.SearchContentOutcome | src/services/searchService.js:25-52 | a disabled service fails with the configuration message. An enabled one either echoes the query and content type with the formatted results of Jackett's reply, or reports the reply's or the formatting's error behind `Search failed: ` |
| Search.SearchContent | src/services/searchService.js:25-52 | `searchContent`, stated by `SearchContentOutcome` |
| Routes.PostDownload | src/routes/downloadRoutes.js:7-36 | a missing URL gives 400 `URL is required`, a URL that does not parse gives 400 with the parser's message, and a full registry gives 429 naming the ceiling; each leaves the registry untouched. Otherwise the reply is 200 with what `startDownload` resolved to, and the download is registered |
| Routes.GetDownloads | src/routes/downloadRoutes.js:39-42 | the reply lists every registered download once, in order, with its record |
| App.TagDirect | public/app.js:460 | each direct download becomes a `direct` item, in order and unchanged |
| App.TagTorrents | public/app.js:461-466 | each torrent becomes a `torrent` item, in order |
| App.DirectsFirst | public/app.js:459-467 | the merged list starts with the direct downloads, in order |
| App.TorrentsAfter | public/app.js:459-467 | the reshaped torrents follow the direct downloads, in order |
| App.MergeDownloads | public/app.js:455-467 | the merge in `updateDownloads`, stated by `MergedDownloads`, `DirectsFirst` and `TorrentsAfter` |
| App.MergedDownloads | public/app.js:455-467 | the merged list is every direct download, then every torrent, named by its `name`, with its progress and the status line `<state> - <progress>% (<speed>)`. Its length is the sum, and a listing whose response was not `ok` adds nothing |
| App.RenderFlags | public/app.js:488-492 | the flags and icon of a listed item, stated by `RenderedFlags` |
| App.RenderedFlags | public/app.js:488-492 | an item is completed exactly when its status says `completed` or its progress is 100, and active exactly when its status says neither `Failed` nor `completed`. The spinner shows exactly for an active item whose progress is not 100. The check-mark icon marks exactly the completed items; otherwise the icon tells a torrent from a direct download |
| App.ValidateUrl | public/app.js:379-390 | the candidate is the given URL or the trimmed input; an empty candidate is invalid, and otherwise it is valid exactly when it parses with protocol `http:` or `https:` |
| App.DownloadTorrent | public/app.js:292-308 | a missing link is refused with `No download link available`; otherwise the link and title are posted to `/torrent/download` |

## Left out

- Sockets, streams, file writes and unlinks, and timers are not modelled. A timeout, a transport error and a file error are each one reply or one call of the failure continuation.
- `_downloadFile`'s redirect recursion is modelled as one `Downloads.ClassifyResponse` step per response. Following `location` again, with no depth limit, is not modelled. The partial file cleanup is not modelled either.
- Node's `path` functions are modelled for posix paths only (`/` as separator); Windows paths are not modelled.
- `FileUtils.formatBytes` and `getCurrentTimestamp` use floating point and the clock. `formatBytes` is a parameter everywhere. `ensureDirectoryExists` only touches the file system. None of the three is modelled.
- `new URL(...)`, `JSON.parse` and `URLSearchParams` encoding are not modelled. The first two are parameters; form and query fields are kept as lists of pairs rather than encoded strings.
- Logging (`console.log`), the DOM rendering, the markup of list items and the status messages of the web page are not modelled.
- `src/server.js`, `config/config.js` and `src/services/jellyfinService.js` are not part of this model.
- Interleaving of concurrent downloads and concurrent adapter calls is not modelled. Each operation runs to completion.
- Strings: a character outside the Basic Multilingual Plane is one Dafny character but two UTF-16 code units in JavaScript, so lengths and indices of such text differ from the program's.
- Routes.PostDownload: the JSON body's `url` and `filename` are modelled as strings or absent. A truthy `filename` that is not a string makes `path.extname` throw a `TypeError` inside `startDownload`, after the route's own checks, and the route answers 400 with that message; this path is not modelled.
- Downloads.DownloadService.StartDownload: a custom filename that is not a string is not modelled (see `Routes.PostDownload`). The default `customFilename = null` is the caller passing `None`.
- Downloads.DownloadService.constructor: the default ceiling `maxConcurrentDownloads = 3` is not modelled; the ceiling is always passed in.
- The `rating: null` member of a search item is not modelled; it is the same for every item.
- Search.Shape: a `Title` that is `null` is treated like one that is absent. A `Seeders` or `Peers` value that is not a number is not modelled.
- Search.GetQualityScore: keys inherited from `Object.prototype`, such as `constructor`, which would look up a non-number, are not modelled.
- Search.MissingTitleError: the message follows V8's wording of the `TypeError`.
- TorrentSession.Authenticate: a JSON login body that has a `cookie` member of its own is not modelled. Only a `SID=` cookie header yields a session.
- TorrentSession.GetTorrentList: a 2xx listing body that is not a JSON array is treated as empty. In the source, `map` would throw, and the catch also returns `[]`.
- TorrentSession.View: the progress fraction is a real number; NaN and infinities are not modelled.
- Downloads.ProgressPercent: the percentage is exact real arithmetic rounded half up, not IEEE double arithmetic.
