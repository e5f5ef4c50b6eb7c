/**
 * The Jackett search adapter: the query it sends, how it reads Jackett's
 * reply, and how it turns the raw results into the items the web page lists
 * (at most twenty, each with a link, best-seeded first).
 */
module Search {
  import opened Wrappers
  import opened Js

  datatype Settings = Settings(enabled: bool, jackettUrl: string, jackettApiKey: string)

  /** `isEnabled`: switched on, with a Jackett address and an API key. */
  predicate IsEnabled(settings: Settings) {
    settings.enabled && settings.jackettUrl != "" && settings.jackettApiKey != ""
  }

  const NotConfiguredMessage: string := "Search service is not properly configured"
  const FailedPrefix: string := "Search failed: "
  const InvalidJsonMessage: string := "Invalid JSON response from Jackett"
  const TimeoutMessage: string := "Search request timeout"
  const UnknownTitle: string := "Unknown Title"
  const UnknownIndexer: string := "Unknown"
  const Unknown: string := "Unknown"
  const MaxResults: nat := 20
  /** The error a result without `Title` raises when its quality is looked up. */
  const MissingTitleError: string := "Cannot read properties of undefined (reading 'match')"
  const SearchEndpoint: string := "/api/v2.0/indexers/all/results"

  /** `getCategoryFilter`: Jackett's category for the content type, none for anything else. */
  function GetCategoryFilter(contentType: string): (c: string)
    ensures c == "2000" <==> contentType == "movies"
    ensures c == "5000" <==> contentType == "tv"
    ensures c == "" <==> contentType != "movies" && contentType != "tv"
  {
    match contentType
    case "movies" => "2000"
    case "tv" => "5000"
    case _ => ""
  }

  /** The request `buildSearchUrl` describes: the search endpoint of the configured Jackett and its query parameters. */
  datatype SearchRequest = SearchRequest(baseUrl: string, path: string, params: seq<(string, string)>)

  function BuildSearchRequest(settings: Settings, query: string, contentType: string): (r: SearchRequest)
    ensures r.baseUrl == settings.jackettUrl && r.path == SearchEndpoint
    ensures r.params == [("apikey", settings.jackettApiKey), ("Query", query), ("Category", GetCategoryFilter(contentType))]
  {
    SearchRequest(settings.jackettUrl, SearchEndpoint,
                  [("apikey", settings.jackettApiKey), ("Query", query), ("Category", GetCategoryFilter(contentType))])
  }

  // ---------------------------------------------------------------------------
  // Quality tokens

  /**
   * The alternatives of the quality pattern, in the order the pattern tries
   * them. They are written upper-cased: under the pattern's `i` flag the
   * spelling of a letter does not matter, and `toUpperCase` then returns the
   * alternative in exactly this form.
   */
  const Tokens: seq<string> := ["2160P", "4K", "1080P", "720P", "480P", "HDTV", "BLURAY", "WEBRIP", "DVDRIP", "CAM", "TS"]

  /** Nothing `toUpperCase` would change. */
  predicate NoLower(t: string) {
    forall i :: 0 <= i < |t| ==> !('a' <= t[i] <= 'z')
  }

  lemma TokensAreUpper()
    ensures forall k :: 0 <= k < |Tokens| ==> Tokens[k] != [] && NoLower(Tokens[k]) && Tokens[k] != Unknown
  {
  }

  /** Equal up to ASCII letter case, as the pattern's `i` flag compares. */
  predicate SameLetters(a: string, b: string) {
    |a| == |b| && forall i :: 0 <= i < |a| ==> AsciiUpper(a[i]) == AsciiUpper(b[i])
  }

  /** The token occurs, up to case, at position `p` of the title. */
  predicate TokenAt(title: string, p: nat, token: string) {
    p + |token| <= |title| && SameLetters(title[p..p + |token|], token)
  }

  /** Some alternative occurs at position `p`. */
  predicate AnyTokenAt(tokens: seq<string>, title: string, p: nat) {
    exists k :: 0 <= k < |tokens| && TokenAt(title, p, tokens[k])
  }

  /**
   * The `k`-th alternative at position `p` is the pattern's first match:
   * no alternative matches further left, and none before it matches here.
   */
  predicate FirstMatch(tokens: seq<string>, title: string, p: nat, k: nat) {
    && k < |tokens| && TokenAt(title, p, tokens[k])
    && (forall j :: 0 <= j < k ==> !TokenAt(title, p, tokens[j]))
    && (forall q :: 0 <= q < p ==> !AnyTokenAt(tokens, title, q))
  }

  /** The first alternative, from the `k`-th on, that matches at position `p`. */
  function FirstTokenAt(tokens: seq<string>, title: string, p: nat, k: nat): (r: Option<nat>)
    requires k <= |tokens|
    ensures r.Some? ==> k <= r.value < |tokens| && TokenAt(title, p, tokens[r.value])
    ensures r.Some? ==> forall j :: k <= j < r.value ==> !TokenAt(title, p, tokens[j])
    ensures r.None? ==> forall j :: k <= j < |tokens| ==> !TokenAt(title, p, tokens[j])
    decreases |tokens| - k
  {
    if k == |tokens| then None
    else if TokenAt(title, p, tokens[k]) then Some(k)
    else FirstTokenAt(tokens, title, p, k + 1)
  }

  /**
   * The leftmost position from `p` on where some alternative matches, with
   * the alternative the pattern picks there: a regular expression's search
   * tries each position in turn, and at each the alternatives in order.
   */
  function LeftmostMatch(tokens: seq<string>, title: string, p: nat): (r: Option<(nat, nat)>)
    requires forall k :: 0 <= k < |tokens| ==> tokens[k] != []
    ensures r.Some? ==> p <= r.value.0 && r.value.1 < |tokens| && TokenAt(title, r.value.0, tokens[r.value.1])
    ensures r.Some? ==> forall j :: 0 <= j < r.value.1 ==> !TokenAt(title, r.value.0, tokens[j])
    ensures r.Some? ==> forall q :: p <= q < r.value.0 ==> !AnyTokenAt(tokens, title, q)
    ensures r.None? ==> forall q :: p <= q ==> !AnyTokenAt(tokens, title, q)
    decreases |title| - p
  {
    if p >= |title| then None
    else
      match FirstTokenAt(tokens, title, p, 0)
      case Some(k) => Some((p, k))
      case None => LeftmostMatch(tokens, title, p + 1)
  }

  /** The matched text upper-cased, or `Unknown` when nothing matches. */
  function UpperMatch(tokens: seq<string>, title: string): string
    requires forall k :: 0 <= k < |tokens| ==> tokens[k] != []
  {
    match LeftmostMatch(tokens, title, 0)
    case Some((p, k)) => AsciiUpperString(title[p..p + |tokens[k]|])
    case None => Unknown
  }

  /** `extractQuality`: the leftmost quality token in the title, upper-cased, or `Unknown`. */
  function ExtractQuality(title: string): string {
    TokensAreUpper();
    UpperMatch(Tokens, title)
  }

  /** Upper-casing text that matches an upper-case token gives the token. */
  lemma UpperOfMatch(a: string, t: string)
    requires SameLetters(a, t) && NoLower(t)
    ensures AsciiUpperString(a) == t
  {
  }

  /** `UpperMatch` finds the first match: the leftmost position, and the earliest alternative there. */
  lemma UpperMatchIsFirst(tokens: seq<string>, title: string) returns (k: int)
    requires forall j :: 0 <= j < |tokens| ==> tokens[j] != [] && NoLower(tokens[j]) && tokens[j] != Unknown
    ensures k == -1 <==> UpperMatch(tokens, title) == Unknown
    ensures k == -1 <==> forall p :: !AnyTokenAt(tokens, title, p)
    ensures k != -1 ==> 0 <= k < |tokens| && UpperMatch(tokens, title) == tokens[k]
    ensures k != -1 ==> exists p :: FirstMatch(tokens, title, p, k)
  {
    match LeftmostMatch(tokens, title, 0)
    case Some((p, j)) =>
      UpperOfMatch(title[p..p + |tokens[j]|], tokens[j]);
      assert AnyTokenAt(tokens, title, p);
      assert FirstMatch(tokens, title, p, j);
      k := j;
    case None =>
      k := -1;
  }

  /**
   * The quality is `Unknown` exactly when no token occurs in the title;
   * otherwise it is the token the pattern finds first (as `UpperMatchIsFirst`
   * states), and so one of the tokens.
   */
  lemma ExtractedQuality(title: string) returns (k: int)
    ensures k == -1 <==> ExtractQuality(title) == Unknown
    ensures k == -1 <==> forall p :: !AnyTokenAt(Tokens, title, p)
    ensures k != -1 ==> 0 <= k < |Tokens| && ExtractQuality(title) == Tokens[k]
    ensures k != -1 ==> exists p :: FirstMatch(Tokens, title, p, k)
  {
    TokensAreUpper();
    k := UpperMatchIsFirst(Tokens, title);
  }

  /** The quality is `Unknown` or one of the tokens. */
  lemma QualityIsToken(title: string) returns (k: int)
    ensures k == -1 ==> ExtractQuality(title) == Unknown
    ensures k != -1 ==> 0 <= k < |Tokens| && ExtractQuality(title) == Tokens[k]
  {
    k := ExtractedQuality(title);
  }

  /** `getQualityScore`: how good a quality is, by its table of token spellings. */
  function GetQualityScore(quality: string): nat {
    match quality
    case "2160p" => 100
    case "4K" => 100
    case "1080p" => 80
    case "720p" => 60
    case "480p" => 40
    case "HDTV" => 30
    case "DVDRip" => 20
    case "CAM" => 10
    case "TS" => 5
    case _ => 0
  }

  /** The score of each quality `extractQuality` can produce. */
  lemma TokenScores()
    ensures forall k :: 0 <= k < |Tokens| ==> GetQualityScore(Tokens[k]) == [0, 100, 0, 0, 0, 30, 0, 0, 0, 10, 5][k]
    ensures GetQualityScore(Unknown) == 0
  {
  }

  /**
   * Because the table's keys keep their mixed case while extracted qualities
   * are upper-cased, an extracted quality scores only when it is `4K` (100),
   * `HDTV` (30), `CAM` (10) or `TS` (5); `1080P`, `DVDRIP` and the rest score 0.
   */
  lemma ExtractedScore(title: string)
    ensures var q := ExtractQuality(title);
            GetQualityScore(q) != 0 ==> q == "4K" || q == "HDTV" || q == "CAM" || q == "TS"
  {
    var k := QualityIsToken(title);
    TokenScores();
    if GetQualityScore(ExtractQuality(title)) != 0 {
      assert k == 1 || k == 5 || k == 9 || k == 10;
    }
  }

  /** The scores of the qualities that do score. */
  lemma ScoringQualities()
    ensures GetQualityScore("4K") == 100 && GetQualityScore("HDTV") == 30
    ensures GetQualityScore("CAM") == 10 && GetQualityScore("TS") == 5
  {
  }



  // ---------------------------------------------------------------------------
  // Results

  /** One raw Jackett result; an absent member is `None`. */
  datatype JackettResult = JackettResult(
    title: Option<string>, size: Option<nat>, seeders: Option<int>, peers: Option<int>,
    categoryDesc: Option<string>, category: Option<string>, tracker: Option<string>,
    magnetUri: Option<string>, link: Option<string>, publishDate: Option<string>, imdb: Option<string>)

  /** One listed result. */
  datatype SearchItem = SearchItem(
    title: string, size: string, quality: string, seeders: int, peers: int,
    category: Option<string>, indexer: string, magnetLink: Option<string>, downloadLink: Option<string>,
    publishDate: Option<string>, imdbId: Option<string>)

  /** `s || fallback` on an optional string. */
  function OrElse(s: Option<string>, fallback: string): (r: string)
    ensures Truthy(s) ==> r == s.value
    ensures !Truthy(s) ==> r == fallback
  {
    if Truthy(s) then s.value else fallback
  }

  /** `formatSize`: `Unknown` for an absent or zero size, otherwise the formatted byte count. */
  function FormatSize(bytes: Option<nat>, formatBytes: nat -> string): (r: string)
    ensures bytes.None? || bytes.value == 0 ==> r == Unknown
    ensures bytes.Some? && bytes.value != 0 ==> r == formatBytes(bytes.value)
  {
    if bytes.None? || bytes.value == 0 then Unknown else formatBytes(bytes.value)
  }

  /** The item one raw result becomes. */
  function Shape(r: JackettResult, formatBytes: nat -> string): SearchItem
    requires r.title.Some?
  {
    SearchItem(
      OrElse(r.title, UnknownTitle),
      FormatSize(r.size, formatBytes),
      ExtractQuality(r.title.value),
      if r.seeders.Some? then r.seeders.value else 0,
      if r.peers.Some? then r.peers.value else 0,
      if Truthy(r.categoryDesc) then r.categoryDesc else r.category,
      OrElse(r.tracker, UnknownIndexer),
      r.magnetUri, r.link, r.publishDate, r.imdb)
  }

  function Shapes(rs: seq<JackettResult>, formatBytes: nat -> string): (items: seq<SearchItem>)
    requires forall k :: 0 <= k < |rs| ==> rs[k].title.Some?
    ensures |items| == |rs| && forall k :: 0 <= k < |rs| ==> items[k] == Shape(rs[k], formatBytes)
  {
    if rs == [] then [] else [Shape(rs[0], formatBytes)] + Shapes(rs[1..], formatBytes)
  }

  /** An item the page can act on: it has a magnet link or a download link. */
  predicate Linkable(item: SearchItem) {
    Truthy(item.magnetLink) || Truthy(item.downloadLink)
  }

  function KeepLinkable(items: seq<SearchItem>): (r: seq<SearchItem>)
    ensures |r| <= |items|
    ensures forall i :: 0 <= i < |r| ==> Linkable(r[i])
    ensures multiset(r) <= multiset(items)
    ensures forall x :: Linkable(x) ==> multiset(r)[x] == multiset(items)[x]
  {
    if items == [] then []
    else
      assert items == [items[0]] + items[1..];
      if Linkable(items[0]) then [items[0]] + KeepLinkable(items[1..]) else KeepLinkable(items[1..])
  }

  /** The order the comparator asks for: more seeders first, then the better quality score. */
  predicate Before(a: SearchItem, b: SearchItem) {
    a.seeders > b.seeders || (a.seeders == b.seeders && GetQualityScore(a.quality) > GetQualityScore(b.quality))
  }

  /** No item comes after one it should precede. */
  predicate Sorted(s: seq<SearchItem>) {
    forall i, j :: 0 <= i < j < |s| ==> !Before(s[j], s[i])
  }

  /** Places `x` ahead of every item it does not have to follow. */
  function Insert(x: SearchItem, s: seq<SearchItem>): seq<SearchItem> {
    if s == [] then [x]
    else if Before(s[0], x) then [s[0]] + Insert(x, s[1..])
    else [x] + s
  }

  /** A stable sort by the comparator, as `Array.prototype.sort` performs it. */
  function SortItems(s: seq<SearchItem>): seq<SearchItem> {
    if s == [] then [] else Insert(s[0], SortItems(s[1..]))
  }

  lemma SortedCons(a: SearchItem, t: seq<SearchItem>)
    requires Sorted(t) && forall k :: 0 <= k < |t| ==> !Before(t[k], a)
    ensures Sorted([a] + t)
  {
    var s := [a] + t;
    forall i, j | 0 <= i < j < |s|
      ensures !Before(s[j], s[i])
    {
      if i > 0 {
        assert s[i] == t[i - 1] && s[j] == t[j - 1];
      } else {
        assert s[j] == t[j - 1];
      }
    }
  }

  /** Every item of `u` that `a` may precede, when `u` holds only `x` and items of `t`. */
  lemma NoneBefore(a: SearchItem, x: SearchItem, t: seq<SearchItem>, u: seq<SearchItem>)
    requires multiset(u) == multiset(t) + multiset{x}
    requires !Before(x, a) && forall k :: 0 <= k < |t| ==> !Before(t[k], a)
    ensures forall k :: 0 <= k < |u| ==> !Before(u[k], a)
  {
    forall k | 0 <= k < |u| ensures !Before(u[k], a) {
      assert u[k] in multiset(t) + multiset{x};
      if u[k] != x {
        assert u[k] in t;
      }
    }
  }

  lemma {:induction false} InsertSorted(x: SearchItem, s: seq<SearchItem>)
    requires Sorted(s)
    ensures Sorted(Insert(x, s)) && multiset(Insert(x, s)) == multiset(s) + multiset{x}
    decreases |s|
  {
    if s == [] {
    } else if Before(s[0], x) {
      var t := s[1..];
      assert Sorted(t) by {
        forall i, j | 0 <= i < j < |t| ensures !Before(t[j], t[i]) {
          assert t[i] == s[i + 1] && t[j] == s[j + 1];
        }
      }
      assert forall k :: 0 <= k < |t| ==> !Before(t[k], s[0]) by {
        forall k | 0 <= k < |t| ensures !Before(t[k], s[0]) {
          assert t[k] == s[k + 1];
        }
      }
      InsertSorted(x, t);
      NoneBefore(s[0], x, t, Insert(x, t));
      SortedCons(s[0], Insert(x, t));
      assert s == [s[0]] + t;
    } else {
      forall k | 0 <= k < |s| ensures !Before(s[k], x) {
        assert k == 0 || !Before(s[k], s[0]);
      }
      SortedCons(x, s);
    }
  }

  /** The sort returns the same items, in order. */
  lemma {:induction false} SortItemsSorts(s: seq<SearchItem>)
    ensures Sorted(SortItems(s)) && multiset(SortItems(s)) == multiset(s)
  {
    if s != [] {
      SortItemsSorts(s[1..]);
      InsertSorted(s[0], SortItems(s[1..]));
      assert s == [s[0]] + s[1..];
    }
  }

  /** Neither item has to precede the other: the comparator returns 0 for them. */
  predicate Tied(a: SearchItem, b: SearchItem) {
    a.seeders == b.seeders && GetQualityScore(a.quality) == GetQualityScore(b.quality)
  }

  /** The items of `s` tied with `a`, in their order in `s`. */
  function TiedWith(s: seq<SearchItem>, a: SearchItem): (r: seq<SearchItem>)
    ensures |r| <= |s|
  {
    if s == [] then [] else (if Tied(s[0], a) then [s[0]] else []) + TiedWith(s[1..], a)
  }

  /** Inserting `x` leaves the items tied with `a` in order, with `x` ahead of them when it is tied too. */
  lemma {:induction false} InsertKeepsTies(x: SearchItem, t: seq<SearchItem>, a: SearchItem)
    ensures TiedWith(Insert(x, t), a) == (if Tied(x, a) then [x] else []) + TiedWith(t, a)
    decreases |t|
  {
    if t != [] && Before(t[0], x) {
      InsertKeepsTies(x, t[1..], a);
      assert !(Tied(t[0], a) && Tied(x, a));
      assert ([t[0]] + Insert(x, t[1..]))[1..] == Insert(x, t[1..]);
    } else {
      assert ([x] + t)[1..] == t;
    }
  }

  /** The sort is stable: items the comparator ties keep their order from the input. */
  lemma {:induction false} SortItemsIsStable(s: seq<SearchItem>, a: SearchItem)
    ensures TiedWith(SortItems(s), a) == TiedWith(s, a)
  {
    if s != [] {
      SortItemsIsStable(s[1..], a);
      InsertKeepsTies(s[0], SortItems(s[1..]), a);
    }
  }

  function Min(a: nat, b: nat): nat {
    if a <= b then a else b
  }

  /** The results `formatResults` looks at: the first twenty. */
  function Considered(rs: seq<JackettResult>): (top: seq<JackettResult>)
    ensures |top| == Min(|rs|, MaxResults) && top == rs[..|top|]
  {
    rs[..Min(|rs|, MaxResults)]
  }

  /** Some considered result has no `Title`, so looking up its quality throws. */
  predicate MissingTitle(top: seq<JackettResult>) {
    exists k :: 0 <= k < |top| && top[k].title.None?
  }

  /**
   * `formatResults`: nothing without a `Results` list; otherwise the first
   * twenty results shaped into items, those without a link dropped, and the
   * rest sorted. A considered result without `Title` makes it throw.
   */
  function FormatResults(results: Option<seq<JackettResult>>, formatBytes: nat -> string): Result<seq<SearchItem>> {
    if results.None? then Success([])
    else
      var top := Considered(results.value);
      if MissingTitle(top) then Failure(MissingTitleError)
      else Success(Listing(top, formatBytes))
  }

  /** The listing built from results that all have a title. */
  function Listing(top: seq<JackettResult>, formatBytes: nat -> string): seq<SearchItem>
    requires !MissingTitle(top)
  {
    SortItems(KeepLinkable(Shapes(top, formatBytes)))
  }

  /** The listing is sorted, no longer than its input, and every item has a link. */
  lemma ListingIsSortedAndLinkable(top: seq<JackettResult>, formatBytes: nat -> string)
    requires !MissingTitle(top)
    ensures var r := Listing(top, formatBytes);
            && |r| <= |top|
            && Sorted(r)
            && forall i :: 0 <= i < |r| ==> Linkable(r[i])
  {
    var kept := KeepLinkable(Shapes(top, formatBytes));
    var sorted := SortItems(kept);
    SortItemsSorts(kept);
    assert |sorted| == |multiset(sorted)| == |multiset(kept)| == |kept|;
    forall i | 0 <= i < |sorted| ensures Linkable(sorted[i]) {
      assert sorted[i] in multiset(kept);
    }
  }

  /**
   * The listing holds exactly the shaped results that have a link: each of
   * its items is the shape of one result, and each result whose shape has a
   * link is in it, as often as among the shapes.
   */
  lemma ListingHoldsLinkableShapes(top: seq<JackettResult>, formatBytes: nat -> string)
    requires !MissingTitle(top)
    ensures var r := Listing(top, formatBytes);
            && (forall i :: 0 <= i < |r| ==> exists k :: 0 <= k < |top| && r[i] == Shape(top[k], formatBytes))
            && (forall x :: Linkable(x) ==> multiset(r)[x] == multiset(Shapes(top, formatBytes))[x])
  {
    var shaped := Shapes(top, formatBytes);
    var kept := KeepLinkable(shaped);
    var sorted := SortItems(kept);
    SortItemsSorts(kept);
    forall i | 0 <= i < |sorted|
      ensures exists k :: 0 <= k < |top| && sorted[i] == Shape(top[k], formatBytes)
    {
      assert sorted[i] in multiset(kept);
      assert sorted[i] in multiset(shaped);
      var k :| 0 <= k < |shaped| && shaped[k] == sorted[i];
    }
  }

  /**
   * `formatResults` yields nothing without a `Results` list, fails exactly
   * when one of the first twenty results lacks a title, and otherwise yields
   * the listing of the first twenty: at most twenty items, as the two lemmas
   * above describe.
   */
  lemma FormattedResults(results: Option<seq<JackettResult>>, formatBytes: nat -> string)
    ensures var r := FormatResults(results, formatBytes);
            && (results.None? ==> r == Success([]))
            && (r.Failure? <==> results.Some? && MissingTitle(Considered(results.value)))
            && (r.Failure? ==> r.error == MissingTitleError)
            && (r.Success? && results.Some? ==>
                  && r.value == Listing(Considered(results.value), formatBytes)
                  && |r.value| <= MaxResults)
  {
    if results.Some? && !MissingTitle(Considered(results.value)) {
      ListingIsSortedAndLinkable(Considered(results.value), formatBytes);
    }
  }

  // ---------------------------------------------------------------------------
  // Talking to Jackett

  /** Jackett's document: its `Results` list, if it has one. */
  datatype JackettDoc = JackettDoc(results: Option<seq<JackettResult>>)

  /** What Jackett does with a request: answers it (status and body), fails, or never answers. */
  datatype SearchReply = Answer(statusCode: int, statusMessage: string, body: string) | Broken(message: string) | TimedOut

  /** `_makeRequest`: the parsed document of a 2xx reply, otherwise the error it rejects with. */
  function ReadReply(reply: SearchReply, parseJson: string -> Option<JackettDoc>): (r: Result<JackettDoc>)
    ensures reply.TimedOut? ==> r == Failure(TimeoutMessage)
    ensures reply.Broken? ==> r == Failure(reply.message)
    ensures reply.Answer? && !(200 <= reply.statusCode < 300) ==>
              r == Failure("Jackett returned " + IntToString(reply.statusCode) + ": " + reply.statusMessage)
    ensures reply.Answer? && 200 <= reply.statusCode < 300 ==>
              (r.Success? <==> parseJson(reply.body).Some?) && (r.Failure? ==> r.error == InvalidJsonMessage)
  {
    match reply
    case TimedOut => Failure(TimeoutMessage)
    case Broken(message) => Failure(message)
    case Answer(code, message, body) =>
      if 200 <= code < 300 then
        match parseJson(body)
        case Some(doc) => Success(doc)
        case None => Failure(InvalidJsonMessage)
      else Failure("Jackett returned " + IntToString(code) + ": " + message)
  }

  /** What `searchContent` resolves with. */
  datatype SearchOutcome = SearchOutcome(query: string, contentType: string, results: seq<SearchItem>)

  /**
   * `searchContent`: refused when the service is not configured; otherwise the
   * request is sent, its reply read and the results formatted, any error on
   * the way reported behind `Search failed: `.
   */
  function SearchContent(settings: Settings, query: string, contentType: string,
                         jackett: SearchRequest -> SearchReply,
                         parseJson: string -> Option<JackettDoc>, formatBytes: nat -> string): Result<SearchOutcome>
  {
    if !IsEnabled(settings) then Failure(NotConfiguredMessage)
    else
      var doc := ReadReply(jackett(BuildSearchRequest(settings, query, contentType)), parseJson);
      if doc.Failure? then Failure(FailedPrefix + doc.error)
      else
        var formatted := FormatResults(doc.value.results, formatBytes);
        if formatted.Failure? then Failure(FailedPrefix + formatted.error)
        else Success(SearchOutcome(query, contentType, formatted.value))
  }

  /**
   * A disabled service fails with the configuration message and sends
   * nothing; an enabled one either echoes the query and content type with the
   * formatted results of Jackett's reply to the built request, or reports the
   * reply's or the formatting's error behind `Search failed: `.
   */
  lemma SearchContentOutcome(settings: Settings, query: string, contentType: string,
                             jackett: SearchRequest -> SearchReply,
                             parseJson: string -> Option<JackettDoc>, formatBytes: nat -> string)
    ensures var r := SearchContent(settings, query, contentType, jackett, parseJson, formatBytes);
            var doc := ReadReply(jackett(BuildSearchRequest(settings, query, contentType)), parseJson);
            && (!IsEnabled(settings) ==> r == Failure(NotConfiguredMessage))
            && (IsEnabled(settings) && r.Failure? ==> StartsWith(r.error, FailedPrefix))
            && (IsEnabled(settings) && doc.Failure? ==> r == Failure(FailedPrefix + doc.error))
            && (r.Success? ==>
                  && doc.Success?
                  && FormatResults(doc.value.results, formatBytes) == Success(r.value.results)
                  && r.value.query == query && r.value.contentType == contentType)
  {
  }
}
