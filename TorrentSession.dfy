/**
 * The qBittorrent adapter as a state machine on values: the configuration
 * test, how one reply of the daemon is read (a `SID=` cookie wins whatever
 * the status, then a 2xx body, then the error), and the steps that use it —
 * logging in, keeping the session alive (probe, clear, log in again), adding
 * a torrent and listing torrents.
 *
 * A `Session` holds what those steps read and change: the stored cookie, the
 * replies the daemon will give, in order, and the requests sent so far. A
 * request that finds no reply left stands for one the daemon never answers,
 * which times out. `JSON.parse` and `formatBytes` are parameters; a form body
 * is recorded as its fields rather than URL-encoded.
 */
module TorrentSession {
  import opened Wrappers
  import opened Js
  import FileUtils

  /** The adapter's configuration; an empty string stands for a missing value. */
  datatype Settings = Settings(enabled: bool, qbittorrentUrl: string, username: string, password: string,
                               downloadPath: string, downloadFolder: string)

  /** `isEnabled`: switched on, with a daemon address and both credentials. */
  predicate IsEnabled(settings: Settings) {
    settings.enabled && settings.qbittorrentUrl != "" && settings.username != "" && settings.password != ""
  }

  /** Where added torrents are saved: the adapter's own path, else the download folder. */
  function SavePath(settings: Settings): string {
    if settings.downloadPath != "" then settings.downloadPath else settings.downloadFolder
  }

  /** One request to the daemon: endpoint, method, form fields and the `Cookie` header sent (if any). */
  datatype Request = Request(endpoint: string, httpMethod: string, form: seq<(string, string)>, cookie: Option<string>)

  /** What comes back: a response (status, `set-cookie` values, body chunks), a transport error, or nothing. */
  datatype Reply =
    | Answer(statusCode: int, statusMessage: string, setCookie: seq<string>, chunks: seq<string>)
    | Broken(message: string)
    | TimedOut

  /** One torrent as the daemon lists it. */
  datatype TorrentRecord = TorrentRecord(hash: string, name: string, size: nat, progress: real, state: string,
                                         eta: int, dlspeed: nat, upspeed: nat, numSeeds: int, numLeechs: int)

  /** The shapes of parsed JSON the adapter tells apart; `Null` is the JSON literal `null`. */
  datatype Json = EmptyObject | Null | TorrentList(torrents: seq<TorrentRecord>) | OtherJson

  /** What a request resolves to: the session cookie, a parsed body, or the raw text of an unparsable one. */
  datatype Payload = SessionCookie(cookie: string) | Body(json: Json) | RawText(text: string)

  datatype Session = Session(cookie: Option<string>, replies: seq<Reply>, sent: seq<Request>)

  /** One element of `getTorrentList`. */
  datatype TorrentView = TorrentView(hash: string, name: string, size: string, progress: int, state: string,
                                     eta: int, downloadSpeed: string, uploadSpeed: string, seeders: int, peers: int)

  /** What a successful `addTorrent` resolves to (its `success` member is always true). */
  datatype Added = Added(message: string, magnetLink: string, title: string)

  const SessionPrefix := "SID="
  const TimeoutMessage := "Request timeout"
  const NotConfiguredMessage := "Torrent service is not properly configured"
  const AddFailedPrefix := "Failed to add torrent: "
  const AuthFailedPrefix := "qBittorrent authentication failed: "
  const NoCookieMessage := "Authentication failed - no session cookie received"
  /** The message of the `TypeError` that reading `cookie` from a `null` login reply raises. */
  const NullCookieMessage := "Cannot read properties of null (reading 'cookie')"
  const Category := "jellyfin-downloader"

  const VersionEndpoint := "/api/v2/app/version"
  const LoginEndpoint := "/api/v2/auth/login"
  const AddEndpoint := "/api/v2/torrents/add"
  const InfoEndpoint := "/api/v2/torrents/info"

  // ---- reading one reply ------------------------------------------------------------

  /** The position of the first `set-cookie` value that starts with `SID=` (the length when there is none). */
  function FirstSessionIndex(cookies: seq<string>): (k: nat)
    ensures k <= |cookies|
    ensures k < |cookies| ==> StartsWith(cookies[k], SessionPrefix)
    ensures forall j :: 0 <= j < k ==> !StartsWith(cookies[j], SessionPrefix)
  {
    if cookies == [] then 0
    else if StartsWith(cookies[0], SessionPrefix) then 0
    else 1 + FirstSessionIndex(cookies[1..])
  }

  /** `find(cookie => cookie.startsWith('SID='))` */
  function FindSessionCookie(cookies: seq<string>): Option<string> {
    var k := FirstSessionIndex(cookies);
    if k < |cookies| then Some(cookies[k]) else None
  }

  /** `split(';')[0]`: everything before the first `;`. */
  function CookiePair(c: string): (p: string)
    ensures |p| <= |c| && p == c[..|p|]
    ensures Lacks(p, ';')
    ensures |p| < |c| ==> c[|p|] == ';'
  {
    if c == [] || c[0] == ';' then []
    else
      var p := [c[0]] + CookiePair(c[1..]);
      assert p[1..] == CookiePair(c[1..]);
      p
  }

  /** The body: the chunks in the order they arrived. */
  function Concat(chunks: seq<string>): string {
    if chunks == [] then "" else Concat(chunks[..|chunks| - 1]) + chunks[|chunks| - 1]
  }

  /** How `_makeRequest` settles on a reply. */
  function Interpret(reply: Reply, parseJson: string -> Option<Json>): Result<Payload> {
    match reply
    case TimedOut => Failure(TimeoutMessage)
    case Broken(message) => Failure(message)
    case Answer(statusCode, statusMessage, setCookie, chunks) =>
      match FindSessionCookie(setCookie)
      case Some(c) => Success(SessionCookie(CookiePair(c)))
      case None =>
        var body := Concat(chunks);
        if 200 <= statusCode < 300 then
          if body == "" then Success(Body(EmptyObject))
          else match parseJson(body)
            case Some(json) => Success(Body(json))
            case None => Success(RawText(body))
        else Failure("qBittorrent returned " + IntToString(statusCode) + ": " + statusMessage)
  }

  /** A cookie that starts with `SID=` keeps that prefix when cut at its first `;`. */
  lemma CookiePairKeepsPrefix(c: string)
    requires StartsWith(c, SessionPrefix)
    ensures StartsWith(CookiePair(c), SessionPrefix) && Lacks(CookiePair(c), ';')
  {
    var p := CookiePair(c);
    assert forall i :: 0 <= i < |SessionPrefix| ==> c[i] == SessionPrefix[i] && c[i] != ';';
    assert |p| >= |SessionPrefix|;
    assert p[..|SessionPrefix|] == c[..|SessionPrefix|];
  }

  /**
   * A reply carrying a `SID=` cookie resolves to that cookie, cut at its
   * first `;`, whatever its status code; the stored value starts with `SID=`
   * and holds no `;`.
   */
  lemma SessionCookieWins(reply: Reply, parseJson: string -> Option<Json>)
    requires reply.Answer? && exists k :: 0 <= k < |reply.setCookie| && StartsWith(reply.setCookie[k], SessionPrefix)
    ensures var r := Interpret(reply, parseJson);
            && r.Success? && r.value.SessionCookie?
            && StartsWith(r.value.cookie, SessionPrefix) && Lacks(r.value.cookie, ';')
            && r.value.cookie != ""
  {
    var cookies := reply.setCookie;
    var k :| 0 <= k < |cookies| && StartsWith(cookies[k], SessionPrefix);
    var first := FirstSessionIndex(cookies);
    assert first <= k;
    CookiePairKeepsPrefix(cookies[first]);
  }

  /**
   * Without a `SID=` cookie the status decides: 2xx resolves (an empty body
   * to `{}`, a parsable one to its JSON, any other to its text), anything
   * else fails with `qBittorrent returned <code>: <message>`.
   */
  lemma StatusDecides(reply: Reply, parseJson: string -> Option<Json>)
    requires reply.Answer? && forall k :: 0 <= k < |reply.setCookie| ==> !StartsWith(reply.setCookie[k], SessionPrefix)
    ensures var r := Interpret(reply, parseJson);
            var body := Concat(reply.chunks);
            && (r.Success? <==> 200 <= reply.statusCode < 300)
            && (r.Success? && body == "" ==> r.value == Body(EmptyObject))
            && (r.Success? && body != "" && parseJson(body).Some? ==> r.value == Body(parseJson(body).value))
            && (r.Success? && body != "" && parseJson(body).None? ==> r.value == RawText(body))
            && (r.Failure? ==>
                  r.error == "qBittorrent returned " + IntToString(reply.statusCode) + ": " + reply.statusMessage)
  {
    var first := FirstSessionIndex(reply.setCookie);
    assert first == |reply.setCookie|;
  }

  // ---- the session's steps ---------------------------------------------------------------

  /** The reply the next request gets: the next scripted one, or a timeout when none is left. */
  function NextReply(replies: seq<Reply>): Reply {
    if replies == [] then TimedOut else replies[0]
  }

  function Remaining(replies: seq<Reply>): seq<Reply> {
    if replies == [] then [] else replies[1..]
  }

  /** One `_makeRequest`: the request is sent and the next reply read. */
  function Exchange(s: Session, request: Request, parseJson: string -> Option<Json>): (Result<Payload>, Session) {
    (Interpret(NextReply(s.replies), parseJson),
     s.(replies := Remaining(s.replies), sent := s.sent + [request]))
  }

  /** The probe sends no `Cookie` header. */
  function ProbeRequest(): Request {
    Request(VersionEndpoint, "GET", [], None)
  }

  function LoginRequest(settings: Settings): Request {
    Request(LoginEndpoint, "POST", [("username", settings.username), ("password", settings.password)], None)
  }

  /** `addTorrentToClient`'s request: the link, the save path, the fixed category and the cleaned title. */
  function AddRequest(settings: Settings, magnetLink: string, title: string, cookie: Option<string>): Request {
    Request(AddEndpoint, "POST",
            [("urls", magnetLink), ("savepath", SavePath(settings)), ("category", Category),
             ("rename", FileUtils.SanitizeFilename(title))],
            cookie)
  }

  function InfoRequest(cookie: Option<string>): Request {
    Request(InfoEndpoint, "GET", [], cookie)
  }

  /** The stored cookie is truthy. */
  predicate HasCookie(s: Session) {
    s.cookie.Some? && s.cookie.value != ""
  }

  /** `authenticate`: only a reply that yields a session cookie changes the stored one. */
  function Authenticate(s: Session, settings: Settings, parseJson: string -> Option<Json>): (Outcome, Session) {
    var (r, t) := Exchange(s, LoginRequest(settings), parseJson);
    if r.Success? && r.value.SessionCookie? && r.value.cookie != "" then (Pass, t.(cookie := Some(r.value.cookie)))
    else if r.Success? then (Fail(AuthFailedPrefix + if r.value == Body(Null) then NullCookieMessage else NoCookieMessage), t)
    else (Fail(AuthFailedPrefix + r.error), t)
  }

  /** `ensureAuthenticated`: a stored cookie is probed; a failed probe clears it; then a login follows. */
  function EnsureAuthenticated(s: Session, settings: Settings, parseJson: string -> Option<Json>): (Outcome, Session) {
    if HasCookie(s) then
      var (r, t) := Exchange(s, ProbeRequest(), parseJson);
      if r.Success? then (Pass, t)
      else Authenticate(t.(cookie := None), settings, parseJson)
    else Authenticate(s, settings, parseJson)
  }

  /** `addTorrentToClient`: one exchange carrying the add request with the stored cookie. */
  function AddTorrentToClient(s: Session, settings: Settings, magnetLink: string, title: string,
                              parseJson: string -> Option<Json>): (Result<Payload>, Session) {
    Exchange(s, AddRequest(settings, magnetLink, title, s.cookie), parseJson)
  }

  /** `addTorrent`: refused when not configured; every later failure is reported with the same prefix. */
  function AddTorrent(s: Session, settings: Settings, magnetLink: string, title: string,
                      parseJson: string -> Option<Json>): (Result<Added>, Session)
  {
    if !IsEnabled(settings) then (Failure(NotConfiguredMessage), s)
    else
      var (auth, t) := EnsureAuthenticated(s, settings, parseJson);
      if auth.Fail? then (Failure(AddFailedPrefix + auth.error), t)
      else
        var (r, u) := AddTorrentToClient(t, settings, magnetLink, title, parseJson);
        if r.Failure? then (Failure(AddFailedPrefix + r.error), u)
        else (Success(Added("Torrent added: " + title, magnetLink, title)), u)
  }

  /** One element of the listing; the progress fraction becomes a rounded percentage. */
  function View(t: TorrentRecord, formatBytes: nat -> string): (v: TorrentView)
    ensures 0.0 <= t.progress <= 1.0 ==> 0 <= v.progress <= 100
  {
    TorrentView(t.hash, t.name, formatBytes(t.size), Round(t.progress * 100.0), t.state, t.eta,
                formatBytes(t.dlspeed) + "/s", formatBytes(t.upspeed) + "/s", t.numSeeds, t.numLeechs)
  }

  function Views(ts: seq<TorrentRecord>, formatBytes: nat -> string): (vs: seq<TorrentView>)
    ensures |vs| == |ts| && forall i :: 0 <= i < |ts| ==> vs[i] == View(ts[i], formatBytes)
  {
    if ts == [] then [] else [View(ts[0], formatBytes)] + Views(ts[1..], formatBytes)
  }

  /** `getTorrentList`: empty when not configured and on every error, else one view per listed torrent. */
  function GetTorrentList(s: Session, settings: Settings, parseJson: string -> Option<Json>,
                          formatBytes: nat -> string): (seq<TorrentView>, Session)
  {
    if !IsEnabled(settings) then ([], s)
    else
      var (auth, t) := EnsureAuthenticated(s, settings, parseJson);
      if auth.Fail? then ([], t)
      else
        var (r, u) := Exchange(t, InfoRequest(t.cookie), parseJson);
        if r.Success? && r.value.Body? && r.value.json.TorrentList? then (Views(r.value.json.torrents, formatBytes), u)
        else ([], u)
  }

  // ---- properties of the steps -----------------------------------------------------------

  /** A login succeeds exactly when its reply yields a session cookie; only then is the cookie replaced. */
  lemma AuthenticateStoresOnlyASessionCookie(s: Session, settings: Settings, parseJson: string -> Option<Json>)
    ensures var (o, t) := Authenticate(s, settings, parseJson);
            var r := Interpret(NextReply(s.replies), parseJson);
            && t.sent == s.sent + [LoginRequest(settings)]
            && (o == Pass <==> r.Success? && r.value.SessionCookie?)
            && (o == Pass ==> t.cookie == Some(r.value.cookie) && StartsWith(r.value.cookie, SessionPrefix))
            && (o.Fail? ==> t.cookie == s.cookie && StartsWith(o.error, AuthFailedPrefix))
            && (r == Success(Body(Null)) ==> o == Fail(AuthFailedPrefix + NullCookieMessage))
            && (r.Success? && !r.value.SessionCookie? && r.value != Body(Null) ==>
                  o == Fail(AuthFailedPrefix + NoCookieMessage))
  {
    var reply := NextReply(s.replies);
    if reply.Answer? && FindSessionCookie(reply.setCookie).Some? {
      var k := FirstSessionIndex(reply.setCookie);
      SessionCookieWins(reply, parseJson);
    }
  }

  /** With a stored cookie whose probe succeeds, nothing more is sent and the cookie stays. */
  lemma ProbeKeepsSession(s: Session, settings: Settings, parseJson: string -> Option<Json>)
    requires HasCookie(s) && Interpret(NextReply(s.replies), parseJson).Success?
    ensures var (o, t) := EnsureAuthenticated(s, settings, parseJson);
            o == Pass && t.cookie == s.cookie && t.sent == s.sent + [ProbeRequest()]
            && t.replies == Remaining(s.replies)
  {
  }

  /**
   * With a stored cookie whose probe fails, the cookie is cleared and a login
   * follows; if that login fails too, no cookie is left.
   */
  lemma FailedProbeLogsInAgain(s: Session, settings: Settings, parseJson: string -> Option<Json>)
    requires HasCookie(s) && Interpret(NextReply(s.replies), parseJson).Failure?
    ensures var (o, t) := EnsureAuthenticated(s, settings, parseJson);
            && (o, t) == Authenticate(Session(None, Remaining(s.replies), s.sent + [ProbeRequest()]), settings, parseJson)
            && t.sent == s.sent + [ProbeRequest(), LoginRequest(settings)]
            && (o.Fail? ==> t.cookie == None)
  {
    AuthenticateStoresOnlyASessionCookie(Session(None, Remaining(s.replies), s.sent + [ProbeRequest()]), settings, parseJson);
  }

  /** Without a stored cookie a login always happens, and it is the only request. */
  lemma NoCookieLogsIn(s: Session, settings: Settings, parseJson: string -> Option<Json>)
    requires !HasCookie(s)
    ensures var (o, t) := EnsureAuthenticated(s, settings, parseJson);
            (o, t) == Authenticate(s, settings, parseJson) && t.sent == s.sent + [LoginRequest(settings)]
  {
  }

  /** After a successful `ensureAuthenticated` a truthy cookie is stored. */
  lemma AuthenticatedHasCookie(s: Session, settings: Settings, parseJson: string -> Option<Json>)
    ensures var (o, t) := EnsureAuthenticated(s, settings, parseJson);
            o == Pass ==> HasCookie(t)
  {
    if HasCookie(s) {
      var (r, t) := Exchange(s, ProbeRequest(), parseJson);
      if r.Failure? {
        AuthenticateStoresOnlyASessionCookie(t.(cookie := None), settings, parseJson);
      }
    } else {
      AuthenticateStoresOnlyASessionCookie(s, settings, parseJson);
    }
  }

  /** Not configured: `addTorrent` fails with the configuration message and sends nothing. */
  lemma AddTorrentNeedsConfiguration(s: Session, settings: Settings, magnetLink: string, title: string,
                                     parseJson: string -> Option<Json>)
    requires !IsEnabled(settings)
    ensures AddTorrent(s, settings, magnetLink, title, parseJson) == (Failure(NotConfiguredMessage), s)
  {
  }

  /** Configured: any failure of the session or of the add request is reported behind `Failed to add torrent: `. */
  lemma AddTorrentFailurePrefix(s: Session, settings: Settings, magnetLink: string, title: string,
                                parseJson: string -> Option<Json>)
    requires IsEnabled(settings)
    ensures var r := AddTorrent(s, settings, magnetLink, title, parseJson).0;
            r.Failure? ==> StartsWith(r.error, AddFailedPrefix)
  {
  }

  /**
   * A success means the session was established and the add request, with
   * the fixed category, the save path and the cleaned title, was the last one
   * sent, carrying the stored cookie.
   */
  lemma AddTorrentSendsForm(s: Session, settings: Settings, magnetLink: string, title: string,
                            parseJson: string -> Option<Json>)
    requires IsEnabled(settings)
    ensures var (r, t) := AddTorrent(s, settings, magnetLink, title, parseJson);
            r.Success? ==>
              && r.value == Added("Torrent added: " + title, magnetLink, title)
              && |t.sent| > |s.sent|
              && t.sent[|t.sent| - 1] == AddRequest(settings, magnetLink, title, t.cookie)
              && HasCookie(t)
  {
    var (auth, t) := EnsureAuthenticated(s, settings, parseJson);
    AuthenticatedHasCookie(s, settings, parseJson);
    var (r, u) := AddTorrentToClient(t, settings, magnetLink, title, parseJson);
    assert u.sent == t.sent + [AddRequest(settings, magnetLink, title, t.cookie)] && u.cookie == t.cookie;
    if auth == Pass {
      assert AddTorrent(s, settings, magnetLink, title, parseJson)
             == if r.Failure? then (Failure(AddFailedPrefix + r.error), u)
                else (Success(Added("Torrent added: " + title, magnetLink, title)), u);
    } else {
      assert AddTorrent(s, settings, magnetLink, title, parseJson).0 == Failure(AddFailedPrefix + auth.error);
    }
  }


  /** A failed login inside `addTorrent` carries both prefixes. */
  lemma AddTorrentReportsLoginFailure(s: Session, settings: Settings, magnetLink: string, title: string,
                                      parseJson: string -> Option<Json>)
    requires IsEnabled(settings) && !HasCookie(s)
    requires Interpret(NextReply(s.replies), parseJson).Failure?
    ensures AddTorrent(s, settings, magnetLink, title, parseJson).0
            == Failure(AddFailedPrefix + AuthFailedPrefix + Interpret(NextReply(s.replies), parseJson).error)
  {
  }

  /**
   * `getTorrentList` is empty when not configured (and then sends nothing),
   * when the session cannot be established and when the listing request
   * fails; otherwise the listing request is sent with the stored cookie, a
   * parsed torrent list becomes one view per torrent, in order, and any
   * other reply (an empty body, `null`, other JSON, raw text) gives none.
   */
  lemma TorrentListShape(s: Session, settings: Settings, parseJson: string -> Option<Json>, formatBytes: nat -> string)
    ensures var (vs, t) := GetTorrentList(s, settings, parseJson, formatBytes);
            var (auth, t1) := EnsureAuthenticated(s, settings, parseJson);
            && (!IsEnabled(settings) ==> vs == [] && t == s)
            && (IsEnabled(settings) && auth.Fail? ==> vs == [])
            && (IsEnabled(settings) && auth == Pass ==>
                  && t.sent == t1.sent + [InfoRequest(t1.cookie)]
                  && HasCookie(t1)
                  && var r := Interpret(NextReply(t1.replies), parseJson);
                  && (r.Failure? ==> vs == [])
                  && (r.Success? && r.value.Body? && r.value.json.TorrentList? ==>
                        vs == Views(r.value.json.torrents, formatBytes))
                  && (r.Success? && !(r.value.Body? && r.value.json.TorrentList?) ==> vs == []))
  {
    AuthenticatedHasCookie(s, settings, parseJson);
  }
}
