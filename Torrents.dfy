/**
 * The qBittorrent adapter as the object the server holds: its configuration,
 * the session cookie it updates in place, and the daemon it talks to. Each
 * method is tied to the step of the same name in `TorrentSession`, whose
 * properties are proved there.
 */
module Torrents {
  import opened Wrappers
  import opened Js
  import FileUtils
  import opened TorrentSession

  /** The remote daemon: the replies it will give, in order, and the requests it has received. */
  class Daemon {
    var replies: seq<Reply>
    var received: seq<Request>

    constructor (replies: seq<Reply>)
      ensures this.replies == replies && received == []
    {
      this.replies := replies;
      received := [];
    }

    /** Sends one request; with no reply left the request never gets an answer. */
    method Send(request: Request) returns (reply: Reply)
      modifies this
      ensures reply == NextReply(old(replies))
      ensures replies == Remaining(old(replies)) && received == old(received) + [request]
    {
      received := received + [request];
      if replies == [] {
        reply := TimedOut;
      } else {
        reply := replies[0];
        replies := replies[1..];
      }
    }
  }

  class TorrentService {
    const settings: Settings
    const parseJson: string -> Option<Json>
    const daemon: Daemon
    var cookie: Option<string>

    /** The session as `TorrentSession` sees it. */
    function State(): Session
      reads this, daemon
    {
      Session(cookie, daemon.replies, daemon.received)
    }

    constructor (settings: Settings, parseJson: string -> Option<Json>, daemon: Daemon)
      ensures this.settings == settings && this.parseJson == parseJson && this.daemon == daemon
      ensures cookie == None
    {
      this.settings := settings;
      this.parseJson := parseJson;
      this.daemon := daemon;
      cookie := None;
    }

    /** `isEnabled` */
    function IsEnabled(): (ok: bool)
      ensures ok <==> settings.enabled && settings.qbittorrentUrl != "" && settings.username != "" && settings.password != ""
    {
      TorrentSession.IsEnabled(settings)
    }

    /**
     * `_makeRequest`: sends the request, then settles on the reply — a `SID=`
     * cookie at once, otherwise after the body has arrived chunk by chunk.
     */
    method MakeRequest(endpoint: string, httpMethod: string, form: seq<(string, string)>, cookieHeader: Option<string>)
      returns (r: Result<Payload>)
      modifies daemon
      ensures (r, State()) == Exchange(old(State()), Request(endpoint, httpMethod, form, cookieHeader), parseJson)
    {
      var reply := daemon.Send(Request(endpoint, httpMethod, form, cookieHeader));
      match reply {
        case TimedOut =>
          r := Failure(TimeoutMessage);
        case Broken(message) =>
          r := Failure(message);
        case Answer(statusCode, statusMessage, setCookie, chunks) =>
          var sessionCookie := FindSessionCookie(setCookie);
          if sessionCookie.Some? {
            return Success(SessionCookie(CookiePair(sessionCookie.value)));
          }
          var responseData := "";
          var i := 0;
          while i < |chunks|
            invariant 0 <= i <= |chunks|
            invariant responseData == Concat(chunks[..i])
          {
            assert chunks[..i + 1][..i] == chunks[..i];
            responseData := responseData + chunks[i];
            i := i + 1;
          }
          assert chunks[..|chunks|] == chunks;
          if 200 <= statusCode < 300 {
            if responseData == "" {
              r := Success(Body(EmptyObject));
            } else {
              var parsed := parseJson(responseData);
              r := if parsed.Some? then Success(Body(parsed.value)) else Success(RawText(responseData));
            }
          } else {
            r := Failure("qBittorrent returned " + IntToString(statusCode) + ": " + statusMessage);
          }
      }
    }

    /** `authenticate` */
    method Authenticate() returns (o: Outcome)
      modifies this, daemon
      ensures (o, State()) == TorrentSession.Authenticate(old(State()), settings, parseJson)
    {
      var response := MakeRequest(LoginEndpoint, "POST",
                                  [("username", settings.username), ("password", settings.password)], None);
      if response.Failure? {
        return Fail(AuthFailedPrefix + response.error);
      }
      if response.value.SessionCookie? && response.value.cookie != "" {
        cookie := Some(response.value.cookie);
        o := Pass;
      } else if response.value == Body(Null) {
        o := Fail(AuthFailedPrefix + NullCookieMessage);
      } else {
        o := Fail(AuthFailedPrefix + NoCookieMessage);
      }
    }

    /** `ensureAuthenticated` */
    method EnsureAuthenticated() returns (o: Outcome)
      modifies this, daemon
      ensures (o, State()) == TorrentSession.EnsureAuthenticated(old(State()), settings, parseJson)
    {
      if cookie.Some? && cookie.value != "" {
        var probe := MakeRequest(VersionEndpoint, "GET", [], None);
        if probe.Success? {
          return Pass;
        }
        cookie := None;
      }
      o := Authenticate();
    }

    /** `addTorrentToClient` */
    method AddTorrentToClient(magnetLink: string, title: string) returns (r: Result<Payload>)
      modifies daemon
      ensures (r, State()) == TorrentSession.AddTorrentToClient(old(State()), settings, magnetLink, title, parseJson)
    {
      var savePath := if settings.downloadPath != "" then settings.downloadPath else settings.downloadFolder;
      r := MakeRequest(AddEndpoint, "POST",
                       [("urls", magnetLink), ("savepath", savePath), ("category", Category),
                        ("rename", FileUtils.SanitizeFilename(title))],
                       cookie);
    }

    /** `addTorrent` */
    method AddTorrent(magnetLink: string, title: string) returns (r: Result<Added>)
      modifies this, daemon
      ensures (r, State()) == TorrentSession.AddTorrent(old(State()), settings, magnetLink, title, parseJson)
    {
      if !IsEnabled() {
        return Failure(NotConfiguredMessage);
      }
      var auth := EnsureAuthenticated();
      if auth.Fail? {
        return Failure(AddFailedPrefix + auth.error);
      }
      var result := AddTorrentToClient(magnetLink, title);
      if result.Failure? {
        return Failure(AddFailedPrefix + result.error);
      }
      r := Success(Added("Torrent added: " + title, magnetLink, title));
    }

    /** `getTorrentList` */
    method GetTorrentList(formatBytes: nat -> string) returns (torrents: seq<TorrentView>)
      modifies this, daemon
      ensures (torrents, State()) == TorrentSession.GetTorrentList(old(State()), settings, parseJson, formatBytes)
    {
      if !IsEnabled() {
        return [];
      }
      var auth := EnsureAuthenticated();
      if auth.Fail? {
        return [];
      }
      var response := MakeRequest(InfoEndpoint, "GET", [], cookie);
      if response.Success? && response.value.Body? && response.value.json.TorrentList? {
        torrents := Views(response.value.json.torrents, formatBytes);
      } else {
        torrents := [];
      }
    }
  }
}
