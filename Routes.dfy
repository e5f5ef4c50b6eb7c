/**
 * The direct-download HTTP routes: `POST /download` checks its request in a
 * fixed order (a URL at all, a URL that parses, room for another download)
 * before handing it to the download service; `GET /downloads` lists the
 * service's registry.
 */
module Routes {
  import opened Wrappers
  import opened Js
  import opened Downloads
  import opened DownloadNames
  import OrderedMap

  const UrlRequiredMessage: string := "URL is required"

  /** The JSON body of a reply: an error message, or what `startDownload` resolved with. */
  datatype ReplyBody = ErrorBody(error: string) | StartedBody(result: StartResult)

  datatype HttpReply = HttpReply(statusCode: int, body: ReplyBody)

  /** The message of the 429 reply. */
  function CapacityReached(maxConcurrentDownloads: nat): string {
    "Maximum concurrent downloads reached (" + NatToString(maxConcurrentDownloads) + ")"
  }

  /**
   * `POST /download`. `url` and `filename` are the members of the request
   * body, `parsed` what `new URL(url)` makes of the URL; `now`, `timestamp`
   * and `existing` are what `startDownload` reads from the clock and the
   * download folder.
   */
  method PostDownload(service: DownloadService, url: Option<string>, filename: Option<string>, parsed: UrlParse,
                      now: nat, timestamp: nat, existing: set<string>)
    returns (reply: HttpReply)
    requires service.Valid()
    modifies service
    ensures service.Valid()
    ensures !Truthy(url) ==>
              reply == HttpReply(400, ErrorBody(UrlRequiredMessage)) && service.activeDownloads == old(service.activeDownloads)
    ensures Truthy(url) && parsed.Invalid? ==>
              reply == HttpReply(400, ErrorBody(parsed.message)) && service.activeDownloads == old(service.activeDownloads)
    ensures Truthy(url) && parsed.Parsed? && !old(service.CanStartNewDownload()) ==>
              && reply == HttpReply(429, ErrorBody(CapacityReached(service.maxConcurrentDownloads)))
              && service.activeDownloads == old(service.activeDownloads)
    ensures Truthy(url) && parsed.Parsed? && old(service.CanStartNewDownload()) ==>
              var id := NatToString(now);
              var name := ResolveFilename(parsed, filename, timestamp, existing);
              && reply == HttpReply(200, StartedBody(StartResult(id, name, "Download started: " + name)))
              && service.activeDownloads == Started(old(service.activeDownloads), id, name, url.value)
  {
    if !Truthy(url) {
      return HttpReply(400, ErrorBody(UrlRequiredMessage));
    }
    if parsed.Invalid? {
      return HttpReply(400, ErrorBody(parsed.message));
    }
    if !service.CanStartNewDownload() {
      return HttpReply(429, ErrorBody(CapacityReached(service.maxConcurrentDownloads)));
    }
    var result := service.StartDownload(url.value, parsed, filename, now, timestamp, existing);
    match result {
      case Success(started) =>
        reply := HttpReply(200, StartedBody(started));
      case Failure(message) =>
        reply := HttpReply(400, ErrorBody(message));
    }
  }

  /** `GET /downloads`: the service's listing, as it is. */
  function GetDownloads(service: DownloadService): (list: seq<ActiveDownload>)
    reads service
    ensures |list| == |service.activeDownloads|
    ensures forall i :: 0 <= i < |list| ==> list[i].id == OrderedMap.Keys(service.activeDownloads)[i]
    ensures service.Valid() ==>
              forall i :: 0 <= i < |list| ==> list[i].id in service.Downloads() && service.Downloads()[list[i].id] == list[i].Info()
  {
    service.GetActiveDownloads()
  }
}
