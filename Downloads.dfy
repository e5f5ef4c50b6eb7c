/**
 * The direct-download engine: a registry of in-flight downloads keyed by id
 * (a JavaScript `Map`, so insertion-ordered), the capacity gate, the filename
 * chosen for a new download, the per-chunk progress update, completion,
 * failure and the removal of a failed entry after its grace period, and the
 * decision taken on each HTTP response.
 *
 * The clock (`Date.now()`), the outcome of `new URL(url)`, the set of names
 * already present in the download folder and `formatBytes` are parameters.
 */
module Downloads {
  import opened Wrappers
  import opened Js
  import FileUtils
  import OrderedMap
  import opened DownloadNames

  /** The record kept per download id. */
  datatype DownloadInfo = DownloadInfo(filename: string, status: string, progress: int, url: string)

  /** One element of the listing: `{id, ...info}`. */
  datatype ActiveDownload = ActiveDownload(id: string, filename: string, status: string, progress: int, url: string)
  {
    function Info(): DownloadInfo {
      DownloadInfo(filename, status, progress, url)
    }
  }

  /** What a successful start resolves to. */
  datatype StartResult = StartResult(downloadId: string, filename: string, message: string)

  type Registry = seq<(string, DownloadInfo)>

  const StartingStatus := "Starting..."
  const CapacityMessage := "Maximum concurrent downloads reached"

  // ---- progress -----------------------------------------------------------------

  lemma RatioAtMostOne(d: nat, t: nat)
    requires 0 < t && d <= t
    ensures (d as real) / (t as real) <= 1.0
  {
    assert (d as real) / (t as real) * (t as real) == d as real;
  }

  /** The percentage shown after `downloaded` of `total` bytes (0 when the total is unknown). */
  function ProgressPercent(downloaded: nat, total: nat): (p: int)
    ensures total == 0 ==> p == 0
    ensures total > 0 ==> (p as real) - 0.5 <= (downloaded as real) / (total as real) * 100.0 < (p as real) + 0.5
    ensures downloaded <= total ==> 0 <= p <= 100
    ensures 0 < total == downloaded ==> p == 100
  {
    if total > 0 then
      var x := (downloaded as real) / (total as real) * 100.0;
      assert downloaded <= total ==> (downloaded as real) / (total as real) <= 1.0 by {
        if downloaded <= total { RatioAtMostOne(downloaded, total); }
      }
      assert downloaded == total ==> x == 100.0 by {
        if downloaded == total { assert (downloaded as real) / (total as real) == 1.0; }
      }
      Round(x)
    else 0
  }

  /** The status text shown while a body is being received. */
  function ProgressStatus(downloaded: nat, total: nat, formatBytes: nat -> string): (status: string)
    ensures StartsWith(status, "Downloading... ")
  {
    if total > 0 then
      "Downloading... " + IntToString(ProgressPercent(downloaded, total)) + "% ("
        + formatBytes(downloaded) + "/" + formatBytes(total) + ")"
    else "Downloading... " + formatBytes(downloaded)
  }

  // ---- registry transitions ------------------------------------------------------------

  /** A download registers as `Starting...` at 0% under its id. */
  function Started(reg: Registry, id: string, filename: string, url: string): (r: Registry)
    ensures OrderedMap.Valid(reg) ==>
              OrderedMap.Valid(r) && OrderedMap.ToMap(r) == OrderedMap.ToMap(reg)[id := DownloadInfo(filename, StartingStatus, 0, url)]
    ensures OrderedMap.Keys(r) == if OrderedMap.Has(reg, id) then OrderedMap.Keys(reg) else OrderedMap.Keys(reg) + [id]
    ensures |r| <= |reg| + 1
  {
    var info := DownloadInfo(filename, StartingStatus, 0, url);
    assert OrderedMap.Valid(reg) ==> (OrderedMap.Valid(OrderedMap.Set(reg, id, info))
      && OrderedMap.ToMap(OrderedMap.Set(reg, id, info)) == OrderedMap.ToMap(reg)[id := info]) by {
      if OrderedMap.Valid(reg) { OrderedMap.SetBinds(reg, id, info); }
    }
    OrderedMap.Set(reg, id, info)
  }

  /**
   * The per-chunk update: nothing happens for an id no longer registered;
   * otherwise only that entry's status and progress change, and it keeps its
   * place, filename and url.
   */
  function Progressed(reg: Registry, id: string, downloaded: nat, total: nat, formatBytes: nat -> string): (r: Registry)
    requires OrderedMap.Valid(reg)
    ensures !OrderedMap.Has(reg, id) ==> r == reg
    ensures |r| == |reg| && OrderedMap.Keys(r) == OrderedMap.Keys(reg)
    ensures forall i :: 0 <= i < |reg| ==>
              && r[i].1.filename == reg[i].1.filename
              && r[i].1.url == reg[i].1.url
              && (reg[i].0 != id ==> r[i] == reg[i])
              && (reg[i].0 == id ==>
                    r[i].1.progress == ProgressPercent(downloaded, total)
                    && r[i].1.status == ProgressStatus(downloaded, total, formatBytes))
  {
    if OrderedMap.Has(reg, id) then
      var i := OrderedMap.IndexOf(OrderedMap.Keys(reg), id);
      var info := OrderedMap.Get(reg, id);
      var r := OrderedMap.Set(reg, id, info.(status := ProgressStatus(downloaded, total, formatBytes),
                                            progress := ProgressPercent(downloaded, total)));
      assert forall j :: 0 <= j < |reg| && reg[j].0 == id ==> j == i by {
        forall j | 0 <= j < |reg| && reg[j].0 == id ensures j == i {
          assert OrderedMap.Keys(reg)[j] == id;
        }
      }
      r
    else reg
  }

  /** A failure records `Failed: <message>` at 0% under the download's own filename and url. */
  function Failed(reg: Registry, id: string, filename: string, url: string, message: string): (r: Registry)
    ensures OrderedMap.Valid(reg) ==>
              OrderedMap.Valid(r) && OrderedMap.ToMap(r) == OrderedMap.ToMap(reg)[id := DownloadInfo(filename, "Failed: " + message, 0, url)]
    ensures OrderedMap.Keys(r) == if OrderedMap.Has(reg, id) then OrderedMap.Keys(reg) else OrderedMap.Keys(reg) + [id]
  {
    var info := DownloadInfo(filename, "Failed: " + message, 0, url);
    assert OrderedMap.Valid(reg) ==> (OrderedMap.Valid(OrderedMap.Set(reg, id, info))
      && OrderedMap.ToMap(OrderedMap.Set(reg, id, info)) == OrderedMap.ToMap(reg)[id := info]) by {
      if OrderedMap.Valid(reg) { OrderedMap.SetBinds(reg, id, info); }
    }
    OrderedMap.Set(reg, id, info)
  }

  /** Completion, and the end of a failed entry's grace period, delete the entry. */
  function Removed(reg: Registry, id: string): (r: Registry)
    ensures OrderedMap.Valid(reg) ==> OrderedMap.Valid(r) && OrderedMap.ToMap(r) == OrderedMap.ToMap(reg) - {id}
    ensures |r| == if OrderedMap.Has(reg, id) then |reg| - 1 else |reg|
  {
    assert OrderedMap.Valid(reg) ==> (OrderedMap.Valid(OrderedMap.Delete(reg, id))
      && OrderedMap.ToMap(OrderedMap.Delete(reg, id)) == OrderedMap.ToMap(reg) - {id}) by {
      if OrderedMap.Valid(reg) { OrderedMap.DeleteUnbinds(reg, id); }
    }
    OrderedMap.Delete(reg, id)
  }

  /** A download with a fresh id that completes leaves the registry exactly as it found it. */
  lemma CompletedLeavesNoTrace(reg: Registry, id: string, filename: string, url: string)
    requires !OrderedMap.Has(reg, id)
    ensures Removed(Started(reg, id, filename, url), id) == reg
  {
    var s := Started(reg, id, filename, url);
    assert s == reg + [(id, DownloadInfo(filename, StartingStatus, 0, url))];
    assert OrderedMap.Keys(s)[|reg|] == id;
    assert OrderedMap.IndexOf(OrderedMap.Keys(s), id) == |reg|;
    assert s[..|reg|] == reg;
  }

  /** A failed entry keeps its place and counts towards the capacity until its grace period ends. */
  lemma FailedKeepsItsSlot(reg: Registry, id: string, filename: string, url: string, message: string)
    requires OrderedMap.Valid(reg) && OrderedMap.Has(reg, id)
    ensures |Failed(reg, id, filename, url, message)| == |reg|
    ensures |Removed(Failed(reg, id, filename, url, message), id)| == |reg| - 1
  {
  }

  /** A listing of the registry: one element per entry, in insertion order. */
  function Listing(reg: Registry): (list: seq<ActiveDownload>)
    ensures |list| == |reg|
    ensures forall i :: 0 <= i < |reg| ==> list[i].id == reg[i].0 && list[i].Info() == reg[i].1
  {
    if reg == [] then []
    else [ActiveDownload(reg[0].0, reg[0].1.filename, reg[0].1.status, reg[0].1.progress, reg[0].1.url)] + Listing(reg[1..])
  }

  // ---- responses ---------------------------------------------------------------------------

  /** The parts of an HTTP response the engine reads; an absent or unparsable content-length is 0. */
  datatype Response = Response(statusCode: int, statusMessage: string, location: Option<string>, contentLength: nat)

  datatype ResponseAction = FollowRedirect(location: Option<string>) | StreamBody(totalBytes: nat) | Reject(message: string)

  /** 301 and 302 follow `location`, only 200 streams the body, anything else fails. */
  function ClassifyResponse(response: Response): (a: ResponseAction)
    ensures a.FollowRedirect? <==> response.statusCode == 301 || response.statusCode == 302
    ensures a.FollowRedirect? ==> a.location == response.location
    ensures a.StreamBody? <==> response.statusCode == 200
    ensures a.StreamBody? ==> a.totalBytes == response.contentLength
    ensures a.Reject? ==> a.message == "HTTP " + IntToString(response.statusCode) + ": " + response.statusMessage
  {
    if response.statusCode == 302 || response.statusCode == 301 then FollowRedirect(response.location)
    else if response.statusCode != 200 then
      Reject("HTTP " + IntToString(response.statusCode) + ": " + response.statusMessage)
    else StreamBody(response.contentLength)
  }

  // ---- the service --------------------------------------------------------------------------

  class DownloadService {
    const maxConcurrentDownloads: nat
    var activeDownloads: Registry

    ghost predicate Valid()
      reads this
    {
      OrderedMap.Valid(activeDownloads)
    }

    /** The dictionary view of the registry. */
    ghost function Downloads(): map<string, DownloadInfo>
      reads this
    {
      OrderedMap.ToMap(activeDownloads)
    }

    constructor (maxConcurrentDownloads: nat)
      ensures Valid() && activeDownloads == []
      ensures this.maxConcurrentDownloads == maxConcurrentDownloads
    {
      this.maxConcurrentDownloads := maxConcurrentDownloads;
      activeDownloads := [];
    }

    /** `canStartNewDownload`: the number of registered downloads is below the ceiling. */
    function CanStartNewDownload(): (ok: bool)
      reads this
      ensures Valid() ==> (ok <==> |Downloads()| < maxConcurrentDownloads)
    {
      assert Valid() ==> |Downloads()| == |activeDownloads| by {
        if Valid() { OrderedMap.SizeIsCount(activeDownloads); }
      }
      |activeDownloads| < maxConcurrentDownloads
    }

    /** `getActiveDownloads`: every registered download once, in insertion order, with its current record. */
    function GetActiveDownloads(): (list: seq<ActiveDownload>)
      reads this
      ensures |list| == |activeDownloads|
      ensures forall i :: 0 <= i < |list| ==> list[i].id == OrderedMap.Keys(activeDownloads)[i]
      ensures Valid() ==> forall i :: 0 <= i < |list| ==> list[i].id in Downloads() && Downloads()[list[i].id] == list[i].Info()
    {
      var list := Listing(activeDownloads);
      assert Valid() ==> forall i :: 0 <= i < |list| ==> list[i].id in Downloads() && Downloads()[list[i].id] == list[i].Info() by {
        if Valid() {
          forall i | 0 <= i < |list| ensures list[i].id in Downloads() && Downloads()[list[i].id] == list[i].Info() {
            OrderedMap.EntryIsBinding(activeDownloads, i);
          }
        }
      }
      list
    }

    /**
     * `startDownload`: refused at capacity and for a URL that does not parse,
     * with the registry untouched; otherwise the download is registered as
     * `Starting...` under the id read from the clock, with the resolved name.
     */
    method StartDownload(url: string, parsed: UrlParse, customFilename: Option<string>,
                         now: nat, timestamp: nat, existing: set<string>)
      returns (r: Result<StartResult>)
      requires Valid()
      modifies this
      ensures Valid()
      ensures !old(CanStartNewDownload()) ==> r == Failure(CapacityMessage) && activeDownloads == old(activeDownloads)
      ensures old(CanStartNewDownload()) && parsed.Invalid? ==>
                r == Failure(parsed.message) && activeDownloads == old(activeDownloads)
      ensures old(CanStartNewDownload()) && parsed.Parsed? ==>
                var id := NatToString(now);
                var name := ResolveFilename(parsed, customFilename, timestamp, existing);
                && r == Success(StartResult(id, name, "Download started: " + name))
                && activeDownloads == Started(old(activeDownloads), id, name, url)
      ensures |old(activeDownloads)| <= maxConcurrentDownloads ==> |activeDownloads| <= maxConcurrentDownloads
    {
      if !CanStartNewDownload() {
        return Failure(CapacityMessage);
      }
      if parsed.Invalid? {
        return Failure(parsed.message);
      }
      var finalFilename := FileUtils.PreserveFileExtension(customFilename, FileUtils.GetFilenameFromUrl(parsed));
      finalFilename := FileUtils.SanitizeFilename(finalFilename);
      ChosenIsSegment(parsed, customFilename);
      var downloadId := NatToString(now);
      if Taken(finalFilename, existing) {
        finalFilename := CollisionName(finalFilename, timestamp);
      }
      assert finalFilename == ResolveFilename(parsed, customFilename, timestamp, existing);
      activeDownloads := Started(activeDownloads, downloadId, finalFilename, url);
      r := Success(StartResult(downloadId, finalFilename, "Download started: " + finalFilename));
    }

    /** `_updateProgress` */
    method UpdateProgress(downloadId: string, downloadedBytes: nat, totalBytes: nat, formatBytes: nat -> string)
      requires Valid()
      modifies this
      ensures Valid()
      ensures activeDownloads == Progressed(old(activeDownloads), downloadId, downloadedBytes, totalBytes, formatBytes)
    {
      if !OrderedMap.Has(activeDownloads, downloadId) {
        return;
      }
      activeDownloads := Progressed(activeDownloads, downloadId, downloadedBytes, totalBytes, formatBytes);
    }

    /** The success continuation: the entry is deleted. */
    method CompleteDownload(downloadId: string)
      requires Valid()
      modifies this
      ensures Valid() && activeDownloads == Removed(old(activeDownloads), downloadId)
    {
      activeDownloads := Removed(activeDownloads, downloadId);
    }

    /** The failure continuation: the entry is overwritten with the failure status. */
    method FailDownload(downloadId: string, filename: string, url: string, message: string)
      requires Valid()
      modifies this
      ensures Valid() && activeDownloads == Failed(old(activeDownloads), downloadId, filename, url, message)
    {
      activeDownloads := Failed(activeDownloads, downloadId, filename, url, message);
    }

    /** The end of a failed entry's grace period: the entry is deleted. */
    method ExpireDownload(downloadId: string)
      requires Valid()
      modifies this
      ensures Valid() && activeDownloads == Removed(old(activeDownloads), downloadId)
    {
      activeDownloads := Removed(activeDownloads, downloadId);
    }
  }

  /** One hop of a transfer that answered 200: the byte count it accumulates chunk by chunk. */
  class Transfer {
    const downloadId: string
    const totalBytes: nat
    var downloadedBytes: nat

    constructor (downloadId: string, totalBytes: nat)
      ensures this.downloadId == downloadId && this.totalBytes == totalBytes && downloadedBytes == 0
    {
      this.downloadId := downloadId;
      this.totalBytes := totalBytes;
      downloadedBytes := 0;
    }

    /** A `data` event: the count grows by the chunk's length and the registry shows the new progress. */
    method OnData(service: DownloadService, chunkLength: nat, formatBytes: nat -> string)
      requires service.Valid()
      modifies this, service
      ensures downloadedBytes == old(downloadedBytes) + chunkLength
      ensures service.Valid()
      ensures service.activeDownloads
              == Progressed(old(service.activeDownloads), downloadId, downloadedBytes, totalBytes, formatBytes)
    {
      downloadedBytes := downloadedBytes + chunkLength;
      service.UpdateProgress(downloadId, downloadedBytes, totalBytes, formatBytes);
    }
  }
}
