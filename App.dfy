/**
 * The logic of the web page that is not DOM work: merging the two download
 * listings into one, how each entry is flagged and which icon it gets, the
 * check of a typed URL, and the guard in front of a torrent request.
 */
module App {
  import opened Wrappers
  import opened Js
  import FileUtils
  import Downloads
  import TorrentSession

  /** One entry of the merged list; the constructor is its `type`. */
  datatype DisplayItem =
    | Direct(download: Downloads.ActiveDownload)
    | Torrent(filename: string, status: string, progress: int)
  {
    function Filename(): string {
      match this
      case Direct(d) => d.filename
      case Torrent(name, _, _) => name
    }
    function Status(): string {
      match this
      case Direct(d) => d.status
      case Torrent(_, status, _) => status
    }
    function Progress(): int {
      match this
      case Direct(d) => d.progress
      case Torrent(_, _, progress) => progress
    }
  }

  /** The status line a torrent gets: `<state> - <progress>% (<downloadSpeed>)`. */
  function TorrentStatus(t: TorrentSession.TorrentView): string {
    t.state + " - " + IntToString(t.progress) + "% (" + t.downloadSpeed + ")"
  }

  function TagDirect(ds: seq<Downloads.ActiveDownload>): (items: seq<DisplayItem>)
    ensures |items| == |ds| && forall i :: 0 <= i < |ds| ==> items[i] == Direct(ds[i])
  {
    seq(|ds|, i requires 0 <= i < |ds| => Direct(ds[i]))
  }

  function Reshape(t: TorrentSession.TorrentView): DisplayItem {
    Torrent(t.name, TorrentStatus(t), t.progress)
  }

  function TagTorrents(ts: seq<TorrentSession.TorrentView>): (items: seq<DisplayItem>)
    ensures |items| == |ts| && forall i :: 0 <= i < |ts| ==> items[i] == Reshape(ts[i])
  {
    seq(|ts|, i requires 0 <= i < |ts| => Reshape(ts[i]))
  }

  /** A listing whose response was not `ok` counts as empty. */
  function OrEmpty<T>(listing: Option<seq<T>>): seq<T> {
    if listing.Some? then listing.value else []
  }

  /**
   * The merge in `updateDownloads`: the direct downloads, tagged, then the
   * torrents, reshaped; `None` stands for a response that was not `ok`.
   */
  function MergeDownloads(downloads: Option<seq<Downloads.ActiveDownload>>,
                          torrents: Option<seq<TorrentSession.TorrentView>>): seq<DisplayItem> {
    TagDirect(OrEmpty(downloads)) + TagTorrents(OrEmpty(torrents))
  }

  /** The tagged direct downloads come first, in order and unchanged. */
  lemma {:induction false} DirectsFirst(ds: seq<Downloads.ActiveDownload>, ts: seq<TorrentSession.TorrentView>)
    ensures var all := TagDirect(ds) + TagTorrents(ts);
            && |all| == |ds| + |ts|
            && forall i :: 0 <= i < |ds| ==> all[i].Direct? && all[i].download == ds[i]
  {
    var all := TagDirect(ds) + TagTorrents(ts);
    forall i | 0 <= i < |ds| ensures all[i] == Direct(ds[i]) {
      assert all[i] == TagDirect(ds)[i];
    }
  }

  /** The reshaped torrents follow, in order. */
  lemma {:induction false} TorrentsAfter(ds: seq<Downloads.ActiveDownload>, ts: seq<TorrentSession.TorrentView>)
    ensures var all := TagDirect(ds) + TagTorrents(ts);
            forall j :: 0 <= j < |ts| ==> all[|ds| + j] == Reshape(ts[j])
  {
    var all := TagDirect(ds) + TagTorrents(ts);
    forall j | 0 <= j < |ts| ensures all[|ds| + j] == Reshape(ts[j]) {
      assert all[|ds| + j] == TagTorrents(ts)[j];
    }
  }

  /**
   * The merged list is every direct download, in order and unchanged, then
   * every torrent, in order, named by its `name`, with its progress and its
   * status line; its length is the sum, and a listing that failed adds nothing.
   */
  lemma MergedDownloads(downloads: Option<seq<Downloads.ActiveDownload>>,
                        torrents: Option<seq<TorrentSession.TorrentView>>)
    ensures var ds := OrEmpty(downloads);
            var ts := OrEmpty(torrents);
            var all := MergeDownloads(downloads, torrents);
            && (downloads.None? ==> ds == []) && (torrents.None? ==> ts == [])
            && |all| == |ds| + |ts|
            && (forall i :: 0 <= i < |ds| ==> all[i].Direct? && all[i].download == ds[i])
            && (forall j :: 0 <= j < |ts| ==>
                  && all[|ds| + j].Torrent?
                  && all[|ds| + j].Filename() == ts[j].name
                  && all[|ds| + j].Progress() == ts[j].progress
                  && all[|ds| + j].Status() == TorrentStatus(ts[j]))
  {
    DirectsFirst(OrEmpty(downloads), OrEmpty(torrents));
    TorrentsAfter(OrEmpty(downloads), OrEmpty(torrents));
  }

  /** What `renderDownloadItem` decides about an entry before it writes the markup. */
  datatype Flags = Flags(active: bool, completed: bool, spinner: bool, icon: string)

  const CompletedIcon: string := "\U{2705}"
  const TorrentIcon: string := "\U{1F9F2}"
  const DirectIcon: string := "\U{1F4E5}"

  function RenderFlags(item: DisplayItem): Flags {
    var active := !Includes(item.Status(), "Failed") && !Includes(item.Status(), "completed");
    var completed := Includes(item.Status(), "completed") || item.Progress() == 100;
    Flags(active, completed, active && !completed,
          if completed then CompletedIcon else if item.Torrent? then TorrentIcon else DirectIcon)
  }

  /**
   * An entry is completed when its status says `completed` or its progress
   * is 100, and active when its status says neither `Failed` nor `completed`.
   * The spinner turns exactly when the status says neither and the progress
   * is not 100; so a failed or finished entry never spins. The icon is the
   * check mark exactly for a completed entry, and otherwise tells a torrent
   * from a direct download.
   */
  lemma RenderedFlags(item: DisplayItem)
    ensures var f := RenderFlags(item);
            && (f.completed <==> Includes(item.Status(), "completed") || item.Progress() == 100)
            && (f.active <==> !Includes(item.Status(), "Failed") && !Includes(item.Status(), "completed"))
            && (f.spinner <==> !Includes(item.Status(), "Failed") && !Includes(item.Status(), "completed") && item.Progress() != 100)
            && (f.spinner ==> f.active && !f.completed)
            && (f.icon == CompletedIcon <==> f.completed)
            && (!f.completed ==> (f.icon == TorrentIcon <==> item.Torrent?))
            && (!f.completed ==> (f.icon == DirectIcon <==> item.Direct?))
  {
    assert CompletedIcon != TorrentIcon && CompletedIcon != DirectIcon && TorrentIcon != DirectIcon;
  }

  /**
   * `validateUrl`: the given URL, or else the trimmed text of the input
   * field; nothing to check is invalid, and a URL is valid when it parses with
   * protocol `http:` or `https:`. `parse` stands for `new URL(...)`.
   */
  function ValidateUrl(url: Option<string>, inputValue: string, parse: string -> UrlParse): (ok: bool)
    ensures var candidate := if Truthy(url) then url.value else FileUtils.Trim(inputValue);
            && (candidate == "" ==> !ok)
            && (candidate != "" ==>
                  (ok <==> parse(candidate).Parsed? && parse(candidate).url.protocol in {"http:", "https:"}))
  {
    var candidate := if Truthy(url) then url.value else FileUtils.Trim(inputValue);
    if candidate == "" then false
    else
      match parse(candidate)
      case Parsed(u) => u.protocol == "http:" || u.protocol == "https:"
      case Invalid(_) => false
  }

  const NoLinkMessage: string := "No download link available"

  /** What `downloadTorrent` does first: refuse a missing link, or post the link and title. */
  datatype TorrentRequest = NoLink(message: string) | PostTorrent(path: string, magnetLink: string, title: string)

  function DownloadTorrent(magnetLink: Option<string>, title: string): (r: TorrentRequest)
    ensures r.NoLink? <==> !Truthy(magnetLink)
    ensures r.NoLink? ==> r.message == NoLinkMessage
    ensures r.PostTorrent? ==> r.path == "/torrent/download" && r.magnetLink == magnetLink.value && r.title == title
  {
    if !Truthy(magnetLink) then NoLink(NoLinkMessage) else PostTorrent("/torrent/download", magnetLink.value, title)
  }
}
