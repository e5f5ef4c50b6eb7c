/**
 * The name the direct-download engine gives a new file: the cleaned-up name
 * taken from the URL or the caller, and, when the download folder already
 * holds a file of that name, the same name with `_<timestamp>` inserted in
 * front of its extension.
 */
module DownloadNames {
  import opened Wrappers
  import opened Js
  import FileUtils

  /** What a collision inserts before the extension: `_` and the timestamp's digits. */
  function CollisionMarker(timestamp: nat): (m: string)
    ensures |m| >= 2 && m[0] == '_' && IsDigits(m[1..]) && DigitsValue(m[1..]) == timestamp
    ensures FileUtils.Plain(m) && Lacks(m, '.') && Lacks(m, '/')
  {
    var m := "_" + NatToString(timestamp);
    assert m[1..] == NatToString(timestamp);
    m
  }

  /** The length of what precedes a segment's extension. */
  function StemLength(name: string): (n: nat)
    requires FileUtils.IsSegment(name)
    ensures n + |FileUtils.ExtName(name)| == |name| && name[n..] == FileUtils.ExtName(name)
  {
    |name| - |FileUtils.ExtName(name)|
  }

  /**
   * The name used when the chosen one is taken: `<stem>_<timestamp><ext>`,
   * where `ext` is the name's extension and `stem` what precedes it
   * (`path.basename(name, ext)` of a single path segment).
   */
  function CollisionName(name: string, timestamp: nat): string
    requires FileUtils.IsSegment(name)
  {
    InsertAt(name, StemLength(name), CollisionMarker(timestamp))
  }

  /**
   * The collision name is the original with the marker in front of its
   * extension: taking the marker out gives the original back, so the two differ.
   */
  lemma CollisionNameShape(name: string, timestamp: nat)
    requires FileUtils.IsSegment(name)
    ensures var r := CollisionName(name, timestamp);
            var n := StemLength(name);
            var m := CollisionMarker(timestamp);
            && |r| == |name| + |m|
            && r[..n] + r[n + |m|..] == name
            && r[n..n + |m|] == m
            && r != name
  {
    var n := StemLength(name);
    InsertAtIndex(name, n, CollisionMarker(timestamp));
    assert name[..n] + name[n..] == name;
  }

  lemma MarkerKeepsClean(name: string, n: nat, timestamp: nat)
    requires FileUtils.Clean(name) && n <= |name|
    ensures FileUtils.Clean(InsertAt(name, n, CollisionMarker(timestamp)))
  {
    FileUtils.InsertClean(name, n, CollisionMarker(timestamp));
  }

  /** A segment without extension keeps having none when a dot-free marker is appended. */
  lemma AppendKeepsNoExt(name: string, m: string)
    requires name != ".." && FileUtils.SegmentExt(name) == "" && Lacks(m, '.')
    ensures FileUtils.SegmentExt(name + m) == ""
  {
    FileUtils.LastIndexOfAppend(name, m, '.');
    assert FileUtils.LastIndexOf(name, '.') <= 0;
  }

  /** Inserting a dot-free marker in front of a segment's extension keeps the extension. */
  lemma MarkerKeepsExt(name: string, n: int, m: string)
    requires name != ".." && 0 <= n <= |name| && n + |FileUtils.SegmentExt(name)| == |name|
    requires m != [] && Lacks(m, '.')
    ensures FileUtils.SegmentExt(InsertAt(name, n, m)) == FileUtils.SegmentExt(name)
  {
    var ext := FileUtils.SegmentExt(name);
    InsertAtIndex(name, n, m);
    if ext == "" {
      assert InsertAt(name, n, m) == name + m;
      AppendKeepsNoExt(name, m);
    } else {
      assert InsertAt(name, n, m) == (name[..n] + m) + ext;
      FileUtils.SegmentExtOfSuffix(name[..n] + m, ext);
    }
  }

  /** The collision name keeps the extension (except for the name `..`, whose extension is empty). */
  lemma CollisionKeepsExtension(name: string, timestamp: nat)
    requires FileUtils.IsSegment(name) && name != ".."
    ensures FileUtils.ExtName(CollisionName(name, timestamp)) == FileUtils.ExtName(name)
  {
    var n := StemLength(name);
    var m := CollisionMarker(timestamp);
    InsertLacks(name, n, m, '/');
    MarkerKeepsExt(name, n, m);
  }

  /** The cleaned-up name before any collision check: the custom or URL name, extension kept, sanitised. */
  function ChosenName(parsed: UrlParse, customFilename: Option<string>): string {
    FileUtils.SanitizeFilename(FileUtils.PreserveFileExtension(customFilename, FileUtils.GetFilenameFromUrl(parsed)))
  }

  /** The chosen name is a single path segment. */
  lemma ChosenIsSegment(parsed: UrlParse, customFilename: Option<string>)
    ensures FileUtils.IsSegment(ChosenName(parsed, customFilename))
  {
    FileUtils.SanitizedIsClean(FileUtils.PreserveFileExtension(customFilename, FileUtils.GetFilenameFromUrl(parsed)));
    FileUtils.NoReservedIsSegment(ChosenName(parsed, customFilename));
  }

  /** A marker inserted anywhere into a sanitised name leaves it clean. */
  lemma SanitizedMarkerKeepsClean(raw: string, n: nat, timestamp: nat)
    requires n <= |FileUtils.SanitizeFilename(raw)|
    ensures FileUtils.Clean(InsertAt(FileUtils.SanitizeFilename(raw), n, CollisionMarker(timestamp)))
  {
    FileUtils.SanitizedIsClean(raw);
    MarkerKeepsClean(FileUtils.SanitizeFilename(raw), n, timestamp);
  }

  /**
   * A name whose path in the download folder exists: a file already there,
   * or `""`, `.` and `..`, which join to the folder itself (made by the
   * constructor) and to its parent.
   */
  predicate Taken(name: string, existing: set<string>) {
    name in existing || name == "" || name == "." || name == ".."
  }

  /** The name `startDownload` settles on: the chosen name, or its collision name when that one is taken. */
  function ResolveFilename(parsed: UrlParse, customFilename: Option<string>, timestamp: nat, existing: set<string>): string {
    var chosen := ChosenName(parsed, customFilename);
    assert FileUtils.IsSegment(chosen) by { ChosenIsSegment(parsed, customFilename); }
    if Taken(chosen, existing) then CollisionName(chosen, timestamp) else chosen
  }

  /**
   * The resolved name is the chosen one when that is free, and otherwise a
   * different name with the same extension (except for the name `..`, whose
   * extension is empty).
   */
  lemma ResolvedName(parsed: UrlParse, customFilename: Option<string>, timestamp: nat, existing: set<string>)
    ensures var chosen := ChosenName(parsed, customFilename);
            var name := ResolveFilename(parsed, customFilename, timestamp, existing);
            && (!Taken(chosen, existing) ==> name == chosen)
            && (Taken(chosen, existing) ==>
                  name != chosen && (chosen != ".." ==> FileUtils.ExtName(name) == FileUtils.ExtName(chosen)))
            && name != "" && name != "." && name != ".."
  {
    var chosen := ChosenName(parsed, customFilename);
    ChosenIsSegment(parsed, customFilename);
    CollisionNameShape(chosen, timestamp);
    if chosen != ".." {
      CollisionKeepsExtension(chosen, timestamp);
    }
  }

  /** The resolved name is clean, whether or not it had to avoid a taken name. */
  lemma ResolvedNameIsClean(parsed: UrlParse, customFilename: Option<string>, timestamp: nat, existing: set<string>)
    ensures FileUtils.Clean(ResolveFilename(parsed, customFilename, timestamp, existing))
  {
    var raw := FileUtils.PreserveFileExtension(customFilename, FileUtils.GetFilenameFromUrl(parsed));
    var chosen := ChosenName(parsed, customFilename);
    ChosenIsSegment(parsed, customFilename);
    if Taken(chosen, existing) {
      SanitizedMarkerKeepsClean(raw, StemLength(chosen), timestamp);
    } else {
      FileUtils.SanitizedIsClean(raw);
    }
  }
}
