/**
 * The downloader's URL dispatch (`process_url`) and its two tallies
 * (`batch_download`, `download_gdrive_folder`). Network downloads, the title
 * service and the Drive API are parameters: each is an abstract outcome.
 */
module Dispatch {
  import opened Optional
  import opened Text
  import Decimal
  import UrlIds
  import FileNames

  // ---------------------------------------------------------------------
  // `str.strip()`

  /** The characters for which Python's `str.isspace()` holds. */
  predicate IsSpace(c: char) {
    || c == ' ' || ('\U{9}' <= c <= '\U{d}') || ('\U{1c}' <= c <= '\U{1f}')
    || c == '\U{85}' || c == '\U{a0}' || c == '\U{1680}' || ('\U{2000}' <= c <= '\U{200a}')
    || c == '\U{2028}' || c == '\U{2029}' || c == '\U{202f}' || c == '\U{205f}' || c == '\U{3000}'
  }

  function SkipSpaces(s: string, i: nat): (j: nat)
    requires i <= |s|
    ensures i <= j <= |s|
    ensures forall k :: i <= k < j ==> IsSpace(s[k])
    ensures j < |s| ==> !IsSpace(s[j])
    decreases |s| - i
  {
    if i < |s| && IsSpace(s[i]) then SkipSpaces(s, i + 1) else i
  }

  function TrimEnd(s: string, lo: nat, j: nat): (r: nat)
    requires lo <= j <= |s|
    ensures lo <= r <= j
    ensures forall k :: r <= k < j ==> IsSpace(s[k])
    ensures r > lo ==> !IsSpace(s[r - 1])
    decreases j
  {
    if j > lo && IsSpace(s[j - 1]) then TrimEnd(s, lo, j - 1) else j
  }

  /** `s.strip()`: the slice between the leading and the trailing white space. */
  function Strip(s: string): (r: string)
    ensures |r| > 0 ==> !IsSpace(r[0]) && !IsSpace(r[|r| - 1])
    ensures |r| == 0 <==> forall k :: 0 <= k < |s| ==> IsSpace(s[k])
  {
    var i := SkipSpaces(s, 0);
    var j := TrimEnd(s, i, |s|);
    s[i..j]
  }

  /** The strip is the slice left once leading and trailing white space are dropped. */
  lemma StripSlice(s: string)
    ensures exists i, j ::
      && 0 <= i <= j <= |s| && Strip(s) == s[i..j]
      && (forall k :: 0 <= k < i ==> IsSpace(s[k]))
      && (forall k :: j <= k < |s| ==> IsSpace(s[k]))
  {
    var i := SkipSpaces(s, 0);
    var j := TrimEnd(s, i, |s|);
    assert Strip(s) == s[i..j];
  }

  /** Stripping a second time changes nothing. */
  lemma StripIdempotent(s: string)
    ensures Strip(Strip(s)) == Strip(s)
  {
    var r := Strip(s);
    StripKeepsTrimmed(r);
  }

  /** A string with no white space at either end is its own strip. */
  lemma StripKeepsTrimmed(s: string)
    requires |s| > 0 ==> !IsSpace(s[0]) && !IsSpace(s[|s| - 1])
    ensures Strip(s) == s
  {
    assert SkipSpaces(s, 0) == 0;
    assert TrimEnd(s, 0, |s|) == |s|;
  }

  // ---------------------------------------------------------------------
  // Routing

  /** Which downloader `process_url` hands the URL to, and with what. */
  datatype Route =
    | EmptyUrl
    | Zoom(url: string, name: string)
    | CdnMedia(url: string, id: string, title: string)
    | LmsPage(id: string, url: string, title: string)
    | DriveFolder
    | Unrecognised
  {
    predicate Downloads() {
      Zoom? || CdnMedia? || LmsPage?
    }
  }

  const ZoomHost: string := "zoom.us"
  const LmsPath: string := "kucom.korea.ac.kr/em/"

  /** `title or f"Lecture_{index}"` over the title service's answer. */
  function TitleOr(found: Option<string>, index: nat): (t: string)
    ensures |t| > 0
    ensures found.Some? && found.value != [] ==> t == found.value
    ensures found.None? || found.value == [] ==> t == "Lecture_" + Decimal.Show(index)
  {
    if found.Some? && found.value != [] then found.value else "Lecture_" + Decimal.Show(index)
  }

  /** The tail of `process_url` reached when no earlier branch returned. */
  function DriveOrNothing(u: string): Route {
    if Occurs(u, "drive.google.com") && Occurs(u, "folders") then DriveFolder else Unrecognised
  }

  /**
   * The branches of `process_url` after stripping, in the order they are
   * tried: only the empty line is rejected as empty; any URL naming Zoom goes
   * to yt-dlp; the CDN branch downloads the URL itself under the id it
   * carries; the LMS branch builds a CDN URL from which the same id reads
   * back; a Drive folder needs both of its markers.
   */
  function Classify(u: string, index: nat, titles: string -> Option<string>): (r: Route)
    ensures r == EmptyUrl <==> u == []
    ensures r.Zoom? <==> u != [] && Occurs(u, ZoomHost)
    ensures r.Zoom? ==> r == Zoom(u, "Zoom_Recording_" + Decimal.Show(index))
    ensures r.CdnMedia? ==>
      && r.url == u && Occurs(u, UrlIds.CdnHost) && !Occurs(u, ZoomHost)
      && UrlIds.ContentIdFromMedia(u) == Some(r.id)
      && r.title == TitleOr(titles(r.id), index)
    ensures r.LmsPage? ==>
      && !Occurs(u, UrlIds.CdnHost) && Occurs(u, LmsPath) && !Occurs(u, ZoomHost)
      && UrlIds.ContentIdFromPage(u) == Some(r.id)
      && UrlIds.ContentIdFromMedia(r.url) == Some(r.id)
      && r.title == TitleOr(titles(r.id), index)
    ensures r == DriveFolder ==> Occurs(u, "drive.google.com") && Occurs(u, "folders") && !Occurs(u, ZoomHost)
    ensures u != [] && !Occurs(u, ZoomHost) && Occurs(u, UrlIds.CdnHost) && UrlIds.ContentIdFromMedia(u).Some? ==>
      var id := UrlIds.ContentIdFromMedia(u).value;
      r == CdnMedia(u, id, TitleOr(titles(id), index))
    ensures u != [] && !Occurs(u, ZoomHost) && !Occurs(u, UrlIds.CdnHost) && Occurs(u, LmsPath)
            && UrlIds.ContentIdFromPage(u).Some? ==>
      var id := UrlIds.ContentIdFromPage(u).value;
      r == LmsPage(id, UrlIds.MediaUrlFor(id), TitleOr(titles(id), index))
    ensures r == Unrecognised <==>
      && u != [] && !Occurs(u, ZoomHost)
      && (Occurs(u, UrlIds.CdnHost) ==> UrlIds.ContentIdFromMedia(u).None?)
      && (!Occurs(u, UrlIds.CdnHost) && Occurs(u, LmsPath) ==> UrlIds.ContentIdFromPage(u).None?)
      && !(Occurs(u, "drive.google.com") && Occurs(u, "folders"))
  {
    if u == [] then EmptyUrl
    else if Occurs(u, ZoomHost) then Zoom(u, "Zoom_Recording_" + Decimal.Show(index))
    else if Occurs(u, UrlIds.CdnHost) then
      match UrlIds.ContentIdFromMedia(u)
      case Some(id) => CdnMedia(u, id, TitleOr(titles(id), index))
      case None => DriveOrNothing(u)
    else if Occurs(u, LmsPath) then
      match UrlIds.ContentIdFromPage(u)
      case Some(id) => LmsPage(id, UrlIds.MediaUrlFor(id), TitleOr(titles(id), index))
      case None => DriveOrNothing(u)
    else DriveOrNothing(u)
  }

  /**
   * `process_url` up to the download call. `titles` is the title service
   * (`get_video_title_from_api`), `None` when it fails.
   */
  function RouteOf(raw: string, index: nat, titles: string -> Option<string>): Route {
    Classify(Strip(raw), index, titles)
  }

  /** An empty or all-blank line is rejected, and only such a line. */
  lemma RouteEmpty(raw: string, index: nat, titles: string -> Option<string>)
    ensures RouteOf(raw, index, titles) == EmptyUrl <==> forall k :: 0 <= k < |raw| ==> IsSpace(raw[k])
  {
  }

  /** A URL naming the CDN host is never treated as an LMS page, even without an id. */
  lemma CdnNeverLms(u: string, index: nat, titles: string -> Option<string>)
    requires Occurs(u, UrlIds.CdnHost)
    ensures !Classify(u, index, titles).LmsPage?
    ensures !Occurs(u, ZoomHost) && UrlIds.ContentIdFromMedia(u).None? ==>
      Classify(u, index, titles) == DriveOrNothing(u)
  {
    OccursNonEmpty(u, UrlIds.CdnHost);
  }

  lemma OccursNonEmpty(s: string, pat: string)
    requires |pat| > 0 && Occurs(s, pat)
    ensures s != []
  {
    OccursSpec(s, pat);
  }

  /** A Drive folder is only recognised when no earlier branch took the URL. */
  lemma DriveFolderRoute(u: string, index: nat, titles: string -> Option<string>)
    ensures Classify(u, index, titles) == DriveFolder ==>
      && Occurs(u, "drive.google.com") && Occurs(u, "folders") && !Occurs(u, ZoomHost)
    ensures Classify(u, index, titles) == DriveFolder <==>
      && Occurs(u, "drive.google.com") && Occurs(u, "folders") && !Occurs(u, ZoomHost)
      && (Occurs(u, UrlIds.CdnHost) ==> UrlIds.ContentIdFromMedia(u).None?)
      && (!Occurs(u, UrlIds.CdnHost) && Occurs(u, LmsPath) ==> UrlIds.ContentIdFromPage(u).None?)
  {
    if Occurs(u, "folders") {
      OccursNonEmpty(u, "folders");
    }
  }

  // ---------------------------------------------------------------------
  // `process_url` and `batch_download`

  /** The sentinel path `process_url` returns for a Drive folder. */
  const DriveSentinel: string := "GDRIVE_FOLDER"

  /**
   * What `process_url` returns once the route is known. `fetch` is the
   * download the route asks for: the saved path, or `None` when it failed.
   */
  function Outcome(route: Route, fetch: Route -> Option<string>): (r: (bool, Option<string>))
    ensures r.0 <==> route.Downloads() && fetch(route).Some?
    ensures r.0 ==> r.1 == fetch(route)
    ensures route == DriveFolder ==> r == (false, Some(DriveSentinel))
    ensures !r.0 && route != DriveFolder ==> r.1 == None
  {
    match route
    case EmptyUrl => (false, None)
    case DriveFolder => (false, Some(DriveSentinel))
    case Unrecognised => (false, None)
    case _ =>
      var got := fetch(route);
      if got.Some? then (true, got) else (false, None)
  }

  /**
   * `process_url(url, index)`: a blank line fails without a path; the URL
   * succeeds exactly when it is routed to a downloader and that download
   * succeeds; the failure carrying the Drive sentinel is exactly the Drive
   * folder route.
   */
  function ProcessUrl(raw: string, index: nat, titles: string -> Option<string>,
                      fetch: Route -> Option<string>): (r: (bool, Option<string>))
    ensures (forall k :: 0 <= k < |raw| ==> IsSpace(raw[k])) ==> r == (false, None)
    ensures r.0 <==> RouteOf(raw, index, titles).Downloads() && fetch(RouteOf(raw, index, titles)).Some?
    ensures r.0 ==> r.1 == fetch(RouteOf(raw, index, titles))
    ensures (!r.0 && r.1 == Some(DriveSentinel)) <==> RouteOf(raw, index, titles) == DriveFolder
  {
    RouteEmpty(raw, index, titles);
    Outcome(RouteOf(raw, index, titles), fetch)
  }

  /** Number of `true` entries. */
  function CountTrue(bs: seq<bool>): (n: nat)
    ensures n <= |bs|
    decreases |bs|
  {
    if |bs| == 0 then 0 else (if bs[0] then 1 else 0) + CountTrue(bs[1..])
  }

  lemma {:induction false} CountTrueSnoc(bs: seq<bool>, b: bool)
    ensures CountTrue(bs + [b]) == CountTrue(bs) + (if b then 1 else 0)
    decreases |bs|
  {
    if |bs| == 0 {
      assert bs + [b] == [b];
    } else {
      assert (bs + [b])[1..] == bs[1..] + [b];
      CountTrueSnoc(bs[1..], b);
    }
  }

  /**
   * The loop of `batch_download` over any per-URL step: URL `i` (from 1) is
   * processed, its flag recorded, and the matching tally incremented.
   */
  method Tally(urls: seq<string>, step: (string, nat) -> bool)
    returns (successful: nat, failed: nat, oks: seq<bool>)
    ensures |oks| == |urls|
    ensures forall i :: 0 <= i < |urls| ==> oks[i] == step(urls[i], i + 1)
    ensures successful == CountTrue(oks)
    ensures successful + failed == |urls|
  {
    successful, failed, oks := 0, 0, [];
    var i := 0;
    while i < |urls|
      invariant 0 <= i <= |urls|
      invariant |oks| == i
      invariant forall k :: 0 <= k < i ==> oks[k] == step(urls[k], k + 1)
      invariant successful == CountTrue(oks)
      invariant successful + failed == i
    {
      var ok := step(urls[i], i + 1);
      CountTrueSnoc(oks, ok);
      oks := oks + [ok];
      if ok {
        successful := successful + 1;
      } else {
        failed := failed + 1;
      }
      i := i + 1;
    }
  }

  /**
   * `batch_download`: every URL goes through `process_url`; `oks` holds the
   * success flags of its `results` list, and every URL is counted exactly
   * once, as a success or as a failure.
   */
  method BatchDownload(urls: seq<string>, titles: string -> Option<string>, fetch: Route -> Option<string>)
    returns (successful: nat, failed: nat, oks: seq<bool>)
    ensures |oks| == |urls|
    ensures forall i :: 0 <= i < |urls| ==> oks[i] == UrlOk(titles, fetch)(urls[i], i + 1)
    ensures successful == CountTrue(oks)
    ensures successful + failed == |urls|
  {
    successful, failed, oks := Tally(urls, UrlOk(titles, fetch));
  }

  /** The success flag `process_url` returns for a URL and its 1-based index. */
  function UrlOk(titles: string -> Option<string>, fetch: Route -> Option<string>): (string, nat) -> bool {
    (u: string, i: nat) => ProcessUrl(u, i, titles, fetch).0
  }

  /** In batch mode a Drive-folder URL is tallied as a failure. */
  lemma DriveFolderFailsInBatch(raw: string, index: nat, titles: string -> Option<string>,
                                fetch: Route -> Option<string>)
    requires RouteOf(raw, index, titles) == DriveFolder
    ensures ProcessUrl(raw, index, titles, fetch) == (false, Some(DriveSentinel))
    ensures !UrlOk(titles, fetch)(raw, index)
  {
  }

  // ---------------------------------------------------------------------
  // `download_gdrive_folder`

  /** One listed Drive file: `(file_id, file_name, file_path, mime_type)`. */
  datatype DriveFile = DriveFile(id: string, name: string, path: string, mime: string)

  const GoogleAppsPrefix: string := "application/vnd.google-apps."

  /** Google Docs, Sheets and the like cannot be downloaded as files. */
  predicate IsGoogleApps(f: DriveFile) {
    StartsAt(f.mime, GoogleAppsPrefix, 0)
  }

  /** Number of listed files that are actually downloaded. */
  function Downloadable(files: seq<DriveFile>): nat
    decreases |files|
  {
    if |files| == 0 then 0
    else (if IsGoogleApps(files[0]) then 0 else 1) + Downloadable(files[1..])
  }

  /** Number of downloaded files whose download succeeded. */
  function Fetched(files: seq<DriveFile>, fetchFile: DriveFile -> bool): nat
    decreases |files|
  {
    if |files| == 0 then 0
    else (if !IsGoogleApps(files[0]) && fetchFile(files[0]) then 1 else 0) + Fetched(files[1..], fetchFile)
  }

  lemma {:induction false} TallySnoc(files: seq<DriveFile>, f: DriveFile, fetchFile: DriveFile -> bool)
    ensures Downloadable(files + [f]) == Downloadable(files) + (if IsGoogleApps(f) then 0 else 1)
    ensures Fetched(files + [f], fetchFile) == Fetched(files, fetchFile) + (if !IsGoogleApps(f) && fetchFile(f) then 1 else 0)
    decreases |files|
  {
    if |files| == 0 {
      assert files + [f] == [f];
    } else {
      assert (files + [f])[1..] == files[1..] + [f];
      TallySnoc(files[1..], f, fetchFile);
    }
  }

  /**
   * `download_gdrive_folder`. `serviceReady` says whether authentication
   * produced a service, `infoReadable` whether the folder's metadata could
   * be read, `listing` is what the recursive listing returned and
   * `fetchFile` whether one file's download succeeded.
   */
  method FolderDownload(url: string, serviceReady: bool, infoReadable: bool,
                        listing: seq<DriveFile>, fetchFile: DriveFile -> bool)
    returns (successful: nat, failed: nat)
    ensures UrlIds.DriveFolderId(url).None? || !serviceReady || !infoReadable ==> (successful, failed) == (0, 1)
    ensures UrlIds.DriveFolderId(url).Some? && serviceReady && infoReadable ==>
      && successful + failed == Downloadable(listing)
      && successful == Fetched(listing, fetchFile)
  {
    if UrlIds.DriveFolderId(url).None? || !serviceReady || !infoReadable {
      return 0, 1;
    }
    if |listing| == 0 {
      return 0, 0;
    }
    successful, failed := 0, 0;
    var i := 0;
    while i < |listing|
      invariant 0 <= i <= |listing|
      invariant successful + failed == Downloadable(listing[..i])
      invariant successful == Fetched(listing[..i], fetchFile)
    {
      var f := listing[i];
      assert listing[..i + 1] == listing[..i] + [f];
      TallySnoc(listing[..i], f, fetchFile);
      if !IsGoogleApps(f) {
        if fetchFile(f) {
          successful := successful + 1;
        } else {
          failed := failed + 1;
        }
      }
      i := i + 1;
    }
    assert listing[..i] == listing;
  }

  /** Skipped files are in neither tally: a listing of only Google Docs reports (0, 0). */
  lemma {:induction false} OnlyGoogleAppsCountsNothing(files: seq<DriveFile>, fetchFile: DriveFile -> bool)
    requires forall k :: 0 <= k < |files| ==> IsGoogleApps(files[k])
    ensures Downloadable(files) == 0 && Fetched(files, fetchFile) == 0
    decreases |files|
  {
    if |files| > 0 {
      OnlyGoogleAppsCountsNothing(files[1..], fetchFile);
    }
  }
}
