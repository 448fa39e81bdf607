/**
 * Identifier extraction from the downloader's URLs. Each regular expression
 * of the script is a literal marker followed by a greedy run of one
 * character class and an optional anchor; `re.search` takes the leftmost
 * start position at which the whole pattern matches.
 */
module UrlIds {
  import opened Optional
  import opened Text

  /** `[a-f0-9]` and `[a-zA-Z0-9_-]`. */
  datatype CharClass = LowerHex | DriveIdChar

  predicate InClass(c: char, k: CharClass) {
    match k
    case LowerHex => '0' <= c <= '9' || 'a' <= c <= 'f'
    case DriveIdChar => '0' <= c <= '9' || 'a' <= c <= 'z' || 'A' <= c <= 'Z' || c == '_' || c == '-'
  }

  predicate AllInClass(s: string, k: CharClass) {
    forall i :: 0 <= i < |s| ==> InClass(s[i], k)
  }

  /** What must follow the run: nothing in particular, a `/`, or the end (`$`). */
  datatype Anchor = NoAnchor | SlashAfter | AtEnd

  /** A regular expression `marker([class]+)anchor`. */
  datatype Pattern = Pattern(marker: string, run: CharClass, anchor: Anchor)

  /** End of the longest run of class `k` starting at `i` (greedy `+`/`*`). */
  function RunEnd(s: string, i: nat, k: CharClass): (j: nat)
    requires i <= |s|
    ensures i <= j <= |s|
    ensures AllInClass(s[i..j], k)
    ensures j < |s| ==> !InClass(s[j], k)
    decreases |s| - i
  {
    if i < |s| && InClass(s[i], k) then
      var j := RunEnd(s, i + 1, k);
      assert s[i..j] == [s[i]] + s[i + 1..j];
      j
    else i
  }

  /** A run of class `k` from `i` up to `j` that cannot be extended stops at `RunEnd`. */
  lemma {:induction false} RunEndExact(s: string, i: nat, j: nat, k: CharClass)
    requires i <= j <= |s| && AllInClass(s[i..j], k)
    requires j < |s| ==> !InClass(s[j], k)
    ensures RunEnd(s, i, k) == j
    decreases j - i
  {
    if i < j {
      assert s[i] == s[i..j][0];
      assert s[i + 1..j] == s[i..j][1..];
      RunEndExact(s, i + 1, j, k);
    }
  }

  /** The whole pattern matches with its marker at position `i`. */
  predicate MatchAt(s: string, p: Pattern, i: nat) {
    && StartsAt(s, p.marker, i)
    && var j := RunEnd(s, i + |p.marker|, p.run);
      && j > i + |p.marker|
      && match p.anchor
         case NoAnchor => true
         case SlashAfter => j < |s| && s[j] == '/'
         case AtEnd => j == |s|
  }

  /** Leftmost match position at or after `from`. */
  function FirstMatch(s: string, p: Pattern, from: nat): (r: Option<nat>)
    ensures r.Some? ==> from <= r.value && MatchAt(s, p, r.value)
    ensures r.Some? ==> forall i :: from <= i < r.value ==> !MatchAt(s, p, i)
    ensures r.None? ==> forall i :: from <= i ==> !MatchAt(s, p, i)
    decreases |s| - from
  {
    if from > |s| then None
    else if MatchAt(s, p, from) then Some(from)
    else FirstMatch(s, p, from + 1)
  }

  /** `i` is the leftmost position at which `p` matches in `s`. */
  predicate LeftmostMatch(s: string, p: Pattern, i: nat) {
    MatchAt(s, p, i) && forall j: nat :: j < i ==> !MatchAt(s, p, j)
  }

  /** The captured run, `group(1)`, of a match at `i`. */
  function Group(s: string, p: Pattern, i: nat): string
    requires MatchAt(s, p, i)
  {
    s[i + |p.marker|..RunEnd(s, i + |p.marker|, p.run)]
  }

  /**
   * `re.search(p, s).group(1)`, or `None`: there is no result exactly when
   * the pattern matches nowhere, and otherwise the result is the greedy run
   * after the marker at the leftmost match.
   */
  function Search(s: string, p: Pattern): (r: Option<string>)
    ensures r.None? <==> forall i: nat :: !MatchAt(s, p, i)
    ensures r.Some? ==> exists i: nat :: LeftmostMatch(s, p, i) && r.value == Group(s, p, i)
    ensures r.Some? ==> |r.value| > 0 && AllInClass(r.value, p.run)
  {
    match FirstMatch(s, p, 0)
    case None => None
    case Some(i) =>
      assert LeftmostMatch(s, p, i);
      Some(Group(s, p, i))
  }

  // ---------------------------------------------------------------------
  // LMS page URLs: `/em/([a-f0-9]+)$`

  const PagePattern: Pattern := Pattern("/em/", LowerHex, AtEnd)

  /** Without MULTILINE, `$` matches at the end or just before a final newline. */
  function BeforeFinalNewline(url: string): string {
    if |url| > 0 && url[|url| - 1] == '\n' then url[..|url| - 1] else url
  }

  /**
   * `extract_content_id_from_url`: a found id is non-empty lower-case hex
   * and ends the URL (less a final newline) after `/em/`; no id is found
   * exactly when the URL ends in no such id.
   */
  function ContentIdFromPage(url: string): (r: Option<string>)
    ensures r.Some? ==> |r.value| > 0 && AllInClass(r.value, LowerHex) && EndsWith(BeforeFinalNewline(url), "/em/" + r.value)
    ensures r.None? ==> forall id :: |id| > 0 && AllInClass(id, LowerHex) ==> !EndsWith(BeforeFinalNewline(url), "/em/" + id)
  {
    var s := BeforeFinalNewline(url);
    PageSearchFound(s);
    PageSearchNone(s);
    Search(s, PagePattern)
  }

  /** After a match of `/em/…$`, no later position holds `/em/`. */
  lemma NoLaterPageMarker(s: string, i0: nat, i: nat)
    requires MatchAt(s, PagePattern, i0) && i0 < i
    ensures !StartsAt(s, "/em/", i)
  {
    var run := s[i0 + 4..|s|];
    StartsAtChar(s, "/em/", i, 0);
    StartsAtChar(s, "/em/", i, 2);
    assert RunEnd(s, i0 + 4, LowerHex) == |s|;
    assert s[i0..i0 + 4] == "/em/";
    if i0 + 4 <= i < |s| {
      assert s[i] == run[i - i0 - 4];
      assert s[i] != '/';
    } else if i == i0 + 3 && i + 2 < |s| {
      assert s[i + 2] == run[1];
      assert s[i + 2] != 'm';
    } else if i < i0 + 3 {
      assert s[i] == s[i0..i0 + 4][i - i0];
      assert s[i] != '/';
    }
  }

  /** At most one position is followed by `/em/` and hex up to the end. */
  lemma PageMatchUnique(s: string, i0: nat, i: nat)
    requires MatchAt(s, PagePattern, i0) && StartsAt(s, "/em/", i) && i0 <= i
    ensures i0 == i
  {
    if i0 < i {
      NoLaterPageMarker(s, i0, i);
      assert false;
    }
  }

  /** An id found by the page pattern is what follows `/em/` up to the end. */
  lemma PageSearchFound(s: string)
    ensures Search(s, PagePattern).Some? ==>
      var r := Search(s, PagePattern).value;
      |r| > 0 && AllInClass(r, LowerHex) && EndsWith(s, "/em/" + r)
  {
    if Search(s, PagePattern).Some? {
      var i := FirstMatch(s, PagePattern, 0).value;
      assert MatchAt(s, PagePattern, i);
      assert RunEnd(s, i + 4, LowerHex) == |s|;
      assert Search(s, PagePattern).value == s[i + 4..];
      PageFound(s, i);
    }
  }

  /** A page match at `i` is `/em/` followed by the hex run to the end. */
  lemma PageFound(s: string, i: nat)
    requires MatchAt(s, PagePattern, i)
    ensures EndsWith(s, "/em/" + s[i + 4..])
  {
    assert s[i..i + 4] == "/em/";
    assert s[i..] == s[i..i + 4] + s[i + 4..];
  }

  /** A string ending in `/em/` and a hex id yields that id. */
  lemma PageSearchComplete(s: string, r: string)
    requires |r| > 0 && AllInClass(r, LowerHex) && EndsWith(s, "/em/" + r)
    ensures Search(s, PagePattern) == Some(r)
  {
    var i := |s| - |r| - 4;
    assert s[i..] == "/em/" + r;
    assert s[i..i + 4] == "/em/" && s[i + 4..] == r;
    RunEndExact(s, i + 4, |s|, LowerHex);
    assert MatchAt(s, PagePattern, i);
    assert FirstMatch(s, PagePattern, 0).Some?;
    var i0 := FirstMatch(s, PagePattern, 0).value;
    PageMatchUnique(s, i0, i);
    assert RunEnd(s, i + 4, LowerHex) == |s|;
    assert s[i + 4..|s|] == r;
  }

  /** Without a match, the string ends in no `/em/` and hex id. */
  lemma PageSearchNone(s: string)
    ensures Search(s, PagePattern).None? ==>
      forall id :: |id| > 0 && AllInClass(id, LowerHex) ==> !EndsWith(s, "/em/" + id)
  {
    forall id | |id| > 0 && AllInClass(id, LowerHex) && EndsWith(s, "/em/" + id)
      ensures Search(s, PagePattern) == Some(id)
    {
      PageSearchComplete(s, id);
    }
  }

  /**
   * The page id is `r` exactly when the URL (less a final newline) ends with
   * `/em/` followed by the non-empty lower-case hex string `r`.
   */
  lemma ContentIdFromPageSpec(url: string, r: string)
    ensures ContentIdFromPage(url) == Some(r) <==>
      |r| > 0 && AllInClass(r, LowerHex) && EndsWith(BeforeFinalNewline(url), "/em/" + r)
  {
    if |r| > 0 && AllInClass(r, LowerHex) && EndsWith(BeforeFinalNewline(url), "/em/" + r) {
      PageSearchComplete(BeforeFinalNewline(url), r);
    }
  }

  // ---------------------------------------------------------------------
  // CDN media URLs: `/kruniv1001/([a-f0-9]+)/`

  const MediaPattern: Pattern := Pattern("/kruniv1001/", LowerHex, SlashAfter)

  /**
   * `extract_content_id_from_mp4`: a found id `r` is a non-empty hex string
   * with `/kruniv1001/` + `r` + `/` in the URL at the leftmost position where
   * the pattern matches; no id is found exactly when no such string occurs.
   */
  function ContentIdFromMedia(url: string): (r: Option<string>)
    ensures r.Some? ==> |r.value| > 0 && AllInClass(r.value, LowerHex)
    ensures r.Some? ==> exists i: nat ::
      && StartsAt(url, "/kruniv1001/" + r.value + "/", i)
      && forall j: nat :: j < i ==> !MatchAt(url, MediaPattern, j)
    ensures r.None? ==>
      forall i: nat, id: string :: |id| > 0 && AllInClass(id, LowerHex) ==>
        !StartsAt(url, "/kruniv1001/" + id + "/", i)
  {
    var r := Search(url, MediaPattern);
    assert r.Some? ==> exists i: nat ::
      && StartsAt(url, "/kruniv1001/" + r.value + "/", i)
      && forall j: nat :: j < i ==> !MatchAt(url, MediaPattern, j)
    by {
      if r.Some? {
        var i: nat :| LeftmostMatch(url, MediaPattern, i) && r.value == Group(url, MediaPattern, i);
        MediaFound(url, i);
      }
    }
    assert r.None? ==> forall i: nat, id: string :: |id| > 0 && AllInClass(id, LowerHex) ==>
        !StartsAt(url, "/kruniv1001/" + id + "/", i)
    by {
      if r.None? {
        MediaNone(url);
      }
    }
    r
  }

  /** The pattern matches at `i` exactly when `/kruniv1001/` + a hex run + `/` starts there. */
  lemma MediaMatchAtSpec(s: string, i: nat, r: string)
    requires |r| > 0 && AllInClass(r, LowerHex)
    requires StartsAt(s, "/kruniv1001/" + r + "/", i)
    ensures MatchAt(s, MediaPattern, i)
    ensures RunEnd(s, i + 12, LowerHex) == i + 12 + |r|
  {
    var w := "/kruniv1001/" + r + "/";
    var v := s[i..i + |w|];
    assert v == w;
    assert s[i..i + 12] == v[..12] == w[..12] == "/kruniv1001/";
    assert s[i + 12..i + 12 + |r|] == v[12..12 + |r|] == w[12..12 + |r|] == r;
    assert s[i + 12 + |r|] == v[12 + |r|] == w[12 + |r|] == '/';
    RunEndExact(s, i + 12, i + 12 + |r|, LowerHex);
  }

  /** A media match at `i` is the marker, the hex run and the closing `/`. */
  lemma MediaFound(url: string, i: nat)
    requires MatchAt(url, MediaPattern, i)
    ensures var r := url[i + 12..RunEnd(url, i + 12, LowerHex)];
      StartsAt(url, "/kruniv1001/" + r + "/", i)
  {
    var j := RunEnd(url, i + 12, LowerHex);
    var r := url[i + 12..j];
    assert url[i..i + 12] == "/kruniv1001/";
    assert url[i..j + 1] == url[i..i + 12] + r + [url[j]];
  }

  /** Without a media match, no marker is followed by a hex run and `/`. */
  lemma MediaNone(url: string)
    requires forall i: nat :: !MatchAt(url, MediaPattern, i)
    ensures forall i: nat, r: string :: |r| > 0 && AllInClass(r, LowerHex) ==>
      !StartsAt(url, "/kruniv1001/" + r + "/", i)
  {
    forall i: nat, r: string | |r| > 0 && AllInClass(r, LowerHex)
      ensures !StartsAt(url, "/kruniv1001/" + r + "/", i)
    {
      if StartsAt(url, "/kruniv1001/" + r + "/", i) {
        MediaMatchAtSpec(url, i, r);
      }
    }
  }

  // ---------------------------------------------------------------------
  // The LMS download URL built from a page id

  const CdnHost: string := "korea-cms-object.cdn.gov-ntruss.com"
  const MediaMarker: string := "/kruniv1001/"
  const MediaSuffix: string := "/contents/media_files/screen.mp4"

  /**
   * The media URL `process_url` builds for an LMS page id; reading the id
   * back from it gives the same id.
   */
  function MediaUrlFor(id: string): (r: string)
    ensures |id| > 0 && AllInClass(id, LowerHex) ==> ContentIdFromMedia(r) == Some(id)
  {
    var s := MediaHead + MediaMarker + id + MediaSuffix;
    assert |id| > 0 && AllInClass(id, LowerHex) ==> Search(s, MediaPattern) == Some(id) by {
      if |id| > 0 && AllInClass(id, LowerHex) {
        MediaSearchRoundTrip(id);
      }
    }
    s
  }

  /** The scheme, host and first path segment of the media URL. */
  const MediaHead: string := "https://" + CdnHost + "/contents7"

  /** No `/` of the fixed head is followed by `kr`. */
  lemma NoSlashKrInHead(i: nat)
    requires i < |MediaHead|
    ensures MediaHead[i] == '/' ==> i + 2 < |MediaHead| && (MediaHead[i + 1] != 'k' || MediaHead[i + 2] != 'r')
  {
    var scheme, path := "https://", "/contents7";
    assert |CdnHost| == 35 && |MediaHead| == 53;
    if i < 8 {
      assert MediaHead[i] == scheme[i];
      if i == 7 {
        assert MediaHead[9] == CdnHost[1];
      }
    } else if i < 43 {
      assert MediaHead[i] == CdnHost[i - 8];
      assert '/' !in CdnHost;
    } else {
      assert MediaHead[i] == path[i - 43];
      if i == 43 {
        assert MediaHead[44] == path[1];
      }
    }
  }

  lemma MarkerChars(s: string, i: nat)
    ensures StartsAt(s, MediaMarker, i) ==> s[i] == '/' && s[i + 1] == 'k' && s[i + 2] == 'r'
  {
    if StartsAt(s, MediaMarker, i) {
      var w := s[i..i + 12];
      assert w == MediaMarker;
      assert s[i] == w[0] && s[i + 1] == w[1] && s[i + 2] == w[2];
    }
  }

  /** No position of the fixed head can start the media marker. */
  lemma NoMarkerInHost(id: string, i: nat)
    requires i < 53
    ensures !StartsAt(MediaHead + MediaMarker + id + MediaSuffix, MediaMarker, i)
  {
    var s := MediaHead + MediaMarker + id + MediaSuffix;
    assert |CdnHost| == 35 && |MediaHead| == 53;
    assert s == MediaHead + (MediaMarker + id + MediaSuffix);
    NoSlashKrInHead(i);
    MarkerChars(s, i);
    assert s[i] == MediaHead[i];
    if i + 2 < 53 {
      assert s[i + 1] == MediaHead[i + 1] && s[i + 2] == MediaHead[i + 2];
    }
  }

  /** The media pattern finds the id right after the fixed head and marker. */
  lemma MediaSearchRoundTrip(id: string)
    requires |id| > 0 && AllInClass(id, LowerHex)
    ensures Search(MediaHead + MediaMarker + id + MediaSuffix, MediaPattern) == Some(id)
  {
    var s := MediaHead + MediaMarker + id + MediaSuffix;
    var head := MediaHead;
    assert |CdnHost| == 35 && |head| == 53;
    assert s == head + (MediaMarker + id + "/") + MediaSuffix[1..];
    assert s[53..53 + 12 + |id| + 1] == MediaMarker + id + "/";
    MediaMatchAtSpec(s, 53, id);
    forall i | 0 <= i < 53 ensures !MatchAt(s, MediaPattern, i) {
      NoMarkerInHost(id, i);
    }
    var f := FirstMatch(s, MediaPattern, 0);
    assert f == Some(53);
    assert s[65..65 + |id|] == id;
  }

  /** An id read from an LMS page URL survives the trip through the media URL. */
  lemma PageToMediaRoundTrip(url: string)
    requires ContentIdFromPage(url).Some?
    ensures ContentIdFromMedia(MediaUrlFor(ContentIdFromPage(url).value)) == ContentIdFromPage(url)
  {
  }

  // ---------------------------------------------------------------------
  // Google Drive folder URLs

  const FoldersPattern: Pattern := Pattern("folders/", DriveIdChar, NoAnchor)
  const IdParamPattern: Pattern := Pattern("id=", DriveIdChar, NoAnchor)

  /** `extract_gdrive_folder_id`: the `folders/` pattern first, then `id=`. */
  function DriveFolderId(url: string): (r: Option<string>)
    ensures Search(url, FoldersPattern).Some? ==> r == Search(url, FoldersPattern)
    ensures Search(url, FoldersPattern).None? ==> r == Search(url, IdParamPattern)
    ensures r.Some? ==> |r.value| > 0 && AllInClass(r.value, DriveIdChar)
  {
    match Search(url, FoldersPattern)
    case Some(id) => Some(id)
    case None => Search(url, IdParamPattern)
  }

  /**
   * A found folder id is the maximal id-character run after the leftmost
   * marker that has one; with neither marker so followed there is no id.
   */
  lemma DriveFolderIdSpec(url: string)
    ensures DriveFolderId(url).Some? ==>
      exists p: Pattern, i: nat :: p in {FoldersPattern, IdParamPattern} && StartsAt(url, p.marker, i)
        && DriveFolderId(url).value == url[i + |p.marker|..RunEnd(url, i + |p.marker|, DriveIdChar)]
        && (RunEnd(url, i + |p.marker|, DriveIdChar) < |url| ==>
              !InClass(url[RunEnd(url, i + |p.marker|, DriveIdChar)], DriveIdChar))
    ensures DriveFolderId(url).None? <==>
      forall i :: !MatchAt(url, FoldersPattern, i) && !MatchAt(url, IdParamPattern, i)
  {
    if DriveFolderId(url).Some? {
      var p := if Search(url, FoldersPattern).Some? then FoldersPattern else IdParamPattern;
      var i := FirstMatch(url, p, 0).value;
      assert p in {FoldersPattern, IdParamPattern} && StartsAt(url, p.marker, i);
    }
  }
}
