/**
 * File naming in the downloader: stripping the characters Windows forbids
 * in file names, forcing a video extension, Python's `os.path.splitext` and
 * `os.path.join`, and the `name_k.ext` counter chosen when a file of the
 * same name is already present.
 */
module FileNames {
  import opened Text
  import Decimal

  // ---------------------------------------------------------------------
  // Sanitising (`re.sub(r'[\\/:*?"<>|]', '', filename)`)

  predicate Forbidden(c: char) {
    c == '\\' || c == '/' || c == ':' || c == '*' || c == '?' || c == '"' || c == '<' || c == '>' || c == '|'
  }

  predicate Clean(s: string) {
    forall i :: 0 <= i < |s| ==> !Forbidden(s[i])
  }

  /** Deletes every forbidden character, keeping the others in order. */
  function RemoveForbidden(s: string): (r: string)
    ensures Clean(r)
    ensures |r| <= |s|
    ensures forall c {:trigger multiset(r)[c]} :: !Forbidden(c) ==> multiset(r)[c] == multiset(s)[c]
    ensures Clean(s) ==> r == s
    decreases |s|
  {
    if |s| == 0 then []
    else
      var rest := RemoveForbidden(s[1..]);
      assert s == [s[0]] + s[1..];
      if Forbidden(s[0]) then rest else [s[0]] + rest
  }

  /** Deletion works piecewise, so the surviving characters keep their order. */
  lemma {:induction false} RemoveForbiddenConcat(a: string, b: string)
    ensures RemoveForbidden(a + b) == RemoveForbidden(a) + RemoveForbidden(b)
    decreases |a|
  {
    if |a| > 0 {
      assert (a + b)[1..] == a[1..] + b;
      RemoveForbiddenConcat(a[1..], b);
    } else {
      assert a + b == b;
    }
  }

  const VideoExts: seq<string> := [".mp4", ".mov", ".mkv"]

  /** `filename.endswith(('.mp4', '.mov', '.mkv'))`; case-sensitive. */
  predicate HasVideoExt(s: string) {
    EndsWith(s, ".mp4") || EndsWith(s, ".mov") || EndsWith(s, ".mkv")
  }

  /** The file name `download_video_requests` derives from a title. */
  function Sanitize(title: string): (r: string)
    ensures Clean(r)
    ensures HasVideoExt(r)
    ensures HasVideoExt(RemoveForbidden(title)) ==> r == RemoveForbidden(title)
    ensures !HasVideoExt(RemoveForbidden(title)) ==> r == RemoveForbidden(title) + ".mp4"
  {
    var f := RemoveForbidden(title);
    if HasVideoExt(f) then f
    else
      assert (f + ".mp4")[|f|..] == ".mp4";
      CleanConcat(f, ".mp4");
      f + ".mp4"
  }

  lemma CleanConcat(a: string, b: string)
    requires Clean(a) && Clean(b)
    ensures Clean(a + b)
  {
    assert forall i :: 0 <= i < |a + b| ==> (a + b)[i] == if i < |a| then a[i] else b[i - |a|];
  }

  /** Sanitising an already sanitised name changes nothing. */
  lemma SanitizeIdempotent(title: string)
    ensures Sanitize(Sanitize(title)) == Sanitize(title)
  {
  }

  /** A title that is already a clean video file name is kept verbatim. */
  lemma SanitizeKeepsGoodNames(title: string)
    requires Clean(title) && HasVideoExt(title)
    ensures Sanitize(title) == title
  {
  }

  /** Every video extension has a dot four places from the end. */
  lemma NoVideoExt(t: string)
    requires |t| >= 4 && t[|t| - 4] != '.'
    ensures !HasVideoExt(t)
  {
    EndsWithChar(t, ".mp4", 0);
    EndsWithChar(t, ".mov", 0);
    EndsWithChar(t, ".mkv", 0);
  }

  lemma DigitsClean(d: string)
    requires Decimal.AllDigits(d)
    ensures Clean(d)
  {
  }

  /** The fallback title of an LMS lecture becomes `Lecture_<i>.mp4`. */
  lemma SanitizeFallbackTitle(index: nat)
    ensures Sanitize("Lecture_" + Decimal.Show(index)) == "Lecture_" + Decimal.Show(index) + ".mp4"
  {
    var d := Decimal.Show(index);
    var t := "Lecture_" + d;
    DigitsClean(d);
    CleanConcat("Lecture_", d);
    if |d| >= 4 {
      assert t[|t| - 4] == d[|d| - 4];
    } else {
      assert t[|t| - 4] == "Lecture_"[4 + |d|];
    }
    NoVideoExt(t);
  }

  // ---------------------------------------------------------------------
  // `os.path.splitext` and `os.path.join` (POSIX flavour)

  /** Position of the last `c` in `s`, or -1 (`str.rfind`). */
  function LastIndex(s: string, c: char): (r: int)
    ensures -1 <= r < |s|
    ensures r >= 0 ==> s[r] == c
    ensures forall j :: r < j < |s| ==> s[j] != c
    decreases |s|
  {
    if |s| == 0 then -1
    else if s[|s| - 1] == c then |s| - 1
    else LastIndex(s[..|s| - 1], c)
  }

  /** Some character of `s[lo..hi]` is not a dot. */
  predicate HasNonDot(s: string, lo: nat, hi: nat)
    requires lo <= hi <= |s|
  {
    exists j :: lo <= j < hi && s[j] != '.'
  }

  /**
   * `os.path.splitext`: the extension starts at the last dot of the last
   * path component, unless everything before that dot in the component is
   * dots (a hidden file such as `.mp4` has no extension).
   */
  function SplitExt(p: string): (r: (string, string))
    ensures r.0 + r.1 == p
    ensures r.1 == [] || (r.1[0] == '.' && forall j :: 1 <= j < |r.1| ==> r.1[j] != '.' && r.1[j] != '/')
    ensures r.1 != [] <==>
      LastIndex(p, '.') > LastIndex(p, '/') && HasNonDot(p, LastIndex(p, '/') + 1, LastIndex(p, '.'))
    ensures r.1 != [] ==> |r.0| == LastIndex(p, '.')
  {
    var sep := LastIndex(p, '/');
    var dot := LastIndex(p, '.');
    if dot > sep && HasNonDot(p, sep + 1, dot) then
      var ext := p[dot..];
      assert forall j :: 1 <= j < |ext| ==> ext[j] != '.' && ext[j] != '/' by {
        forall j | 1 <= j < |ext| ensures ext[j] != '.' && ext[j] != '/' {
          assert ext[j] == p[dot + j];
        }
      }
      (p[..dot], ext)
    else (p, [])
  }

  /**
   * `os.path.join(a, b)` for two parts: an absolute `b` replaces `a`;
   * otherwise `b` follows `a`, with one `/` inserted exactly when `a` is
   * non-empty and does not already end in `/`.
   */
  function Join(a: string, b: string): (r: string)
    ensures |b| > 0 && b[0] == '/' ==> r == b
    ensures !(|b| > 0 && b[0] == '/') ==> |a| <= |r| <= |a| + 1 + |b| && r[..|a|] == a && EndsWith(r, b)
    ensures !(|b| > 0 && b[0] == '/') && (a == [] || a[|a| - 1] == '/') ==> r == a + b
    ensures !(|b| > 0 && b[0] == '/') && a != [] && a[|a| - 1] != '/' ==> r == a + "/" + b
  {
    if |b| > 0 && b[0] == '/' then b
    else if |a| == 0 || a[|a| - 1] == '/' then
      assert (a + b)[|a + b| - |b|..] == b;
      a + b
    else
      assert (a + "/" + b)[|a + "/" + b| - |b|..] == b;
      a + "/" + b
  }

  /** A name with a real stem splits off exactly its video extension. */
  lemma SplitVideoName(stem: string, ext: string)
    requires ext in VideoExts
    requires forall j :: 0 <= j < |stem| ==> stem[j] != '/'
    requires exists j :: 0 <= j < |stem| && stem[j] != '.'
    ensures SplitExt(stem + ext) == (stem, ext)
  {
    var p := stem + ext;
    assert p[|stem|] == '.';
    assert forall j :: |stem| < j < |p| ==> p[j] == ext[j - |stem|];
    assert LastIndex(p, '.') == |stem|;
    assert forall j :: 0 <= j < |stem| ==> p[j] == stem[j];
    var k :| 0 <= k < |stem| && stem[k] != '.';
    assert p[k] != '.';
    assert LastIndex(p, '/') < k;
    assert p[..|stem|] == stem && p[|stem|..] == ext;
  }

  /** A name made only of dots before its suffix has no extension at all. */
  lemma SplitDotName(ext: string)
    requires ext in VideoExts
    ensures SplitExt(ext) == (ext, [])
  {
    assert ext[0] == '.';
    assert LastIndex(ext, '.') == 0;
  }

  /**
   * The extension of a joined path is the extension of its last part: dots
   * in the directory part never count, because the last `/` comes after them.
   */
  lemma JoinSplitExt(a: string, b: string)
    requires forall j :: 0 <= j < |b| ==> b[j] != '/'
    ensures SplitExt(Join(a, b)) == (Join(a, SplitExt(b).0), SplitExt(b).1)
  {
    var h := if a == [] || a[|a| - 1] == '/' then a else a + "/";
    var root := SplitExt(b).0;
    assert root == b[..|root|];
    assert Join(a, b) == h + b;
    assert Join(a, root) == h + root;
    SplitExtAfterDir(h, b);
  }

  /** Splitting `h + b`, where `h` is empty or ends in `/`, splits `b` alone. */
  lemma SplitExtAfterDir(h: string, b: string)
    requires h == [] || h[|h| - 1] == '/'
    requires forall j :: 0 <= j < |b| ==> b[j] != '/'
    ensures SplitExt(h + b) == (h + SplitExt(b).0, SplitExt(b).1)
  {
    LastIndexAfter(h, b, '/');
    if LastIndex(b, '.') >= 0 {
      SplitExtDotAfterDir(h, b);
    } else {
      LastIndexBefore(h, b, '.');
    }
  }

  lemma SplitExtDotAfterDir(h: string, b: string)
    requires h == [] || h[|h| - 1] == '/'
    requires forall j :: 0 <= j < |b| ==> b[j] != '/'
    requires LastIndex(h + b, '/') == |h| - 1
    requires LastIndex(b, '.') >= 0
    ensures SplitExt(h + b) == (h + SplitExt(b).0, SplitExt(b).1)
  {
    var dot := LastIndex(b, '.');
    LastIndexAfter(h, b, '.');
    LastIndexUnique(b, '/', -1);
    HasNonDotShift(h, b, dot);
    SliceAt(h, b, dot);
  }

  /** Dots of `b` keep their verdict when `b` is preceded by `h`. */
  lemma HasNonDotShift(h: string, b: string, dot: nat)
    requires dot <= |b|
    ensures HasNonDot(h + b, |h|, |h| + dot) <==> HasNonDot(b, 0, dot)
  {
    var p := h + b;
    if HasNonDot(b, 0, dot) {
      var j :| 0 <= j < dot && b[j] != '.';
      assert p[|h| + j] == b[j];
    }
    if HasNonDot(p, |h|, |h| + dot) {
      var j :| |h| <= j < |h| + dot && p[j] != '.';
      assert b[j - |h|] == p[j];
    }
  }

  /** Cutting `h + b` inside `b`. */
  lemma SliceAt(h: string, b: string, k: nat)
    requires k <= |b|
    ensures (h + b)[..|h| + k] == h + b[..k]
    ensures (h + b)[|h| + k..] == b[k..]
  {
  }

  /** The last `c` of `h + b` is the last `c` of `b`, or the end of `h` when only `h` may end in `c`. */
  lemma LastIndexAfter(h: string, b: string, c: char)
    requires LastIndex(b, c) >= 0 || ((h == [] || h[|h| - 1] == c) && forall j :: 0 <= j < |b| ==> b[j] != c)
    ensures LastIndex(b, c) >= 0 ==> LastIndex(h + b, c) == |h| + LastIndex(b, c)
    ensures LastIndex(b, c) < 0 ==> LastIndex(h + b, c) == |h| - 1
  {
    var p := h + b;
    var k := if LastIndex(b, c) >= 0 then |h| + LastIndex(b, c) else |h| - 1;
    assert k >= 0 ==> p[k] == c;
    assert forall j :: k < j < |p| ==> p[j] == b[j - |h|];
    LastIndexUnique(p, c, k);
  }

  /** Without a `c` in `b`, the last `c` of `h + b` lies in `h`. */
  lemma LastIndexBefore(h: string, b: string, c: char)
    requires forall j :: 0 <= j < |b| ==> b[j] != c
    ensures LastIndex(h + b, c) == LastIndex(h, c)
  {
    var p := h + b;
    var k := LastIndex(h, c);
    forall j | k < j < |p| ensures p[j] != c {
      if j < |h| { assert p[j] == h[j]; } else { assert p[j] == b[j - |h|]; }
    }
    assert k >= 0 ==> p[k] == h[k];
    LastIndexUnique(p, c, k);
  }

  /** `LastIndex` is the only position with a `c` and no `c` after it. */
  lemma LastIndexUnique(s: string, c: char, k: int)
    requires -1 <= k < |s|
    requires k >= 0 ==> s[k] == c
    requires forall j :: k < j < |s| ==> s[j] != c
    ensures LastIndex(s, c) == k
  {
  }

  // ---------------------------------------------------------------------
  // Collision naming

  /**
   * `f"{name}_{counter}{ext}"`: the root, an underscore, the counter's digits
   * and the extension, so the counter can be read back from the name.
   */
  function Candidate(root: string, ext: string, k: nat): (r: string)
    ensures |r| > |root| + 1 + |ext|
    ensures r[..|root|] == root && r[|root|] == '_' && r[|r| - |ext|..] == ext
    ensures Decimal.AllDigits(r[|root| + 1..|r| - |ext|])
    ensures Decimal.Parse(r[|root| + 1..|r| - |ext|]) == k
    ensures |r| - |ext| - |root| - 1 > 1 ==> r[|root| + 1] != '0'
  {
    var d := Decimal.Show(k);
    var r := root + "_" + d + ext;
    assert r[|root| + 1..|r| - |ext|] == d;
    assert r[..|root|] == root;
    assert r[|r| - |ext|..] == ext;
    Decimal.ParseShow(k);
    r
  }

  /** The counter is spelled exactly as `%d` spells it, read off the name alone. */
  lemma CandidateDigits(root: string, ext: string, k: nat)
    ensures var r := Candidate(root, ext, k);
      r[|root| + 1..|r| - |ext|] == Decimal.Show(k)
  {
    var r := Candidate(root, ext, k);
    var mid := r[|root| + 1..|r| - |ext|];
    assert |mid| > 1 ==> mid[0] == r[|root| + 1];
    Decimal.ShowCanonical(mid);
  }

  /** Different counters give different names. */
  lemma CandidateInjective(root: string, ext: string, j: nat, k: nat)
    requires j != k
    ensures Candidate(root, ext, j) != Candidate(root, ext, k)
  {
  }

  /**
   * The collision loop: keep `path` when it is free, otherwise split it and
   * take the first `root_k.ext` (k = 1, 2, ...) that is not present.
   * `counter` is 0 when the original name was kept.
   */
  method ChooseName(path: string, existing: set<string>) returns (r: string, counter: nat)
    ensures r !in existing
    ensures counter == 0 <==> path !in existing
    ensures counter == 0 ==> r == path
    ensures counter > 0 ==> r == Candidate(SplitExt(path).0, SplitExt(path).1, counter)
    ensures forall j :: 1 <= j < counter ==> Candidate(SplitExt(path).0, SplitExt(path).1, j) in existing
  {
    if path !in existing {
      return path, 0;
    }
    var (root, ext) := SplitExt(path);
    counter := 1;
    ghost var tried: set<string> := {};
    while Candidate(root, ext, counter) in existing
      invariant counter >= 1
      invariant tried <= existing
      invariant |tried| == counter - 1
      invariant forall j :: 1 <= j < counter ==> Candidate(root, ext, j) in tried
      invariant forall x :: x in tried ==> exists j :: 1 <= j < counter && x == Candidate(root, ext, j)
      decreases |existing| - |tried|
    {
      var c := Candidate(root, ext, counter);
      forall x | x in tried ensures x != c {
        var j :| 1 <= j < counter && x == Candidate(root, ext, j);
        CandidateInjective(root, ext, j, counter);
      }
      SubsetSize(tried + {c}, existing);
      forall j | 1 <= j <= counter ensures Candidate(root, ext, j) in tried + {c} {
        if j < counter {
          assert Candidate(root, ext, j) in tried;
        }
      }
      tried := tried + {c};
      counter := counter + 1;
    }
    r := Candidate(root, ext, counter);
  }

  lemma {:induction false} SubsetSize<T>(a: set<T>, b: set<T>)
    requires a <= b
    ensures |a| <= |b|
    decreases |a|
  {
    if a != {} {
      var x :| x in a;
      SubsetSize(a - {x}, b - {x});
    }
  }

  /** A renamed download keeps the video extension of a name with a real stem. */
  lemma CandidateKeepsExt(stem: string, ext: string, k: nat)
    requires ext in VideoExts
    requires forall j :: 0 <= j < |stem| ==> stem[j] != '/'
    requires exists j :: 0 <= j < |stem| && stem[j] != '.'
    ensures SplitExt(stem + ext) == (stem, ext)
    ensures HasVideoExt(Candidate(SplitExt(stem + ext).0, SplitExt(stem + ext).1, k))
  {
    SplitVideoName(stem, ext);
    var c := Candidate(stem, ext, k);
    assert c[|c| - 4..] == ext;
  }

  /** A title that sanitises to the bare `.mp4` is renamed `.mp4_1` on a clash. */
  lemma EmptyTitleCandidate()
    ensures Sanitize("") == ".mp4"
    ensures SplitExt(".mp4") == (".mp4", [])
    ensures Candidate(SplitExt(".mp4").0, SplitExt(".mp4").1, 1) == ".mp4_1"
    ensures !HasVideoExt(".mp4_1")
  {
    SplitDotName(".mp4");
  }

  /** Slices and decimal counters of clean names are clean. */
  lemma CandidateClean(name: string, k: nat)
    requires Clean(name)
    ensures Clean(Candidate(SplitExt(name).0, SplitExt(name).1, k))
  {
    var (root, ext) := SplitExt(name);
    assert forall i :: 0 <= i < |root| ==> root[i] == name[i];
    assert forall i :: 0 <= i < |ext| ==> ext[i] == name[|root| + i];
    DigitsClean(Decimal.Show(k));
    CleanConcat(root, "_");
    CleanConcat(root + "_", Decimal.Show(k));
    CleanConcat(root + "_" + Decimal.Show(k), ext);
  }

  /**
   * The file name `download_video_requests` writes to inside the output
   * directory, whose present names are `present`: the sanitised title, or
   * its first free `name_k.ext`.
   */
  method RequestsFileName(title: string, present: set<string>) returns (name: string, counter: nat)
    ensures name !in present
    ensures Clean(name)
    ensures counter == 0 <==> Sanitize(title) !in present
    ensures counter == 0 ==> name == Sanitize(title)
    ensures counter > 0 ==> name == Candidate(SplitExt(Sanitize(title)).0, SplitExt(Sanitize(title)).1, counter)
    ensures forall j :: 1 <= j < counter ==> Candidate(SplitExt(Sanitize(title)).0, SplitExt(Sanitize(title)).1, j) in present
  {
    var f := Sanitize(title);
    name, counter := ChooseName(f, present);
    if counter > 0 {
      CandidateClean(f, counter);
    }
  }

  /**
   * The path `download_gdrive_file` writes to: the listed path under the
   * output directory, or its first free `name_k.ext`; the split is taken on
   * the whole path.
   */
  method DriveFilePath(outputPath: string, filePath: string, present: set<string>) returns (path: string, counter: nat)
    ensures path !in present
    ensures counter == 0 <==> Join(outputPath, filePath) !in present
    ensures counter == 0 ==> path == Join(outputPath, filePath)
    ensures counter > 0 ==> path == Candidate(SplitExt(Join(outputPath, filePath)).0, SplitExt(Join(outputPath, filePath)).1, counter)
    ensures forall j :: 1 <= j < counter ==>
      Candidate(SplitExt(Join(outputPath, filePath)).0, SplitExt(Join(outputPath, filePath)).1, j) in present
  {
    path, counter := ChooseName(Join(outputPath, filePath), present);
  }
}
