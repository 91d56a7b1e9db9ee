/**
 * dw-download-images.py: read the URLs listed in image_urls.txt, give each
 * one a content-addressed destination under dw_images, download the ones
 * whose destination does not exist yet, pause after every download, and
 * append each failure to image_failures.csv.
 */
module DownloadImages {

  import opened Wrappers
  import opened Paths
  import opened Text

  const ImageDir := "dw_images"

  // ---------------------------------------------------------------- url_to_path

  predicate IsHexDigit(c: char) {
    '0' <= c <= '9' || 'a' <= c <= 'f'
  }

  /** `n` copies of `c`. */
  function Repeat(c: char, n: nat): (r: string)
    ensures |r| == n && forall k :: 0 <= k < n ==> r[k] == c
  {
    if n == 0 then [] else Repeat(c, n - 1) + [c]
  }

  /** What `hashlib.sha256(...).hexdigest()` returns: 64 lower-case hex digits. */
  type HexDigest = h: string | |h| == 64 && forall k :: 0 <= k < |h| ==> IsHexDigit(h[k])
    witness Repeat('0', 64)

  /** The library parts of `url_to_path`: the SHA-256 digest of the URL, and `Path(urlparse(url).path).suffix`. */
  datatype Naming = Naming(sha256: string -> HexDigest, suffix: string -> string)

  /** The suffix the file name keeps: `.bin` in place of an empty one or one longer than five characters. */
  function StoredSuffix(suffix: string): string {
    if suffix == "" || |suffix| > 5 then ".bin" else suffix
  }

  /** `url_to_path`: `dw_images / h[:2] / (h + suffix)` for the digest `h` of the URL. */
  function UrlToPath(naming: Naming, url: string): Path {
    var h := naming.sha256(url);
    [ImageDir, h[..2], h + StoredSuffix(naming.suffix(url))]
  }

  /** A suffix of one to five characters is kept as it is; any other becomes `.bin`. */
  lemma StoredSuffixRule(suffix: string)
    ensures StoredSuffix(suffix) == suffix <==> suffix != "" && |suffix| <= 5
    ensures StoredSuffix(suffix) != suffix ==> StoredSuffix(suffix) == ".bin"
    ensures 1 <= |StoredSuffix(suffix)| <= 5
  {
  }

  /** The destination sits two levels under `dw_images`, in the folder named by the first two digits of the digest it starts with. */
  lemma UrlToPathShape(naming: Naming, url: string)
    ensures var p := UrlToPath(naming, url);
            |p| == 3 && p[0] == ImageDir
            && |p[2]| > 64 && p[2][..64] == naming.sha256(url) && p[1] == p[2][..2]
            && p[2][64..] == StoredSuffix(naming.suffix(url))
  {
    var h := naming.sha256(url);
    var name := h + StoredSuffix(naming.suffix(url));
    StoredSuffixRule(naming.suffix(url));
    assert name[..64] == h;
    assert name[..2] == h[..2];
  }

  /** Two URLs share a destination exactly when they share the digest and the kept suffix. */
  lemma SameDestination(naming: Naming, u: string, v: string)
    ensures UrlToPath(naming, u) == UrlToPath(naming, v)
            <==> naming.sha256(u) == naming.sha256(v) && StoredSuffix(naming.suffix(u)) == StoredSuffix(naming.suffix(v))
  {
    UrlToPathShape(naming, u);
    UrlToPathShape(naming, v);
  }

  // ---------------------------------------------------------------- the URL list

  /** `[line.strip() for line in lines if line.strip()]`, on the lines `splitlines` gives. */
  function UrlList(lines: seq<string>): seq<string> {
    if lines == [] then []
    else (if Strip(lines[0]) != "" then [Strip(lines[0])] else []) + UrlList(lines[1..])
  }

  /** The list keeps the order of the lines: it can be built piece by piece. */
  lemma {:induction false} UrlListAppend(a: seq<string>, b: seq<string>)
    ensures UrlList(a + b) == UrlList(a) + UrlList(b)
  {
    if a == [] {
      assert a + b == b;
    } else {
      var head := if Strip(a[0]) != "" then [Strip(a[0])] else [];
      assert (a + b)[0] == a[0];
      assert (a + b)[1..] == a[1..] + b;
      UrlListAppend(a[1..], b);
      calc {
        UrlList(a + b);
        head + UrlList(a[1..] + b);
        head + (UrlList(a[1..]) + UrlList(b));
        (head + UrlList(a[1..])) + UrlList(b);
      }
    }
  }

  /** Every entry is a non-empty stripped line, and every line that is not blank gives its entry. */
  lemma {:induction false} UrlListEntries(lines: seq<string>)
    ensures forall u :: u in UrlList(lines) ==> u != "" && Strip(u) == u && exists k :: 0 <= k < |lines| && Strip(lines[k]) == u
    ensures forall k :: 0 <= k < |lines| && Strip(lines[k]) != "" ==> Strip(lines[k]) in UrlList(lines)
  {
    if lines != [] {
      UrlListEntries(lines[1..]);
      StripIdempotent(lines[0]);
      forall u | u in UrlList(lines)
        ensures u != "" && Strip(u) == u && exists k :: 0 <= k < |lines| && Strip(lines[k]) == u
      {
        if u !in UrlList(lines[1..]) {
          assert u == Strip(lines[0]);
        } else {
          var k :| 0 <= k < |lines[1..]| && Strip(lines[1..][k]) == u;
          assert Strip(lines[k + 1]) == u;
        }
      }
      forall k | 0 <= k < |lines| && Strip(lines[k]) != ""
        ensures Strip(lines[k]) in UrlList(lines)
      {
        if k > 0 {
          assert lines[1..][k - 1] == lines[k];
        }
      }
    }
  }

  /** Blank lines contribute nothing. */
  lemma {:induction false} UrlListNoBlanks(lines: seq<string>)
    requires forall k :: 0 <= k < |lines| ==> Strip(lines[k]) != ""
    ensures |UrlList(lines)| == |lines|
    ensures forall k :: 0 <= k < |lines| ==> UrlList(lines)[k] == Strip(lines[k])
  {
    if lines != [] {
      UrlListNoBlanks(lines[1..]);
      assert forall k :: 1 <= k < |lines| ==> lines[1..][k - 1] == lines[k];
    }
  }

  // ---------------------------------------------------------------- download_image

  /** What `requests.get` gives: an exception with its text, or a status code and the chunks of the body. */
  datatype Fetch = RequestError(message: string) | Answer(status: int, chunks: seq<seq<bv8>>)

  /** The bytes the chunks add up to, in order. */
  function Concat(chunks: seq<seq<bv8>>): seq<bv8> {
    if chunks == [] then [] else Concat(chunks[..|chunks| - 1]) + chunks[|chunks| - 1]
  }

  /** The reason `download_image` records before it returns False; None when it returns True. */
  function FailureReason(fetch: Fetch): Option<string> {
    match fetch
    case RequestError(e) => Some("request_error:" + e)
    case Answer(status, _) => if status != 200 then Some("http_" + IntToString(status)) else None
  }

  /** A row of image_failures.csv: `{ts},{url},{reason}` and a newline. */
  function FailureLine(timestamp: Timestamp, url: string, reason: string): string {
    timestamp + "," + url + "," + reason + "\n"
  }

  /** A status other than 200 is a failure whose reason gives the status back. */
  lemma HttpReason(status: int, chunks: seq<seq<bv8>>)
    ensures FailureReason(Answer(status, chunks)).None? <==> status == 200
    ensures status != 200 ==>
              var reason := FailureReason(Answer(status, chunks)).value;
              |reason| > 5 && reason[..5] == "http_" && ParseInt(reason[5..]) == Some(status)
  {
    if status != 200 {
      var reason := "http_" + IntToString(status);
      assert reason[5..] == IntToString(status);
      ParseIntToString(status);
    }
  }

  /** A row whose URL and reason hold no comma or newline splits back into its three fields. */
  lemma FailureLineFields(timestamp: Timestamp, url: string, reason: string)
    requires ',' !in url && ',' !in reason && '\n' !in url && '\n' !in reason
    ensures var line := FailureLine(timestamp, url, reason);
            line[|line| - 1] == '\n' && '\n' !in line[..|line| - 1]
            && Split(line[..|line| - 1], ',') == [timestamp, url, reason]
  {
    var line := FailureLine(timestamp, url, reason);
    assert line[..|line| - 1] == timestamp + [','] + (url + [','] + reason);
    SplitField(timestamp, ',', url + [','] + reason);
    SplitField(url, ',', reason);
    SplitNoSep(reason, ',');
  }

  /** Fields are not quoted: a URL with a comma gives the row a fourth field. */
  lemma CommaInUrlAddsField(timestamp: Timestamp, a: string, b: string, reason: string)
    requires ',' !in a && ',' !in b && ',' !in reason
    ensures var line := FailureLine(timestamp, a + "," + b, reason);
            Split(line[..|line| - 1], ',') == [timestamp, a, b, reason]
  {
    var line := FailureLine(timestamp, a + "," + b, reason);
    assert line[..|line| - 1] == timestamp + [','] + (a + [','] + (b + [','] + reason));
    SplitField(timestamp, ',', a + [','] + (b + [','] + reason));
    SplitField(a, ',', b + [','] + reason);
    SplitField(b, ',', reason);
    SplitNoSep(reason, ',');
  }

  /** The files the script touches: the images under dw_images with their bytes, and the rows of image_failures.csv. */
  class Disk {
    var images: map<Path, seq<bv8>>
    var failureLog: seq<string>

    constructor(images: map<Path, seq<bv8>>, failureLog: seq<string>)
      ensures this.images == images && this.failureLog == failureLog
    {
      this.images := images;
      this.failureLog := failureLog;
    }

    /** `record_failure`: one row appended. */
    method RecordFailure(timestamp: Timestamp, url: string, reason: string)
      modifies this
      ensures failureLog == old(failureLog) + [FailureLine(timestamp, url, reason)]
      ensures images == old(images)
    {
      failureLog := failureLog + [FailureLine(timestamp, url, reason)];
    }

    /**
     * `download_image`: on an exception or a status other than 200 it records
     * the reason and returns False without opening `dest`; otherwise it opens
     * `dest` for writing and writes the chunks of the body one by one.
     */
    method DownloadImage(url: string, dest: Path, fetch: Fetch, timestamp: Timestamp) returns (ok: bool)
      modifies this
      ensures ok <==> FailureReason(fetch).None?
      ensures ok ==> images == old(images)[dest := Concat(fetch.chunks)] && failureLog == old(failureLog)
      ensures !ok ==> images == old(images)
                      && failureLog == old(failureLog) + [FailureLine(timestamp, url, FailureReason(fetch).value)]
    {
      if fetch.RequestError? {
        RecordFailure(timestamp, url, "request_error:" + fetch.message);
        return false;
      }
      if fetch.status != 200 {
        RecordFailure(timestamp, url, "http_" + IntToString(fetch.status));
        return false;
      }
      var written: seq<bv8> := [];
      images := images[dest := written];
      for i := 0 to |fetch.chunks|
        invariant written == Concat(fetch.chunks[..i])
        invariant images == old(images)[dest := written]
        invariant failureLog == old(failureLog)
      {
        var chunk := fetch.chunks[i];
        assert fetch.chunks[..i + 1][..i] == fetch.chunks[..i];
        assert Concat(fetch.chunks[..i + 1]) == Concat(fetch.chunks[..i]) + chunk;
        if chunk != [] {
          written := written + chunk;
          images := images[dest := written];
          assert images == old(images)[dest := written];
        } else {
          assert written + chunk == written;
        }
      }
      assert fetch.chunks[..|fetch.chunks|] == fetch.chunks;
      return true;
    }
  }

  // ---------------------------------------------------------------- main

  /** The outside world of `main`: the library naming, and per position in the list the answer to the request and the clock. */
  datatype World = World(naming: Naming, fetch: nat -> Fetch, clock: nat -> Timestamp)

  /** A `polite_pause` with its range in seconds. */
  datatype Pause = Pause(min: nat, max: nat)

  const NormalPause := Pause(1, 3)
  const FailurePause := Pause(10, 20)

  /** The two counters of `main`, and the number of URLs skipped because their destination existed. */
  datatype Tally = Tally(success: nat, failures: nat, skipped: nat)

  /** What the loop has changed so far: the images, the failure rows, the counters and the pauses taken. */
  datatype State = State(images: map<Path, seq<bv8>>, failureLog: seq<string>, tally: Tally, pauses: seq<Pause>)

  /** The body of the loop for the URL at position `idx` (counting from 1). */
  function Visit(world: World, idx: nat, url: string, s: State): State {
    var dest := UrlToPath(world.naming, url);
    if dest in s.images then s.(tally := s.tally.(skipped := s.tally.skipped + 1))
    else
      var fetch := world.fetch(idx);
      match FailureReason(fetch)
      case None =>
        State(s.images[dest := Concat(fetch.chunks)], s.failureLog,
              s.tally.(success := s.tally.success + 1), s.pauses + [NormalPause])
      case Some(reason) =>
        State(s.images, s.failureLog + [FailureLine(world.clock(idx), url, reason)],
              s.tally.(failures := s.tally.failures + 1), s.pauses + [FailurePause])
  }

  /** The loop over `urls`, the first of them at position `idx`. */
  function Loop(world: World, urls: seq<string>, idx: nat, s: State): State
    decreases |urls|
  {
    if urls == [] then s else Loop(world, urls[1..], idx + 1, Visit(world, idx, urls[0], s))
  }

  /** Specification of `main`: its return code and what it leaves behind. */
  function Images(world: World, listFile: Option<seq<string>>, s: State): (int, State) {
    match listFile
    case None => (2, s)
    case Some(lines) => (0, Loop(world, UrlList(lines), 1, s))
  }

  /** `main`; `listFile` is the lines of image_urls.txt, None when the file does not exist. */
  method DownloadAll(world: World, disk: Disk, listFile: Option<seq<string>>)
    returns (code: int, success: nat, failures: nat, pauses: seq<Pause>)
    modifies disk
    ensures var (c, s) := Images(world, listFile, State(old(disk.images), old(disk.failureLog), Tally(0, 0, 0), []));
            code == c && success == s.tally.success && failures == s.tally.failures && pauses == s.pauses
            && disk.images == s.images && disk.failureLog == s.failureLog
  {
    if listFile.None? {
      return 2, 0, 0, [];
    }
    var urls := UrlList(listFile.value);
    ghost var total := Loop(world, urls, 1, State(disk.images, disk.failureLog, Tally(0, 0, 0), []));
    ghost var skipped := 0;
    success, failures, pauses := 0, 0, [];
    for i := 0 to |urls|
      invariant total == Loop(world, urls[i..], i + 1, State(disk.images, disk.failureLog, Tally(success, failures, skipped), pauses))
    {
      ghost var before := State(disk.images, disk.failureLog, Tally(success, failures, skipped), pauses);
      assert urls[i..][1..] == urls[i + 1..];
      var url := urls[i];
      var dest := UrlToPath(world.naming, url);
      if dest in disk.images {
        skipped := skipped + 1;
        continue;
      }
      var ok := disk.DownloadImage(url, dest, world.fetch(i + 1), world.clock(i + 1));
      if ok {
        success := success + 1;
        pauses := pauses + [NormalPause];
      } else {
        failures := failures + 1;
        pauses := pauses + [FailurePause];
      }
      assert State(disk.images, disk.failureLog, Tally(success, failures, skipped), pauses)
             == Visit(world, i + 1, url, before);
    }
    assert urls[|urls|..] == [];
    return 0, success, failures, pauses;
  }

  // ---------------------------------------------------------------- properties of main

  /** The return code is 2 exactly when image_urls.txt is missing, and then nothing changes; otherwise it is 0, whatever failed. */
  lemma ExitCodes(world: World, listFile: Option<seq<string>>, s: State)
    ensures Images(world, listFile, s).0 in {0, 2}
    ensures Images(world, listFile, s).0 == 2 <==> listFile.None?
    ensures listFile.None? ==> Images(world, listFile, s).1 == s
  {
  }

  /**
   * One turn: an existing destination only counts as skipped; otherwise
   * exactly one counter goes up, with a new image and a normal pause, or
   * with a failure row and a long pause. Existing images are never rewritten.
   */
  lemma VisitEffect(world: World, idx: nat, url: string, s: State)
    ensures var r := Visit(world, idx, url, s);
            var dest := UrlToPath(world.naming, url);
            && (dest in s.images ==> r == s.(tally := s.tally.(skipped := s.tally.skipped + 1)))
            && (dest !in s.images ==> r.tally.skipped == s.tally.skipped
                                      && r.tally.success + r.tally.failures == s.tally.success + s.tally.failures + 1)
            && (r.tally.success == s.tally.success + 1 ==>
                  (r.images.Keys == s.images.Keys + {dest} && dest !in s.images
                   && r.failureLog == s.failureLog && r.pauses == s.pauses + [NormalPause]))
            && (r.tally.failures == s.tally.failures + 1 ==>
                  (r.images == s.images && |r.failureLog| == |s.failureLog| + 1
                   && r.failureLog[..|s.failureLog|] == s.failureLog && r.pauses == s.pauses + [FailurePause]))
            && r.tally.success >= s.tally.success && r.tally.failures >= s.tally.failures
            && (forall p :: p in s.images ==> p in r.images && r.images[p] == s.images[p])
  {
    var r := Visit(world, idx, url, s);
    assert r.failureLog[..|s.failureLog|] == s.failureLog;
  }

  /** Every turn counts its URL once: as a success, as a failure, or as skipped. */
  lemma {:induction false} LoopCounts(world: World, urls: seq<string>, idx: nat, s: State)
    ensures var r := Loop(world, urls, idx, s);
            r.tally.success + r.tally.failures + r.tally.skipped == s.tally.success + s.tally.failures + s.tally.skipped + |urls|
            && r.tally.success >= s.tally.success && r.tally.failures >= s.tally.failures
    decreases |urls|
  {
    if urls != [] {
      VisitEffect(world, idx, urls[0], s);
      LoopCounts(world, urls[1..], idx + 1, Visit(world, idx, urls[0], s));
    }
  }

  /** Each success adds one image file and each failure one row; images present before are left as they were. */
  lemma {:induction false} LoopFiles(world: World, urls: seq<string>, idx: nat, s: State)
    ensures var r := Loop(world, urls, idx, s);
            r.tally.success >= s.tally.success && r.tally.failures >= s.tally.failures
            && |r.images.Keys| == |s.images.Keys| + (r.tally.success - s.tally.success)
            && |r.failureLog| == |s.failureLog| + (r.tally.failures - s.tally.failures)
            && r.failureLog[..|s.failureLog|] == s.failureLog
            && |r.pauses| == |s.pauses| + (r.tally.success - s.tally.success) + (r.tally.failures - s.tally.failures)
            && (forall p :: p in s.images ==> p in r.images && r.images[p] == s.images[p])
    decreases |urls|
  {
    if urls != [] {
      var t := Visit(world, idx, urls[0], s);
      VisitEffect(world, idx, urls[0], s);
      LoopFiles(world, urls[1..], idx + 1, t);
      var r := Loop(world, urls, idx, s);
      assert r == Loop(world, urls[1..], idx + 1, t);
      assert r.failureLog[..|t.failureLog|][..|s.failureLog|] == r.failureLog[..|s.failureLog|];
    }
  }

  /** From an empty start, the counters add up to the number of URLs, and the new files and rows to the counters. */
  lemma CountsAddUp(world: World, lines: seq<string>, images: map<Path, seq<bv8>>, failureLog: seq<string>)
    ensures var r := Images(world, Some(lines), State(images, failureLog, Tally(0, 0, 0), [])).1;
            r.tally.success + r.tally.failures + r.tally.skipped == |UrlList(lines)|
            && |r.images.Keys| == |images.Keys| + r.tally.success
            && |r.failureLog| == |failureLog| + r.tally.failures
            && r.failureLog[..|failureLog|] == failureLog
  {
    LoopCounts(world, UrlList(lines), 1, State(images, failureLog, Tally(0, 0, 0), []));
    LoopFiles(world, UrlList(lines), 1, State(images, failureLog, Tally(0, 0, 0), []));
  }

  /** Running the loop over `a + b` runs it over `a` and then over `b`. */
  lemma {:induction false} LoopAppend(world: World, a: seq<string>, b: seq<string>, idx: nat, s: State)
    ensures Loop(world, a + b, idx, s) == Loop(world, b, idx + |a|, Loop(world, a, idx, s))
    decreases |a|
  {
    if a == [] {
      assert a + b == b;
    } else {
      assert (a + b)[0] == a[0] && (a + b)[1..] == a[1..] + b;
      var t := Visit(world, idx, a[0], s);
      LoopAppend(world, a[1..], b, idx + 1, t);
      assert Loop(world, a + b, idx, s) == Loop(world, a[1..] + b, idx + 1, t);
      assert Loop(world, a, idx, s) == Loop(world, a[1..], idx + 1, t);
    }
  }

  /** The images the loop has written stay there for the rest of the run. */
  lemma {:induction false} LoopKeepsImages(world: World, urls: seq<string>, idx: nat, s: State, p: Path)
    requires p in s.images
    ensures p in Loop(world, urls, idx, s).images
  {
    LoopFiles(world, urls, idx, s);
  }

  /** One download per unique URL: once the URL at position `i` has been downloaded, a later copy of it is skipped. */
  lemma RepeatedUrlSkipped(world: World, urls: seq<string>, s: State, i: nat, j: nat)
    requires i < j < |urls| && urls[i] == urls[j]
    requires FailureReason(world.fetch(1 + i)).None?
    ensures var before := Loop(world, urls[..j], 1, s);
            Visit(world, 1 + j, urls[j], before) == before.(tally := before.tally.(skipped := before.tally.skipped + 1))
  {
    var dest := UrlToPath(world.naming, urls[i]);
    var mid := Loop(world, urls[..i], 1, s);
    LoopAppend(world, urls[..i], [urls[i]], 1, s);
    assert urls[..i] + [urls[i]] == urls[..i + 1];
    var after := Loop(world, urls[..i + 1], 1, s);
    assert after == Loop(world, [urls[i]], 1 + i, mid);
    assert [urls[i]][1..] == [];
    assert after == Visit(world, 1 + i, urls[i], mid);
    assert dest in after.images;
    LoopAppend(world, urls[..i + 1], urls[i + 1..j], 1, s);
    assert urls[..i + 1] + urls[i + 1..j] == urls[..j];
    LoopKeepsImages(world, urls[i + 1..j], 1 + (i + 1), after, dest);
  }
}
