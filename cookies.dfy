/**
 * Session bootstrap of dw-downloader.py: the cookie jar built from a raw
 * `Cookie:` header or from a Netscape cookies.txt file.
 */
module Cookies {

  import opened Wrappers
  import opened Text
  import opened Entries

  type Jar = map<string, string>

  // ---------------------------------------------------------------- Cookie header

  /** A `;`-separated segment is used when, once stripped, it is non-empty and holds '='. */
  predicate KeptSegment(part: string) {
    var p := Strip(part);
    p != "" && '=' in p
  }

  /** `k, v = part.split("=", 1)` on the stripped segment, both halves stripped again. */
  function SegmentEntry(part: string): (string, string) {
    var p := Strip(part);
    if '=' in p then
      var i := IndexOf(p, '=');
      (Strip(p[..i]), Strip(p[i + 1..]))
    else ("", "")
  }

  /** The jar `parse_cookie_header` returns for `header`. */
  function HeaderJar(header: string): Jar {
    Collect(Split(header, ';'), KeptSegment, SegmentEntry)
  }

  method ParseCookieHeader(header: string) returns (cookies: Jar)
    ensures cookies == HeaderJar(header)
  {
    var parts := Split(header, ';');
    cookies := map[];
    for i := 0 to |parts|
      invariant cookies == Collect(parts[..i], KeptSegment, SegmentEntry)
    {
      var part := Strip(parts[i]);
      CollectSnoc(parts[..i], parts[i], KeptSegment, SegmentEntry);
      assert parts[..i + 1] == parts[..i] + [parts[i]];
      if part == "" || '=' !in part {
        continue;
      }
      var eq := IndexOf(part, '=');
      var k, v := part[..eq], part[eq + 1..];
      cookies := cookies[Strip(k) := Strip(v)];
    }
    assert parts[..|parts|] == parts;
  }

  /**
   * Which cookies a header yields: a name is present exactly when some
   * non-empty segment holding '=' gives it, and its value is the one from
   * the last such segment.
   */
  lemma HeaderJarContents(header: string, k: string)
    ensures var parts := Split(header, ';');
            k in HeaderJar(header)
            <==> exists i :: 0 <= i < |parts| && KeptSegment(parts[i]) && SegmentEntry(parts[i]).0 == k
  {
    HeaderJarIsCollect(header);
    CollectKeys(Split(header, ';'), KeptSegment, SegmentEntry, k);
  }

  lemma HeaderJarIsCollect(header: string)
    ensures HeaderJar(header) == Collect(Split(header, ';'), KeptSegment, SegmentEntry)
  {
  }

  /** A later segment with the same name overwrites an earlier one. */
  lemma HeaderJarLastWins(header: string, i: nat)
    requires var parts := Split(header, ';');
             i < |parts| && KeptSegment(parts[i])
             && forall j :: i < j < |parts| && KeptSegment(parts[j]) ==> SegmentEntry(parts[j]).0 != SegmentEntry(parts[i]).0
    ensures var e := SegmentEntry(Split(header, ';')[i]);
            e.0 in HeaderJar(header) && HeaderJar(header)[e.0] == e.1
  {
    HeaderJarIsCollect(header);
    CollectLast(Split(header, ';'), KeptSegment, SegmentEntry, i);
  }

  /**
   * A kept segment splits on its first '=' only, so the value may hold
   * further '=' characters; name and value carry no surrounding whitespace.
   */
  lemma SegmentSplitsOnFirstEquals(part: string)
    requires KeptSegment(part)
    ensures exists a, b :: Strip(part) == a + "=" + b && '=' !in a
                           && SegmentEntry(part) == (Strip(a), Strip(b))
    ensures Strip(SegmentEntry(part).0) == SegmentEntry(part).0
    ensures Strip(SegmentEntry(part).1) == SegmentEntry(part).1
  {
    var p := Strip(part);
    var i := IndexOf(p, '=');
    var a, b := p[..i], p[i + 1..];
    assert p == a + "=" + b;
    assert SegmentEntry(part) == (Strip(a), Strip(b));
    StripIdempotent(a);
    StripIdempotent(b);
  }

  /** The segment `"a=b=c"` gives the cookie `a` with value `"b=c"`. */
  lemma SegmentExample()
    ensures KeptSegment("a=b=c") && SegmentEntry("a=b=c") == ("a", "b=c")
  {
    assert Strip("a=b=c") == "a=b=c";
    assert IndexOf("a=b=c", '=') == 1;
    assert "a=b=c"[..1] == "a" && "a=b=c"[2..] == "b=c";
    assert Strip("a") == "a" && Strip("b=c") == "b=c";
  }

  // ---------------------------------------------------------------- cookies.txt

  const DefaultDomain := "dreamwidth.org"

  /** A cookies.txt line is used when non-empty, not a '#' comment, with >= 7 tab fields and the domain in field 0. */
  predicate CookieLine(domain: string, line: string) {
    line != "" && line[0] != '#'
    && var parts := Split(line, '\t');
       |parts| >= 7 && Contains(parts[0], domain)
  }

  function LineFilter(domain: string): string -> bool {
    line => CookieLine(domain, line)
  }

  /** Fields 5 and 6 (name and value); fields past the seventh are ignored. */
  function LineEntry(line: string): (string, string) {
    var parts := Split(line, '\t');
    if |parts| >= 7 then (parts[5], parts[6]) else ("", "")
  }

  /** The jar the lines of a cookies.txt give for `domain`. */
  function FileJar(domain: string, lines: seq<string>): Jar {
    Collect(lines, LineFilter(domain), LineEntry)
  }

  datatype CookieError = CookieFileNotFound | NoCookiesForDomain

  /**
   * `load_netscape_cookie_file`; `file` is None when the path does not
   * exist, otherwise it holds the file's lines.
   */
  /** What `load_netscape_cookie_file` returns or raises for a file's lines, `None` when it does not exist. */
  function FileCookies(file: Option<seq<string>>, domain: string): Result<Jar, CookieError> {
    match file
    case None => Failure(CookieFileNotFound)
    case Some(lines) => if FileJar(domain, lines) == map[] then Failure(NoCookiesForDomain) else Success(FileJar(domain, lines))
  }

  method LoadNetscapeCookieFile(file: Option<seq<string>>, domain: string) returns (r: Result<Jar, CookieError>)
    ensures r == FileCookies(file, domain)
    ensures file.None? ==> r == Failure(CookieFileNotFound)
    ensures r == Failure(NoCookiesForDomain)
            <==> file.Some? && forall i :: 0 <= i < |file.value| ==> !CookieLine(domain, file.value[i])
  {
    if file.None? {
      return Failure(CookieFileNotFound);
    }
    var lines := file.value;
    var cookies: Jar := map[];
    for i := 0 to |lines|
      invariant cookies == Collect(lines[..i], LineFilter(domain), LineEntry)
    {
      var line := lines[i];
      CollectSnoc(lines[..i], line, LineFilter(domain), LineEntry);
      assert lines[..i + 1] == lines[..i] + [line];
      if line == "" || line[0] == '#' {
        continue;
      }
      var parts := Split(line, '\t');
      if |parts| >= 7 && Contains(parts[0], domain) {
        cookies := cookies[parts[5] := parts[6]];
      }
    }
    assert lines[..|lines|] == lines;
    CollectEmpty(lines, LineFilter(domain), LineEntry);
    if cookies == map[] {
      return Failure(NoCookiesForDomain);
    }
    return Success(cookies);
  }

  /** A cookie name is present exactly when some used line has it in field 5. */
  lemma FileJarContents(domain: string, lines: seq<string>, k: string)
    ensures k in FileJar(domain, lines)
            <==> exists i :: 0 <= i < |lines| && CookieLine(domain, lines[i]) && Split(lines[i], '\t')[5] == k
  {
    CollectKeys(lines, LineFilter(domain), LineEntry, k);
  }

  /** The value is field 6 of the last used line with that name. */
  lemma FileJarLastWins(domain: string, lines: seq<string>, i: nat)
    requires i < |lines| && CookieLine(domain, lines[i])
    requires forall j :: i < j < |lines| && CookieLine(domain, lines[j]) ==> Split(lines[j], '\t')[5] != Split(lines[i], '\t')[5]
    ensures var parts := Split(lines[i], '\t');
            parts[5] in FileJar(domain, lines) && FileJar(domain, lines)[parts[5]] == parts[6]
  {
    CollectLast(lines, LineFilter(domain), LineEntry, i);
  }
}
