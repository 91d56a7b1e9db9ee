/**
 * Response classification in dw-downloader.py: `looks_like_xml_export`
 * and the login-redirect test `main` applies to the export page.
 */
module Classifier {

  import opened Text
  import opened Transport

  /** Root elements that mark the XML export. */
  const Markers: seq<string> := ["<?xml", "<livejournal", "<lj:livejournal", "<event", "<entry"]

  /** How much of the body is searched for a marker. */
  const HeadLength := 5000

  /** `text[:5000].lower()` for `text = body.lstrip()`. */
  function Head(body: string): string {
    var text := LStrip(body);
    Lower(if |text| <= HeadLength then text else text[..HeadLength])
  }

  predicate HasMarker(head: string) {
    exists i :: 0 <= i < |Markers| && Contains(head, Markers[i])
  }

  /** `looks_like_xml_export`: an xml Content-Type, or a marker near the start of the body. */
  predicate LooksLikeXmlExport(r: Response) {
    Contains(Lower(r.contentType), "xml") || HasMarker(Head(r.body))
  }

  /** The test at the top of `main`'s export-page handling: sent to a login page. */
  predicate RedirectedToLogin(finalUrl: string) {
    Contains(finalUrl, "returnto=/export") || Contains(Lower(finalUrl), "login")
  }

  /**
   * The classifier in positional terms: the lower-cased Content-Type holds
   * "xml", or some marker occurs in the lower-cased left-stripped body
   * ending within its first 5000 characters.
   */
  lemma LooksLikeXmlExportAt(r: Response)
    ensures LooksLikeXmlExport(r)
            <==> Contains(Lower(r.contentType), "xml")
                 || exists i, k :: 0 <= i < |Markers| && k + |Markers[i]| <= HeadLength
                                  && OccursAt(Lower(LStrip(r.body)), Markers[i], k)
  {
    var text := LStrip(r.body);
    var n := if |text| <= HeadLength then |text| else HeadLength;
    assert text[..n] == (if |text| <= HeadLength then text else text[..HeadLength]);
    LowerPrefix(text, n);
    var low := Lower(text);
    assert Head(r.body) == low[..n];
    forall i | 0 <= i < |Markers|
      ensures Contains(Head(r.body), Markers[i])
              <==> exists k :: k + |Markers[i]| <= HeadLength && OccursAt(low, Markers[i], k)
    {
      WindowOccurs(low, n, Markers[i]);
    }
    assert HasMarker(Head(r.body)) <==> exists i :: 0 <= i < |Markers| && Contains(Head(r.body), Markers[i]);
    assert HasMarker(Head(r.body))
           <==> exists i :: 0 <= i < |Markers| && exists k :: k + |Markers[i]| <= HeadLength && OccursAt(low, Markers[i], k);
    assert low == Lower(LStrip(r.body));
  }

  /** An occurrence in the first `n = min(|s|, 5000)` characters is one that ends by position 5000. */
  lemma WindowOccurs(s: string, n: nat, p: string)
    requires n == if |s| <= HeadLength then |s| else HeadLength
    ensures Contains(s[..n], p) <==> exists k :: k + |p| <= HeadLength && OccursAt(s, p, k)
  {
    ContainsAt(s[..n], p);
    if Contains(s[..n], p) {
      var k :| OccursAt(s[..n], p, k);
      assert s[..n][k..k + |p|] == s[k..k + |p|];
      assert OccursAt(s, p, k);
    }
    if exists k :: k + |p| <= HeadLength && OccursAt(s, p, k) {
      var k :| k + |p| <= HeadLength && OccursAt(s, p, k);
      ContainsWithin(s, n, p, k);
    }
  }

  /** Whitespace before the body's first character does not change the verdict. */
  lemma LeadingWhitespaceIgnored(r: Response, ws: string)
    requires forall k :: 0 <= k < |ws| ==> IsSpace(ws[k])
    ensures LooksLikeXmlExport(r.(body := ws + r.body)) == LooksLikeXmlExport(r)
  {
    LStripSpacePrefix(ws, r.body);
  }

  /** Only the first 5000 characters after the leading whitespace are consulted. */
  lemma OnlyHeadConsulted(r: Response)
    requires |LStrip(r.body)| > HeadLength
    ensures LooksLikeXmlExport(r) == LooksLikeXmlExport(r.(body := LStrip(r.body)[..HeadLength]))
  {
    var text := LStrip(r.body);
    var head := text[..HeadLength];
    LStripShape(r.body);
    assert head[0] == text[0];
    assert LStrip(head) == head;
    assert Head(head) == Head(r.body);
    var r' := r.(body := head);
    assert r'.contentType == r.contentType && Head(r'.body) == Head(r.body);
  }

  /** A body that starts, after whitespace, with `<?xml` is taken for the export. */
  lemma XmlDeclarationRecognised(r: Response)
    requires StartsWith(LStrip(r.body), "<?xml")
    ensures LooksLikeXmlExport(r)
  {
    var text := LStrip(r.body);
    assert OccursAt(text, "<?xml", 0);
    LowerPrefix(text, 5);
    assert text[..5] == "<?xml";
    assert Lower("<?xml") == "<?xml";
    assert OccursAt(Lower(text), Markers[0], 0);
    assert 0 + |Markers[0]| <= HeadLength;
    LooksLikeXmlExportAt(r);
    assert exists i, k :: 0 <= i < |Markers| && k + |Markers[i]| <= HeadLength
                          && OccursAt(Lower(LStrip(r.body)), Markers[i], k);
  }

  /** The "login" test ignores case: any spelling of LOGIN in the URL counts. */
  lemma LoginTestIgnoresCase(finalUrl: string, word: string)
    requires Lower(word) == "login" && Contains(finalUrl, word)
    ensures RedirectedToLogin(finalUrl)
  {
    ContainsAt(finalUrl, word);
    var k :| OccursAt(finalUrl, word, k);
    LowerSlice(finalUrl, k, k + |word|);
    ContainsAt(Lower(finalUrl), "login");
    assert OccursAt(Lower(finalUrl), "login", k);
  }
}
