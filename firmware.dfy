/**
 * The latest-firmware lookup of `SamsungFirmwareInfo` (sambot/utils/firmware.py).
 *
 * The two pages it downloads are given already parsed. The device document page is
 * reduced to the element with id `dflt_page` and its `value` attribute. The English
 * changelog page is reduced to the `col-md-3` cell texts of each `row` block, the `h1`
 * texts, and the contents of each `span` as text and line-break nodes. A page that could
 * not be fetched is `None`. The second page is looked up by the token taken from the
 * first, so it is given as a function of that token.
 */
module Firmware {

  import opened Wrappers
  import opened Strings
  import opened Dates
  import Versions

  datatype FirmwareMeta = FirmwareMeta(
    model: string,
    region: string,
    osVersion: string,
    pda: string,
    buildDate: Date,
    securityPatch: Date,
    name: string,
    changelog: string)
  {
    /** `download_url()`. */
    function DownloadUrl(): (r: string)
      ensures StartsWith(r, "https://samfw.com/firmware/")
    {
      "https://samfw.com/firmware/" + model + "/" + region + "/" + pda
    }

    /** `is_newer_than(old_pda)`: the comparator shared with the kernel records. */
    function IsNewerThan(oldPda: string): bool {
      Versions.IsNewerThan(pda, oldPda)
    }
  }

  /** Splitting three `/`-joined pieces free of `/` gives the pieces back. */
  lemma SplitThree(a: string, b: string, c: string)
    requires '/' !in a && '/' !in b && '/' !in c
    ensures Split(a + "/" + b + "/" + c, "/") == [a, b, c]
  {
    assert a + "/" + b + "/" + c == a + "/" + (b + "/" + c);
    SplitCons(a, "/", b + "/" + c);
    SplitCons(b, "/", c);
    SplitFree(c, "/");
  }

  /** Four leading `/`-free pieces come off a split one by one. */
  lemma SplitFourThen(a: string, b: string, c: string, d: string, tail: string)
    requires '/' !in a && '/' !in b && '/' !in c && '/' !in d
    ensures Split(a + "/" + (b + "/" + (c + "/" + (d + "/" + tail))), "/")
            == [a, b, c, d] + Split(tail, "/")
  {
    var s3 := d + "/" + tail;
    var s2 := c + "/" + s3;
    var s1 := b + "/" + s2;
    var rest := Split(tail, "/");
    SplitCons(d, "/", tail);
    SplitCons(c, "/", s3);
    SplitCons(b, "/", s2);
    SplitCons(a, "/", s1);
    PrependFour(a, b, c, d, rest);
  }

  lemma PrependFour<T>(a: T, b: T, c: T, d: T, rest: seq<T>)
    ensures [a] + ([b] + ([c] + ([d] + rest))) == [a, b, c, d] + rest
  {
  }

  lemma UrlPrefixPieces(tail: string)
    ensures "https://samfw.com/firmware/" + tail
            == "https:" + "/" + ("" + "/" + ("samfw.com" + "/" + ("firmware" + "/" + tail)))
  {
  }

  lemma SplitUrlPrefix(tail: string)
    ensures Split("https://samfw.com/firmware/" + tail, "/")
            == ["https:", "", "samfw.com", "firmware"] + Split(tail, "/")
  {
    UrlPrefixPieces(tail);
    assert '/' !in "https:" && '/' !in "samfw.com" && '/' !in "firmware";
    SplitFourThen("https:", "", "samfw.com", "firmware", tail);
  }

  /** The download URL names, as its last three path segments, the model, region and PDA. */
  lemma DownloadUrlSegments(f: FirmwareMeta)
    requires '/' !in f.model && '/' !in f.region && '/' !in f.pda
    ensures Split(f.DownloadUrl(), "/") == ["https:", "", "samfw.com", "firmware", f.model, f.region, f.pda]
  {
    var tail := f.model + "/" + f.region + "/" + f.pda;
    assert f.DownloadUrl() == "https://samfw.com/firmware/" + tail;
    SplitUrlPrefix(tail);
    SplitThree(f.model, f.region, f.pda);
    AppendSeven("https:", "", "samfw.com", "firmware", f.model, f.region, f.pda);
  }

  lemma AppendSeven<T>(a: T, b: T, c: T, d: T, e: T, f: T, g: T)
    ensures [a, b, c, d] + [e, f, g] == [a, b, c, d, e, f, g]
  {
  }

  // ---------------------------------------------------------------------------------------
  // Parsed pages
  // ---------------------------------------------------------------------------------------

  /** The `dflt_page` element: its `value` attribute, if it has one. */
  datatype InputElem = InputElem(value: Option<string>)

  /** The device document page: the `dflt_page` element, if the page has one. */
  datatype DocPage = DocPage(dfltPage: Option<InputElem>)

  /** A child of a `span`: a run of text or a `<br>` tag. */
  datatype Node = Text(text: string) | Br

  /**
   * The English changelog page: for each `row` block the texts of its `col-md-3` cells,
   * the texts of the `h1` elements, and the children of each `span`.
   */
  datatype EngPage = EngPage(rows: seq<seq<string>>, headings: seq<string>, spans: seq<seq<Node>>)

  /** `get_text()` of one node: a `<br>` tag has no text of its own. */
  function NodeText(n: Node): string {
    match n
    case Text(t) => t
    case Br => ""
  }

  /** `get_text()` of a sequence of nodes. */
  function GetText(ns: seq<Node>): string {
    if ns == [] then "" else GetText(ns[..|ns| - 1]) + NodeText(ns[|ns| - 1])
  }

  /** What a node reads as once every `<br>` stands for a newline. */
  function NodeRendered(n: Node): string {
    match n
    case Text(t) => t
    case Br => "\n"
  }

  /** The text of a sequence of nodes where every `<br>` reads as a newline. */
  function RenderedText(ns: seq<Node>): string {
    if ns == [] then "" else RenderedText(ns[..|ns| - 1]) + NodeRendered(ns[|ns| - 1])
  }

  predicate NoBreaks(ns: seq<Node>) {
    forall j :: 0 <= j < |ns| ==> ns[j].Text?
  }

  /** Without line breaks the two readings agree. */
  lemma {:induction false} RenderedWithoutBreaks(ns: seq<Node>)
    requires NoBreaks(ns)
    ensures RenderedText(ns) == GetText(ns)
  {
    if ns != [] {
      RenderedWithoutBreaks(ns[..|ns| - 1]);
    }
  }

  /** The parsed changelog page, whose `<br>` tags the lookup replaces in place. */
  class Soup {
    var rows: seq<seq<string>>
    var headings: seq<string>
    var spans: seq<seq<Node>>

    constructor(page: EngPage)
      ensures rows == page.rows && headings == page.headings && spans == page.spans
    {
      rows := page.rows;
      headings := page.headings;
      spans := page.spans;
    }

    /**
     * `for br in soup.find_all("br"): br.replace_with("\n")`: afterwards no span holds a
     * `<br>`, and the text of each span is what it rendered as before.
     */
    method ReplaceBreaks()
      modifies this
      ensures rows == old(rows) && headings == old(headings)
      ensures |spans| == |old(spans)|
      ensures forall i :: 0 <= i < |spans| ==>
                NoBreaks(spans[i]) && GetText(spans[i]) == RenderedText(old(spans)[i])
    {
      var i := 0;
      while i < |spans|
        invariant 0 <= i <= |spans| == |old(spans)|
        invariant rows == old(rows) && headings == old(headings)
        invariant forall k :: 0 <= k < i ==>
                    NoBreaks(spans[k]) && GetText(spans[k]) == RenderedText(old(spans)[k])
        invariant forall k :: i <= k < |spans| ==> spans[k] == old(spans)[k]
      {
        var out := ReplaceSpanBreaks(spans[i]);
        spans := spans[i := out];
        i := i + 1;
      }
    }

    /** The changelog: the text of the second span once its breaks are replaced, or empty. */
    method ChangelogText() returns (changelog: string)
      modifies this
      ensures rows == old(rows) && headings == old(headings)
      ensures changelog == if |old(spans)| > 1 then RenderedText(old(spans)[1]) else ""
    {
      ReplaceBreaks();
      changelog := "";
      if |spans| > 1 {
        changelog := GetText(spans[1]);
      }
    }
  }

  /** One span with each `<br>` child replaced by a newline text node. */
  method ReplaceSpanBreaks(span: seq<Node>) returns (out: seq<Node>)
    ensures NoBreaks(out) && GetText(out) == RenderedText(span)
  {
    out := [];
    var j := 0;
    while j < |span|
      invariant 0 <= j <= |span|
      invariant NoBreaks(out) && GetText(out) == RenderedText(span[..j])
    {
      var n := if span[j].Br? then Text("\n") else span[j];
      ReplaceSpanStep(span, j, out, n);
      out := out + [n];
      j := j + 1;
    }
    assert span[..|span|] == span;
  }

  lemma ReplaceSpanStep(span: seq<Node>, j: nat, out: seq<Node>, n: Node)
    requires j < |span| && n.Text? && NodeText(n) == NodeRendered(span[j])
    requires NoBreaks(out) && GetText(out) == RenderedText(span[..j])
    ensures NoBreaks(out + [n]) && GetText(out + [n]) == RenderedText(span[..j + 1])
  {
    var p := span[..j + 1];
    assert p[..j] == span[..j] && p[j] == span[j];
    assert RenderedText(p) == RenderedText(span[..j]) + NodeRendered(span[j]);
    var o := out + [n];
    assert o[..|out|] == out && o[|out|] == n;
    assert GetText(o) == GetText(out) + NodeText(n);
    assert forall k :: 0 <= k < |o| ==> o[k] == if k < |out| then out[k] else n;
  }

  // ---------------------------------------------------------------------------------------
  // Extraction
  // ---------------------------------------------------------------------------------------

  /** `value.split("/")[3]`: the token naming the changelog page. */
  function Token(value: string): (r: Option<string>)
    ensures r.Some? ==> '/' !in r.value
  {
    var parts := Split(value, "/");
    SplitPiecesAreFree(value, "/");
    if |parts| < 4 then None
    else
      ContainsSingle(parts[3], '/');
      Some(parts[3])
  }

  /** `text.split(":")[1].strip()`: the value of a `Label: value` cell. */
  function Field(text: string): (r: Option<string>)
    ensures r.Some? ==> ':' !in r.value
    ensures r.None? <==> ':' !in text
  {
    var parts := Split(text, ":");
    SplitPiecesAreFree(text, ":");
    if |parts| < 2 then
      assert text == parts[0];
      ContainsSingle(parts[0], ':');
      None
    else
      assert ':' in text by {
        assert text == parts[0] + ":" + Join(parts[1..], ":");
        assert text[|parts[0]|] == ':';
      }
      ContainsSingle(parts[1], ':');
      StripKeepsAll(parts[1], ':');
      Some(Strip(parts[1]))
  }

  /** If a character is absent from `s`, it is absent from `Strip(s)`. */
  lemma StripKeepsAll(s: string, c: char)
    requires c !in s
    ensures c !in Strip(s)
  {
    if c in Strip(s) {
      StripKeepsCharacters(s, c);
    }
  }

  /** The field between the first and the second `:` is the value, trimmed. */
  lemma FieldOfLabelled(key: string, v: string, rest: string)
    requires ':' !in key && ':' !in v && (rest == "" || rest[0] == ':')
    ensures Field(key + ":" + v + rest) == Some(Strip(v))
  {
    assert key + ":" + v + rest == key + ":" + (v + rest);
    SplitCons(key, ":", v + rest);
    if rest == "" {
      assert v + rest == v;
      SplitFree(v, ":");
    } else {
      assert v + rest == v + ":" + rest[1..];
      SplitCons(v, ":", rest[1..]);
    }
  }

  /** `h1[0].text.split("(")[0].strip()`: the device name before its parenthesised model. */
  function Title(headings: seq<string>): (r: string)
    ensures |headings| > 0 ==> '(' !in r
    ensures |headings| == 0 ==> r == ""
  {
    if |headings| > 0 then
      var parts := Split(headings[0], "(");
      SplitPiecesAreFree(headings[0], "(");
      ContainsSingle(parts[0], '(');
      StripKeepsAll(parts[0], '(');
      Strip(parts[0])
    else ""
  }

  /** The OS version as printed: every `(Android ` becomes ` (`. */
  function OsVersionText(field: string): string {
    ReplaceAll(field, "(Android ", " (")
  }

  /**
   * The record read from the changelog page, before any `<br>` is replaced in its spans,
   * or `None` where the code raises or falls through.
   */
  function ExtractFields(model: string, region: string, page: EngPage): (r: Option<FirmwareMeta>)
    ensures r.Some? ==> r.value.model == model && r.value.region == region
    ensures r.Some? ==> |page.rows| >= 2 && |page.rows[1]| >= 4
    ensures r.Some? ==> ValidDate(r.value.buildDate) && ValidDate(r.value.securityPatch)
    ensures r.Some? <==>
              && |page.rows| >= 2 && |page.rows[1]| >= 4
              && Field(page.rows[1][0]).Some? && Field(page.rows[1][1]).Some?
              && Field(page.rows[1][2]).Some? && Field(page.rows[1][3]).Some?
              && ParseDate(Field(page.rows[1][2]).value).Some? && ParseDate(Field(page.rows[1][3]).value).Some?
    ensures r.Some? ==> Field(page.rows[1][0]) == Some(r.value.pda)
    ensures r.Some? ==> r.value.osVersion == OsVersionText(Field(page.rows[1][1]).value)
    ensures r.Some? ==> ParseDate(Field(page.rows[1][2]).value) == Some(r.value.buildDate)
    ensures r.Some? ==> ParseDate(Field(page.rows[1][3]).value) == Some(r.value.securityPatch)
    ensures r.Some? ==> r.value.name == Title(page.headings)
    ensures r.Some? ==> r.value.changelog == if |page.spans| > 1 then RenderedText(page.spans[1]) else ""
  {
    if |page.rows| < 2 || |page.rows[1]| < 4 then None
    else
      var info := page.rows[1];
      var pda, os, release, patch := Field(info[0]), Field(info[1]), Field(info[2]), Field(info[3]);
      if pda.None? || os.None? || release.None? || patch.None? then None
      else
        var built, patched := ParseDate(release.value), ParseDate(patch.value);
        if built.None? || patched.None? then None
        else
          Some(FirmwareMeta(
            model, region, OsVersionText(os.value), pda.value, built.value, patched.value,
            Title(page.headings), if |page.spans| > 1 then RenderedText(page.spans[1]) else ""))
  }

  /**
   * `fetch_latest(model, region)` over the two pages: `None` when the document page is
   * missing, has no `dflt_page` element, the element has no `value`, the value has fewer
   * than four `/`-segments, the changelog page is missing, or its fields do not parse.
   */
  function ExtractLatest(model: string, region: string, doc: Option<DocPage>,
                         eng: string -> Option<EngPage>): (r: Option<FirmwareMeta>)
    ensures r.Some? ==> doc.Some? && doc.value.dfltPage.Some? && doc.value.dfltPage.value.value.Some?
    ensures r.Some? ==>
              var tok := Token(doc.value.dfltPage.value.value.value);
              tok.Some? && eng(tok.value).Some? && r == ExtractFields(model, region, eng(tok.value).value)
  {
    match doc
    case None => None
    case Some(DocPage(None)) => None
    case Some(DocPage(Some(InputElem(None)))) => None
    case Some(DocPage(Some(InputElem(Some(value))))) =>
      match Token(value)
      case None => None
      case Some(tok) =>
        match eng(tok)
        case None => None
        case Some(page) => ExtractFields(model, region, page)
  }

  /** The token is the fourth `/`-segment of the `dflt_page` value. */
  lemma TokenOfSegments(ps: seq<string>)
    requires |ps| >= 4 && forall i :: 0 <= i < |ps| ==> '/' !in ps[i]
    ensures Token(Join(ps, "/")) == Some(ps[3])
  {
    SplitJoin(ps, "/");
  }

  /** A value with fewer than four segments gives no result. */
  lemma FewSegmentsGiveNothing(model: string, region: string, ps: seq<string>,
                               eng: string -> Option<EngPage>)
    requires 1 <= |ps| < 4 && forall i :: 0 <= i < |ps| ==> '/' !in ps[i]
    ensures ExtractLatest(model, region, Some(DocPage(Some(InputElem(Some(Join(ps, "/")))))), eng) == None
  {
    SplitJoin(ps, "/");
  }

  /** A well-formed document page leads to the changelog page its token names. */
  lemma ExtractThroughToken(model: string, region: string, ps: seq<string>,
                            eng: string -> Option<EngPage>)
    requires |ps| >= 4 && forall i :: 0 <= i < |ps| ==> '/' !in ps[i]
    ensures ExtractLatest(model, region, Some(DocPage(Some(InputElem(Some(Join(ps, "/")))))), eng)
            == if eng(ps[3]).Some? then ExtractFields(model, region, eng(ps[3]).value) else None
  {
    TokenOfSegments(ps);
  }

  /** An OS version without `(Android ` is printed as it is. */
  lemma OsVersionUnchanged(field: string)
    requires !Contains(field, "(Android ")
    ensures OsVersionText(field) == field
  {
    ReplaceAbsent(field, "(Android ", " (");
  }

  /**
   * `fetch_latest` step by step: the changelog span is read after the `<br>` tags of the
   * parsed page have been replaced in place.
   */
  method FetchLatest(model: string, region: string, doc: Option<DocPage>,
                     eng: string -> Option<EngPage>) returns (r: Option<FirmwareMeta>)
    ensures r == ExtractLatest(model, region, doc, eng)
  {
    if doc.None? || doc.value.dfltPage.None? || doc.value.dfltPage.value.value.None? {
      return None;
    }
    var value := doc.value.dfltPage.value.value.value;
    var tok := Token(value);
    if tok.None? {
      return None;
    }
    var fetched := eng(tok.value);
    if fetched.None? {
      return None;
    }
    r := ReadChangelogPage(model, region, fetched.value);
  }

  /** The part of `fetch_latest` that works on the parsed changelog page. */
  method ReadChangelogPage(model: string, region: string, page: EngPage)
    returns (r: Option<FirmwareMeta>)
    ensures r == ExtractFields(model, region, page)
  {
    var soup := new Soup(page);
    if |soup.rows| < 2 || |soup.rows[1]| < 4 {
      return None;
    }
    var info := soup.rows[1];
    var pda, os, release, patch := Field(info[0]), Field(info[1]), Field(info[2]), Field(info[3]);
    if pda.None? || os.None? || release.None? || patch.None? {
      return None;
    }
    var name := Title(soup.headings);
    var changelog := soup.ChangelogText();
    var built, patched := ParseDate(release.value), ParseDate(patch.value);
    if built.None? || patched.None? {
      return None;
    }
    r := Some(FirmwareMeta(model, region, OsVersionText(os.value), pda.value, built.value,
                           patched.value, name, changelog));
  }
}
