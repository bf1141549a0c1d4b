/**
 * The latest-kernel lookup of `SamsungKernelInfo` (sambot/utils/kernel.py): a scan of
 * the result table of the open-source release search.
 *
 * The search page is given already parsed, as its table rows. Each cell carries the two
 * texts the code reads from it and the first link inside it: `text` is
 * `get_text(strip=True)`, `spacedText` is `get_text(strip=True, separator=" ")`, and
 * `anchor` is `find("a")`. A search that could not be fetched is `None`.
 */
module Kernel {

  import opened Wrappers
  import opened Strings
  import Versions

  datatype KernelMeta = KernelMeta(model: string, pda: string, uploadId: string, patchKernel: Option<string>)
  {
    /** `is_newer_than(old_pda)`: the comparator shared with the firmware records. */
    function IsNewerThan(oldPda: string): bool {
      Versions.IsNewerThan(pda, oldPda)
    }
  }

  /** An `<a>` element and its `href` attribute, if it has one. */
  datatype Anchor = Anchor(href: Option<string>)

  datatype Cell = Cell(text: string, spacedText: string, anchor: Option<Anchor>)

  datatype Row = Row(cells: seq<Cell>)

  /** Only rows with more than four cells are looked at, and then only if they list the model. */
  predicate RowMatches(model: string, row: Row) {
    |row.cells| > 4 && model in Split(row.cells[1].text, "<br>")
  }

  /** The last `<br>` piece of the firmware cell, stripped, keeping only ASCII letters and digits. */
  function FwVersion(cell: Cell): (r: string)
    ensures forall i :: 0 <= i < |r| ==> IsAsciiAlnum(r[i])
  {
    KeepAsciiAlnum(Strip(Last(Split(cell.text, "<br>"))))
  }

  /** The upload id: the second `'`-piece of the link, stripped, or empty without a quote. */
  function UploadId(href: string): (r: string)
    ensures '\'' !in href ==> r == ""
  {
    var ps := Split(href, "'");
    if '\'' !in href then
      SplitFree(href, "'");
      ""
    else if |ps| > 1 then Strip(ps[1]) else ""
  }

  /** The build of a source archive: its name after the last `_`, cut before the first `.`. */
  function PatchVersion(fileName: string): (r: string)
    ensures '_' !in r && '.' !in r
  {
    var broken := Split(fileName, "_");
    SplitPiecesAreFree(fileName, "_");
    ContainsSingle(Last(broken), '_');
    var cut := Split(Last(broken), ".");
    SplitPiecesAreFree(Last(broken), ".");
    ContainsSingle(cut[0], '.');
    assert forall c :: c in cut[0] ==> c in Last(broken) by {
      assert Last(broken) == cut[0] || Last(broken) == cut[0] + "." + Join(cut[1..], ".");
    }
    cut[0]
  }

  /**
   * What a matching row yields: `None` when its fifth cell has no link or the link has no
   * `href` (the exception the code catches). When the file cell lists more than one file,
   * the PDA comes from the last file name and the firmware version becomes the patch
   * kernel; otherwise the firmware version is the PDA.
   */
  function RowResult(model: string, row: Row): (r: Option<KernelMeta>)
    requires |row.cells| > 4
    ensures r.Some? ==> r.value.model == model
    ensures r.Some? <==> row.cells[4].anchor.Some? && row.cells[4].anchor.value.href.Some?
    ensures r.Some? ==>
              var files := Split(row.cells[3].spacedText, " ");
              && (r.value.patchKernel.Some? <==> |files| > 1)
              && (|files| > 1 ==> r.value.pda == PatchVersion(Last(files))
                                  && r.value.patchKernel == Some(FwVersion(row.cells[2])))
              && (|files| <= 1 ==> r.value.pda == FwVersion(row.cells[2]))
              && r.value.uploadId == UploadId(row.cells[4].anchor.value.href.value)
  {
    var fw := FwVersion(row.cells[2]);
    match row.cells[4].anchor
    case None => None
    case Some(Anchor(None)) => None
    case Some(Anchor(Some(href))) =>
      var uploadId := UploadId(href);
      var files := Split(row.cells[3].spacedText, " ");
      if |files| > 1 then
        Some(KernelMeta(model, PatchVersion(Last(files)), uploadId, Some(fw)))
      else
        Some(KernelMeta(model, fw, uploadId, None))
  }

  /** The index of the first row at or after `i` that matches, or -1. */
  function FirstMatchFrom(model: string, rows: seq<Row>, i: nat): (r: int)
    requires i <= |rows|
    decreases |rows| - i
    ensures r == -1 || (i <= r < |rows| && RowMatches(model, rows[r]))
    ensures forall k :: i <= k < |rows| && (r == -1 || k < r) ==> !RowMatches(model, rows[k])
  {
    if i == |rows| then -1
    else if RowMatches(model, rows[i]) then i
    else FirstMatchFrom(model, rows, i + 1)
  }

  /**
   * `fetch_latest(model)`: the outcome of the first row that lists the model, or `None`
   * when the search failed or no row lists it.
   */
  function LatestKernel(model: string, search: Option<seq<Row>>): (r: Option<KernelMeta>)
    ensures r.Some? ==> r.value.model == model
    ensures r.Some? ==> search.Some? && exists k :: 0 <= k < |search.value| && RowMatches(model, search.value[k])
  {
    match search
    case None => None
    case Some(rows) =>
      var k := FirstMatchFrom(model, rows, 0);
      if k < 0 then None else RowResult(model, rows[k])
  }

  /** The first matching row decides: later rows never matter once one matches. */
  lemma FirstMatchDecides(model: string, rows: seq<Row>, k: nat)
    requires k < |rows| && RowMatches(model, rows[k])
    requires forall j :: 0 <= j < k ==> !RowMatches(model, rows[j])
    ensures LatestKernel(model, Some(rows)) == RowResult(model, rows[k])
  {
    var r := FirstMatchFrom(model, rows, 0);
    assert r != -1 && !(r < k) && !(k < r);
  }

  /** When no row lists the model there is no result. */
  lemma NoMatchNoKernel(model: string, rows: seq<Row>)
    requires forall j :: 0 <= j < |rows| ==> !RowMatches(model, rows[j])
    ensures LatestKernel(model, Some(rows)) == None
  {
  }

  /** The upload id of a link of the form `…'id'…` is the quoted id, stripped. */
  lemma UploadIdOfQuoted(pre: string, id: string, post: string)
    requires '\'' !in pre && '\'' !in id
    requires post == "" || post[0] == '\''
    ensures UploadId(pre + "'" + id + post) == Strip(id)
  {
    assert pre + "'" + id + post == pre + "'" + (id + post);
    SplitCons(pre, "'", id + post);
    if post == "" {
      assert id + post == id;
      SplitFree(id, "'");
    } else {
      assert id + post == id + "'" + post[1..];
      SplitCons(id, "'", post[1..]);
    }
    assert (pre + "'" + id + post)[|pre|] == '\'';
  }

  /** A source archive named `<stem>_<build>.<ext>` gives `<build>`. */
  lemma PatchVersionOfArchive(stem: string, build: string, ext: string)
    requires '_' !in build && '.' !in build && '_' !in ext
    ensures PatchVersion(stem + "_" + build + "." + ext) == build
  {
    assert stem + "_" + build + "." + ext == stem + "_" + (build + "." + ext);
    SplitLastPiece(stem, "_", build + "." + ext);
    SplitCons(build, ".", ext);
  }

  /** When several files are listed, only the last one is read. */
  lemma LastFileIsRead(first: string, last: string)
    requires ' ' !in last
    ensures Last(Split(first + " " + last, " ")) == last
    ensures |Split(first + " " + last, " ")| > 1
  {
    SplitLastPiece(first, " ", last);
  }

  /** `fetch_latest(model)` as the loop over the table rows that returns at the first match. */
  method FetchLatest(model: string, search: Option<seq<Row>>) returns (r: Option<KernelMeta>)
    ensures r == LatestKernel(model, search)
  {
    if search.None? {
      return None;
    }
    var rows := search.value;
    var i := 0;
    while i < |rows|
      invariant 0 <= i <= |rows|
      invariant FirstMatchFrom(model, rows, 0) == FirstMatchFrom(model, rows, i)
    {
      var row := rows[i];
      if |row.cells| > 4 {
        var models := Split(row.cells[1].text, "<br>");
        if model in models {
          var fw := FwVersion(row.cells[2]);
          var anchor := row.cells[4].anchor;
          if anchor.None? || anchor.value.href.None? {
            return None;
          }
          var uploadId := UploadId(anchor.value.href.value);
          var files := Split(row.cells[3].spacedText, " ");
          if |files| > 1 {
            return Some(KernelMeta(model, PatchVersion(Last(files)), uploadId, Some(fw)));
          }
          return Some(KernelMeta(model, fw, uploadId, None));
        }
      }
      i := i + 1;
    }
    r := None;
  }
}
