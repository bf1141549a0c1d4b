/**
 * The firmware database of sambot/database/firmware.py (`Firmwares`): one table `pda` with
 * the columns `Model` and `PDA` and no key, kept as a sequence of rows in rowid order,
 * which is the order SQLite scans it in. Every lookup matches the model with `LIKE`.
 */
module FirmwareStore {

  import opened Wrappers
  import opened SqlLike

  datatype PdaRow = PdaRow(model: string, pda: string)

  /** The first row, in scan order, whose `Model` is `LIKE` the pattern `m`. */
  function FirstMatch(rows: seq<PdaRow>, m: string): (r: int)
    ensures -1 <= r < |rows|
    ensures r >= 0 ==> Like(rows[r].model, m)
    ensures forall i :: 0 <= i < |rows| && (r == -1 || i < r) ==> !Like(rows[i].model, m)
  {
    if rows == [] then -1
    else if Like(rows[0].model, m) then 0
    else
      var r := FirstMatch(rows[1..], m);
      if r == -1 then -1 else r + 1
  }

  /** `get_pda(model)`: the `PDA` of the first matching row, `None` if there is none or it is empty. */
  function GetPdaOf(rows: seq<PdaRow>, m: string): (r: Option<string>)
    ensures r.Some? ==> r.value != ""
    ensures r.Some? <==> exists i :: 0 <= i < |rows| && Like(rows[i].model, m) && rows[i].pda != ""
                                    && forall j :: 0 <= j < i ==> !Like(rows[j].model, m)
    ensures r.Some? ==> exists i :: 0 <= i < |rows| && Like(rows[i].model, m) && rows[i].pda == r.value
    ensures r.Some? ==> FirstMatch(rows, m) >= 0 && r.value == rows[FirstMatch(rows, m)].pda
    ensures r.None? ==> FirstMatch(rows, m) == -1 || rows[FirstMatch(rows, m)].pda == ""
  {
    var i := FirstMatch(rows, m);
    if i >= 0 && rows[i].pda != "" then Some(rows[i].pda) else None
  }

  /** `check_model_exists(model)`: whether some row matches. */
  function ModelExists(rows: seq<PdaRow>, m: string): (r: bool)
    ensures r <==> exists i :: 0 <= i < |rows| && Like(rows[i].model, m)
  {
    FirstMatch(rows, m) >= 0
  }

  /** `UPDATE pda SET PDA = ? WHERE Model LIKE ?`. */
  function UpdateMatching(rows: seq<PdaRow>, m: string, p: string): seq<PdaRow> {
    if rows == [] then []
    else [if Like(rows[0].model, m) then rows[0].(pda := p) else rows[0]] + UpdateMatching(rows[1..], m, p)
  }

  /**
   * `set_pda(model, pda)` as the code does it: the `INSERT` names the columns
   * `(Model, PDA)` but is given `(pda, model)`, so a new row holds the two swapped.
   */
  function SetPdaAsWrittenSpec(rows: seq<PdaRow>, m: string, p: string): seq<PdaRow> {
    if !ModelExists(rows, m) then rows + [PdaRow(p, m)] else UpdateMatching(rows, m, p)
  }

  /** `set_pda(model, pda)` with the `INSERT` given its values in column order. */
  function SetPdaSpec(rows: seq<PdaRow>, m: string, p: string): seq<PdaRow> {
    if !ModelExists(rows, m) then rows + [PdaRow(m, p)] else UpdateMatching(rows, m, p)
  }

  /**
   * Which `INSERT` `set_pda` runs for a model that has no row yet: the statement with the
   * parameters bound as the code binds them, or the one with its values in column order.
   */
  datatype Insert = AsWritten | Corrected

  /** `set_pda(model, pda)` with the given `INSERT`. */
  function SetPdaWith(ins: Insert, rows: seq<PdaRow>, m: string, p: string): seq<PdaRow> {
    if ins.AsWritten? then SetPdaAsWrittenSpec(rows, m, p) else SetPdaSpec(rows, m, p)
  }

  class Firmwares {
    var rows: seq<PdaRow>

    /** A fresh database after `create_tables`. */
    constructor ()
      ensures rows == []
    {
      rows := [];
    }

    function GetPda(m: string): (r: Option<string>)
      reads this
      ensures r == GetPdaOf(rows, m)
    {
      GetPdaOf(rows, m)
    }

    function CheckModelExists(m: string): (r: bool)
      reads this
      ensures r <==> exists i :: 0 <= i < |rows| && Like(rows[i].model, m)
    {
      ModelExists(rows, m)
    }

    /** `set_pda`: insert when no row matches, otherwise update the matching rows. */
    method SetPda(m: string, p: string)
      modifies this
      ensures rows == SetPdaSpec(old(rows), m, p)
    {
      if !CheckModelExists(m) {
        rows := rows + [PdaRow(m, p)];
      } else {
        rows := UpdateMatching(rows, m, p);
      }
    }

    /** `set_pda` with the parameters bound as the code binds them. */
    method SetPdaAsWritten(m: string, p: string)
      modifies this
      ensures rows == SetPdaAsWrittenSpec(old(rows), m, p)
    {
      if !CheckModelExists(m) {
        rows := rows + [PdaRow(p, m)];
      } else {
        rows := UpdateMatching(rows, m, p);
      }
    }
  }

  // ---------------------------------------------------------------------------------
  // What `set_pda` does
  // ---------------------------------------------------------------------------------

  /** The update rewrites the `PDA` of the matching rows and leaves every other row alone. */
  lemma {:induction false} UpdateMatchingRows(rows: seq<PdaRow>, m: string, p: string)
    ensures |UpdateMatching(rows, m, p)| == |rows|
    ensures forall i :: 0 <= i < |rows| ==>
              UpdateMatching(rows, m, p)[i] == if Like(rows[i].model, m) then PdaRow(rows[i].model, p) else rows[i]
  {
    if rows != [] {
      UpdateMatchingRows(rows[1..], m, p);
    }
  }

  /**
   * `set_pda(m, p)` appends one row `(m, p)` when no row matches and otherwise keeps the
   * number of rows; a row whose model does not match is never changed, and a matching
   * row keeps its model and gets `p`.
   */
  lemma SetPdaRows(rows: seq<PdaRow>, m: string, p: string)
    ensures var r := SetPdaSpec(rows, m, p);
            && |r| == |rows| + (if ModelExists(rows, m) then 0 else 1)
            && (!ModelExists(rows, m) ==> r[|rows|] == PdaRow(m, p))
            && forall i :: 0 <= i < |rows| ==>
                 r[i] == if Like(rows[i].model, m) then PdaRow(rows[i].model, p) else rows[i]
  {
    UpdateMatchingRows(rows, m, p);
  }

  /** After `set_pda(m, p)` some row matches `m`. */
  lemma SetPdaMakesModelExist(rows: seq<PdaRow>, m: string, p: string)
    ensures ModelExists(SetPdaSpec(rows, m, p), m)
  {
    LikeReflexive(m);
    SetPdaRows(rows, m, p);
    if ModelExists(rows, m) {
      var i := FirstMatch(rows, m);
      assert Like(SetPdaSpec(rows, m, p)[i].model, m);
    } else {
      assert Like(SetPdaSpec(rows, m, p)[|rows|].model, m);
    }
  }

  /** After `set_pda(m, p)` with a non-empty `p`, `get_pda(m)` returns `p`. */
  lemma SetThenGetPda(rows: seq<PdaRow>, m: string, p: string)
    requires p != ""
    ensures GetPdaOf(SetPdaSpec(rows, m, p), m) == Some(p)
  {
    LikeReflexive(m);
    SetPdaRows(rows, m, p);
    var r := SetPdaSpec(rows, m, p);
    var k := if ModelExists(rows, m) then FirstMatch(rows, m) else |rows|;
    assert Like(r[k].model, m) && r[k].pda == p;
    forall j | 0 <= j < k
      ensures !Like(r[j].model, m)
    {
      assert r[j] == rows[j];
    }
    FirstMatchIs(r, m, k);
  }

  /** With `p` empty, `get_pda(m)` is `None` afterwards: an empty `PDA` reads as missing. */
  lemma SetEmptyThenGetPda(rows: seq<PdaRow>, m: string)
    ensures GetPdaOf(SetPdaSpec(rows, m, ""), m) == None
  {
    SetPdaRows(rows, m, "");
    var r := SetPdaSpec(rows, m, "");
    var i := FirstMatch(r, m);
    if i >= 0 {
      assert i < |rows| ==> Like(rows[i].model, m);
    }
  }

  lemma FirstMatchIs(rows: seq<PdaRow>, m: string, k: nat)
    requires k < |rows| && Like(rows[k].model, m)
    requires forall j :: 0 <= j < k ==> !Like(rows[j].model, m)
    ensures FirstMatch(rows, m) == k
  {
  }

  /** Calling `set_pda(m, p)` twice leaves the table as one call does: no second row appears. */
  lemma SetPdaIdempotent(rows: seq<PdaRow>, m: string, p: string)
    ensures SetPdaSpec(SetPdaSpec(rows, m, p), m, p) == SetPdaSpec(rows, m, p)
  {
    var r := SetPdaSpec(rows, m, p);
    SetPdaMakesModelExist(rows, m, p);
    SetPdaRows(rows, m, p);
    UpdateMatchingRows(r, m, p);
    assert UpdateMatching(r, m, p) == r;
  }

  /** Rows of other models are untouched: a row whose model does not match `m` is kept in place. */
  lemma SetPdaKeepsOthers(rows: seq<PdaRow>, m: string, p: string, i: nat)
    requires i < |rows| && !Like(rows[i].model, m)
    ensures i < |SetPdaSpec(rows, m, p)| && SetPdaSpec(rows, m, p)[i] == rows[i]
  {
    SetPdaRows(rows, m, p);
  }

  // ---------------------------------------------------------------------------------
  // The `INSERT` as written
  // ---------------------------------------------------------------------------------

  /**
   * As written, the first `set_pda` for a model stores the build in the `Model` column, so
   * `get_pda` still finds nothing for the model, and the next `set_pda` inserts again.
   */
  lemma ExampleSetPdaAsWrittenLosesPda()
    ensures var once := SetPdaAsWrittenSpec([], "SM-S921B", "S921BXXU1AXA1");
            && once == [PdaRow("S921BXXU1AXA1", "SM-S921B")]
            && GetPdaOf(once, "SM-S921B") == None
            && |SetPdaAsWrittenSpec(once, "SM-S921B", "S921BXXU1AXA1")| == 2
  {
    var once := SetPdaAsWrittenSpec([], "SM-S921B", "S921BXXU1AXA1");
    assert !Like("S921BXXU1AXA1", "SM-S921B") by {
      assert "S921BXXU1AXA1"[1..] == "921BXXU1AXA1";
      assert "SM-S921B"[1..] == "M-S921B";
      assert !Like("921BXXU1AXA1", "M-S921B");
    }
    assert once[0].model == "S921BXXU1AXA1";
    assert !ModelExists(once, "SM-S921B");
  }
}
