/**
 * The table layout shared by the chat and user databases (sambot/database/chats.py,
 * sambot/database/users.py): `id INTEGER PRIMARY KEY, language_code TEXT`. With `id` as
 * the key the table is a map from id to the `language_code` column, `None` standing for
 * SQL `NULL`.
 */
module LanguageTable {

  import opened Wrappers

  type Table = map<int, Option<string>>

  /**
   * `INSERT INTO t (id) VALUES (?)`: a new row with a `NULL` code. On an existing id the
   * primary key is violated; the store logs and swallows the error, so nothing changes.
   */
  function Registered(t: Table, id: int): Table {
    if id in t then t else t[id := None]
  }

  /** `UPDATE … SET language_code = ? WHERE id = ?` on an existing row, `INSERT` otherwise. */
  function WithLanguage(t: Table, id: int, code: string): Table {
    t[id := Some(code)]
  }

  /** The ids whose code is exactly `code` (`WHERE language_code = ?`; `NULL` equals nothing). */
  function IdsWithCode(t: Table, code: string): set<int> {
    set id | id in t && t[id] == Some(code)
  }

  /**
   * `SELECT COUNT(*)`, filtered by `language_code = ?` only when a non-empty code is
   * given (the code tests `if language_code:`).
   */
  function CountRows(t: Table, code: Option<string>): (r: nat)
    ensures r <= |t|
    ensures code.None? || code.value == "" ==> r == |t|
  {
    if code.None? || code.value == "" then |t|
    else
      var ids := IdsWithCode(t, code.value);
      assert ids <= t.Keys;
      SubsetCardinality(ids, t.Keys);
      |ids|
  }

  lemma SubsetCardinality(a: set<int>, b: set<int>)
    requires a <= b
    ensures |a| <= |b|
  {
    assert b == a + (b - a);
  }

  /** Registering a new id adds one row to the total and none to any language's count. */
  lemma RegisterCounts(t: Table, id: int, code: string)
    requires code != ""
    ensures CountRows(Registered(t, id), None) == CountRows(t, None) + (if id in t then 0 else 1)
    ensures CountRows(Registered(t, id), Some(code)) == CountRows(t, Some(code))
  {
    if id !in t {
      assert IdsWithCode(Registered(t, id), code) == IdsWithCode(t, code);
    }
  }

  /** Setting a row's code to `code` adds it to that language's count unless it already had that code. */
  lemma SetLanguageCountsCode(t: Table, id: int, code: string)
    requires code != ""
    ensures CountRows(WithLanguage(t, id, code), Some(code))
            == CountRows(t, Some(code)) + (if id in t && t[id] == Some(code) then 0 else 1)
  {
    if id in t && t[id] == Some(code) {
      assert IdsWithCode(WithLanguage(t, id, code), code) == IdsWithCode(t, code);
    } else {
      IdsGainId(t, id, code);
    }
  }

  lemma IdsGainId(t: Table, id: int, code: string)
    requires !(id in t && t[id] == Some(code))
    ensures |IdsWithCode(WithLanguage(t, id, code), code)| == |IdsWithCode(t, code)| + 1
  {
    var before, after := IdsWithCode(t, code), IdsWithCode(WithLanguage(t, id, code), code);
    assert id !in before;
    assert after == before + {id};
  }

  /** It removes the row from the count of the other language it had. */
  lemma SetLanguageCountsOther(t: Table, id: int, code: string, other: string)
    requires other != "" && other != code
    ensures CountRows(WithLanguage(t, id, code), Some(other))
            == CountRows(t, Some(other)) - (if id in t && t[id] == Some(other) then 1 else 0)
  {
    var before, after := IdsWithCode(t, other), IdsWithCode(WithLanguage(t, id, code), other);
    if id in t && t[id] == Some(other) {
      assert after == before - {id};
    } else {
      assert after == before;
    }
  }
}
