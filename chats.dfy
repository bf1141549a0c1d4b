/** The chat database of sambot/database/chats.py (`Chats`). */
module ChatStore {

  import opened Wrappers
  import opened LanguageTable

  class Chats {
    var rows: Table

    /** A fresh database after `create_tables`. */
    constructor ()
      ensures rows == map[]
    {
      rows := map[];
    }

    /** `get_chat(chat)`: the chat's row (here its `language_code`), `None` for an unknown chat. */
    function GetChat(id: int): (r: Option<Option<string>>)
      reads this
      ensures r.Some? <==> id in rows
      ensures r.Some? ==> r.value == rows[id]
    {
      if id in rows then Some(rows[id]) else None
    }

    /** `register_chat(chat)`: insert the id; a known id violates the key and changes nothing. */
    method RegisterChat(id: int)
      modifies this
      ensures rows == Registered(old(rows), id)
      ensures id in old(rows) ==> rows == old(rows)
      ensures id !in old(rows) ==> GetChat(id) == Some(None) && GetLanguage(id) == None
    {
      if id !in rows {
        rows := rows[id := None];
      }
    }

    /**
     * `get_language(chat)`: the stored code; `None` for an unknown chat and also when the
     * code is `NULL` or empty, because the code tests the value's truth.
     */
    function GetLanguage(id: int): (r: Option<string>)
      reads this
      ensures r.Some? <==> id in rows && rows[id].Some? && rows[id].value != ""
      ensures r.Some? ==> rows[id] == r
    {
      if id in rows && rows[id].Some? && rows[id].value != "" then rows[id] else None
    }

    /** `set_language(chat, code)`: `UPDATE` when `get_chat` finds the chat, `INSERT` otherwise. */
    method SetLanguage(id: int, code: string)
      modifies this
      ensures rows == WithLanguage(old(rows), id, code)
      ensures GetLanguage(id) == if code == "" then None else Some(code)
      ensures forall other :: other != id ==> GetLanguage(other) == old(GetLanguage(other))
    {
      if GetChat(id).None? {
        rows := rows[id := Some(code)];
      } else {
        rows := rows[id := Some(code)];
      }
    }

    /** `get_chats_count(code)`: all chats, or those with the code when one is given. */
    function GetChatsCount(code: Option<string>): (r: nat)
      reads this
      ensures r <= |rows|
      ensures code.None? || code.value == "" ==> r == |rows|
      ensures code.Some? && code.value != "" ==> r == |set id | id in rows && rows[id] == code|
    {
      CountRows(rows, code)
    }
  }
}
