/** The user database of sambot/database/users.py (`Users`). */
module UserStore {

  import opened Wrappers
  import opened LanguageTable

  class Users {
    var rows: Table

    /** A fresh database after `create_tables`. */
    constructor ()
      ensures rows == map[]
    {
      rows := map[];
    }

    /** `get_user(user)`: the user's row (here its `language_code`), `None` for an unknown user. */
    function GetUser(id: int): (r: Option<Option<string>>)
      reads this
      ensures r.Some? <==> id in rows
      ensures r.Some? ==> r.value == rows[id]
    {
      if id in rows then Some(rows[id]) else None
    }

    /** `register_user(user)`: insert the id; a known id violates the key and changes nothing. */
    method RegisterUser(id: int)
      modifies this
      ensures rows == Registered(old(rows), id)
      ensures id in old(rows) ==> rows == old(rows)
      ensures id !in old(rows) ==> GetUser(id) == Some(None) && GetLanguage(id) == None
    {
      if id !in rows {
        rows := rows[id := None];
      }
    }

    /**
     * `get_language(user)`: the stored code as it is, an empty one included; `None` for an
     * unknown user or a `NULL` code.
     */
    function GetLanguage(id: int): (r: Option<string>)
      reads this
      ensures r.Some? <==> id in rows && rows[id].Some?
      ensures r.Some? ==> rows[id] == r
    {
      if id in rows then rows[id] else None
    }

    /** `set_language(user, code)`: `UPDATE` when `get_user` finds the user, `INSERT` otherwise. */
    method SetLanguage(id: int, code: string)
      modifies this
      ensures rows == WithLanguage(old(rows), id, code)
      ensures GetLanguage(id) == Some(code)
      ensures forall other :: other != id ==> GetUser(other) == old(GetUser(other))
    {
      if GetUser(id).None? {
        rows := rows[id := Some(code)];
      } else {
        rows := rows[id := Some(code)];
      }
    }

    /** `get_users_count(code)`: all users, or those with the code when one is given. */
    function GetUsersCount(code: Option<string>): (r: nat)
      reads this
      ensures r <= |rows|
      ensures code.None? || code.value == "" ==> r == |rows|
      ensures code.Some? && code.value != "" ==> r == |set id | id in rows && rows[id] == code|
    {
      CountRows(rows, code)
    }
  }
}
