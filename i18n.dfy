/**
 * The locale choice of `MyI18nMiddleware.get_locale` (sambot/middlewares/i18n.py). The
 * event's user and chat are given as optional values, the two databases as the stores
 * the code queries, and the translation settings as the default locale and the tuple of
 * available locales.
 */
module I18n {

  import opened Wrappers
  import opened ChatStore
  import opened UserStore

  datatype ChatType = Private | Group | Supergroup | Channel | Sender

  datatype Chat = Chat(id: int, kind: ChatType)

  /** The last two tests of `get_locale`, on the row found and the code read. */
  function Decide(found: bool, code: Option<string>, defaultLocale: string, available: seq<string>): (r: string)
    ensures r == defaultLocale || r in available
  {
    if !found then defaultLocale
    else if code.None? || code.value !in available then defaultLocale
    else code.value
  }

  /**
   * `get_locale(event, data)`: a private chat reads the user's row and code, any other chat
   * reads the chat's row and code; the code is used when the row exists and the code is
   * one of the available locales, and the default is used otherwise.
   */
  function GetLocale(user: Option<int>, chat: Option<Chat>, users: Users, chats: Chats,
                     defaultLocale: string, available: seq<string>): (r: string)
    reads users, chats
    ensures r == defaultLocale || r in available
    ensures user.None? || chat.None? ==> r == defaultLocale
    ensures user.Some? && chat.Some? && chat.value.kind.Private? ==>
              var code := users.GetLanguage(user.value);
              r == if code.Some? && code.value in available then code.value else defaultLocale
    ensures user.Some? && chat.Some? && !chat.value.kind.Private? ==>
              var code := chats.GetLanguage(chat.value.id);
              r == if code.Some? && code.value in available then code.value else defaultLocale
  {
    if user.None? || chat.None? then defaultLocale
    else if chat.value.kind == Private then
      Decide(users.GetUser(user.value).Some?, users.GetLanguage(user.value), defaultLocale, available)
    else
      Decide(chats.GetChat(chat.value.id).Some?, chats.GetLanguage(chat.value.id), defaultLocale, available)
  }

  /** A private chat's locale depends on the user store alone, any other chat's on the chat store alone. */
  lemma ConsultsOneStore(user: int, chat: Chat, users: Users, chats: Chats, users': Users, chats': Chats,
                         defaultLocale: string, available: seq<string>)
    requires chat.kind.Private? ==> users.rows == users'.rows
    requires !chat.kind.Private? ==> chats.rows == chats'.rows
    ensures GetLocale(Some(user), Some(chat), users, chats, defaultLocale, available)
            == GetLocale(Some(user), Some(chat), users', chats', defaultLocale, available)
  {
  }
}
