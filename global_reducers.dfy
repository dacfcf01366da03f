// The session reducer of the older state tree (state/ducks/global/reducers.ts): the
// language and the login flag, every other field passed through.
module GlobalReducers {
  import opened Results

  /**
   * The session state: the language, the login flag and the other fields, which the
   * reducer never looks at (the state's class is not part of this model).
   */
  datatype GlobalDto<Rest> = GlobalDto(locale: string, authenticated: bool, rest: Rest)

  /** The actions the reducer knows, and any other action by its type. */
  datatype GlobalAction = ChangeLanguage(payloadLocale: string) | LoginSuccess | LogOut | OtherAction(actionType: string)

  /** `global(state, action)`: `state` is `None` on the store's first call, when the default state is used. */
  function Global<Rest>(state: Option<GlobalDto<Rest>>, action: GlobalAction, defaultState: GlobalDto<Rest>): (r: GlobalDto<Rest>)
  {
    var s := state.GetOr(defaultState);
    match action
    case ChangeLanguage(locale) => s.(locale := locale)
    case LoginSuccess => s.(authenticated := true)
    case LogOut => s.(authenticated := false)
    case OtherAction(_) => s
  }

  /**
   * Each action changes at most its one field: a language change only the language, a
   * login or logout only the flag, anything else nothing; the other fields always pass
   * through.
   */
  lemma GlobalSpec<Rest>(state: GlobalDto<Rest>, action: GlobalAction, defaultState: GlobalDto<Rest>)
    ensures var r := Global(Some(state), action, defaultState);
      && r.rest == state.rest
      && (r.locale != state.locale ==> action.ChangeLanguage?)
      && (r.authenticated != state.authenticated ==> action.LoginSuccess? || action.LogOut?)
      && (action.ChangeLanguage? ==> r.locale == action.payloadLocale && r.authenticated == state.authenticated)
      && (action.LoginSuccess? ==> r.authenticated && r.locale == state.locale)
      && (action.LogOut? ==> !r.authenticated && r.locale == state.locale)
      && (action.OtherAction? ==> r == state)
    ensures Global(None, action, defaultState) == Global(Some(defaultState), action, defaultState)
  {
  }

  /**
   * Logging in or out twice is the same as once, and so is setting the same language;
   * the last of two logins and logouts decides the flag.
   */
  lemma GlobalIdempotent<Rest>(state: GlobalDto<Rest>, action: GlobalAction, other: GlobalAction, defaultState: GlobalDto<Rest>)
    ensures var once := Global(Some(state), action, defaultState);
      Global(Some(once), action, defaultState) == once
    ensures (action.LoginSuccess? || action.LogOut?) && (other.LoginSuccess? || other.LogOut?) ==>
      Global(Some(Global(Some(state), other, defaultState)), action, defaultState) == Global(Some(state), action, defaultState)
  {
  }
}
