/**
 * Backend selection of the `BrowserStorage` factory: a fixed-priority chain over a preference token
 * and the results of the three capability probes.
 */
module Selection {
  import opened Wrappers

  /** The three backing mechanisms, in the order the factory tries them. */
  datatype Backend = LocalStorage | SessionStorage | CookieStorage

  /** The `preferredStorage` argument: absent, one of the three recognised names, or anything else. */
  datatype Pref = Unspecified | Local | Session | Cookies | Other(name: string)

  /** Results of the capability probes, taken as inputs. */
  datatype Support = Support(local: bool, session: bool, cookies: bool)

  /** The token a caller passes to ask for backend `b`. */
  function Token(b: Backend): string
  {
    match b
    case LocalStorage => "localStorage"
    case SessionStorage => "sessionStorage"
    case CookieStorage => "cookies"
  }

  /** The preference that names backend `b`. */
  function Named(b: Backend): Pref
  {
    match b
    case LocalStorage => Local
    case SessionStorage => Session
    case CookieStorage => Cookies
  }

  /** Position of `b` in the fixed priority order localStorage > sessionStorage > cookies. */
  function Rank(b: Backend): nat
  {
    match b
    case LocalStorage => 0
    case SessionStorage => 1
    case CookieStorage => 2
  }

  predicate Supported(s: Support, b: Backend)
  {
    match b
    case LocalStorage => s.local
    case SessionStorage => s.session
    case CookieStorage => s.cookies
  }

  /** A backend may be chosen when no preference is given or when the preference names it. */
  predicate Eligible(p: Pref, b: Backend)
  {
    p == Unspecified || p == Named(b)
  }

  /**
   * Reads the `preferredStorage` argument (`None` when it is `undefined`) by comparing it with the
   * three recognised names.
   */
  function ParsePref(preferred: Option<string>): (p: Pref)
    ensures p == Unspecified <==> preferred.None?
    ensures forall b :: p == Named(b) <==> preferred == Some(Token(b))
    ensures p.Other? ==> preferred == Some(p.name)
  {
    match preferred
    case None => Unspecified
    case Some(s) =>
      if s == "localStorage" then Local
      else if s == "sessionStorage" then Session
      else if s == "cookies" then Cookies
      else Other(s)
  }

  /**
   * The chain of early returns of the factory. The result is the highest-priority backend that is both
   * eligible and supported, and `None` (the factory's `null`) when there is none.
   */
  function Select(p: Pref, s: Support): (r: Option<Backend>)
    ensures r.Some? ==> Eligible(p, r.value) && Supported(s, r.value)
    ensures r.Some? ==> forall b :: Rank(b) < Rank(r.value) ==> !(Eligible(p, b) && Supported(s, b))
    ensures r.None? <==> forall b :: !(Eligible(p, b) && Supported(s, b))
  {
    if (p == Unspecified || p == Local) && s.local then
      assert Eligible(p, LocalStorage);
      Some(LocalStorage)
    else if (p == Unspecified || p == Session) && s.session then
      assert Eligible(p, SessionStorage);
      Some(SessionStorage)
    else if (p == Unspecified || p == Cookies) && s.cookies then
      assert Eligible(p, CookieStorage);
      Some(CookieStorage)
    else
      None
  }

  /** Without a preference, the first supported backend in priority order is chosen. */
  lemma DefaultSelection(s: Support)
    ensures Select(Unspecified, s) ==
      if s.local then Some(LocalStorage)
      else if s.session then Some(SessionStorage)
      else if s.cookies then Some(CookieStorage)
      else None
  {
  }

  /** A named preference yields that backend or nothing: there is no fallback to another backend. */
  lemma NamedPreferenceNoFallback(b: Backend, s: Support)
    ensures Select(Named(b), s) == if Supported(s, b) then Some(b) else None
  {
  }

  /** An unrecognised preference string never selects a backend. */
  lemma UnrecognisedPreference(name: string, s: Support)
    requires name != Token(LocalStorage) && name != Token(SessionStorage) && name != Token(CookieStorage)
    ensures ParsePref(Some(name)) == Other(name)
    ensures Select(ParsePref(Some(name)), s) == None
  {
  }
}
