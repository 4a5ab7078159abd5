/**
 * The `BrowserStorage` factory and the three adapters it can return. The Web Storage areas and the
 * cookie string are objects the adapters update in place; the capability probes arrive as booleans.
 */
module Storage {
  import opened Wrappers
  import opened Json
  import opened Selection
  import opened SizeGuard
  import opened CookieText

  /** A Web Storage area (`localStorage` or `sessionStorage`): string keys to string values. */
  class Store {
    var items: map<string, string>

    constructor (items: map<string, string>)
      ensures this.items == items
    {
      this.items := items;
    }

    /**
     * `testStorageSize`: concatenates every stored value, estimates the size and returns the
     * diagnostics it would write to the console.
     */
    method TestSize() returns (size: real, fired: seq<Diagnostic>)
      ensures size == Estimate(ValuesLength(items))
      ensures fired == Fired(size)
    {
      var allStrings: string := "";
      var rest := items;
      while rest != map[]
        invariant forall k :: k in rest ==> k in items && rest[k] == items[k]
        invariant Utf16Length(allStrings) + ValuesLength(rest) == ValuesLength(items)
        decreases |rest|
      {
        var key :| key in rest;
        ValuesLengthRemove(rest, key);
        RemoveOneKey(rest, key);
        Utf16LengthConcat(allStrings, rest[key]);
        allStrings := allStrings + rest[key];
        rest := rest - {key};
      }
      size := if allStrings != "" then Baseline + (Utf16Length(allStrings) as real * BitsPerChar) / BitsPerUnit else 0.0;
      fired := Fired(size);
    }
  }

  /** What a local or session adapter's `set` returns: the string `getItem` read back (or `null`), or `false`. */
  datatype SetResult = Stored(readBack: Option<string>) | Failed

  /**
   * The adapter over a Web Storage area. `store` is the area it writes; `session` is the window's
   * `sessionStorage`, which `set` reads back from. Either is `null` when the browser gives `null` or
   * nothing for it: a browser with Web Storage turned off gives `null`, which still passes the session
   * probe, since `typeof null` is `"object"`.
   * The session adapter has `session == store`; the local adapter has `store` = `localStorage`.
   */
  class KeyValueAdapter<V(!new)> {
    const store: Store?
    const session: Store?
    const codec: Codec<V>

    constructor (store: Store?, session: Store?, codec: Codec<V>)
      ensures this.store == store && this.session == session && this.codec == codec
    {
      this.store := store;
      this.session := session;
      this.codec := codec;
    }

    /**
     * `set(key, value)`: runs the size guard, encodes the value and writes it. `writeFails` stands for
     * `setItem` throwing (quota exceeded). The diagnostics never stop the write. On success the result is
     * `sessionStorage.getItem(key)`; reading it throws when there is no `sessionStorage`, which the
     * same `catch` turns into `false` although the write took place. Over a `null` area, the size guard's
     * `for…in` visits nothing (estimate 0) and `setItem` throws inside the `try`, so the result is `false`.
     */
    method Set(key: string, value: V, writeFails: bool) returns (r: SetResult, fired: seq<Diagnostic>)
      modifies store
      ensures store == null ==> fired == [] && r == Failed
      ensures store != null ==> fired == Fired(Estimate(ValuesLength(old(store.items))))
      ensures store != null ==>
        store.items == if writeFails then old(store.items) else old(store.items)[key := codec.stringify(value)]
      ensures session != null && session != store ==> session.items == old(session.items)
      ensures writeFails || session == null ==> r == Failed
      ensures !writeFails && session != null && session == store ==> r == Stored(Some(codec.stringify(value)))
      ensures !writeFails && store != null && session != null && session != store ==>
        r == Stored(Lookup(old(session.items), key))
    {
      var size: real;
      if store != null {
        size, fired := store.TestSize();
      } else {
        size := Estimate(0);
        fired := Fired(size);
      }
      var encoded := codec.stringify(value);
      if store == null || writeFails {
        return Failed, fired;
      }
      store.items := store.items[key := encoded];
      if session == null {
        return Failed, fired;
      }
      r := Stored(Lookup(session.items, key));
    }

    /**
     * `get(key)`: `JSON.parse(getItem(key))`; `None` where it throws, which it does when parsing fails
     * and when the area is `null`.
     */
    function Get(key: string): (r: Option<V>)
      reads store
      ensures store == null ==> r == None
      ensures Lawful(codec) && store != null && key !in store.items ==> r == Some(codec.nullValue)
      ensures forall v :: Lawful(codec) && store != null && key in store.items && store.items[key] == codec.stringify(v) ==> r == Some(v)
    {
      if store == null then None else ParseItem(codec, Lookup(store.items, key))
    }

    /**
     * `remove(key)`: deletes the key whether or not it is present and reports success (`Some(true)`);
     * over a `null` area `removeItem` throws (`None`).
     */
    method Remove(key: string) returns (r: Option<bool>)
      modifies store
      ensures store == null ==> r == None
      ensures store != null ==> store.items == old(store.items) - {key} && r == Some(true)
    {
      if store == null {
        return None;
      }
      store.items := store.items - {key};
      r := Some(true);
    }
  }

  /**
   * `document.cookie`: `cookie` is the string it reads as, and `assignments` every entry assigned to it,
   * in order. How the browser merges an assignment into the string read back is not modelled, so after
   * an assignment `cookie` may hold any string.
   */
  class CookieJar {
    var cookie: string
    var assignments: seq<string>

    constructor (cookie: string)
      ensures this.cookie == cookie && assignments == []
    {
      this.cookie := cookie;
      assignments := [];
    }
  }

  /** The adapter over cookies. */
  class CookieAdapter<V(!new)> {
    const jar: CookieJar
    const codec: Codec<V>

    constructor (jar: CookieJar, codec: Codec<V>)
      ensures this.jar == jar && this.codec == codec
    {
      this.jar := jar;
      this.codec := codec;
    }

    /**
     * `set(key, value, exdays)`: assigns `key=<encoded value>`, with an expiry `exdays` days after `now`
     * when `exdays` is given, and returns the encoded value. `utcString` is `Date.prototype.toUTCString`.
     */
    method Set(key: string, value: V, exdays: Option<int>, now: int, utcString: int -> string) returns (r: string)
      modifies jar
      ensures r == codec.stringify(value)
      ensures jar.assignments == old(jar.assignments) +
        [Entry(key, r, if exdays.Some? then Some(utcString(ExpiryInstant(now, exdays.value))) else None)]
    {
      r := codec.stringify(value);
      var cstring := key + "=" + r;
      if exdays.Some? {
        var date := utcString(ExpiryInstant(now, exdays.value));
        var expires := "expires=" + date;
        assert cstring + "; " + expires == cstring + ("; " + expires);
        assert "; " + expires == "; expires=" + date;
        cstring := cstring + "; " + expires;
        assert cstring == Entry(key, r, Some(date));
      } else {
        assert cstring + "" == cstring;
      }
      jar.assignments := jar.assignments + [cstring];
    }

    /**
     * `get(key)`: the raw text after `key=` in the first `;`-separated segment that starts with `key=`
     * once its leading spaces are dropped, or `None` when no segment does. Nothing is decoded.
     */
    method Get(key: string) returns (r: Option<string>)
      ensures r == CookieValue(jar.cookie, key)
    {
      var name := key + "=";
      var ca := Split(jar.cookie, ';');
      var i := 0;
      while i < |ca|
        invariant 0 <= i <= |ca|
        invariant FirstMatch(ca[i..], name) == FirstMatch(ca, name)
      {
        var c := ca[i];
        while |c| > 0 && c[0] == ' '
          invariant StripLeadingSpaces(c) == StripLeadingSpaces(ca[i])
        {
          c := c[1..];
        }
        if |name| <= |c| && c[..|name|] == name {
          return Some(c[|name|..]);
        }
        assert ca[i..][1..] == ca[i + 1..];
        i := i + 1;
      }
      r := None;
    }

    /** `remove(key)`: assigns an entry for `key` that expired in 1970 and reports success. */
    method Remove(key: string) returns (ok: bool)
      modifies jar
      ensures jar.assignments == old(jar.assignments) + [RemovalEntry(key)]
      ensures ok
    {
      jar.assignments := jar.assignments + [RemovalEntry(key)];
      ok := true;
    }
  }

  /** The object the factory returns: an adapter bound to one backend for its whole life. */
  datatype Adapter<V(!new)> =
    | KeyValue(backend: Backend, kv: KeyValueAdapter<V>)
    | Cookie(cookies: CookieAdapter<V>)
  {
    function BackendOf(): Backend
    {
      if KeyValue? then backend else CookieStorage
    }
  }

  /**
   * `BrowserStorage(preferredStorage)`. `local` and `session` are the window's storage areas (`null` when
   * absent or `null`) and `jar` its cookies; `support` holds the probe results. The session probe is
   * `typeof sessionStorage != 'undefined'`, which an existing area always passes and a `null` one passes
   * too; the local probe's trial write succeeds only on an existing area.
   */
  method NewBrowserStorage<V(!new)>(preferred: Option<string>, support: Support, local: Store?, session: Store?,
                                    jar: CookieJar, codec: Codec<V>) returns (a: Option<Adapter<V>>)
    requires support.local ==> local != null
    requires session != null ==> support.session
    ensures a.None? <==> Select(ParsePref(preferred), support).None?
    ensures a.Some? ==> a.value.BackendOf() == Select(ParsePref(preferred), support).value
    ensures a.Some? && a.value.KeyValue? ==>
      && a.value.backend != CookieStorage
      && fresh(a.value.kv)
      && a.value.kv.store == (if a.value.backend == LocalStorage then local else session)
      && a.value.kv.session == session
      && a.value.kv.codec == codec
    ensures a.Some? && a.value.Cookie? ==> fresh(a.value.cookies) && a.value.cookies.jar == jar && a.value.cookies.codec == codec
  {
    var p := ParsePref(preferred);
    if (p == Unspecified || p == Local) && support.local {
      var kv := new KeyValueAdapter(local, session, codec);
      return Some(KeyValue(LocalStorage, kv));
    }
    if (p == Unspecified || p == Session) && support.session {
      var kv := new KeyValueAdapter(session, session, codec);
      return Some(KeyValue(SessionStorage, kv));
    }
    if (p == Unspecified || p == Cookies) && support.cookies {
      var c := new CookieAdapter(jar, codec);
      return Some(Cookie(c));
    }
    return None;
  }

  /**
   * A successful `set` followed by `get` gives the value back, whatever diagnostic the size guard
   * emitted, even past the 5000-unit mark; over a `null` area both fail.
   */
  method SetThenGet<V(!new)>(a: KeyValueAdapter<V>, key: string, value: V) returns (r: Option<V>, fired: seq<Diagnostic>)
    requires Lawful(a.codec)
    modifies a.store
    ensures a.store != null ==> r == Some(value) && fired == Fired(Estimate(ValuesLength(old(a.store.items))))
    ensures a.store == null ==> r == None && fired == []
  {
    var stored;
    stored, fired := a.Set(key, value, false);
    r := a.Get(key);
  }

  /** After `remove`, `get` parses the absent item as the text `null` and gives the null value. */
  method RemoveThenGet<V(!new)>(a: KeyValueAdapter<V>, key: string) returns (r: Option<V>)
    requires Lawful(a.codec)
    modifies a.store
    ensures r == if a.store != null then Some(a.codec.nullValue) else None
  {
    var ok := a.Remove(key);
    r := a.Get(key);
  }

  /**
   * A browser with Web Storage turned off gives `null` for both areas. The local probe then fails but the
   * session probe passes, so without a preference the factory returns the session adapter, not cookies;
   * its `set` returns `false` and its `get` throws.
   */
  method WebStorageDisabled<V(!new)>(jar: CookieJar, codec: Codec<V>, key: string, value: V)
    returns (backend: Option<Backend>, r: SetResult, got: Option<V>)
    ensures backend == Some(SessionStorage)
    ensures r == Failed && got == None
  {
    var a := NewBrowserStorage(None, Support(false, true, true), null, null, jar, codec);
    assert a.Some? && a.value.KeyValue?;
    backend := Some(a.value.BackendOf());
    var kv := a.value.kv;
    var fired;
    r, fired := kv.Set(key, value, false);
    got := kv.Get(key);
  }
}
