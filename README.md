# BrowserStorage in Dafny

A verified model of `BrowserStorage`, a small JavaScript factory that hands out one storage adapter
(`get`, `set`, `remove`) over the first usable browser mechanism: `localStorage`, then `sessionStorage`,
then cookies. The model covers the four pieces of logic in `sources/storage.js`:

- **Backend selection** (`selection.dfy`, module `Selection`): the chain of early returns over the
  `preferredStorage` token and the three probe results, as the pure function `Select`.
- **Size guard** (`size_guard.dfy`, module `SizeGuard`, and `Store.TestSize` in `storage.dfy`):
  `testStorageSize` concatenates every stored value, estimates `3 + length*16/(8*1024)` units (zero for an
  empty concatenation) and emits at most one of three diagnostics. The estimate is exact as a `real`; the
  bands are also stated on the total value length (1534464, 2046464 and 2558464 UTF-16 code units).
  Lengths are counted as JavaScript's `length` counts them: in UTF-16 code units, so a character from
  U+10000 upwards counts twice (`SizeGuard.Utf16Length`).
- **Local and session adapters** (`storage.dfy`, class `KeyValueAdapter`): a Web Storage area is a
  `Store` object holding a `map<string, string>` that `set` and `remove` update in place. `JSON.stringify`
  and `JSON.parse` are a `Codec` value (`json.dfy`) whose internals are not modelled; `Lawful` states the
  two facts used about them. `set` runs the size guard, never lets its diagnostic stop the write, and on
  success returns `sessionStorage.getItem(key)`: for the session adapter that is the value just stored, for
  the local adapter whatever `sessionStorage` holds under the key. This cross-area read is kept as the
  code has it. A failing `setItem` (quota) is the parameter `writeFails`; the adapter then returns `false`.
- **Cookie adapter** (`cookie_text.dfy`, module `CookieText`, and class `CookieAdapter` in
  `storage.dfy`): `get` splits `document.cookie` on `;`, drops leading spaces of each segment and returns
  the raw text after the first `key=` prefix, or `null`; `set` and `remove` compose the entry they assign.

Modelling choices:

- `null` results are `Option.None`, with one exception: the local and session `get` return the parsed
  value, so a JSON `null` there is `Some(codec.nullValue)`, and `None` means that `JSON.parse` threw
  (`Codec.parse` gives `None` where `JSON.parse` throws).
- `JSON.parse(null)` converts `null` to the text `null`, so `get` of an absent key parses `"null"`
  (`Json.ParseItem`); with a lawful codec that is the JSON null value.
- `document.cookie` is a `CookieJar`: `cookie` is the string it reads as, `assignments` the entries
  assigned to it in order.
- A storage area that is `undefined` or `null` is a `null` reference. When `sessionStorage` is, the local
  adapter's `set` throws inside its `try` when it reads back, and returns `false` although the write took
  place; the model keeps this.
- The capability probes are the booleans of `Selection.Support`. The session probe is
  `typeof sessionStorage != 'undefined'`: an existing area passes it, and so does a `null` one, because
  `typeof null` is `"object"`. So the factory requires only `session != null ==> support.session`. A
  browser with Web Storage turned off gives `null` for both areas. The local probe then fails, but the
  factory still returns a session adapter over the `null` area: its `set` returns `false`, and its `get`
  and `remove` throw (`None`). A successful local probe implies the area exists.
- The current time and `Date.prototype.toUTCString` are parameters (`now`, `utcString`) of the cookie
  adapter's `set`; the expiry instant is `now + exdays * 86400000`.

## Model

| member | source | states |
|---|---|---|
| `Selection.ParsePref` | sources/storage.js:89-139 | an absent token is "unspecified"; the token names backend `b` exactly when it equals `b`'s name (`localStorage`, `sessionStorage`, `cookies`); any other string is kept as unrecognised |
| `Selection.Select` | sources/storage.js:88-170 | the result is eligible and supported, no higher-priority backend is both, and the result is `null` exactly when no backend is both eligible and supported; an unrecognised preference yields `null` |
| `Selection.DefaultSelection` | sources/storage.js:88-170 | with no preference, the first supported backend in the order local > session > cookies, else `null` |
| `Selection.NamedPreferenceNoFallback` | sources/storage.js:113-139 | a named preference yields that backend when it is supported and `null` otherwise, never another backend |
| `Selection.UnrecognisedPreference` | sources/storage.js:139-170 | a token other than the three names selects nothing |
| `SizeGuard.ValuesLengthRemove` | sources/storage.js:67-72 | the summed value length does not depend on the order the keys are visited |
| `SizeGuard.Utf16LengthConcat` | sources/storage.js:70-75 | the length of the concatenation is the sum of the values' lengths |
| `SizeGuard.Utf16Length` | sources/storage.js:75 | `allStrings.length` in UTF-16 code units: every character takes one or two, so the length is zero exactly for the empty string |
| `SizeGuard.SurrogatePairExample` | sources/storage.js:75 | `"a\u{1F600}"` holds two characters but has length 3 |
| `SizeGuard.ValuesLengthUpdate` | sources/storage.js:68-72 | writing `v` under a key changes the total by `v`'s length minus the replaced value's length; key lengths never count |
| `SizeGuard.ValuesLengthZero` | sources/storage.js:65-75 | the concatenation is empty exactly when every stored value is empty |
| `SizeGuard.Estimate` | sources/storage.js:75 | zero for an empty concatenation, otherwise `3 + length/512`; never negative |
| `SizeGuard.EstimateMonotone` | sources/storage.js:75 | a longer concatenation never gives a smaller estimate |
| `SizeGuard.Fired` | sources/storage.js:76-84 | at most one diagnostic fires; none below 3000; the 3MB warning exactly on [3000, 4000), the 4MB warning on [4000, 5000), the error from 5000; only the 5000 diagnostic is error-level, the other two are warnings |
| `SizeGuard.Band` | sources/storage.js:76-83 | the band of a total value length is empty exactly when its estimate is below 3000, and is the error band exactly when the estimate reaches 5000 |
| `SizeGuard.FiredByLength` | sources/storage.js:75-84 | the diagnostic is the band of the total value length with thresholds 1534464, 2046464 and 2558464 UTF-16 code units |
| `Storage.Store.TestSize` | sources/storage.js:64-86 | the loop over all keys computes the estimate of the summed value length of the area and the diagnostics of that estimate |
| `Wrappers.Lookup` | sources/storage.js:96 | `getItem` gives the stored string exactly when the key is present and `null` otherwise |
| `Json.ParseItem` | sources/storage.js:104 | parsing an absent item gives the null value; parsing an encoded value gives that value back |
| `Storage.KeyValueAdapter.Set` | sources/storage.js:91-101 | the diagnostic is that of the area before the write and never blocks it; on success the area maps `key` to the encoded value and nothing else changes; a failed write changes nothing and returns `false`; the session adapter returns the stored encoding, the local adapter what `sessionStorage` holds for `key`, and `false` when there is no `sessionStorage`; over a `null` area no diagnostic fires and the result is `false` |
| `Storage.KeyValueAdapter.Get` | sources/storage.js:128-130 | an absent key gives the null value; a key holding the encoding of `v` gives `v`; over a `null` area it throws |
| `Storage.KeyValueAdapter.Remove` | sources/storage.js:106-109 | the key is gone, every other key is unchanged, and the result is `true` whether or not it existed; over a `null` area it throws |
| `Storage.SetThenGet` | sources/storage.js:116-129 | a successful `set` followed by `get` gives the value back, whatever the size diagnostic; over a `null` area both fail |
| `Storage.RemoveThenGet` | sources/storage.js:128-134 | after `remove`, `get` gives the null value (it throws over a `null` area) |
| `CookieText.Split` | sources/storage.js:155 | `split(';')` always gives at least one segment, the empty string giving one empty segment |
| `CookieText.SplitPiecesSeparatorFree` | sources/storage.js:155 | no segment of the split contains `;` |
| `CookieText.JoinSplit` | sources/storage.js:155 | joining the segments with `;` gives back the cookie string |
| `CookieText.SplitJoin` | sources/storage.js:155 | splitting a join of `;`-free segments gives back the segments |
| `CookieText.StripLeadingSpaces` | sources/storage.js:158 | stripping never lengthens a segment |
| `CookieText.StripLeadingSpacesSpec` | sources/storage.js:158 | the result is a suffix of the segment that does not start with a space, and only spaces were dropped |
| `CookieText.FirstMatchNone` | sources/storage.js:156-161 | the lookup gives `null` exactly when no segment starts with `key=` after its leading spaces |
| `CookieText.FirstMatchAt` | sources/storage.js:156-160 | when segment `i` is the first that matches, the result is the text after `key=` in it |
| `CookieText.FirstMatchSome` | sources/storage.js:156-160 | every non-null result is the value of the first matching segment |
| `CookieText.SecondSegmentMatches` | sources/storage.js:155-160 | in a two-segment cookie string where only the second segment matches, the second's value is returned |
| `CookieText.NotAPrefixMatchExample` | sources/storage.js:153-161 | in `akey=1; key=2 `, `akey=` does not match `key` and the value `2 ` keeps its trailing space |
| `Storage.CookieAdapter.Get` | sources/storage.js:153-162 | the loop returns exactly the cookie lookup of `key` in `document.cookie`, undecoded |
| `Storage.CookieAdapter.Set` | sources/storage.js:141-152 | assigns exactly `key=<encoded value>`, with `; expires=<date>` only when `exdays` is given, and returns the encoded value; what `document.cookie` reads afterwards is left unspecified |
| `Storage.CookieAdapter.Remove` | sources/storage.js:163-166 | assigns `key=; expires=Thu, 01 Jan 1970 00:00:01 GMT;` and returns `true`; what `document.cookie` reads afterwards is left unspecified |
| `CookieText.ExpiryInstant` | sources/storage.js:145-146 | the expiry lies after now for a positive `exdays`, and one day means 86400000 ms later |
| `CookieText.Entry` | sources/storage.js:143-148 | the entry starts with `key=value`, and is exactly that when no expiry is given |
| `CookieText.RemovalEntry` | sources/storage.js:164 | the removal entry is the entry of an empty value with the 1970 expiry date |
| `CookieText.EntryReadsBack` | sources/storage.js:143-150 | an entry composed by `set`, read as a cookie string, gives back the encoded value when key and value hold no `;` and the key does not start with a space |
| `CookieText.RemovalEntryReadsEmpty` | sources/storage.js:164 | a removal entry read the same way gives the empty value, not `null` |
| `Storage.NewBrowserStorage` | sources/storage.js:88-170 | returns no adapter exactly when selection yields none; otherwise a new adapter bound to the selected backend: the local adapter writes `localStorage` and reads back from `sessionStorage`, the session adapter uses `sessionStorage` for both, the cookie adapter uses `document.cookie`; a `null` `sessionStorage` that passed the session probe is accepted |
| `Storage.WebStorageDisabled` | sources/storage.js:42-45 | with both areas `null` and no preference, the factory returns the session adapter rather than cookies, whose `set` returns `false` and whose `get` throws |

## Left out

- The capability probes (sources/storage.js:24-55) are not modelled: their results are inputs. Their side effects are not modelled either: the local probe's trial `setItem`/`removeItem` of the key `isSupported` deletes a stored item of that name, and when `navigator.cookieEnabled` is undefined the cookie probe assigns `testForCookieSupport` to `document.cookie`, leaving a segment that every later cookie `get` scans.
- The browser's merging of an assignment to `document.cookie` into the string it reads back, and cookie expiry, are not modelled: after the cookie adapter's `set` or `remove`, the string `document.cookie` reads is unspecified. So the model does not show that `get` after `set` gives the encoded value or that `get` after `remove` yields `null` for cookies; it shows only which entry was assigned (`CookieText.EntryReadsBack`, and the 1970 expiry of the removal entry).
- `JSON.stringify` and `JSON.parse` are not modelled beyond the `Codec` interface, whose `stringify` always yields a string. Values outside JSON are outside the value type. For `undefined`, a function or a symbol, `JSON.stringify` returns `undefined` without throwing: both the local and session `set` then store the text `"undefined"`; the session `set` returns it, and the local `set` returns what `sessionStorage` holds under `key`; and the cookie `set` assigns `key=undefined` and returns `undefined`. A cyclic value makes `JSON.stringify` throw before the `try`, so the error reaches the caller.
- Strings are modelled as sequences of Unicode scalar values. A JavaScript string may also hold unpaired surrogates, which JavaScript counts as one code unit each; stored keys or values holding them are outside the model.
- Console output is not modelled: the diagnostics are returned as values and the error messages of a failed write are dropped.
- `Date` arithmetic and `toUTCString` are parameters; `exdays` is an integer, not an arbitrary JavaScript number.
- The loose `==` comparison of `preferredStorage` with non-string arguments is not modelled: every argument other than `undefined` and the three names behaves as an unrecognised string.
- Storage.Store.TestSize: sums every stored value, whereas the `for…in` loop filtered by `hasOwnProperty` skips a stored key whose name is also a member of `Storage.prototype` or `Object.prototype` (`length`, `key`, `getItem`, `setItem`, `removeItem`, `clear`, `toString`, `constructor`, …): such a key is not an own property of the storage object, so its value is not counted in the browser. Which names are shadowed depends on the browser's object model, which is not modelled.
- The export `module.exports = new BrowserStorage()` is packaging.
