/**
 * String logic of the cookie adapter: splitting `document.cookie` into entries, finding the entry for
 * a key, and composing the entries that `set` and `remove` assign.
 */
module CookieText {
  import opened Wrappers

  /** `s.split(sep)` for a one-character separator: the pieces between separators, never an empty list. */
  function Split(s: string, sep: char): (parts: seq<string>)
    ensures |parts| >= 1
    decreases |s|
  {
    if |s| == 0 then [""]
    else
      var rest := Split(s[1..], sep);
      if s[0] == sep then [""] + rest
      else [[s[0]] + rest[0]] + rest[1..]
  }

  /** No piece of a split contains the separator. */
  lemma {:induction false} SplitPiecesSeparatorFree(s: string, sep: char)
    ensures forall i :: 0 <= i < |Split(s, sep)| ==> sep !in Split(s, sep)[i]
    decreases |s|
  {
    if |s| > 0 {
      SplitPiecesSeparatorFree(s[1..], sep);
      var rest := Split(s[1..], sep);
      if s[0] != sep {
        assert sep !in [s[0]] + rest[0];
      }
    }
  }

  /** `parts.join(sep)`: the inverse of `Split`. */
  function Join(parts: seq<string>, sep: char): string
    requires |parts| >= 1
    decreases |parts|
  {
    if |parts| == 1 then parts[0] else parts[0] + [sep] + Join(parts[1..], sep)
  }

  /** Joining the pieces again gives back the original string. */
  lemma {:induction false} JoinSplit(s: string, sep: char)
    ensures Join(Split(s, sep), sep) == s
    decreases |s|
  {
    if |s| > 0 {
      var rest := Split(s[1..], sep);
      JoinSplit(s[1..], sep);
      if s[0] == sep {
        assert ([""] + rest)[1..] == rest;
      } else {
        var parts := Split(s, sep);
        assert parts[0] == [s[0]] + rest[0];
        if |rest| > 1 {
          assert parts[1..] == rest[1..];
        }
      }
    }
  }

  /** Splitting a join of separator-free pieces gives back the pieces. */
  lemma {:induction false} SplitJoin(parts: seq<string>, sep: char)
    requires |parts| >= 1
    requires forall i :: 0 <= i < |parts| ==> sep !in parts[i]
    ensures Split(Join(parts, sep), sep) == parts
    decreases |parts|
  {
    if |parts| == 1 {
      SplitNoSeparator(parts[0], sep);
    } else {
      SplitJoin(parts[1..], sep);
      SplitPrefixed(parts[0], [sep] + Join(parts[1..], sep), sep);
      assert parts[0] + [sep] + Join(parts[1..], sep) == parts[0] + ([sep] + Join(parts[1..], sep));
      assert ([sep] + Join(parts[1..], sep))[1..] == Join(parts[1..], sep);
      assert parts == [parts[0]] + parts[1..];
    }
  }

  /** A string without the separator splits into itself. */
  lemma {:induction false} SplitNoSeparator(a: string, sep: char)
    requires sep !in a
    ensures Split(a, sep) == [a]
    decreases |a|
  {
    if |a| > 0 {
      SplitNoSeparator(a[1..], sep);
      assert [a[0]] + a[1..] == a;
    }
  }

  /**
   * A separator-free prefix joins the first piece of what follows it: splitting `a + rest`, where `rest`
   * starts with the separator, gives `a` and then the pieces after that separator.
   */
  lemma {:induction false} SplitPrefixed(a: string, rest: string, sep: char)
    requires sep !in a
    requires |rest| > 0 && rest[0] == sep
    ensures Split(a + rest, sep) == [a] + Split(rest[1..], sep)
    decreases |a|
  {
    if |a| == 0 {
      assert a + rest == rest;
    } else {
      SplitPrefixed(a[1..], rest, sep);
      assert (a + rest)[1..] == a[1..] + rest;
      assert [a[0]] + a[1..] == a;
    }
  }

  predicate AllSpaces(s: string)
  {
    forall i :: 0 <= i < |s| ==> s[i] == ' '
  }

  /** The segment after the inner loop `while (c.charAt(0) == ' ') c = c.substring(1)`. */
  function StripLeadingSpaces(c: string): (r: string)
    ensures |r| <= |c|
    decreases |c|
  {
    if |c| > 0 && c[0] == ' ' then StripLeadingSpaces(c[1..]) else c
  }

  /** The stripped segment is a suffix of the segment that does not start with a space, and only spaces were dropped. */
  lemma {:induction false} StripLeadingSpacesSpec(c: string)
    ensures |StripLeadingSpaces(c)| <= |c|
    ensures StripLeadingSpaces(c) == c[|c| - |StripLeadingSpaces(c)|..]
    ensures StripLeadingSpaces(c) == "" || StripLeadingSpaces(c)[0] != ' '
    ensures AllSpaces(c[..|c| - |StripLeadingSpaces(c)|])
    decreases |c|
  {
    if |c| > 0 && c[0] == ' ' {
      StripLeadingSpacesSpec(c[1..]);
      var r := StripLeadingSpaces(c);
      assert c[1..][..|c| - 1 - |r|] == c[1..|c| - |r|];
      assert forall i :: 1 <= i < |c| - |r| ==> c[i] == c[1..|c| - |r|][i - 1];
    }
  }

  /** `c.indexOf(name) == 0` for a non-empty `name`. */
  predicate StartsWith(c: string, name: string)
  {
    |name| <= |c| && c[..|name|] == name
  }

  /** A segment belongs to the cookie `name` (which ends in `=`) when, without its leading spaces, it starts with `name`. */
  predicate Matches(segment: string, name: string)
  {
    StartsWith(StripLeadingSpaces(segment), name)
  }

  /** The text after `name` in a matching segment, up to the segment's end, trailing spaces included. */
  function ValueIn(segment: string, name: string): string
    requires Matches(segment, name)
  {
    StripLeadingSpaces(segment)[|name|..]
  }

  /** The value of the first matching segment, or `None` (the adapter's `null`) when no segment matches. */
  function FirstMatch(segments: seq<string>, name: string): Option<string>
    decreases |segments|
  {
    if |segments| == 0 then None
    else if Matches(segments[0], name) then Some(ValueIn(segments[0], name))
    else FirstMatch(segments[1..], name)
  }

  /** What the cookie adapter's `get(key)` reads out of the cookie string `cookie`. */
  function CookieValue(cookie: string, key: string): Option<string>
  {
    FirstMatch(Split(cookie, ';'), key + "=")
  }

  /** `FirstMatch` finds nothing exactly when no segment matches. */
  lemma {:induction false} FirstMatchNone(segments: seq<string>, name: string)
    ensures FirstMatch(segments, name).None? <==> forall i :: 0 <= i < |segments| ==> !Matches(segments[i], name)
    decreases |segments|
  {
    if |segments| > 0 {
      FirstMatchNone(segments[1..], name);
      assert forall i :: 1 <= i < |segments| ==> segments[i] == segments[1..][i - 1];
    }
  }

  /** When segment `i` is the first that matches, `FirstMatch` returns its value. */
  lemma {:induction false} FirstMatchAt(segments: seq<string>, name: string, i: nat)
    requires i < |segments| && Matches(segments[i], name)
    requires forall j :: 0 <= j < i ==> !Matches(segments[j], name)
    ensures FirstMatch(segments, name) == Some(ValueIn(segments[i], name))
    decreases i
  {
    if i > 0 {
      assert !Matches(segments[0], name);
      assert forall j :: 0 <= j < i - 1 ==> segments[1..][j] == segments[j + 1];
      FirstMatchAt(segments[1..], name, i - 1);
    }
  }

  /** Segment `i` matches and no earlier segment does. */
  predicate IsFirstMatch(segments: seq<string>, name: string, i: nat)
  {
    i < |segments| && Matches(segments[i], name) && forall j :: 0 <= j < i ==> !Matches(segments[j], name)
  }

  /** Any result of `FirstMatch` is the value of its first matching segment. */
  lemma {:induction false} FirstMatchSome(segments: seq<string>, name: string)
    requires FirstMatch(segments, name).Some?
    ensures exists i: nat :: IsFirstMatch(segments, name, i) && FirstMatch(segments, name) == Some(ValueIn(segments[i], name))
    decreases |segments|
  {
    if Matches(segments[0], name) {
      assert IsFirstMatch(segments, name, 0);
    } else {
      FirstMatchSome(segments[1..], name);
      var i: nat :| IsFirstMatch(segments[1..], name, i) && FirstMatch(segments[1..], name) == Some(ValueIn(segments[1..][i], name));
      assert segments[i + 1] == segments[1..][i];
      assert forall j :: 1 <= j < i + 1 ==> segments[j] == segments[1..][j - 1];
      assert IsFirstMatch(segments, name, i + 1);
    }
  }

  /** Milliseconds in `exdays` days, added to the current time to give the expiry instant. */
  const MillisPerDay: int := 24 * 60 * 60 * 1000

  function ExpiryInstant(now: int, exdays: int): (t: int)
    ensures exdays > 0 ==> t > now
    ensures exdays == 1 ==> t - now == 86400000
  {
    now + exdays * MillisPerDay
  }

  /** `key + "=" + value`, followed by `"; expires=" + date` when an expiry date is given. */
  function Entry(key: string, value: string, expires: Option<string>): (e: string)
    ensures |key| + 1 + |value| <= |e| && e[..|key| + 1 + |value|] == key + "=" + value
    ensures expires.None? <==> |e| == |key| + 1 + |value|
  {
    key + "=" + value + (if expires.Some? then "; expires=" + expires.value else "")
  }

  /** The expiry date text of a removal entry, trailing `;` included. */
  const Epoch: string := "Thu, 01 Jan 1970 00:00:01 GMT;"

  /** The entry `remove(key)` assigns: `key + "=; expires=Thu, 01 Jan 1970 00:00:01 GMT;"`. */
  function RemovalEntry(key: string): (e: string)
    ensures e == Entry(key, "", Some(Epoch))
  {
    key + "=; expires=" + Epoch
  }

  /**
   * An entry composed by `set`, read as a whole cookie string, gives back the encoded value, provided
   * neither key nor value contains `;` and the key does not start with a space.
   */
  lemma EntryReadsBack(key: string, value: string, expires: Option<string>)
    requires ';' !in key && ';' !in value
    requires key == "" || key[0] != ' '
    ensures CookieValue(Entry(key, value, expires), key) == Some(value)
  {
    var head := key + "=" + value;
    assert ';' !in head by {
      assert forall i :: 0 <= i < |head| ==> head[i] == (if i < |key| then key[i] else if i == |key| then '=' else value[i - |key| - 1]);
    }
    var parts := Split(Entry(key, value, expires), ';');
    if expires.Some? {
      SplitPrefixed(head, "; expires=" + expires.value, ';');
    } else {
      assert Entry(key, value, expires) == head;
      SplitNoSeparator(head, ';');
    }
    assert parts[0] == head;
    assert StripLeadingSpaces(head) == head;
    assert head[..|key + "="|] == key + "=";
    assert Matches(head, key + "=");
  }

  /** Read back the same way, a removal entry gives the empty value, not `None`: only expiry removes it. */
  lemma RemovalEntryReadsEmpty(key: string)
    requires ';' !in key
    requires key == "" || key[0] != ' '
    ensures CookieValue(RemovalEntry(key), key) == Some("")
  {
    EntryReadsBack(key, "", Some(Epoch));
  }

  /** A cookie string of two segments, of which only the second matches, yields the second's value. */
  lemma SecondSegmentMatches(a: string, b: string, name: string)
    requires ';' !in a && ';' !in b
    requires !Matches(a, name) && Matches(b, name)
    ensures FirstMatch(Split(a + ";" + b, ';'), name) == Some(ValueIn(b, name))
  {
    assert a + ";" + b == a + (";" + b);
    SplitPrefixed(a, ";" + b, ';');
    assert (";" + b)[1..] == b;
    SplitNoSeparator(b, ';');
    FirstMatchAt([a, b], name, 1);
  }

  /**
   * A segment holding `key=` after other text does not match, and the value keeps its trailing spaces:
   * in `akey=1; key=2 ` the value of `key` is `2 `.
   */
  lemma NotAPrefixMatchExample(cookie: string, key: string)
    requires cookie == "akey=1; key=2 " && key == "key"
    ensures CookieValue(cookie, key) == Some("2 ")
  {
    var a, b, name := "akey=1", " key=2 ", "key=";
    EmbeddedKeyDoesNotMatch(a, name);
    SpacedSegmentMatches(b, name);
    SecondSegmentMatches(a, b, name);
    assert a + ";" + b == cookie;
    assert key + "=" == name;
  }

  lemma EmbeddedKeyDoesNotMatch(a: string, name: string)
    requires a == "akey=1" && name == "key="
    ensures ';' !in a && !Matches(a, name)
  {
    assert StripLeadingSpaces(a) == a;
    assert a[0] != name[0];
  }

  lemma SpacedSegmentMatches(b: string, name: string)
    requires b == " key=2 " && name == "key="
    ensures ';' !in b && Matches(b, name) && ValueIn(b, name) == "2 "
  {
    assert b[1..] == "key=2 ";
    assert StripLeadingSpaces(b) == "key=2 ";
  }
}
