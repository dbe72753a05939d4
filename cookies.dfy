/**
  The cookie helpers shared, line for line, by both theme switchers
  (public/js/theme-switcher.js and static/js/theme-switcher.js).

  The browser's cookie jar is a sequence of name/value pairs; reading
  `document.cookie` yields the pairs as `name=value` joined with "; " (the
  Cookie header shape of section 5.4 of RFC 6265), and `setCookie` replaces the
  pair of that name or appends a new one. `GetCookie` is the hand-written
  parser the switchers run over that string.
 */
module Cookies {

  datatype Option<T> = None | Some(value: T)

  datatype Cookie = Cookie(name: string, value: string)

  /** A cookie name as the switchers use it: non-empty, not starting with a
      space, without ';' and without '=' (a token in the sense of RFC 6265). */
  predicate ValidName(n: string)
  {
    |n| > 0 && n[0] != ' ' && ';' !in n && '=' !in n
  }

  /** A cookie value cannot carry ';', which ends the pair in the header. */
  predicate ValidValue(v: string)
  {
    ';' !in v
  }

  predicate WellFormed(jar: seq<Cookie>)
  {
    forall i :: 0 <= i < |jar| ==> ValidName(jar[i].name) && ValidValue(jar[i].value)
  }

  /** The names of the cookies in the jar. */
  function NameSet(jar: seq<Cookie>): set<string>
  {
    if jar == [] then {} else {jar[0].name} + NameSet(jar[1..])
  }

  /** The browser keeps one cookie per name (for one path and domain). */
  predicate DistinctNames(jar: seq<Cookie>)
  {
    jar == [] || (jar[0].name !in NameSet(jar[1..]) && DistinctNames(jar[1..]))
  }

  /** The value of the first cookie named `n`. */
  function Lookup(jar: seq<Cookie>, n: string): Option<string>
  {
    if jar == [] then None
    else if jar[0].name == n then Some(jar[0].value)
    else Lookup(jar[1..], n)
  }

  /** `setCookie(n, v, days)`: expiry, path and SameSite are not modelled; the
      pair named `n` gets value `v`, or a new pair is appended. */
  function SetCookie(jar: seq<Cookie>, n: string, v: string): seq<Cookie>
  {
    if jar == [] then [Cookie(n, v)]
    else if jar[0].name == n then [Cookie(n, v)] + jar[1..]
    else [jar[0]] + SetCookie(jar[1..], n, v)
  }

  function Pair(c: Cookie): string
  {
    c.name + "=" + c.value
  }

  /** What `document.cookie` returns for a jar. */
  function Header(jar: seq<Cookie>): string
  {
    if |jar| == 0 then ""
    else if |jar| == 1 then Pair(jar[0])
    else Pair(jar[0]) + "; " + Header(jar[1..])
  }

  /** JavaScript's `s.split(';')`: the pieces between separators, always at least one. */
  function Split(s: string): (parts: seq<string>)
    ensures |parts| >= 1
  {
    if s == [] then [""]
    else if s[0] == ';' then [""] + Split(s[1..])
    else
      var rest := Split(s[1..]);
      [[s[0]] + rest[0]] + rest[1..]
  }

  /** The loop `while (c.charAt(0) === ' ') c = c.substring(1, c.length)`. */
  function StripLeadingSpaces(s: string): string
  {
    if |s| > 0 && s[0] == ' ' then StripLeadingSpaces(s[1..]) else s
  }

  predicate IsPrefix(p: string, s: string)
  {
    |p| <= |s| && s[..|p|] == p
  }

  /** A segment names cookie `name` when, its leading spaces removed, it starts with `name=`. */
  predicate Names(segment: string, name: string)
  {
    IsPrefix(name + "=", StripLeadingSpaces(segment))
  }

  /** What the parser finds among `segments`: the rest of the first one that names `name`. */
  function FirstMatch(segments: seq<string>, name: string): Option<string>
  {
    if segments == [] then None
    else if Names(segments[0], name) then Some(StripLeadingSpaces(segments[0])[|name| + 1..])
    else FirstMatch(segments[1..], name)
  }

  /** The value `getCookie(name)` returns for the cookie string `header` (None is JavaScript's null). */
  function CookieValue(header: string, name: string): Option<string>
  {
    FirstMatch(Split(header), name)
  }

  /** `getCookie(name)` over `header`, the current `document.cookie`. */
  method GetCookie(header: string, name: string) returns (r: Option<string>)
    ensures r == CookieValue(header, name)
  {
    var nameEQ := name + "=";
    var ca := Split(header);
    var i := 0;
    while i < |ca|
      invariant 0 <= i <= |ca|
      invariant FirstMatch(ca[i..], name) == FirstMatch(ca, name)
    {
      var c := ca[i];
      while |c| > 0 && c[0] == ' '
        invariant StripLeadingSpaces(c) == StripLeadingSpaces(ca[i])
      {
        c := c[1..];
      }
      assert c == StripLeadingSpaces(ca[i]);
      assert ca[i..][1..] == ca[i + 1..];
      if |nameEQ| <= |c| && c[..|nameEQ|] == nameEQ {
        return Some(c[|nameEQ|..]);
      }
      i := i + 1;
    }
    return None;
  }

  // ---------------------------------------------------------------------------
  // What the parser returns

  /** The scan finds nothing exactly when no segment names the cookie;
      otherwise `k` is the first segment that does, and the value is its rest. */
  lemma {:induction false} FirstMatchMeans(segments: seq<string>, name: string) returns (k: nat)
    ensures FirstMatch(segments, name).None? <==> forall i :: 0 <= i < |segments| ==> !Names(segments[i], name)
    ensures FirstMatch(segments, name).Some? ==>
      && k < |segments| && Names(segments[k], name)
      && (forall j :: 0 <= j < k ==> !Names(segments[j], name))
      && FirstMatch(segments, name).value == StripLeadingSpaces(segments[k])[|name| + 1..]
  {
    if segments == [] {
      k := 0;
    } else if Names(segments[0], name) {
      k := 0;
    } else {
      var tail := segments[1..];
      var j := FirstMatchMeans(tail, name);
      k := j + 1;
      assert FirstMatch(segments, name) == FirstMatch(tail, name);
      assert forall i :: 0 < i < |segments| ==> segments[i] == tail[i - 1];
      if FirstMatch(segments, name).Some? {
        assert segments[k] == tail[j];
      } else {
        forall i | 0 <= i < |segments| ensures !Names(segments[i], name) {
          if i > 0 { assert segments[i] == tail[i - 1]; }
        }
      }
    }
  }

  /** `getCookie(name)` returns null exactly when no `;`-separated segment,
      stripped of leading spaces, starts with `name=`; otherwise `k` is the
      first segment that does, and the value is the rest of it. */
  lemma CookieValueMeans(header: string, name: string) returns (segments: seq<string>, k: nat)
    ensures segments == Split(header)
    ensures CookieValue(header, name).None? <==> forall i :: 0 <= i < |segments| ==> !Names(segments[i], name)
    ensures CookieValue(header, name).Some? ==>
      && k < |segments| && Names(segments[k], name)
      && (forall j :: 0 <= j < k ==> !Names(segments[j], name))
      && CookieValue(header, name).value == StripLeadingSpaces(segments[k])[|name| + 1..]
  {
    segments := Split(header);
    k := FirstMatchMeans(segments, name);
  }

  lemma {:induction false} SplitHasNoSemicolon(s: string)
    ensures forall i :: 0 <= i < |Split(s)| ==> ';' !in Split(s)[i]
  {
    if s != [] {
      SplitHasNoSemicolon(s[1..]);
      if s[0] != ';' {
        var rest := Split(s[1..]);
        assert Split(s) == [[s[0]] + rest[0]] + rest[1..];
        forall i | 0 <= i < |Split(s)| ensures ';' !in Split(s)[i] {
          if i > 0 { assert Split(s)[i] == rest[i]; }
        }
      }
    }
  }

  lemma {:induction false} StripKeepsNoSemicolon(s: string)
    requires ';' !in s
    ensures ';' !in StripLeadingSpaces(s)
  {
    if |s| > 0 && s[0] == ' ' {
      assert s == [s[0]] + s[1..];
      StripKeepsNoSemicolon(s[1..]);
    }
  }

  lemma {:induction false} FirstMatchHasNoSemicolon(segments: seq<string>, name: string)
    requires forall i :: 0 <= i < |segments| ==> ';' !in segments[i]
    requires FirstMatch(segments, name).Some?
    ensures ';' !in FirstMatch(segments, name).value
  {
    if Names(segments[0], name) {
      var c := StripLeadingSpaces(segments[0]);
      StripKeepsNoSemicolon(segments[0]);
      assert c == c[..|name| + 1] + c[|name| + 1..];
    } else {
      FirstMatchHasNoSemicolon(segments[1..], name);
    }
  }

  /** A value returned by `getCookie` never contains ';': it is a piece of one split segment. */
  lemma CookieValueHasNoSemicolon(header: string, name: string)
    requires CookieValue(header, name).Some?
    ensures ';' !in CookieValue(header, name).value
  {
    SplitHasNoSemicolon(header);
    FirstMatchHasNoSemicolon(Split(header), name);
  }

  // ---------------------------------------------------------------------------
  // Reading back what the browser holds

  lemma {:induction false} SplitNoSeparator(a: string)
    requires ';' !in a
    ensures Split(a) == [a]
  {
    if a != [] {
      SplitNoSeparator(a[1..]);
      assert [a[0]] + a[1..] == a;
    }
  }

  lemma {:induction false} SplitAfterSegment(a: string, b: string)
    requires ';' !in a
    ensures Split(a + ";" + b) == [a] + Split(b)
  {
    if a == [] {
      assert a + ";" + b == [';'] + b;
      assert (a + ";" + b)[1..] == b;
    } else {
      assert (a + ";" + b)[1..] == a[1..] + ";" + b;
      SplitAfterSegment(a[1..], b);
      assert [a[0]] + a[1..] == a;
    }
  }

  lemma SplitAfterSpace(b: string)
    ensures Split(" " + b) == [" " + Split(b)[0]] + Split(b)[1..]
  {
    assert (" " + b)[1..] == b;
  }

  lemma NamesPair(c: Cookie, name: string)
    requires ValidName(c.name) && ValidValue(c.value) && ValidName(name)
    ensures StripLeadingSpaces(Pair(c)) == Pair(c)
    ensures Names(Pair(c), name) <==> c.name == name
    ensures c.name == name ==> Pair(c)[|name| + 1..] == c.value
  {
    var s := Pair(c);
    var p := name + "=";
    if c.name != name {
      // a position where the pair and `name=` differ
      if |name| < |c.name| {
        assert s[|name|] != p[|name|];
      } else if |name| > |c.name| {
        assert s[|c.name|] != p[|c.name|];
      } else {
        var k :| 0 <= k < |name| && name[k] != c.name[k];
        assert s[k] != p[k];
      }
    }
    if c.name == name {
      assert s[..|p|] == p;
    }
  }

  lemma {:induction false} ReadHeader(jar: seq<Cookie>, name: string)
    requires |jar| > 0 && WellFormed(jar) && ValidName(name)
    ensures FirstMatch(Split(Header(jar)), name) == Lookup(jar, name)
  {
    NamesPair(jar[0], name);
    if |jar| == 1 {
      SplitNoSeparator(Pair(jar[0]));
    } else {
      var rest := Header(jar[1..]);
      assert Header(jar) == Pair(jar[0]) + ";" + (" " + rest);
      SplitAfterSegment(Pair(jar[0]), " " + rest);
      SplitAfterSpace(rest);
      var tail := Split(" " + rest);
      var segs := Split(rest);
      assert StripLeadingSpaces(tail[0]) == StripLeadingSpaces(segs[0]);
      assert tail[1..] == segs[1..];
      assert FirstMatch(tail, name) == FirstMatch(segs, name);
      assert Split(Header(jar))[1..] == tail;
      ReadHeader(jar[1..], name);
    }
  }

  /** Round trip: for a well-formed jar, `getCookie(name)` over `document.cookie`
      returns the stored value of cookie `name`, and null when there is none. */
  lemma CookieRoundTrip(jar: seq<Cookie>, name: string)
    requires WellFormed(jar) && ValidName(name)
    ensures CookieValue(Header(jar), name) == Lookup(jar, name)
  {
    if jar == [] {
      assert Split(Header(jar)) == [""];
      assert StripLeadingSpaces("") == "";
      assert !IsPrefix(name + "=", "");
      assert !Names("", name);
      assert FirstMatch([""], name) == FirstMatch([""][1..], name);
    } else {
      ReadHeader(jar, name);
    }
  }

  // ---------------------------------------------------------------------------
  // Writing

  /** After `setCookie(n, v)` cookie `n` reads `v` and every other cookie reads as before. */
  lemma {:induction false} SetCookieThenLookup(jar: seq<Cookie>, n: string, v: string, m: string)
    ensures Lookup(SetCookie(jar, n, v), n) == Some(v)
    ensures m != n ==> Lookup(SetCookie(jar, n, v), m) == Lookup(jar, m)
  {
    if jar != [] && jar[0].name != n {
      SetCookieThenLookup(jar[1..], n, v, m);
      assert SetCookie(jar, n, v)[1..] == SetCookie(jar[1..], n, v);
    } else if jar != [] {
      assert SetCookie(jar, n, v)[1..] == jar[1..];
    }
  }

  /** `setCookie(n, v)` adds the name `n` and no other. */
  lemma {:induction false} SetCookieNames(jar: seq<Cookie>, n: string, v: string)
    ensures NameSet(SetCookie(jar, n, v)) == NameSet(jar) + {n}
  {
    var s := SetCookie(jar, n, v);
    if jar == [] {
      assert s[1..] == [];
    } else if jar[0].name == n {
      assert s[1..] == jar[1..];
    } else {
      SetCookieNames(jar[1..], n, v);
      assert s[1..] == SetCookie(jar[1..], n, v);
    }
  }

  /** Writing a valid pair keeps the jar well-formed, and keeps one cookie per name. */
  lemma {:induction false} SetCookieWellFormed(jar: seq<Cookie>, n: string, v: string)
    requires WellFormed(jar) && ValidName(n) && ValidValue(v)
    ensures WellFormed(SetCookie(jar, n, v))
    ensures DistinctNames(jar) ==> DistinctNames(SetCookie(jar, n, v))
  {
    var s := SetCookie(jar, n, v);
    if jar == [] {
      assert s[1..] == [];
    } else if jar[0].name == n {
      assert s[1..] == jar[1..];
    } else {
      SetCookieNames(jar[1..], n, v);
      assert s[1..] == SetCookie(jar[1..], n, v);
    }
    if jar != [] && jar[0].name != n {
      SetCookieWellFormed(jar[1..], n, v);
      forall i | 0 <= i < |s| ensures ValidName(s[i].name) && ValidValue(s[i].value) {
        if i > 0 { assert s[i] == SetCookie(jar[1..], n, v)[i - 1]; }
      }
    }
  }

  /** Writing the same pair twice leaves the jar as writing it once. */
  lemma {:induction false} SetCookieIdempotent(jar: seq<Cookie>, n: string, v: string)
    ensures SetCookie(SetCookie(jar, n, v), n, v) == SetCookie(jar, n, v)
  {
    if jar != [] && jar[0].name != n {
      SetCookieIdempotent(jar[1..], n, v);
      assert SetCookie(jar, n, v)[1..] == SetCookie(jar[1..], n, v);
    } else if jar != [] {
      assert SetCookie(jar, n, v)[1..] == jar[1..];
    }
  }
}
