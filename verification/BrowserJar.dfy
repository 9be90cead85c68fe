/**
 * The browser between two requests: it applies `Set-Cookie` headers to the cookies it holds
 * (section 5.3 of RFC 6265, and its later rules for the `__Host-` name prefix and for
 * cross-site cookies) and sends them back as one `Cookie` header. Cookies are told apart by
 * name: all of them are taken to live under the path and domain of the session cookie.
 */
module BrowserJar {
  import opened Wrappers
  import opened Cookies
  import opened Strings

  /** Cookie names are tokens (section 4.1.1 of RFC 6265). */
  predicate IsTokenChar(c: char) {
    'A' <= c <= 'Z' || 'a' <= c <= 'z' || '0' <= c <= '9' ||
    c == '!' || c == '#' || c == '$' || c == '%' || c == '&' || c == '\'' || c == '*' || c == '+' ||
    c == '-' || c == '.' || c == '^' || c == '_' || c == '`' || c == '|' || c == '~'
  }

  predicate IsToken(s: string) {
    s != "" && forall i :: 0 <= i < |s| ==> IsTokenChar(s[i])
  }

  predicate IsCookieValue(s: string) {
    forall i :: 0 <= i < |s| ==> s[i] != ';'
  }

  /** What a browser can hold: distinct token names, values without a separator. */
  predicate Held(jar: Jar) {
    jar == [] ||
    (IsToken(jar[0].0) && IsCookieValue(jar[0].1) && !Has(jar[1..], jar[0].0) && Held(jar[1..]))
  }

  /**
   * A browser ignores a `__Host-` cookie that is not secure, host-only and on the root path,
   * and a cookie for cross-site requests that is not secure.
   */
  predicate Accepts(c: SetCookie) {
    && (HOST_PREFIX <= c.name ==> c.secure && c.path == "/" && c.domain.None?)
    && (c.sameSite == CrossSite ==> c.secure)
  }

  function Store(jar: Jar, name: string, value: string): Jar {
    if jar == [] then [(name, value)]
    else if jar[0].0 == name then [(name, value)] + jar[1..]
    else [jar[0]] + Store(jar[1..], name, value)
  }

  function Remove(jar: Jar, name: string): Jar {
    if jar == [] then []
    else (if jar[0].0 == name then [] else [jar[0]]) + Remove(jar[1..], name)
  }

  function Apply(jar: Jar, c: SetCookie): Jar {
    if !Accepts(c) then jar
    else if c.maxAge.Some? && c.maxAge.value <= 0 then Remove(jar, c.name)
    else Store(jar, c.name, c.value)
  }

  function ApplyAll(jar: Jar, cs: seq<SetCookie>): Jar
    decreases |cs|
  {
    if cs == [] then jar else ApplyAll(Apply(jar, cs[0]), cs[1..])
  }

  function Render(jar: Jar): string {
    if jar == [] then ""
    else jar[0].0 + "=" + jar[0].1 + (if |jar| == 1 then "" else "; " + Render(jar[1..]))
  }

  /** The header of the next request; an empty jar sends none. */
  function RequestHeader(jar: Jar): Option<string> {
    if jar == [] then None else Some(Render(jar))
  }

  /** The cookies a request carries, without their text: decoded where that is possible. */
  function Received(jar: Jar): Jar {
    if jar == [] then []
    else
      (if jar[0].0 in FORBIDDEN_COOKIE_NAMES then [] else [(jar[0].0, DecodeOrRaw(Trim(jar[0].1)))])
      + Received(jar[1..])
  }

  // ---------------------------------------------------------------------------------------
  // Lookup after each operation

  lemma {:induction false} GetConcat(a: Jar, b: Jar, k: string)
    ensures Get(a + b, k) == if Has(a, k) then Get(a, k) else Get(b, k)
  {
    if a == [] {
      assert a + b == b;
    } else {
      assert (a + b)[1..] == a[1..] + b;
      GetConcat(a[1..], b, k);
    }
  }

  lemma {:induction false} GetStore(jar: Jar, name: string, value: string, k: string)
    ensures Get(Store(jar, name, value), k) == if k == name then Some(value) else Get(jar, k)
  {
    if jar == [] {
      assert Get([(name, value)][1..], k).None?;
    } else if jar[0].0 != name {
      GetStore(jar[1..], name, value, k);
      assert Store(jar, name, value)[1..] == Store(jar[1..], name, value);
    } else {
      assert Store(jar, name, value)[1..] == jar[1..];
    }
  }

  lemma {:induction false} GetRemove(jar: Jar, name: string, k: string)
    ensures Get(Remove(jar, name), k) == if k == name then None else Get(jar, k)
  {
    if jar != [] {
      GetRemove(jar[1..], name, k);
      if jar[0].0 != name {
        assert Remove(jar, name)[1..] == Remove(jar[1..], name);
      } else {
        assert Remove(jar, name) == Remove(jar[1..], name);
      }
    }
  }

  lemma {:induction false} GetReceived(jar: Jar, k: string)
    requires Held(jar)
    ensures Get(Received(jar), k) ==
            if k in FORBIDDEN_COOKIE_NAMES || !Has(jar, k) then None else Some(DecodeOrRaw(Trim(Get(jar, k).value)))
  {
    if jar != [] {
      GetReceived(jar[1..], k);
      if jar[0].0 in FORBIDDEN_COOKIE_NAMES {
        assert Received(jar) == Received(jar[1..]);
      } else {
        assert Received(jar)[1..] == Received(jar[1..]);
      }
    }
  }

  lemma {:induction false} StoreHeld(jar: Jar, name: string, value: string)
    requires Held(jar) && IsToken(name) && IsCookieValue(value)
    ensures Held(Store(jar, name, value))
  {
    if jar != [] && jar[0].0 != name {
      StoreHeld(jar[1..], name, value);
      GetStore(jar[1..], name, value, jar[0].0);
      assert Store(jar, name, value)[1..] == Store(jar[1..], name, value);
    } else if jar != [] {
      assert Store(jar, name, value)[1..] == jar[1..];
    }
  }

  lemma {:induction false} RemoveHeld(jar: Jar, name: string)
    requires Held(jar)
    ensures Held(Remove(jar, name))
  {
    if jar != [] {
      RemoveHeld(jar[1..], name);
      GetRemove(jar[1..], name, jar[0].0);
      if jar[0].0 != name {
        assert Remove(jar, name)[1..] == Remove(jar[1..], name);
      } else {
        assert Remove(jar, name) == Remove(jar[1..], name);
      }
    }
  }

  // ---------------------------------------------------------------------------------------
  // Parsing undoes rendering

  lemma {:induction false} TokenFacts(s: string)
    requires IsToken(s)
    ensures Trim(s) == s && forall i :: 0 <= i < |s| ==> s[i] != '=' && s[i] != ';' && !IsSpace(s[i])
  {
    assert IsTokenChar(s[0]) && IsTokenChar(s[|s| - 1]);
  }

  /** One rendered pair, with or without the blank that separates it from the one before. */
  lemma {:induction false} ParsePairRendered(lead: string, name: string, value: string)
    requires lead == "" || lead == " "
    requires IsToken(name)
    ensures ParsePair(lead + name + "=" + value) ==
            if name in FORBIDDEN_COOKIE_NAMES then None else Some((name, Trim(value)))
  {
    TokenFacts(name);
    var pair := lead + name + "=" + value;
    var left := lead + name;
    assert pair == left + ['='] + value;
    IndexOfSkips(left, '=', value);
    assert pair[..|left|] == left && pair[|left| + 1..] == value;
    assert Trim(left) == name by {
      if lead == " " {
        assert left[1..] == name;
      } else {
        assert left == name;
      }
    }
  }

  function ReceivedOne(name: string, value: string): Jar {
    if name in FORBIDDEN_COOKIE_NAMES then [] else [(name, DecodeOrRaw(Trim(value)))]
  }

  lemma AddRendered(lead: string, name: string, value: string, met: Jar)
    requires lead == "" || lead == " "
    requires IsToken(name) && IsCookieValue(value) && !Has(met, name)
    ensures var pair := lead + name + "=" + value;
            && AddPair(met, pair) == met + ReceivedOne(name, value)
            && forall i :: 0 <= i < |pair| ==> pair[i] != ';'
  {
    TokenFacts(name);
    ParsePairRendered(lead, name, value);
    hide ParsePair, Trim, DecodeOrRaw, IsTokenChar, Get;
    assert met + [] == met;
  }

  function RenderedPair(lead: string, jar: Jar): string
    requires jar != []
  {
    lead + jar[0].0 + "=" + jar[0].1
  }

  /** The pieces of a rendered jar are its pairs. */
  lemma {:induction false} SplitRendered(lead: string, jar: Jar)
    requires jar != [] && forall i :: 0 <= i < |RenderedPair(lead, jar)| ==> RenderedPair(lead, jar)[i] != ';'
    ensures SplitOn(lead + Render(jar), ';') ==
            [RenderedPair(lead, jar)] + if |jar| == 1 then [] else SplitOn(" " + Render(jar[1..]), ';')
  {
    hide SplitOn;
    var pair := RenderedPair(lead, jar);
    if |jar| == 1 {
      assert lead + Render(jar) == pair;
      SplitOnFirst(pair, ';', "");
    } else {
      var tail := " " + Render(jar[1..]);
      assert lead + Render(jar) == pair + [';'] + tail;
      SplitOnFirst(pair, ';', tail);
    }
  }

  lemma {:induction false} NotMetAgain(jar: Jar, met: Jar)
    requires jar != [] && Held(jar) && forall k :: Has(jar, k) ==> !Has(met, k)
    ensures !Has(met, jar[0].0)
    ensures forall k :: Has(jar[1..], k) ==> !Has(met + ReceivedOne(jar[0].0, jar[0].1), k)
  {
    hide Trim, DecodeOrRaw;
    assert Has(jar, jar[0].0);
    forall k | Has(jar[1..], k) ensures !Has(met + ReceivedOne(jar[0].0, jar[0].1), k) {
      assert Has(jar, k);
      GetConcat(met, ReceivedOne(jar[0].0, jar[0].1), k);
    }
  }

  lemma {:induction false} ParseRendered(lead: string, jar: Jar, met: Jar)
    requires lead == "" || lead == " "
    requires jar != [] && Held(jar)
    requires forall k :: Has(jar, k) ==> !Has(met, k)
    ensures AddPairs(met, SplitOn(lead + Render(jar), ';')) == met + Received(jar)
    decreases |jar|
  {
    hide SplitOn, AddPair, Trim, DecodeOrRaw, Render, Get;
    var (name, value) := jar[0];
    var pair := RenderedPair(lead, jar);
    var met' := met + ReceivedOne(name, value);
    NotMetAgain(jar, met);
    AddRendered(lead, name, value, met);
    SplitRendered(lead, jar);
    assert Received(jar) == ReceivedOne(name, value) + Received(jar[1..]);
    var rest := if |jar| == 1 then [] else SplitOn(" " + Render(jar[1..]), ';');
    assert ([pair] + rest)[1..] == rest;
    assert met' + Received(jar[1..]) == met + Received(jar);
    if |jar| == 1 {
      assert Received(jar[1..]) == [];
    } else {
      ParseRendered(" ", jar[1..], met');
    }
  }

  /** The server receives exactly the cookies the browser holds, values decoded. */
  lemma {:induction false} HeaderRoundTrip(jar: Jar)
    requires Held(jar)
    ensures ParseHeader(RequestHeader(jar)) == Received(jar)
  {
    if jar != [] {
      assert forall k :: !Has([], k);
      ParseRendered("", jar, []);
      assert "" + Render(jar) == Render(jar);
      assert [] + Received(jar) == Received(jar);
    }
  }
}
