/**
 * Session cookies: writing a value as one or more `Set-Cookie` headers, parsing a request's
 * `Cookie` header, reassembling the value and clearing what a request carried. A `Jar` lists
 * parsed cookies in the order they were met; a `SetCookie` carries the attributes of one
 * header instead of their text.
 */
module Cookies {
  import opened Wrappers
  import opened PercentEncoding
  import opened CookieSplit
  import opened Strings
  import Decimal

  datatype SameSite = Strict | Lax | CrossSite

  datatype CookieOptions = CookieOptions(
    name: string,
    path: string,
    secure: bool,
    sameSite: SameSite,
    maxAgeSeconds: Option<int>,
    domain: Option<string>,
    hostPrefix: bool)

  datatype SetCookie = SetCookie(
    name: string,
    value: string,
    path: string,
    domain: Option<string>,
    secure: bool,
    sameSite: SameSite,
    maxAge: Option<int>,
    expires: Option<string>)

  type Jar = seq<(string, string)>

  const HOST_PREFIX := "__Host-"
  const EPOCH := "Thu, 01 Jan 1970 00:00:00 GMT"
  const FORBIDDEN_COOKIE_NAMES: set<string> := {"__proto__", "constructor", "prototype"}

  function Get(jar: Jar, name: string): Option<string> {
    if jar == [] then None
    else if jar[0].0 == name then Some(jar[0].1)
    else Get(jar[1..], name)
  }

  predicate Has(jar: Jar, name: string) {
    Get(jar, name).Some?
  }

  // ---------------------------------------------------------------------------------------
  // Writing

  predicate QualifiesForHostPrefix(o: CookieOptions) {
    o.hostPrefix && o.secure && o.path == "/" && o.domain.None?
  }

  function EffectiveName(o: CookieOptions): string {
    if QualifiesForHostPrefix(o) then HOST_PREFIX + o.name else o.name
  }

  function SerializeOne(name: string, value: string, o: CookieOptions, maxAge: Option<int>, expires: Option<string>)
    : SetCookie
  {
    SetCookie(name, Encode(value), o.path,
              if QualifiesForHostPrefix(o) then None else o.domain,
              o.secure || o.sameSite == CrossSite, o.sameSite,
              if maxAge.Some? then maxAge else o.maxAgeSeconds, expires)
  }

  function ChunkName(name: string, i: nat): string {
    name + "." + Decimal.Print(i)
  }

  function SerializeFrom(name: string, chunks: seq<string>, i: nat, o: CookieOptions): seq<SetCookie>
    requires i <= |chunks|
    decreases |chunks| - i
  {
    if i == |chunks| then []
    else [SerializeOne(ChunkName(name, i), chunks[i], o, None, None)] + SerializeFrom(name, chunks, i + 1, o)
  }

  function SerializeCookieChunks(value: string, o: CookieOptions): seq<SetCookie> {
    var name := EffectiveName(o);
    var chunks := Split(value);
    if |chunks| == 1 then [SerializeOne(name, chunks[0], o, None, None)]
    else SerializeFrom(name, chunks, 0, o)
  }

  // ---------------------------------------------------------------------------------------
  // Parsing

  predicate IsSpace(c: char) {
    var n := c as int;
    9 <= n <= 13 || n == 0x20 || n == 0xA0 || n == 0x1680 || 0x2000 <= n <= 0x200A ||
    n == 0x2028 || n == 0x2029 || n == 0x202F || n == 0x205F || n == 0x3000 || n == 0xFEFF
  }

  function Trim(s: string): string
    decreases |s|
  {
    if s == "" then s
    else if IsSpace(s[0]) then Trim(s[1..])
    else if IsSpace(s[|s| - 1]) then Trim(s[..|s| - 1])
    else s
  }

  function DecodeOrRaw(s: string): string {
    Decode(s).GetOr(s)
  }

  /** The name and raw value of one pair of the header, unless the pair is skipped. */
  function ParsePair(pair: string): Option<(string, string)> {
    var separator := IndexOf(pair, '=');
    if separator == |pair| || separator == 0 then None
    else
      var name := Trim(pair[..separator]);
      if name == "" || name in FORBIDDEN_COOKIE_NAMES then None
      else Some((name, Trim(pair[separator + 1..])))
  }

  /** The first occurrence of a name wins. */
  function AddPair(jar: Jar, pair: string): Jar {
    match ParsePair(pair)
    case None => jar
    case Some((name, raw)) => if Has(jar, name) then jar else jar + [(name, DecodeOrRaw(raw))]
  }

  function AddPairs(jar: Jar, pairs: seq<string>): Jar
    decreases |pairs|
  {
    if pairs == [] then jar else AddPairs(AddPair(jar, pairs[0]), pairs[1..])
  }

  function ParseHeader(header: Option<string>): Jar {
    if header.None? || header.value == "" then [] else AddPairs([], SplitOn(header.value, ';'))
  }

  method ParseCookieHeader(header: Option<string>) returns (jar: Jar)
    ensures jar == ParseHeader(header)
  {
    jar := [];
    if header.None? || header.value == "" {
      return;
    }
    var pairs := SplitOn(header.value, ';');
    for i := 0 to |pairs|
      invariant AddPairs(jar, pairs[i..]) == ParseHeader(header)
    {
      var pair := pairs[i];
      assert pairs[i..][1..] == pairs[i + 1..];
      var separator := IndexOf(pair, '=');
      if separator == |pair| || separator == 0 {
        continue;
      }
      var name := Trim(pair[..separator]);
      if |name| == 0 || name in FORBIDDEN_COOKIE_NAMES || Has(jar, name) {
        continue;
      }
      var raw := Trim(pair[separator + 1..]);
      var decoded := Decode(raw);
      jar := jar + [(name, if decoded.Some? then decoded.value else raw)];
    }
  }

  // ---------------------------------------------------------------------------------------
  // Reassembling

  /** `key` is `name.` followed by digits, the pattern the reader looks for. */
  predicate IsChunkOf(key: string, name: string) {
    |key| > |name| && key[..|name|] == name && key[|name|] == '.' && Decimal.IsDigits(key[|name| + 1..])
  }

  function ChunkNumber(key: string, name: string): nat
    requires IsChunkOf(key, name)
  {
    Decimal.Value(key[|name| + 1..])
  }

  function MatchingKeys(jar: Jar, name: string): (keys: seq<string>)
    ensures forall i :: 0 <= i < |keys| ==> IsChunkOf(keys[i], name)
  {
    if jar == [] then []
    else (if IsChunkOf(jar[0].0, name) then [jar[0].0] else []) + MatchingKeys(jar[1..], name)
  }

  function InsertByNumber(key: string, sorted: seq<string>, name: string): (r: seq<string>)
    requires IsChunkOf(key, name) && forall i :: 0 <= i < |sorted| ==> IsChunkOf(sorted[i], name)
    ensures forall i :: 0 <= i < |r| ==> IsChunkOf(r[i], name)
  {
    if sorted == [] || ChunkNumber(key, name) <= ChunkNumber(sorted[0], name) then [key] + sorted
    else [sorted[0]] + InsertByNumber(key, sorted[1..], name)
  }

  function SortByNumber(keys: seq<string>, name: string): (r: seq<string>)
    requires forall i :: 0 <= i < |keys| ==> IsChunkOf(keys[i], name)
    ensures forall i :: 0 <= i < |r| ==> IsChunkOf(r[i], name)
  {
    if keys == [] then [] else InsertByNumber(keys[0], SortByNumber(keys[1..], name), name)
  }

  /** The chunk names of a cookie in numeric, not lexicographic, order. */
  function ChunkNamesFor(jar: Jar, name: string): seq<string> {
    SortByNumber(MatchingKeys(jar, name), name)
  }

  /** The values from chunk `i` on, or nothing when a chunk is not where it must be. */
  function Assemble(jar: Jar, name: string, chunkNames: seq<string>, i: nat): Option<string>
    requires i <= |chunkNames|
    decreases |chunkNames| - i
  {
    if i == |chunkNames| then Some("")
    else if chunkNames[i] != ChunkName(name, i) || !Has(jar, chunkNames[i]) then None
    else
      match Assemble(jar, name, chunkNames, i + 1)
      case None => None
      case Some(rest) => Some(Get(jar, chunkNames[i]).value + rest)
  }

  function ReadCookie(jar: Jar, name: string): Option<string> {
    var prefixed := ChunkNamesFor(jar, HOST_PREFIX + name);
    if prefixed != [] then Assemble(jar, HOST_PREFIX + name, prefixed, 0)
    else
      var plain := ChunkNamesFor(jar, name);
      if plain != [] then Assemble(jar, name, plain, 0)
      else if Has(jar, name) then Get(jar, name)
      else Get(jar, HOST_PREFIX + name)
  }

  method ReadChunkedCookie(jar: Jar, name: string) returns (r: Option<string>)
    ensures r == ReadCookie(jar, name)
  {
    var candidates := [HOST_PREFIX + name, name];
    for c := 0 to 2
      invariant forall k :: 0 <= k < c ==> ChunkNamesFor(jar, candidates[k]) == []
    {
      var candidate := candidates[c];
      var chunkNames := ChunkNamesFor(jar, candidate);
      if |chunkNames| == 0 {
        continue;
      }
      assert ReadCookie(jar, name) == Assemble(jar, candidate, chunkNames, 0) by {
        assert c == 1 ==> ChunkNamesFor(jar, candidates[0]) == [];
      }
      var values := "";
      assert forall rest: string :: "" + rest == rest;
      for i := 0 to |chunkNames|
        invariant match Assemble(jar, candidate, chunkNames, i)
                  case None => Assemble(jar, candidate, chunkNames, 0).None?
                  case Some(rest) => Assemble(jar, candidate, chunkNames, 0) == Some(values + rest)
      {
        if chunkNames[i] != ChunkName(candidate, i) {
          return None;
        }
        var value := Get(jar, chunkNames[i]);
        if value.None? {
          return None;
        }
        ghost var before := values;
        values := values + value.value;
        assert forall rest :: before + (value.value + rest) == values + rest;
      }
      assert values + "" == values;
      return Some(values);
    }
    assert ChunkNamesFor(jar, candidates[0]) == [] && ChunkNamesFor(jar, candidates[1]) == [];
    r := if Has(jar, name) then Get(jar, name) else Get(jar, HOST_PREFIX + name);
  }

  // ---------------------------------------------------------------------------------------
  // Clearing

  function ClearOne(name: string, o: CookieOptions): SetCookie {
    SerializeOne(name, "", o, Some(0), Some(EPOCH))
  }

  function ClearAll(names: seq<string>, o: CookieOptions): seq<SetCookie> {
    if names == [] then [] else [ClearOne(names[0], o)] + ClearAll(names[1..], o)
  }

  /** Every cookie of the request that belongs to this session cookie, under either spelling. */
  function PresentNames(jar: Jar, name: string): seq<string> {
    (if Has(jar, name) then [name] else [])
    + (if Has(jar, HOST_PREFIX + name) then [HOST_PREFIX + name] else [])
    + ChunkNamesFor(jar, name)
    + ChunkNamesFor(jar, HOST_PREFIX + name)
  }

  function ClearCookieChunks(jar: Jar, o: CookieOptions): seq<SetCookie> {
    ClearAll(PresentNames(jar, o.name), o)
  }
}
