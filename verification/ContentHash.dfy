/**
 * The content hash of the compiler's cache: 32-bit FNV-1a over UTF-16 code units, printed in
 * base 36. It is not a cryptographic hash, and it does collide.
 */
module ContentHash {
  const OFFSET_BASIS: nat := 2166136261
  const PRIME: nat := 16777619
  const TWO_TO_32: nat := 0x1_0000_0000

  /** The UTF-16 code units of a character: one, or a surrogate pair (section 2.1 of RFC 2781). */
  function CodeUnits(c: char): seq<nat> {
    var n := c as int;
    if n < 0x1_0000 then [n] else [0xD800 + (n - 0x1_0000) / 0x400, 0xDC00 + (n - 0x1_0000) % 0x400]
  }

  function Units(s: string): seq<nat> {
    if s == "" then [] else CodeUnits(s[0]) + Units(s[1..])
  }

  /** What is left below a bit, and the bit's share of an exclusive or. */
  function Below(a: nat, place: nat): nat {
    if a < place then a else a - place
  }

  function XorAt(a: nat, b: nat, place: nat): nat {
    if a < place <==> b < place then 0 else place
  }

  /** Exclusive or of two numbers below 16. */
  function NibbleXor(a: nat, b: nat): nat {
    var a2, b2 := Below(a, 8), Below(b, 8);
    var a1, b1 := Below(a2, 4), Below(b2, 4);
    XorAt(a, b, 8) + XorAt(a2, b2, 4) + XorAt(a1, b1, 2) + XorAt(Below(a1, 2), Below(b1, 2), 1)
  }

  function BitXor(a: nat, b: nat): nat {
    if b == 0 then a else 16 * BitXor(a / 16, b / 16) + NibbleXor(a % 16, b % 16)
  }

  /** One unit; the product is cut to 32 bits. */
  function Mix(h: nat, unit: nat): nat {
    BitXor(h, unit) * PRIME % TWO_TO_32
  }

  function MixAll(h: nat, units: seq<nat>): nat
    decreases |units|
  {
    if units == [] then h else MixAll(Mix(h, units[0]), units[1..])
  }

  function Hash32(s: string): nat {
    MixAll(OFFSET_BASIS, Units(s))
  }

  /** The loop of the hash. */
  method ComputeHash(units: seq<nat>) returns (h: nat)
    ensures h == MixAll(OFFSET_BASIS, units)
  {
    hide Mix;
    h := OFFSET_BASIS;
    assert units[0..] == units;
    for i := 0 to |units|
      invariant MixAll(h, units[i..]) == MixAll(OFFSET_BASIS, units)
    {
      assert units[i..][1..] == units[i + 1..];
      h := Mix(h, units[i]);
    }
  }

  // ---------------------------------------------------------------------------------------
  // Printing

  function Digit(d: nat): char
    requires d < 36
  {
    if d < 10 then '0' + d as char else 'a' + (d - 10) as char
  }

  function Print36(n: nat): (r: string)
    ensures r != ""
  {
    if n < 36 then [Digit(n)] else Print36(n / 36) + [Digit(n % 36)]
  }

  function HashText(s: string): string {
    Print36(Hash32(s))
  }

  lemma {:induction false} PrintedWithoutColon(n: nat)
    ensures ':' !in Print36(n)
  {
    if n >= 36 {
      PrintedWithoutColon(n / 36);
    }
  }

  lemma {:induction false} Print36Injective(m: nat, n: nat)
    requires Print36(m) == Print36(n)
    ensures m == n
    decreases m
  {
    var a, b := Print36(m), Print36(n);
    assert a[|a| - 1] == Digit(m % 36) && b[|b| - 1] == Digit(n % 36);
    if m >= 36 && n >= 36 {
      assert a[..|a| - 1] == Print36(m / 36) && b[..|b| - 1] == Print36(n / 36);
      Print36Injective(m / 36, n / 36);
    }
  }

  /** Two texts have the same content hash exactly when they have the same 32 bits. */
  lemma SameHashExactly(a: string, b: string)
    ensures HashText(a) == HashText(b) <==> Hash32(a) == Hash32(b)
  {
    if HashText(a) == HashText(b) {
      Print36Injective(Hash32(a), Hash32(b));
    }
  }

  /** The hash is 32 bits, however long the text. */
  lemma {:induction false} HashIs32Bits(h: nat, units: seq<nat>)
    requires h < TWO_TO_32
    ensures MixAll(h, units) < TWO_TO_32
    decreases |units|
  {
    hide BitXor;
    if units != [] {
      HashIs32Bits(Mix(h, units[0]), units[1..]);
    }
  }

  // ---------------------------------------------------------------------------------------
  // Collisions

  lemma {:induction false} UnitsConcat(a: string, b: string)
    ensures Units(a + b) == Units(a) + Units(b)
  {
    if a == "" {
      assert a + b == b;
    } else {
      assert (a + b)[1..] == a[1..] + b;
      UnitsConcat(a[1..], b);
    }
  }

  lemma {:induction false} MixAllConcat(h: nat, a: seq<nat>, b: seq<nat>)
    ensures MixAll(h, a + b) == MixAll(MixAll(h, a), b)
    decreases |a|
  {
    if a == [] {
      assert a + b == b;
    } else {
      assert (a + b)[1..] == a[1..] + b;
      MixAllConcat(Mix(h, a[0]), a[1..], b);
    }
  }

  /** A collision survives any common suffix. */
  lemma CollisionsExtend(a: string, b: string, suffix: string)
    requires Hash32(a) == Hash32(b)
    ensures Hash32(a + suffix) == Hash32(b + suffix)
  {
    UnitsConcat(a, suffix);
    UnitsConcat(b, suffix);
    MixAllConcat(OFFSET_BASIS, Units(a), Units(suffix));
    MixAllConcat(OFFSET_BASIS, Units(b), Units(suffix));
  }

  lemma ByteXor(x: nat, p: nat, q: nat, b: nat)
    requires p < 16 && q < 16 && b < 256
    ensures BitXor(256 * x + 16 * p + q, b) == 256 * x + 16 * NibbleXor(p, b / 16) + NibbleXor(q, b % 16)
  {
    hide NibbleXor;
    NibbleSame(p);
    NibbleSame(q);
    var a := 256 * x + 16 * p + q;
    assert a / 16 == 16 * x + p && a % 16 == q && a / 256 == x;
    assert BitXor(x, 0) == x;
    assert b >= 16 ==> BitXor(a / 16, b / 16) == 16 * BitXor(x, 0) + NibbleXor(p, b / 16);
  }

  lemma NibbleSame(p: nat)
    requires p < 16
    ensures NibbleXor(p, 0) == p
  {
  }

  /** One more ASCII unit; `x`, `p` and `q` are the state from the third nibble up, the second and the first. */
  lemma Reaches(s: string, c: char, t: string, x: nat, p: nat, q: nat, after: nat)
    requires t == s + [c]
    requires p < 16 && q < 16 && Hash32(s) == 256 * x + 16 * p + q && c as int < 256
    requires (256 * x + 16 * NibbleXor(p, c as int / 16) + NibbleXor(q, c as int % 16)) * PRIME % TWO_TO_32 == after
    ensures Hash32(t) == after
  {
    ByteXor(x, p, q, c as int);
    assert Mix(Hash32(s), c as int) == after;
    hide Mix, BitXor, NibbleXor;
    UnitsConcat(s, [c]);
    assert [c][1..] == "" && Units([c]) == [c as int];
    MixAllConcat(OFFSET_BASIS, Units(s), [c as int]);
    assert [c as int][1..] == [];
  }

  lemma HashOfNothing()
    ensures Hash32("") == OFFSET_BASIS
  {
  }

  lemma HashOfCosta()
    ensures Hash32("costa") == 572839195
  {
    hide Hash32;
    HashOfNothing();
    Reaches("", 'c', "c", 8461469, 12, 5, 3859557458);
    Reaches("c", 'o', "co", 15076396, 5, 2, 1646896135);
    Reaches("co", 's', "cos", 6433188, 0, 7, 4220379804);
    Reaches("cos", 't', "cost", 16485858, 9, 12, 3898356536);
    Reaches("cost", 'a', "costa", 15227955, 3, 8, 572839195);
  }

  lemma HashOfCostarring()
    ensures Hash32("costarring") == 1582148253
  {
    hide Hash32;
    HashOfCosta();
    Reaches("costa", 'r', "costar", 2237653, 1, 11, 687600715);
    Reaches("costar", 'r', "costarr", 2685940, 4, 11, 3181475259);
    Reaches("costarr", 'i', "costarri", 12427637, 11, 11, 1462532502);
    Reaches("costarri", 'n', "costarrin", 5713017, 9, 6, 855900520);
    Reaches("costarrin", 'g', "costarring", 3343361, 6, 8, 1582148253);
  }

  lemma HashOfLiquid()
    ensures Hash32("liquid") == 1582148253
  {
    hide Hash32;
    HashOfNothing();
    Reaches("", 'l', "l", 8461469, 12, 5, 3909890315);
    Reaches("l", 'i', "li", 15273009, 0, 11, 1077001542);
    Reaches("li", 'q', "liq", 4207037, 4, 6, 1162665365);
    Reaches("liq", 'u', "liqu", 4541661, 9, 5, 4160833440);
    Reaches("liqu", 'i', "liqui", 16253255, 10, 0, 855900523);
    Reaches("liqui", 'd', "liquid", 3343361, 6, 11, 1582148253);
  }

  /** Two plain words collide, and so do any two texts that go on alike after them. */
  lemma WordsCollide(suffix: string)
    ensures "costarring" + suffix != "liquid" + suffix
    ensures HashText("costarring" + suffix) == HashText("liquid" + suffix)
  {
    HashOfCostarring();
    HashOfLiquid();
    CollisionsExtend("costarring", "liquid", suffix);
    assert |"costarring" + suffix| != |"liquid" + suffix|;
  }
}
