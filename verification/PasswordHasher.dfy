/**
 * The self-describing format of stored password hashes. Number parsing, base64url and the
 * key derivation itself are library calls, taken as functions with the laws stated in
 * `Lawful`; the parser around them is as coded, including JavaScript's 32-bit `&`.
 */
module PasswordHasher {
  import opened Wrappers
  import opened Strings
  import Decimal

  type Bytes = seq<int>

  /** What `Number(s)` can give; integral values are exact. */
  datatype JsNumber = NotANumber | Infinite | Fractional | Integral(n: int)

  datatype Parameters = Parameters(cost: nat, blockSize: nat, parallelism: nat)

  datatype ParsedHash = ParsedHash(parameters: Parameters, salt: Bytes, derivedKey: Bytes)

  datatype Library = Library(
    number: string -> JsNumber,
    encode: Bytes -> string,
    decode: string -> Bytes,
    derive: (string, Bytes, Parameters) -> Option<Bytes>)

  const MAX_SAFE_INTEGER: nat := 0x1F_FFFF_FFFF_FFFF

  /**
   * Decimal numerals are read back; base64url round-trips without ever using the separator;
   * and scrypt derives keys of the length asked for, refusing parameters it does not accept.
   */
  ghost predicate Lawful(lib: Library) {
    && (forall n: nat :: n <= MAX_SAFE_INTEGER ==> lib.number(Decimal.Print(n)) == Integral(n))
    && (forall b: Bytes :: lib.decode(lib.encode(b)) == b)
    && (forall b: Bytes :: '$' !in lib.encode(b))
    && (forall password, salt, p :: lib.derive(password, salt, p).Some? ==>
          ScryptAccepts(p) && |lib.derive(password, salt, p).value| == KEY_LENGTH)
  }

  /**
   * scrypt wants a cost that is a power of two above one (section 2 of RFC 7914), and here
   * its blocks, the table of `cost` blocks and two more for mixing, to fit the memory it is
   * allowed: the ceiling and one mebibyte.
   */
  ghost predicate ScryptAccepts(p: Parameters) {
    && p.cost >= 2 && TruePower(p.cost)
    && p.blockSize >= 1 && p.parallelism >= 1
    && 128 * (p.blockSize * (p.cost + 2 + p.parallelism)) <= MAX_MEMORY_BYTES + 1024 * 1024
  }

  const PREFIX := "scrypt"
  const KEY_LENGTH: nat := 64
  const SALT_LENGTH: nat := 16
  const MAX_MEMORY_BYTES: int := 1024 * 1024 * 1024
  const TWO_TO_32: int := 0x1_0000_0000

  // ---------------------------------------------------------------------------------------
  // The power-of-two test

  function BitAnd(a: nat, b: nat): nat {
    if a == 0 || b == 0 then 0 else 2 * BitAnd(a / 2, b / 2) + (if a % 2 == 1 && b % 2 == 1 then 1 else 0)
  }

  /** JavaScript's `&`, compared with zero: both operands are cut to 32 bits first. */
  predicate AndIsZero(a: int, b: int) {
    BitAnd(a % TWO_TO_32, b % TWO_TO_32) == 0
  }

  const TWO_TO_53: int := 0x20_0000_0000_0000

  /** An integer a double can hold: exact up to 2^53, even beyond. */
  predicate Representable(n: int) {
    n <= TWO_TO_53 || n % 2 == 0
  }

  /**
   * `n - 1` as doubles compute it. Beyond 2^53 it is none: up to 2^54 it lies midway between
   * two and goes to the one with the even mantissa, and from there on `n` itself is nearest.
   */
  function MinusOne(n: int): int {
    if n <= TWO_TO_53 then n - 1
    else if n < 2 * TWO_TO_53 && n / 2 % 2 == 1 then n - 2
    else n
  }

  predicate IsPowerOfTwo(v: JsNumber) {
    v.Integral? && v.n > 1 && AndIsZero(v.n, MinusOne(v.n))
  }

  function Pow2(k: nat): nat {
    if k == 0 then 1 else 2 * Pow2(k - 1)
  }

  ghost predicate TruePower(n: int) {
    exists k: nat :: n == Pow2(k)
  }

  lemma {:induction false} BitAndSelf(m: nat)
    ensures BitAnd(m, m) == m
  {
    if m > 0 {
      BitAndSelf(m / 2);
    }
  }

  lemma {:induction false} ClearLowestBit(n: nat)
    requires n >= 1
    ensures BitAnd(n, n - 1) == 0 <==> TruePower(n)
  {
    if n == 1 {
      assert n == Pow2(0);
    } else if n % 2 == 1 {
      BitAndSelf(n / 2);
      assert (n - 1) / 2 == n / 2;
      forall k: nat ensures n != Pow2(k) {
      }
    } else {
      ClearLowestBit(n / 2);
      assert (n - 1) / 2 == n / 2 - 1;
      if TruePower(n / 2) {
        var k: nat :| n / 2 == Pow2(k);
        assert n == Pow2(k + 1);
      }
      if TruePower(n) {
        var k: nat :| n == Pow2(k);
        assert n / 2 == Pow2(k - 1);
      }
    }
  }

  /** Numbers with a two in the second place and no one in the first share all but that two with the number below. */
  lemma {:induction false} DropTwo(low: nat)
    requires low % 4 == 2
    ensures BitAnd(low, low - 2) == low - 2
  {
    var h := low / 2;
    assert (low - 2) / 2 == h - 1 && h % 2 == 1;
    if low > 2 {
      BitAndSelf(h / 2);
      assert (h - 1) / 2 == h / 2;
      assert BitAnd(h, h - 1) == 2 * BitAnd(h / 2, h / 2);
      assert BitAnd(low, low - 2) == 2 * BitAnd(h, h - 1);
    }
  }

  /**
   * The test as coded sees the low 32 bits of a number and of what the subtraction makes of
   * it. Up to 2^53 it accepts exactly when those bits are zero or a power of two; from there
   * on the subtraction rounds, and it accepts exactly when they are zero, or, below 2^54, two.
   */
  lemma {:induction false} PowerTestExactly(n: int)
    requires n > 1 && Representable(n)
    ensures var low := n % TWO_TO_32;
            IsPowerOfTwo(Integral(n)) <==>
            if n <= TWO_TO_53 then low == 0 || TruePower(low) else low == 0 || (n < 2 * TWO_TO_53 && low == 2)
  {
    var low := n % TWO_TO_32;
    LowBits(n);
    Rounding(n);
    hide BitAnd, TruePower, MinusOne, Representable;
    if n <= TWO_TO_53 {
      if low > 0 {
        ClearLowestBit(low);
      }
    } else if MinusOne(n) == n {
      BitAndSelf(low);
    } else {
      DropTwo(low);
    }
  }

  /** Beyond 2^53 the subtraction takes two off a number below 2^54 that is two modulo four, and nothing off others. */
  lemma {:induction false} Rounding(n: int)
    requires n > 1 && Representable(n)
    ensures n <= TWO_TO_53 ==> MinusOne(n) == n - 1
    ensures n > TWO_TO_53 ==>
              if n < 2 * TWO_TO_53 && n % 4 == 2 then MinusOne(n) == n - 2 else MinusOne(n) == n && n % 2 == 0
  {
  }

  lemma {:induction false} LowBits(n: int)
    requires n > 1
    ensures var low := n % TWO_TO_32;
            && low % 4 == n % 4 && (low > 0 ==> (n - 1) % TWO_TO_32 == low - 1)
            && (low >= 2 ==> (n - 2) % TWO_TO_32 == low - 2)
  {
    var q, low := n / TWO_TO_32, n % TWO_TO_32;
    SameModFour(0x4000_0000 * q, low);
    if low > 0 {
      LowOf(n - 1, q, low - 1);
    }
    if low >= 2 {
      LowOf(n - 2, q, low - 2);
    }
  }

  lemma SameModFour(k: int, low: int)
    ensures (4 * k + low) % 4 == low % 4
  {
  }

  lemma LowOf(n: int, q: int, low: int)
    requires 0 <= low < TWO_TO_32 && n == TWO_TO_32 * q + low
    ensures n % TWO_TO_32 == low
  {
  }

  /** Beyond 32 bits it is wrong: three times two to the 32 passes. */
  lemma PowerTestIsWrongBeyond32Bits()
    ensures IsPowerOfTwo(Integral(3 * TWO_TO_32)) && !TruePower(3 * TWO_TO_32)
  {
    PowerTestExactly(3 * TWO_TO_32);
    forall k: nat ensures Pow2(k) != 3 * TWO_TO_32 {
      NotThreefold(k, TWO_TO_32);
    }
  }

  lemma {:induction false} NotThreefold(k: nat, m: int)
    ensures Pow2(k) != 3 * m
  {
    if k > 0 {
      if Pow2(k) == 3 * m {
        assert m % 2 == 0;
        NotThreefold(k - 1, m / 2);
      }
    }
  }

  // ---------------------------------------------------------------------------------------
  // Parsing and printing

  function Parse(lib: Library, stored: string): Option<ParsedHash> {
    var parts := SplitOn(stored, '$');
    if |parts| != 6 || parts[0] != PREFIX then None
    else
      var cost, blockSize, parallelism := lib.number(parts[1]), lib.number(parts[2]), lib.number(parts[3]);
      if !IsPowerOfTwo(cost) then None
      else if !blockSize.Integral? || blockSize.n < 1 then None
      else if !parallelism.Integral? || parallelism.n < 1 then None
      else if 128 * cost.n * blockSize.n > MAX_MEMORY_BYTES then None
      else
        var salt, key := lib.decode(parts[4]), lib.decode(parts[5]);
        if salt == [] || key == [] then None
        else if lib.encode(salt) != parts[4] || lib.encode(key) != parts[5] then None
        else Some(ParsedHash(Parameters(cost.n, blockSize.n, parallelism.n), salt, key))
  }

  function PrintHash(lib: Library, p: Parameters, salt: Bytes, key: Bytes): string {
    PREFIX + "$" + Decimal.Print(p.cost) + "$" + Decimal.Print(p.blockSize) + "$" + Decimal.Print(p.parallelism)
    + "$" + lib.encode(salt) + "$" + lib.encode(key)
  }

  /** Rejects, printing nothing, when no key can be derived. */
  function Hash(lib: Library, p: Parameters, password: string, salt: Bytes): Option<string> {
    match lib.derive(password, salt, p)
    case None => None
    case Some(key) => Some(PrintHash(lib, p, salt, key))
  }

  predicate Verify(lib: Library, password: string, stored: string) {
    match Parse(lib, stored)
    case None => false
    case Some(h) => lib.derive(password, h.salt, h.parameters) == Some(h.derivedKey)
  }

  predicate NeedsRehash(lib: Library, current: Parameters, stored: string) {
    match Parse(lib, stored)
    case None => true
    case Some(h) =>
      h.parameters.cost < current.cost || h.parameters.blockSize < current.blockSize ||
      h.parameters.parallelism < current.parallelism
  }

  /** Parameters a stored hash may ask for. */
  ghost predicate Affordable(p: Parameters) {
    && p.cost >= 2 && TruePower(p.cost)
    && p.blockSize >= 1 && p.parallelism >= 1
    && 128 * p.cost * p.blockSize <= MAX_MEMORY_BYTES
  }

  lemma CostBelowCeiling(cost: int, blockSize: int)
    requires 1 <= blockSize && 0 <= cost && 128 * cost * blockSize <= MAX_MEMORY_BYTES
    ensures cost <= 0x80_0000
  {
    assert cost * 1 <= cost * blockSize;
  }

  lemma {:induction false} Pow2Ordered(j: nat, k: nat)
    ensures j < k ==> Pow2(j) < Pow2(k)
  {
    if j < k {
      Pow2Positive(k - 1);
      Pow2Ordered(j, k - 1);
    }
  }

  lemma {:induction false} Pow2Positive(k: nat)
    ensures Pow2(k) >= 1
  {
    if k > 0 {
      Pow2Positive(k - 1);
    }
  }

  lemma Pow2At23()
    ensures Pow2(23) == 0x80_0000
  {
    assert Pow2(6) == 64 && Pow2(12) == 4096 && Pow2(18) == 262144;
  }

  lemma {:induction false} ExponentBelow24(k: nat)
    requires 1 < Pow2(k) <= 0x80_0000
    ensures 1 <= k <= 23
  {
    Pow2At23();
    Pow2Ordered(23, k);
  }

  /**
   * Every cost the parser lets through is a true power of two between 2 and 2^23: the
   * memory ceiling excludes the range where the 32-bit test is wrong.
   */
  lemma AcceptedCostsAreTruePowers(lib: Library, stored: string) returns (k: nat)
    requires Parse(lib, stored).Some?
    ensures var p := Parse(lib, stored).value.parameters;
            1 <= k <= 23 && p.cost == Pow2(k) && Affordable(p)
  {
    var p := Parse(lib, stored).value.parameters;
    hide Pow2, AndIsZero, SplitOn;
    CostBelowCeiling(p.cost, p.blockSize);
    PowerTestExactly(p.cost);
    assert p.cost % TWO_TO_32 == p.cost;
    k :| p.cost == Pow2(k);
    ExponentBelow24(k);
  }

  lemma {:induction false} DigitsAvoidSeparator(n: nat)
    ensures '$' !in Decimal.Print(n)
  {
    Decimal.PrintReads(n);
  }

  /** A printed hash splits back into its six parts. */
  lemma PrintedParts(lib: Library, p: Parameters, salt: Bytes, key: Bytes)
    requires Lawful(lib)
    ensures SplitOn(PrintHash(lib, p, salt, key), '$') ==
            [PREFIX, Decimal.Print(p.cost), Decimal.Print(p.blockSize), Decimal.Print(p.parallelism),
             lib.encode(salt), lib.encode(key)]
  {
    hide SplitOn;
    var a, b, c := Decimal.Print(p.cost), Decimal.Print(p.blockSize), Decimal.Print(p.parallelism);
    var d, e := lib.encode(salt), lib.encode(key);
    DigitsAvoidSeparator(p.cost);
    DigitsAvoidSeparator(p.blockSize);
    DigitsAvoidSeparator(p.parallelism);
    var s5 := d + ['$'] + e;
    var s4 := c + ['$'] + s5;
    var s3 := b + ['$'] + s4;
    var s2 := a + ['$'] + s3;
    SplitOnFirst(e, '$', "");
    SplitOnFirst(d, '$', e);
    SplitOnFirst(c, '$', s5);
    SplitOnFirst(b, '$', s4);
    SplitOnFirst(a, '$', s3);
    SplitOnFirst(PREFIX, '$', s2);
    assert PrintHash(lib, p, salt, key) == PREFIX + ['$'] + s2;
  }

  /** The format itself round-trips exactly for affordable parameters; the parser refuses all others. */
  lemma FormatRoundTripsExactly(lib: Library, p: Parameters, salt: Bytes, key: Bytes)
    requires Lawful(lib) && salt != [] && key != []
    requires p.cost <= MAX_SAFE_INTEGER && p.blockSize <= MAX_SAFE_INTEGER && p.parallelism <= MAX_SAFE_INTEGER
    ensures var r := Parse(lib, PrintHash(lib, p, salt, key));
            && (Affordable(p) <==> r.Some?)
            && (Affordable(p) ==> r.value == ParsedHash(p, salt, key))
  {
    hide SplitOn, PrintHash, IsPowerOfTwo, Pow2, Decimal.Print;
    PrintedParts(lib, p, salt, key);
    var stored := PrintHash(lib, p, salt, key);
    assert lib.number(Decimal.Print(p.cost)) == Integral(p.cost);
    assert lib.number(Decimal.Print(p.blockSize)) == Integral(p.blockSize);
    assert lib.number(Decimal.Print(p.parallelism)) == Integral(p.parallelism);
    if Parse(lib, stored).Some? {
      var k := AcceptedCostsAreTruePowers(lib, stored);
    }
    if Affordable(p) {
      CostBelowCeiling(p.cost, p.blockSize);
      PowerTestExactly(p.cost);
      assert p.cost % TWO_TO_32 == p.cost;
    }
  }

  // ---------------------------------------------------------------------------------------
  // What the service prints

  lemma DoubleProduct(a: nat, b: nat)
    ensures 2 * (a * b) == a * (2 * b)
  {
  }

  lemma {:induction false} Pow2Sum(j: nat, k: nat)
    ensures Pow2(j + k) == Pow2(j) * Pow2(k)
    decreases k
  {
    if k > 0 {
      assert Pow2(j + k) == 2 * Pow2(j + k - 1) && Pow2(k) == 2 * Pow2(k - 1);
      hide Pow2;
      Pow2Sum(j, k - 1);
      DoubleProduct(Pow2(j), Pow2(k - 1));
    }
  }

  lemma Monotone(x: nat, y: nat, z: nat)
    requires x <= y
    ensures x * z <= y * z && z * x <= z * y
  {
  }

  lemma SquareOfSum(x: int, y: int)
    ensures (x + y) * (x + y) == (x - y) * (x - y) + 4 * (x * y)
    ensures 0 <= (x - y) * (x - y)
  {
  }

  /** Two numbers with product 2^23 are, one and three times the other, together over 2^13. */
  lemma FarFromBalanced(a: nat, b: nat)
    requires a * b == 0x80_0000
    ensures a + 3 * b > 0x2000
  {
    var sum := a + 3 * b;
    SquareOfSum(a, 3 * b);
    assert a * (3 * b) == 3 * (a * b);
    assert sum * sum >= 12 * 0x80_0000;
    if sum <= 0x2000 {
      Monotone(sum, 0x2000, sum);
    }
  }

  /** Just above what fits, the overhead alone breaks the allowance. */
  lemma FirstTooMany(a: nat, b: nat, blockSize: nat)
    requires a * b == 0x80_0000 && b < blockSize
    ensures blockSize * (a + 3) > 0x80_0000 + 0x2000
  {
    FarFromBalanced(a, b);
    Monotone(b + 1, blockSize, a + 3);
    assert (b + 1) * (a + 3) == a * b + 3 * b + a + 3;
  }

  /** The table of blocks is within the ceiling if with its overhead it is within the allowance. */
  lemma {:induction false} TableWithinCeiling(k: nat, blockSize: nat)
    requires 1 <= blockSize && blockSize * (Pow2(k) + 3) <= 0x80_0000 + 0x2000
    ensures Pow2(k) * blockSize <= 0x80_0000
  {
    var a := Pow2(k);
    Pow2At23();
    hide Pow2;
    if k > 23 {
      BeyondTheTable(k);
      Monotone(1, blockSize, a + 3);
    } else {
      var b := Pow2(23 - k);
      Pow2Sum(k, 23 - k);
      if blockSize > b {
        FirstTooMany(a, b, blockSize);
      } else {
        Monotone(blockSize, b, a);
      }
    }
  }

  lemma {:induction false} BeyondTheTable(k: nat)
    requires k > 23
    ensures Pow2(k) >= 0x100_0000
  {
    Pow2At23();
    assert Pow2(24) == 0x100_0000;
    Pow2Ordered(24, k);
  }

  /** What scrypt agrees to derive a key for is what the parser will accept. */
  lemma AcceptedIsAffordable(p: Parameters)
    requires ScryptAccepts(p)
    ensures Affordable(p)
    ensures p.cost <= MAX_SAFE_INTEGER && p.blockSize <= MAX_SAFE_INTEGER && p.parallelism <= MAX_SAFE_INTEGER
  {
    var k: nat :| p.cost == Pow2(k);
    hide Pow2, Affordable;
    AllowanceBounds(p.blockSize, p.cost, p.parallelism);
    TableWithinCeiling(k, p.blockSize);
    assert 128 * p.cost * p.blockSize == 128 * (p.cost * p.blockSize);
    assert Affordable(p) by { WithinCeilingIsAffordable(p, k); }
  }

  lemma {:induction false} WithinCeilingIsAffordable(p: Parameters, k: nat)
    requires p.cost >= 2 && p.cost == Pow2(k) && p.blockSize >= 1 && p.parallelism >= 1
    requires 128 * p.cost * p.blockSize <= MAX_MEMORY_BYTES
    ensures Affordable(p)
  {
  }

  lemma AllowanceBounds(r: nat, n: nat, q: nat)
    requires 1 <= r && 1 <= q && r * (n + 2 + q) <= 0x80_0000 + 0x2000
    ensures r * (n + 3) <= 0x80_0000 + 0x2000
    ensures n <= 0x100_0000 && r <= 0x100_0000 && q <= 0x100_0000
  {
    Monotone(n + 3, n + 2 + q, r);
    Monotone(1, r, n + 2 + q);
    Monotone(1, n + 3, r);
  }

  /** Every hash the service prints is read back as what went into it. */
  lemma PrintedHashIsReadBack(lib: Library, p: Parameters, password: string, salt: Bytes)
    requires Lawful(lib) && |salt| == SALT_LENGTH && Hash(lib, p, password, salt).Some?
    ensures Parse(lib, Hash(lib, p, password, salt).value)
            == Some(ParsedHash(p, salt, lib.derive(password, salt, p).value))
  {
    AcceptedIsAffordable(p);
    FormatRoundTripsExactly(lib, p, salt, lib.derive(password, salt, p).value);
  }

  /** So it verifies exactly the passwords with the same key, its own among them, and is not due for rehashing. */
  lemma OwnHashesVerify(lib: Library, p: Parameters, password: string, salt: Bytes, attempt: string)
    requires Lawful(lib) && |salt| == SALT_LENGTH && Hash(lib, p, password, salt).Some?
    ensures var stored := Hash(lib, p, password, salt).value;
            && Verify(lib, password, stored) && !NeedsRehash(lib, p, stored)
            && (Verify(lib, attempt, stored) <==> lib.derive(attempt, salt, p) == lib.derive(password, salt, p))
  {
    PrintedHashIsReadBack(lib, p, password, salt);
  }

  lemma {:induction false} DueOf(lib: Library, current: Parameters, stored: string)
    ensures var r := Parse(lib, stored);
            NeedsRehash(lib, current, stored) <==>
            r.Some? ==>
              var p := r.value.parameters;
              p.cost < current.cost || p.blockSize < current.blockSize || p.parallelism < current.parallelism
    ensures Parse(lib, stored).None? ==> forall attempt :: !Verify(lib, attempt, stored)
  {
    hide Parse;
  }

  /** A stored hash is due exactly when one of its parameters has been raised since, or when it cannot be read. */
  lemma {:induction false} DueExactly(lib: Library, p: Parameters, password: string, salt: Bytes, current: Parameters,
                                      unreadable: string)
    requires Lawful(lib) && |salt| == SALT_LENGTH && Hash(lib, p, password, salt).Some?
    requires Parse(lib, unreadable).None?
    ensures NeedsRehash(lib, current, Hash(lib, p, password, salt).value) <==>
            p.cost < current.cost || p.blockSize < current.blockSize || p.parallelism < current.parallelism
    ensures NeedsRehash(lib, current, unreadable) && forall attempt :: !Verify(lib, attempt, unreadable)
  {
    PrintedHashIsReadBack(lib, p, password, salt);
    DueOf(lib, current, Hash(lib, p, password, salt).value);
    DueOf(lib, current, unreadable);
    hide Parse, Hash, Lawful, NeedsRehash, Verify;
  }

  function Join(parts: seq<string>, c: char): string {
    if parts == [] then ""
    else if |parts| == 1 then parts[0]
    else parts[0] + [c] + Join(parts[1..], c)
  }

  lemma {:induction false} JoinUndoesSplit(s: string, c: char)
    ensures Join(SplitOn(s, c), c) == s && SplitOn(s, c) != []
    decreases |s|
  {
    var i := IndexOf(s, c);
    SplitStep(s, c);
    hide SplitOn, Join;
    if i < |s| {
      JoinUndoesSplit(s[i + 1..], c);
      JoinStep(s[..i], SplitOn(s[i + 1..], c), c);
      assert s == s[..i] + [c] + s[i + 1..];
    } else {
      JoinOne(s, c);
    }
  }

  lemma {:induction false} SplitStep(s: string, c: char)
    ensures var i := IndexOf(s, c);
            SplitOn(s, c) == if i == |s| then [s] else [s[..i]] + SplitOn(s[i + 1..], c)
  {
    hide IndexOf;
  }

  lemma {:induction false} JoinStep(first: string, rest: seq<string>, c: char)
    requires rest != []
    ensures Join([first] + rest, c) == first + [c] + Join(rest, c)
  {
    assert ([first] + rest)[1..] == rest;
  }

  lemma {:induction false} JoinOne(s: string, c: char)
    ensures Join([s], c) == s
  {
  }

  lemma {:induction false} JoinSix(p: seq<string>, c: char)
    requires |p| == 6
    ensures Join(p, c) == p[0] + [c] + p[1] + [c] + p[2] + [c] + p[3] + [c] + p[4] + [c] + p[5]
  {
    hide Join;
    assert p == [p[0]] + ([p[1]] + ([p[2]] + ([p[3]] + ([p[4]] + [p[5]]))));
    JoinOne(p[5], c);
    JoinStep(p[4], [p[5]], c);
    JoinStep(p[3], [p[4]] + [p[5]], c);
    JoinStep(p[2], [p[3]] + ([p[4]] + [p[5]]), c);
    JoinStep(p[1], [p[2]] + ([p[3]] + ([p[4]] + [p[5]])), c);
    JoinStep(p[0], [p[1]] + ([p[2]] + ([p[3]] + ([p[4]] + [p[5]]))), c);
  }

  /** Text that is accepted is exactly its numerals and the encodings of the salt and key it is read as. */
  lemma AcceptedIsCanonical(lib: Library, stored: string) returns (cost: string, blockSize: string, parallelism: string)
    requires Parse(lib, stored).Some?
    ensures var h := Parse(lib, stored).value;
            && stored == PREFIX + "$" + cost + "$" + blockSize + "$" + parallelism + "$" + lib.encode(h.salt) + "$"
                         + lib.encode(h.derivedKey)
            && lib.number(cost) == Integral(h.parameters.cost)
            && lib.number(blockSize) == Integral(h.parameters.blockSize)
            && lib.number(parallelism) == Integral(h.parameters.parallelism)
            && h.salt != [] && h.derivedKey != []
  {
    var parts := SplitOn(stored, '$');
    hide SplitOn, Join;
    JoinUndoesSplit(stored, '$');
    JoinSix(parts, '$');
    cost, blockSize, parallelism := parts[1], parts[2], parts[3];
  }
}
