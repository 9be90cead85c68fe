/**
 * When a chunked cookie can be read back: exactly when its chunk names are the numbers from
 * zero up without a gap, and then in numeric order whatever order the jar lists them in.
 */
module ChunkReading {
  import opened Wrappers
  import opened Cookies
  import Decimal

  /** The chunk names of `name` that the jar holds. */
  predicate HasChunk(jar: Jar, name: string, key: string) {
    Has(jar, key) && IsChunkOf(key, name)
  }

  ghost predicate NoChunks(jar: Jar, name: string) {
    forall key :: !HasChunk(jar, name, key)
  }

  predicate NoDuplicates(jar: Jar) {
    jar == [] || (!Has(jar[1..], jar[0].0) && NoDuplicates(jar[1..]))
  }

  lemma ChunkNameFacts(name: string, i: nat)
    ensures IsChunkOf(ChunkName(name, i), name) && ChunkNumber(ChunkName(name, i), name) == i
  {
    Decimal.PrintReads(i);
    var key := ChunkName(name, i);
    assert key[..|name|] == name && key[|name| + 1..] == Decimal.Print(i);
  }

  lemma ChunkNameInjective(name: string, i: nat, j: nat)
    requires ChunkName(name, i) == ChunkName(name, j)
    ensures i == j
  {
    ChunkNameFacts(name, i);
    ChunkNameFacts(name, j);
  }

  // ---------------------------------------------------------------------------------------
  // The sorted chunk names

  lemma {:induction false} MatchingKeysAre(jar: Jar, name: string)
    requires NoDuplicates(jar)
    ensures forall key :: key in MatchingKeys(jar, name) <==> HasChunk(jar, name, key)
    ensures forall i, j :: 0 <= i < j < |MatchingKeys(jar, name)| ==>
              MatchingKeys(jar, name)[i] != MatchingKeys(jar, name)[j]
  {
    if jar != [] {
      MatchingKeysAre(jar[1..], name);
      var rest := MatchingKeys(jar[1..], name);
      assert !HasChunk(jar[1..], name, jar[0].0);
      if IsChunkOf(jar[0].0, name) {
        assert MatchingKeys(jar, name) == [jar[0].0] + rest;
      } else {
        assert MatchingKeys(jar, name) == rest;
      }
    }
  }

  predicate Ascending(keys: seq<string>, name: string)
    requires forall i :: 0 <= i < |keys| ==> IsChunkOf(keys[i], name)
  {
    forall i, j :: 0 <= i < j < |keys| ==> ChunkNumber(keys[i], name) <= ChunkNumber(keys[j], name)
  }

  lemma {:induction false} InsertKeeps(key: string, sorted: seq<string>, name: string)
    requires IsChunkOf(key, name) && forall i :: 0 <= i < |sorted| ==> IsChunkOf(sorted[i], name)
    requires Ascending(sorted, name)
    ensures Ascending(InsertByNumber(key, sorted, name), name)
    ensures multiset(InsertByNumber(key, sorted, name)) == multiset{key} + multiset(sorted)
  {
    hide IsChunkOf, ChunkNumber;
    if sorted != [] && ChunkNumber(key, name) > ChunkNumber(sorted[0], name) {
      InsertKeeps(key, sorted[1..], name);
      var r := InsertByNumber(key, sorted[1..], name);
      assert sorted == [sorted[0]] + sorted[1..];
      forall j | 0 <= j < |r| ensures ChunkNumber(sorted[0], name) <= ChunkNumber(r[j], name) {
        MemberOf(r, j, key, sorted[1..]);
      }
      PrependAscending(sorted[0], r, name);
    } else {
      PrependAscending(key, sorted, name);
    }
  }

  lemma MemberOf(r: seq<string>, j: nat, key: string, rest: seq<string>)
    requires j < |r| && multiset(r) == multiset{key} + multiset(rest)
    ensures r[j] == key || exists i :: 0 <= i < |rest| && rest[i] == r[j]
  {
    assert r[j] in multiset(r);
    assert r[j] == key || r[j] in multiset(rest);
  }

  lemma PrependAscending(key: string, rest: seq<string>, name: string)
    requires IsChunkOf(key, name) && forall i :: 0 <= i < |rest| ==> IsChunkOf(rest[i], name)
    requires Ascending(rest, name)
    requires forall j :: 0 <= j < |rest| ==> ChunkNumber(key, name) <= ChunkNumber(rest[j], name)
    ensures forall i :: 0 <= i < |[key] + rest| ==> IsChunkOf(([key] + rest)[i], name)
    ensures Ascending([key] + rest, name)
  {
  }

  lemma {:induction false} SortKeeps(keys: seq<string>, name: string)
    requires forall i :: 0 <= i < |keys| ==> IsChunkOf(keys[i], name)
    ensures Ascending(SortByNumber(keys, name), name)
    ensures multiset(SortByNumber(keys, name)) == multiset(keys)
  {
    if keys != [] {
      SortKeeps(keys[1..], name);
      InsertKeeps(keys[0], SortByNumber(keys[1..], name), name);
      assert keys == [keys[0]] + keys[1..];
    }
  }

  /** The sorted names hold the jar's chunk names, each once, in numeric order. */
  lemma {:induction false} ChunkNamesAre(jar: Jar, name: string)
    requires NoDuplicates(jar)
    ensures var names := ChunkNamesFor(jar, name);
            && (forall key :: key in names <==> HasChunk(jar, name, key))
            && (forall i, j :: 0 <= i < j < |names| ==> names[i] != names[j])
            && Ascending(names, name)
  {
    var keys := MatchingKeys(jar, name);
    var names := ChunkNamesFor(jar, name);
    MatchingKeysAre(jar, name);
    SortKeeps(keys, name);
    forall key ensures key in names <==> key in keys {
      assert key in names <==> key in multiset(names);
      assert key in keys <==> key in multiset(keys);
    }
    DistinctByCount(keys, names);
  }

  lemma DistinctByCount(a: seq<string>, b: seq<string>)
    requires multiset(a) == multiset(b)
    requires forall i, j :: 0 <= i < j < |a| ==> a[i] != a[j]
    ensures forall i, j :: 0 <= i < j < |b| ==> b[i] != b[j]
  {
    forall i, j | 0 <= i < j < |b| && b[i] == b[j] ensures false {
      var x := b[i];
      assert b == b[..i] + [x] + b[i + 1..j] + [x] + b[j + 1..];
      assert multiset(b)[x] >= 2;
      AtMostOnce(a, x);
    }
  }

  lemma {:induction false} AtMostOnce(a: seq<string>, x: string)
    requires forall i, j :: 0 <= i < j < |a| ==> a[i] != a[j]
    ensures multiset(a)[x] <= 1
  {
    if a != [] {
      AtMostOnce(a[1..], x);
      assert a == [a[0]] + a[1..];
      if a[0] == x {
        assert x !in a[1..];
      }
    }
  }

  ghost function Numbered(name: string, n: nat): seq<string> {
    seq(n, i requires 0 <= i => ChunkName(name, i))
  }

  /** A jar whose chunks of `name` are exactly `name.0` to `name.(n-1)`. */
  ghost predicate Whole(jar: Jar, name: string, n: nat) {
    forall key :: HasChunk(jar, name, key) <==> key in Numbered(name, n)
  }

  lemma {:induction false} WholeStep(jar: Jar, name: string, n: nat, i: nat)
    requires NoDuplicates(jar) && Whole(jar, name, n) && i < n
    ensures i < |ChunkNamesFor(jar, name)| && ChunkNamesFor(jar, name)[i] == ChunkName(name, i)
  {
    var names := ChunkNamesFor(jar, name);
    ChunkNamesAre(jar, name);
    assert Numbered(name, n)[i] == ChunkName(name, i);
    assert ChunkName(name, i) in names;
    var j :| 0 <= j < |names| && names[j] == ChunkName(name, i);
    ChunkNameFacts(name, i);
    if j < i {
      WholeStep(jar, name, n, j);
      ChunkNameFacts(name, j);
      assert false;
    }
    if i < j {
      // What sits at `i` is a smaller chunk, which already has its place further left.
      assert names[i] in Numbered(name, n);
      var m :| 0 <= m < n && names[i] == ChunkName(name, m);
      ChunkNameFacts(name, m);
      if m < i {
        WholeStep(jar, name, n, m);
        assert false;
      }
    }
  }

  lemma {:induction false} NoSurplus(jar: Jar, name: string, n: nat)
    requires NoDuplicates(jar) && Whole(jar, name, n)
    ensures |ChunkNamesFor(jar, name)| <= n
  {
    var names := ChunkNamesFor(jar, name);
    ChunkNamesAre(jar, name);
    if n < |names| {
      assert names[n] in Numbered(name, n);
      var m :| 0 <= m < n && names[n] == ChunkName(name, m);
      WholeStep(jar, name, n, m);
    }
  }

  lemma {:induction false} WholeNames(jar: Jar, name: string, n: nat)
    requires NoDuplicates(jar) && Whole(jar, name, n)
    ensures ChunkNamesFor(jar, name) == Numbered(name, n)
  {
    var names := ChunkNamesFor(jar, name);
    NoSurplus(jar, name, n);
    forall i | 0 <= i < n ensures i < |names| && names[i] == Numbered(name, n)[i] {
      WholeStep(jar, name, n, i);
    }
    if n > 0 {
      WholeStep(jar, name, n, n - 1);
    }
  }

  // ---------------------------------------------------------------------------------------
  // Reading

  /** The chunk values from `i` on, in order. */
  ghost function ValuesFrom(jar: Jar, name: string, i: nat, n: nat): string
    requires i <= n
    decreases n - i
  {
    if i == n then "" else Get(jar, ChunkName(name, i)).GetOr("") + ValuesFrom(jar, name, i + 1, n)
  }

  lemma {:induction false} AssembleWhole(jar: Jar, name: string, n: nat, i: nat)
    requires i <= n && Whole(jar, name, n)
    ensures Assemble(jar, name, Numbered(name, n), i) == Some(ValuesFrom(jar, name, i, n))
    decreases n - i
  {
    if i < n {
      assert Numbered(name, n)[i] == ChunkName(name, i);
      assert HasChunk(jar, name, ChunkName(name, i));
      AssembleWhole(jar, name, n, i + 1);
    }
  }

  /** A whole sequence of chunks reads as its values in numeric order. */
  lemma {:induction false} WholeReads(jar: Jar, name: string, n: nat)
    requires NoDuplicates(jar) && Whole(jar, name, n)
    ensures ChunkNamesFor(jar, name) == Numbered(name, n)
    ensures Assemble(jar, name, ChunkNamesFor(jar, name), 0) == Some(ValuesFrom(jar, name, 0, n))
  {
    WholeNames(jar, name, n);
    AssembleWhole(jar, name, n, 0);
  }

  lemma {:induction false} AssembledAreNumbered(jar: Jar, name: string, names: seq<string>, i: nat, j: nat)
    requires i <= j < |names| && Assemble(jar, name, names, i).Some?
    ensures names[j] == ChunkName(name, j)
    decreases j - i
  {
    if i < j {
      AssembledAreNumbered(jar, name, names, i + 1, j);
    }
  }

  /** Only a whole sequence reads at all: a missing chunk before the last is always noticed. */
  lemma {:induction false} OnlyWholeReads(jar: Jar, name: string)
    requires NoDuplicates(jar)
    ensures var names := ChunkNamesFor(jar, name);
            Assemble(jar, name, names, 0).Some? <==> Whole(jar, name, |names|)
  {
    var names := ChunkNamesFor(jar, name);
    ChunkNamesAre(jar, name);
    if Assemble(jar, name, names, 0).Some? {
      forall j | 0 <= j < |names| ensures names[j] == Numbered(name, |names|)[j] {
        AssembledAreNumbered(jar, name, names, 0, j);
      }
      assert names == Numbered(name, |names|);
    }
    if Whole(jar, name, |names|) {
      WholeReads(jar, name, |names|);
    }
  }

  /** A missing last chunk goes unnoticed: what is left is whole again and reads as the value cut short. */
  lemma {:induction false} LastMissingGoesUnnoticed(jar: Jar, short: Jar, name: string, n: nat)
    requires NoDuplicates(jar) && NoDuplicates(short) && Whole(jar, name, n + 1)
    requires forall key :: Get(short, key) == if key == ChunkName(name, n) then None else Get(jar, key)
    ensures Assemble(short, name, ChunkNamesFor(short, name), 0) == Some(ValuesFrom(jar, name, 0, n))
  {
    hide Assemble, ChunkNamesFor, IsChunkOf;
    assert Numbered(name, n + 1) == Numbered(name, n) + [ChunkName(name, n)];
    forall key ensures HasChunk(short, name, key) <==> key in Numbered(name, n) {
      assert HasChunk(jar, name, key) <==> key in Numbered(name, n + 1);
      if key in Numbered(name, n) && key == ChunkName(name, n) {
        var i :| 0 <= i < n && Numbered(name, n)[i] == key;
        ChunkNameInjective(name, i, n);
      }
    }
    WholeReads(short, name, n);
    ShortValues(jar, short, name, 0, n);
  }

  lemma {:induction false} ShortValues(jar: Jar, short: Jar, name: string, i: nat, n: nat)
    requires i <= n
    requires forall key :: Get(short, key) == if key == ChunkName(name, n) then None else Get(jar, key)
    ensures ValuesFrom(short, name, i, n) == ValuesFrom(jar, name, i, n)
    decreases n - i
  {
    if i < n {
      if ChunkName(name, i) == ChunkName(name, n) { ChunkNameInjective(name, i, n); }
      ShortValues(jar, short, name, i + 1, n);
    }
  }

  lemma {:induction false} NoChunksNoNames(jar: Jar, name: string)
    requires NoDuplicates(jar)
    ensures ChunkNamesFor(jar, name) == [] <==> NoChunks(jar, name)
  {
    ChunkNamesAre(jar, name);
    var names := ChunkNamesFor(jar, name);
    if names != [] {
      assert names[0] in names;
    }
  }
}
