/**
 * What a `Cookie` header means, for any text at all: which pairs count, and that the first
 * pair of a name is the one that does.
 */
module HeaderParsing {
  import opened Wrappers
  import opened Strings
  import opened Cookies
  import opened ChunkReading

  /** The pair assigns the raw value to the name: split at its first equals sign and trimmed. */
  ghost predicate Assigns(pair: string, name: string, raw: string) {
    exists left: string, right :: pair == left + "=" + right && '=' !in left && Trim(left) == name && Trim(right) == raw
  }

  lemma {:induction false} SplitAtEquals(pair: string, left: string, right: string)
    requires pair == left + "=" + right && '=' !in left
    ensures IndexOf(pair, '=') == |left| && pair[..|left|] == left && pair[|left| + 1..] == right
  {
    assert pair == left + ['='] + right;
    IndexOfSkips(left, '=', right);
  }

  lemma {:induction false} TrimOfNothing()
    ensures Trim("") == ""
  {
  }

  /** A pair counts exactly if it assigns something to a name that is neither empty nor forbidden. */
  lemma {:induction false} PairExactly(pair: string, name: string, raw: string)
    ensures ParsePair(pair) == Some((name, raw)) <==>
            Assigns(pair, name, raw) && name != "" && name !in FORBIDDEN_COOKIE_NAMES
  {
    hide Trim;
    TrimOfNothing();
    if ParsePair(pair) == Some((name, raw)) {
      var at := IndexOf(pair, '=');
      assert pair == pair[..at] + "=" + pair[at + 1..];
      forall i | 0 <= i < at ensures pair[..at][i] != '=' { }
      assert '=' !in pair[..at];
    }
    if Assigns(pair, name, raw) {
      var left: string, right :|
        pair == left + "=" + right && '=' !in left && Trim(left) == name && Trim(right) == raw;
      SplitAtEquals(pair, left, right);
    }
  }

  /** The first pair of the name, if there is one. */
  function FirstOf(pairs: seq<string>, name: string): Option<string> {
    if pairs == [] then None
    else if ParsePair(pairs[0]).Some? && ParsePair(pairs[0]).value.0 == name then Some(ParsePair(pairs[0]).value.1)
    else FirstOf(pairs[1..], name)
  }

  lemma {:induction false} AppendGet(jar: Jar, name: string, value: string, k: string)
    ensures Get(jar + [(name, value)], k) ==
            if Has(jar, k) then Get(jar, k) else if k == name then Some(value) else None
  {
    if jar == [] {
      assert Get([(name, value)][1..], k).None?;
    } else {
      assert (jar + [(name, value)])[1..] == jar[1..] + [(name, value)];
      AppendGet(jar[1..], name, value, k);
    }
  }

  lemma {:induction false} FirstWins(jar: Jar, pairs: seq<string>, k: string)
    ensures Get(AddPairs(jar, pairs), k) ==
            if Has(jar, k) then Get(jar, k)
            else if FirstOf(pairs, k).Some? then Some(DecodeOrRaw(FirstOf(pairs, k).value)) else None
    decreases |pairs|
  {
    hide ParsePair, DecodeOrRaw, Get;
    if pairs != [] {
      var p := ParsePair(pairs[0]);
      FirstWins(AddPair(jar, pairs[0]), pairs[1..], k);
      if p.Some? {
        AppendGet(jar, p.value.0, DecodeOrRaw(p.value.1), k);
      }
    }
  }

  lemma {:induction false} AppendDistinct(jar: Jar, name: string, value: string)
    requires NoDuplicates(jar) && !Has(jar, name)
    ensures NoDuplicates(jar + [(name, value)])
  {
    if jar == [] {
      assert [(name, value)][1..] == [];
    } else {
      assert (jar + [(name, value)])[1..] == jar[1..] + [(name, value)];
      AppendDistinct(jar[1..], name, value);
      AppendGet(jar[1..], name, value, jar[0].0);
    }
  }

  lemma {:induction false} PairsDistinct(jar: Jar, pairs: seq<string>)
    requires NoDuplicates(jar)
    ensures NoDuplicates(AddPairs(jar, pairs))
    decreases |pairs|
  {
    hide ParsePair, DecodeOrRaw, NoDuplicates;
    if pairs != [] {
      var p := ParsePair(pairs[0]);
      if p.Some? && !Has(jar, p.value.0) {
        AppendDistinct(jar, p.value.0, DecodeOrRaw(p.value.1));
      }
      PairsDistinct(AddPair(jar, pairs[0]), pairs[1..]);
    }
  }

  /** The pair at `i` assigns this to the name, and is the first that assigns anything to it. */
  ghost predicate Counts(pairs: seq<string>, i: nat, name: string, raw: string)
    requires i < |pairs|
  {
    && name != "" && name !in FORBIDDEN_COOKIE_NAMES
    && Assigns(pairs[i], name, raw)
    && forall j, other :: 0 <= j < i ==> !Assigns(pairs[j], name, other)
  }

  lemma {:induction false} FirstFound(pairs: seq<string>, i: nat, name: string, raw: string)
    requires i < |pairs| && Counts(pairs, i, name, raw)
    ensures FirstOf(pairs, name) == Some(raw)
    decreases i
  {
    hide ParsePair, Assigns;
    var p := ParsePair(pairs[0]);
    if i == 0 {
      PairExactly(pairs[0], name, raw);
    } else {
      if p.Some? {
        PairExactly(pairs[0], p.value.0, p.value.1);
      }
      FirstFound(pairs[1..], i - 1, name, raw);
    }
  }

  ghost predicate Unassigned(pairs: seq<string>, name: string) {
    || name == "" || name in FORBIDDEN_COOKIE_NAMES
    || forall j, raw :: 0 <= j < |pairs| ==> !Assigns(pairs[j], name, raw)
  }

  lemma {:induction false} NoneFound(pairs: seq<string>, name: string)
    requires Unassigned(pairs, name)
    ensures FirstOf(pairs, name) == None
  {
    hide ParsePair, Assigns;
    if pairs != [] {
      var p := ParsePair(pairs[0]);
      if p.Some? {
        PairExactly(pairs[0], p.value.0, p.value.1);
      }
      NoneFound(pairs[1..], name);
    }
  }

  /**
   * What the server reads from a header, whatever its text: each name at most once; for a
   * name that is allowed the first value assigned to it, decoded if it can be; and nothing
   * for a name that nothing is assigned to, an empty one or a forbidden one.
   */
  lemma {:induction false} HeaderExactly(header: string, i: nat, name: string, raw: string)
    ensures var pairs, jar := SplitOn(header, ';'), ParseHeader(Some(header));
            && NoDuplicates(jar)
            && (i < |pairs| && Counts(pairs, i, name, raw) ==> Get(jar, name) == Some(DecodeOrRaw(raw)))
            && (Unassigned(pairs, name) ==> Get(jar, name) == None)
  {
    hide ParsePair, Assigns, DecodeOrRaw, FirstOf, AddPairs, Trim;
    var pairs := SplitOn(header, ';');
    EmptyHeader();
    FirstWins([], pairs, name);
    PairsDistinct([], pairs);
    if i < |pairs| && Counts(pairs, i, name, raw) {
      FirstFound(pairs, i, name, raw);
    }
    if Unassigned(pairs, name) {
      NoneFound(pairs, name);
    }
  }

  lemma {:induction false} EmptyHeader()
    ensures AddPairs([], SplitOn("", ';')) == []
  {
    assert SplitOn("", ';') == [""];
    assert ParsePair("") == None;
    assert [""][1..] == [];
  }
}
