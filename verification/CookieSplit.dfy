/**
 * Splitting a cookie value into chunks that each fit the size limit once encoded. The
 * split is shown to lose nothing, to respect the limit, and to use as few chunks as any
 * contiguous split can.
 */
module CookieSplit {
  import opened PercentEncoding

  const MAX_COOKIE_VALUE_BYTES := 3800

  predicate Fits(s: string) {
    |Encode(s)| <= MAX_COOKIE_VALUE_BYTES
  }

  function Concat(chunks: seq<string>): string {
    if chunks == [] then "" else chunks[0] + Concat(chunks[1..])
  }

  /** The length of the longest prefix of `s` that starts with `s[..n]` and fits. */
  function Reach(s: string, n: nat): (r: nat)
    requires n <= |s| && Fits(s[..n])
    ensures n <= r <= |s| && Fits(s[..r])
    decreases |s| - n
  {
    if n < |s| && Fits(s[..n + 1]) then Reach(s, n + 1) else n
  }

  /** Splitting by always taking the longest prefix that fits. */
  function Greedy(s: string): seq<string>
    decreases |s|
  {
    if s == "" then []
    else
      assert Fits(s[..1]) by { OneFits(s[0]); }
      var n := Reach(s, 1);
      [s[..n]] + Greedy(s[n..])
  }

  /** What the cookie writer uses: the value itself when it fits, the greedy chunks otherwise. */
  function Split(value: string): seq<string> {
    if Fits(value) then [value] else Greedy(value)
  }

  lemma OneFits(c: char)
    ensures forall s: string :: |s| > 0 && s[0] == c ==> Fits(s[..1])
  {
    EncodedCharLength(c);
    assert forall s: string :: |s| > 0 && s[0] == c ==> s[..1] == [c];
  }

  lemma ConcatOne()
    ensures forall chunks :: |chunks| == 1 ==> Concat(chunks) == chunks[0]
  {
    forall chunks | |chunks| == 1 ensures Concat(chunks) == chunks[0] {
      assert Concat(chunks) == chunks[0] + "";
    }
  }

  lemma EmptyFits()
    ensures Fits("") && Greedy("") == []
  {
  }

  lemma {:induction false} EncodingGrows(s: string, t: string)
    ensures |Encode(s)| <= |Encode(s + t)| && |Encode(t)| <= |Encode(s + t)|
    ensures t != "" ==> |Encode(s)| < |Encode(s + t)|
  {
    EncodeConcat(s, t);
    if t != "" {
      EncodedCharLength(t[0]);
    }
  }

  /** A part of a string that fits fits. */
  lemma PartFits(s: string, i: nat, j: nat)
    requires i <= j <= |s| && Fits(s)
    ensures Fits(s[i..j])
  {
    assert s == s[..i] + s[i..];
    EncodingGrows(s[..i], s[i..]);
    assert s[i..] == s[i..j] + s[j..];
    EncodingGrows(s[i..j], s[j..]);
  }

  /** `Reach` stops exactly at the longest fitting prefix. */
  lemma {:induction false} ReachIsLongest(s: string, n: nat, m: nat)
    requires n <= |s| && Fits(s[..n]) && m <= |s| && Fits(s[..m])
    ensures m <= Reach(s, n)
    decreases |s| - n
  {
    if n < m {
      assert s[..m][0..n + 1] == s[..n + 1];
      PartFits(s[..m], 0, n + 1);
      ReachIsLongest(s, n + 1, m);
    }
  }

  lemma {:induction false} ConcatCons(head: string, rest: seq<string>)
    ensures Concat([head] + rest) == head + Concat(rest)
  {
    assert ([head] + rest)[1..] == rest;
  }

  /** Nothing is lost, and every chunk is nonempty and within the limit. */
  lemma {:induction false} GreedySound(s: string)
    ensures Concat(Greedy(s)) == s
    ensures forall i :: 0 <= i < |Greedy(s)| ==> Greedy(s)[i] != "" && Fits(Greedy(s)[i])
    decreases |s|
  {
    if s != "" {
      OneFits(s[0]);
      var n := Reach(s, 1);
      var head, rest := s[..n], Greedy(s[n..]);
      assert Greedy(s) == [head] + rest && Fits(head) && head != "";
      hide Fits, Greedy, Reach;
      GreedySound(s[n..]);
      ConcatCons(head, rest);
      assert s == head + s[n..];
    }
  }

  /** No contiguous split of a longer string within the limit uses fewer chunks. */
  lemma {:induction false} GreedyOptimal(s: string, chunks: seq<string>)
    requires |s| <= |Concat(chunks)| && s == Concat(chunks)[|Concat(chunks)| - |s|..]
    requires forall i :: 0 <= i < |chunks| ==> Fits(chunks[i])
    ensures |Greedy(s)| <= |chunks|
    decreases |chunks|
  {
    hide Encode;
    if s != "" {
      var whole, rest := Concat(chunks), Concat(chunks[1..]);
      assert whole == chunks[0] + rest;
      if |s| <= |rest| {
        assert s == rest[|rest| - |s|..];
        GreedyOptimal(s, chunks[1..]);
      } else {
        OneFits(s[0]);
        var n := Reach(s, 1);
        var m := |s| - |rest|;
        assert s[..m] == chunks[0][|chunks[0]| - m..|chunks[0]|];
        PartFits(chunks[0], |chunks[0]| - m, |chunks[0]|);
        ReachIsLongest(s, 1, m);
        assert s[n..] == rest[|rest| - |s[n..]|..];
        GreedyOptimal(s[n..], chunks[1..]);
      }
    }
  }

  /** A value that does not fit whole is cut into at least two chunks. */
  lemma OversizeSplits(value: string)
    requires !Fits(value)
    ensures |Split(value)| >= 2
  {
    GreedySound(value);
    EmptyFits();
    var chunks := Greedy(value);
    assert chunks == [] ==> Concat(chunks) == "";
    ConcatOne();
  }

  /** The splitter's promises together; any split within the limit needs at least as many chunks. */
  lemma {:induction false} SplitCorrect(value: string, other: seq<string>)
    ensures Concat(Split(value)) == value
    ensures forall i :: 0 <= i < |Split(value)| ==> Fits(Split(value)[i])
    ensures |Split(value)| == 1 <==> Fits(value)
    ensures |Split(value)| > 1 ==> forall i :: 0 <= i < |Split(value)| ==> Split(value)[i] != ""
    ensures value != "" && Concat(other) == value && (forall i :: 0 <= i < |other| ==> Fits(other[i])) ==>
              |Split(value)| <= |other|
  {
    GreedySound(value);
    if Fits(value) {
      assert Concat([value][1..]) == "";
      assert value + "" == value;
      assert Concat([value]) == value;
    } else {
      OversizeSplits(value);
    }
    if value != "" && Concat(other) == value && forall i :: 0 <= i < |other| ==> Fits(other[i]) {
      GreedyOptimal(value, other);
    }
  }

  /** The greedy chunk ends at `n` when `n` characters fit and no more do. */
  lemma {:induction false} CutHere(s: string, n: nat)
    requires n <= |s| && Fits(s[..n]) && (n < |s| ==> !Fits(s[..n + 1])) && s != ""
    ensures n > 0 && Greedy(s) == [s[..n]] + Greedy(s[n..])
  {
    hide Encode;
    OneFits(s[0]);
    ReachIsLongest(s, 1, n);
    if n < Reach(s, 1) {
      PrefixOfReachFits(s, n);
    }
    assert Reach(s, 1) == n;
  }

  lemma {:induction false} PrefixOfReachFits(s: string, n: nat)
    requires s != "" && Fits(s[..1]) && n < Reach(s, 1)
    ensures Fits(s[..n + 1])
  {
    hide Encode;
    var r := Reach(s, 1);
    PartFits(s[..r], 0, n + 1);
    assert s[..r][0..n + 1] == s[..n + 1];
  }

  /** One cut of the loop: what is pending so far is a greedy chunk. */
  lemma CutStep(value: string, start: nat, i: nat)
    requires start <= i < |value| && Fits(value[start..i]) && !Fits(value[start..i + 1])
    ensures Fits(value[i..i + 1]) && start < i
    ensures Greedy(value[start..]) == [value[start..i]] + Greedy(value[i..])
  {
    hide Encode;
    var s, n := value[start..], i - start;
    assert s[..n] == value[start..i] && s[..n + 1] == value[start..i + 1] && s[n..] == value[i..];
    CutHere(s, n);
    OneFits(value[i]);
    assert value[i..][..1] == value[i..i + 1];
  }

  lemma CutLast(value: string, start: nat)
    requires start < |value| && Fits(value[start..])
    ensures Greedy(value[start..]) == [value[start..]]
  {
    hide Encode;
    var s := value[start..];
    assert s[..|s|] == s && s[|s|..] == "";
    CutHere(s, |s|);
    EmptyFits();
  }

  /** The loop: extends the current chunk a character at a time and cuts where it would overflow. */
  method SplitByEncodedBytes(value: string) returns (chunks: seq<string>)
    ensures chunks == Split(value)
  {
    hide Encode, Greedy, Reach;
    if Fits(value) {
      return [value];
    }
    EmptyFits();
    chunks := [];
    var current := "";
    ghost var start := 0;
    assert value[0..] == value;
    for i := 0 to |value|
      invariant 0 <= start <= i && current == value[start..i]
      invariant Fits(current) && (current == "" ==> i == 0)
      invariant chunks + Greedy(value[start..]) == Greedy(value)
    {
      var candidate := current + [value[i]];
      assert candidate == value[start..i + 1];
      if !Fits(candidate) {
        CutStep(value, start, i);
        chunks := chunks + [current];
        current := [value[i]];
        start := i;
      } else {
        current := candidate;
      }
    }
    assert current == value[start..];
    if |current| > 0 {
      CutLast(value, start);
      chunks := chunks + [current];
    }
  }

  /** The size a browser is asked to store: encoded chunks are ASCII, so bytes are characters. */
  lemma {:induction false} ChunkBytes(chunk: string)
    requires Fits(chunk)
    ensures ByteLength(Encode(chunk)) <= MAX_COOKIE_VALUE_BYTES
  {
    EncodeChars(chunk);
    EncodedByteLength(Encode(chunk));
  }
}
