/** Decoding of session claims against a declared shape. */
module Claims {
  import opened Wrappers

  /** The JSON-like values a claim can hold; `Opaque` stands for arrays and objects. */
  datatype Value = Text(s: string) | Number(n: int) | Flag(b: bool) | Opaque(tag: nat)

  type ClaimMap = map<string, Value>

  datatype ClaimSchema = ClaimSchema(check: Value -> bool, isOptional: bool)

  /** The declared claims in declaration order. */
  type ClaimsShape = seq<(string, ClaimSchema)>

  const FORBIDDEN_KEYS: set<string> := {"__proto__", "constructor", "prototype"}

  function Decode(shape: ClaimsShape, input: ClaimMap): Option<ClaimMap> {
    if shape == [] then Some(map[])
    else
      var (name, schema) := shape[0];
      if name in FORBIDDEN_KEYS then None
      else if name !in input && !schema.isOptional then None
      else if name in input && !schema.check(input[name]) then None
      else
        match Decode(shape[1..], input)
        case None => None
        case Some(rest) => Some(if name in input then rest[name := input[name]] else rest)
  }

  ghost predicate Declares(shape: ClaimsShape, name: string) {
    exists i :: 0 <= i < |shape| && shape[i].0 == name
  }

  /** The result is the input cut down to the declared names. */
  lemma {:induction false} DecodeRestricts(shape: ClaimsShape, input: ClaimMap)
    ensures var d := Decode(shape, input);
            d.Some? ==> forall name :: name in d.value <==> name in input && Declares(shape, name)
    ensures var d := Decode(shape, input);
            d.Some? ==> forall name :: name in d.value ==> d.value[name] == input[name]
  {
    if shape != [] && Decode(shape, input).Some? {
      DecodeRestricts(shape[1..], input);
      forall name
        ensures Declares(shape, name) <==> name == shape[0].0 || Declares(shape[1..], name)
      {
        if Declares(shape[1..], name) {
          var i :| 0 <= i < |shape[1..]| && shape[1..][i].0 == name;
          assert shape[i + 1].0 == name;
        }
        if Declares(shape, name) && name != shape[0].0 {
          var i :| 0 <= i < |shape| && shape[i].0 == name;
          assert shape[1..][i - 1].0 == name;
        }
      }
    }
  }

  /**
   * Claims are accepted exactly when every declared name is allowed, every declared claim
   * that is there passes its check, and every one that is missing is optional.
   */
  lemma {:induction false} DecodeExactly(shape: ClaimsShape, input: ClaimMap)
    ensures Decode(shape, input).Some? <==>
            forall i :: 0 <= i < |shape| ==>
              var (name, schema) := shape[i];
              && name !in FORBIDDEN_KEYS
              && (name in input ==> schema.check(input[name]))
              && (name !in input ==> schema.isOptional)
  {
    if shape != [] {
      DecodeExactly(shape[1..], input);
      assert forall i :: 0 < i < |shape| ==> shape[i] == shape[1..][i - 1];
    }
  }

  /** Decoding looks only at declared names. */
  lemma {:induction false} DecodeDependsOnDeclared(shape: ClaimsShape, a: ClaimMap, b: ClaimMap)
    requires forall name :: Declares(shape, name) ==> (name in a <==> name in b)
    requires forall name :: Declares(shape, name) && name in a ==> a[name] == b[name]
    ensures Decode(shape, a) == Decode(shape, b)
  {
    if shape != [] {
      assert Declares(shape, shape[0].0);
      forall name | Declares(shape[1..], name)
        ensures Declares(shape, name)
      {
        var i :| 0 <= i < |shape[1..]| && shape[1..][i].0 == name;
        assert shape[i + 1].0 == name;
      }
      DecodeDependsOnDeclared(shape[1..], a, b);
    }
  }

  /** Claims that were decoded once decode to themselves, so a stored session never goes bad. */
  lemma {:induction false} DecodeIdempotent(shape: ClaimsShape, input: ClaimMap)
    requires Decode(shape, input).Some?
    ensures Decode(shape, Decode(shape, input).value) == Decode(shape, input)
  {
    DecodeRestricts(shape, input);
    DecodeDependsOnDeclared(shape, input, Decode(shape, input).value);
  }
}
