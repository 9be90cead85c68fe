/**
 * The compiler's wrapping transform: an expression in a JSX container that reads a signal
 * is wrapped in a zero-argument arrow so that the runtime can re-evaluate it. The tree is a
 * value here; the counters are the transform's own mutable state.
 */
module JsxTransform {
  import opened Wrappers

  /** Whether an arrow was in the source or put there by the transform. */
  datatype Origin = Source | Inserted

  datatype Kind =
    | Member(property: Option<string>, isOptional: bool)
    | Arrow(paramCount: nat, isAsync: bool, origin: Origin)
    | FunctionExpr
    | Assignment
    | Update
    | JsxAttribute(name: string)
    | JsxContainer
    | JsxEmpty
    | JsxOther(suffix: string)
    | Plain(nodeType: string)

  datatype Tree = Tree(kind: Kind, children: seq<Tree>)

  datatype Config = Config(
    autoUnwrap: bool,
    autoUnwrapProps: bool,
    accessors: set<string>,
    prefixes: seq<string>,
    isUpperCase: char -> bool)

  // ---------------------------------------------------------------------------------------
  // Decisions

  predicate IsJsx(k: Kind) {
    k.JsxAttribute? || k.JsxContainer? || k.JsxEmpty? || k.JsxOther?
  }

  predicate IsSignal(cfg: Config, k: Kind) {
    k.Member? && k.property.Some? && k.property.value in cfg.accessors
  }

  /** On a tree no node is met twice, so the walk is plain recursion. */
  predicate ContainsSignal(cfg: Config, t: Tree) {
    IsSignal(cfg, t.kind) || (!IsJsx(t.kind) && AnyContainsSignal(cfg, t.children))
  }

  predicate AnyContainsSignal(cfg: Config, ts: seq<Tree>) {
    ts != [] && (ContainsSignal(cfg, ts[0]) || AnyContainsSignal(cfg, ts[1..]))
  }

  /** An event prefix followed by the start of a new word. */
  predicate IsEventHandler(cfg: Config, name: string) {
    exists i :: 0 <= i < |cfg.prefixes| &&
                cfg.prefixes[i] <= name && |cfg.prefixes[i]| < |name| && cfg.isUpperCase(name[|cfg.prefixes[i]|])
  }

  predicate ShouldWrap(cfg: Config, expression: Tree, attribute: Option<string>) {
    && (if attribute.Some? then cfg.autoUnwrapProps else cfg.autoUnwrap)
    && ContainsSignal(cfg, expression)
    && !(attribute.Some? && IsEventHandler(cfg, attribute.value))
    && !expression.kind.Arrow? && !expression.kind.FunctionExpr?
    && !expression.kind.Assignment? && !expression.kind.Update?
  }

  predicate IsContainer(t: Tree) {
    t.kind.JsxContainer? && |t.children| == 1
  }

  predicate IsEmptyContainer(t: Tree) {
    IsContainer(t) && t.children[0].kind.JsxEmpty?
  }

  function Thunk(body: Tree): Tree {
    Tree(Arrow(0, false, Inserted), [body])
  }

  /** The attribute a node gives its children's containers. */
  function AttributeOf(k: Kind): Option<string> {
    if k.JsxAttribute? then Some(k.name) else None
  }

  // ---------------------------------------------------------------------------------------
  // The transform and its counters

  /** `attribute` names the attribute whose value `t` is, if it is one. Decisions come before descent. */
  function Transform(cfg: Config, t: Tree, attribute: Option<string>): Tree {
    if IsContainer(t) then
      var inner := Transform(cfg, t.children[0], None);
      t.(children := [if ShouldWrap(cfg, t.children[0], attribute) && !IsEmptyContainer(t) then Thunk(inner)
                      else inner])
    else
      t.(children := TransformAll(cfg, t.children, AttributeOf(t.kind)))
  }

  function TransformAll(cfg: Config, ts: seq<Tree>, attribute: Option<string>): (r: seq<Tree>)
    ensures |r| == |ts|
  {
    if ts == [] then [] else [Transform(cfg, ts[0], attribute)] + TransformAll(cfg, ts[1..], attribute)
  }

  datatype Stats = Stats(expressionsWrapped: nat, propsWrapped: nat, skipped: nat)

  function Plus(a: Stats, b: Stats): Stats {
    Stats(a.expressionsWrapped + b.expressionsWrapped, a.propsWrapped + b.propsWrapped, a.skipped + b.skipped)
  }

  const NONE := Stats(0, 0, 0)

  function Counted(cfg: Config, t: Tree, attribute: Option<string>): Stats
    requires IsContainer(t)
  {
    if IsEmptyContainer(t) then NONE
    else if !ShouldWrap(cfg, t.children[0], attribute) then Stats(0, 0, 1)
    else if attribute.Some? then Stats(0, 1, 0)
    else Stats(1, 0, 0)
  }

  function CountAll(cfg: Config, t: Tree, attribute: Option<string>): Stats {
    if IsContainer(t) then Plus(Counted(cfg, t, attribute), CountAll(cfg, t.children[0], None))
    else CountEach(cfg, t.children, AttributeOf(t.kind))
  }

  function CountEach(cfg: Config, ts: seq<Tree>, attribute: Option<string>): Stats {
    if ts == [] then NONE else Plus(CountAll(cfg, ts[0], attribute), CountEach(cfg, ts[1..], attribute))
  }

  /** One child out of the loop over children. */
  lemma {:induction false} EachStep(cfg: Config, ts: seq<Tree>, attribute: Option<string>, i: nat, done: seq<Tree>,
                                    soFar: Stats)
    requires i < |ts|
    ensures done + TransformAll(cfg, ts[i..], attribute)
            == done + [Transform(cfg, ts[i], attribute)] + TransformAll(cfg, ts[i + 1..], attribute)
    ensures Plus(soFar, CountEach(cfg, ts[i..], attribute))
            == Plus(Plus(soFar, CountAll(cfg, ts[i], attribute)), CountEach(cfg, ts[i + 1..], attribute))
  {
    hide Transform, CountAll;
    assert ts[i..][1..] == ts[i + 1..];
  }

  lemma {:induction false} NothingEach(cfg: Config, attribute: Option<string>)
    ensures TransformAll(cfg, [], attribute) == [] && CountEach(cfg, [], attribute) == NONE
  {
  }

  lemma {:induction false} TransformOf(cfg: Config, t: Tree, attribute: Option<string>)
    ensures IsContainer(t) ==>
              && Transform(cfg, t, attribute) ==
                 (var inner := Transform(cfg, t.children[0], None);
                  t.(children := [if ShouldWrap(cfg, t.children[0], attribute) && !IsEmptyContainer(t) then Thunk(inner)
                                  else inner]))
              && CountAll(cfg, t, attribute) == Plus(Counted(cfg, t, attribute), CountAll(cfg, t.children[0], None))
    ensures !IsContainer(t) ==>
              && Transform(cfg, t, attribute) == t.(children := TransformAll(cfg, t.children, AttributeOf(t.kind)))
              && CountAll(cfg, t, attribute) == CountEach(cfg, t.children, AttributeOf(t.kind))
  {
    hide ShouldWrap, TransformAll, CountEach;
  }

  class Transformer {
    const cfg: Config
    var stats: Stats

    constructor (cfg: Config)
      ensures this.cfg == cfg && stats == NONE
    {
      this.cfg := cfg;
      stats := NONE;
    }

    /** Visits a node: decides on a container first, then goes on into what it holds. */
    method Visit(t: Tree, attribute: Option<string>) returns (r: Tree)
      modifies this
      ensures r == Transform(cfg, t, attribute)
      ensures stats == Plus(old(stats), CountAll(cfg, t, attribute))
      decreases t, 1
    {
      TransformOf(cfg, t, attribute);
      hide ShouldWrap, Transform, CountAll, TransformAll, CountEach;
      if IsContainer(t) {
        var expression := t.children[0];
        var wrap := ShouldWrap(cfg, expression, attribute);
        if expression.kind.JsxEmpty? {
          wrap := false;
        } else if !wrap {
          stats := stats.(skipped := stats.skipped + 1);
        } else if attribute.Some? {
          stats := stats.(propsWrapped := stats.propsWrapped + 1);
        } else {
          stats := stats.(expressionsWrapped := stats.expressionsWrapped + 1);
        }
        var inner := Visit(expression, None);
        r := t.(children := [if wrap then Thunk(inner) else inner]);
      } else {
        var children := VisitChildren(t.children, AttributeOf(t.kind), t);
        r := t.(children := children);
      }
    }

    method VisitChildren(ts: seq<Tree>, attribute: Option<string>, ghost parent: Tree) returns (r: seq<Tree>)
      requires ts == parent.children
      modifies this
      ensures r == TransformAll(cfg, ts, attribute)
      ensures stats == Plus(old(stats), CountEach(cfg, ts, attribute))
      decreases parent, 0
    {
      hide Transform, CountAll, TransformAll, CountEach;
      r := [];
      assert ts[0..] == ts && r + TransformAll(cfg, ts, attribute) == TransformAll(cfg, ts, attribute);
      for i := 0 to |ts|
        invariant r + TransformAll(cfg, ts[i..], attribute) == TransformAll(cfg, ts, attribute)
        invariant Plus(stats, CountEach(cfg, ts[i..], attribute)) == Plus(old(stats), CountEach(cfg, ts, attribute))
      {
        EachStep(cfg, ts, attribute, i, r, stats);
        var child := Visit(ts[i], attribute);
        r := r + [child];
      }
      assert ts[|ts|..] == [];
      NothingEach(cfg, attribute);
      assert r + [] == r;
    }
  }

  // ---------------------------------------------------------------------------------------
  // Wrapping changes no decision

  lemma {:induction false} TransformKeepsSignals(cfg: Config, t: Tree, attribute: Option<string>)
    ensures Transform(cfg, t, attribute).kind == t.kind
    ensures ContainsSignal(cfg, Transform(cfg, t, attribute)) == ContainsSignal(cfg, t)
  {
    if !IsContainer(t) {
      TransformAllKeepsSignals(cfg, t.children, AttributeOf(t.kind));
    }
  }

  lemma {:induction false} TransformAllKeepsSignals(cfg: Config, ts: seq<Tree>, attribute: Option<string>)
    ensures AnyContainsSignal(cfg, TransformAll(cfg, ts, attribute)) == AnyContainsSignal(cfg, ts)
  {
    if ts != [] {
      TransformKeepsSignals(cfg, ts[0], attribute);
      TransformAllKeepsSignals(cfg, ts[1..], attribute);
      assert TransformAll(cfg, ts, attribute)[1..] == TransformAll(cfg, ts[1..], attribute);
    }
  }

  /** Wrapping inside nested JSX never changes an enclosing container's decision. */
  lemma {:induction false} DecisionsIndependent(cfg: Config, expression: Tree, inner: Option<string>,
                                                attribute: Option<string>)
    ensures ShouldWrap(cfg, Transform(cfg, expression, inner), attribute) == ShouldWrap(cfg, expression, attribute)
  {
    TransformKeepsSignals(cfg, expression, inner);
  }

  // ---------------------------------------------------------------------------------------
  // A second pass changes nothing

  /** The tree as a parser would read it back: an inserted arrow is source code like any other. */
  function Reparsed(t: Tree): Tree {
    Tree(if t.kind.Arrow? then t.kind.(origin := Source) else t.kind, ReparsedAll(t.children))
  }

  function ReparsedAll(ts: seq<Tree>): (r: seq<Tree>)
    ensures |r| == |ts|
  {
    if ts == [] then [] else [Reparsed(ts[0])] + ReparsedAll(ts[1..])
  }

  lemma {:induction false} ReparsedKeepsSignals(cfg: Config, t: Tree)
    ensures ContainsSignal(cfg, Reparsed(t)) == ContainsSignal(cfg, t)
  {
    ReparsedAllKeepsSignals(cfg, t.children);
  }

  lemma {:induction false} ReparsedAllKeepsSignals(cfg: Config, ts: seq<Tree>)
    ensures AnyContainsSignal(cfg, ReparsedAll(ts)) == AnyContainsSignal(cfg, ts)
  {
    if ts != [] {
      ReparsedKeepsSignals(cfg, ts[0]);
      ReparsedAllKeepsSignals(cfg, ts[1..]);
      assert ReparsedAll(ts)[1..] == ReparsedAll(ts[1..]);
    }
  }

  function Container(e: Tree): Tree {
    Tree(JsxContainer, [e])
  }

  /** A tree on which another pass, here or after reparsing, does nothing. */
  ghost predicate Neutral(cfg: Config, t: Tree, attribute: Option<string>) {
    && Transform(cfg, t, attribute) == t
    && Transform(cfg, Reparsed(t), attribute) == Reparsed(t)
    && CountAll(cfg, Reparsed(t), attribute).expressionsWrapped == 0
    && CountAll(cfg, Reparsed(t), attribute).propsWrapped == 0
  }

  lemma ReparsedOne(k: Kind, e: Tree)
    ensures Reparsed(Tree(k, [e])) == Tree(if k.Arrow? then k.(origin := Source) else k, [Reparsed(e)])
  {
    assert ReparsedAll([e]) == [Reparsed(e)];
  }

  lemma {:induction false} AllOfOne(cfg: Config, e: Tree)
    ensures TransformAll(cfg, [e], None) == [Transform(cfg, e, None)]
    ensures CountEach(cfg, [e], None) == CountAll(cfg, e, None)
  {
    hide Transform, CountAll;
    assert [e][1..] == [];
    assert TransformAll(cfg, [], None) == [] && CountEach(cfg, [], None) == NONE;
  }

  lemma {:induction false} TransformOne(cfg: Config, k: Kind, e: Tree, attribute: Option<string>)
    requires !k.JsxContainer? && !k.JsxAttribute?
    ensures Transform(cfg, Tree(k, [e]), attribute) == Tree(k, [Transform(cfg, e, None)])
    ensures CountAll(cfg, Tree(k, [e]), attribute) == CountAll(cfg, e, None)
  {
    var t := Tree(k, [e]);
    assert !IsContainer(t) && AttributeOf(k) == None;
    assert Transform(cfg, t, attribute) == t.(children := TransformAll(cfg, [e], None));
    assert CountAll(cfg, t, attribute) == CountEach(cfg, [e], None);
    AllOfOne(cfg, e);
  }

  /** An arrow around a neutral body is neutral. */
  lemma ThunkNeutral(cfg: Config, body: Tree)
    requires Neutral(cfg, body, None)
    ensures forall attribute :: Neutral(cfg, Thunk(body), attribute)
  {
    hide ShouldWrap, Transform, CountAll, Reparsed;
    ReparsedOne(Arrow(0, false, Inserted), body);
    forall attribute ensures Neutral(cfg, Thunk(body), attribute) {
      TransformOne(cfg, Arrow(0, false, Inserted), body, attribute);
      TransformOne(cfg, Arrow(0, false, Source), Reparsed(body), attribute);
    }
  }

  /** So is a container around a neutral expression that is not to be wrapped. */
  lemma {:induction false} ContainerNeutral(cfg: Config, e: Tree, attribute: Option<string>)
    requires Neutral(cfg, e, None)
    requires e.kind.JsxEmpty? || (!ShouldWrap(cfg, e, attribute) && !ShouldWrap(cfg, Reparsed(e), attribute))
    ensures Neutral(cfg, Container(e), attribute)
  {
    hide ShouldWrap;
    ReparsedOne(JsxContainer, e);
  }

  lemma {:induction false} SecondPassNeutral(cfg: Config, t: Tree, attribute: Option<string>)
    ensures Neutral(cfg, Transform(cfg, t, attribute), attribute)
  {
    if IsContainer(t) {
      var e := t.children[0];
      var inner := Transform(cfg, e, None);
      SecondPassNeutral(cfg, e, None);
      TransformKeepsSignals(cfg, e, None);
      ReparsedKeepsSignals(cfg, inner);
      if ShouldWrap(cfg, e, attribute) && !IsEmptyContainer(t) {
        ThunkNeutral(cfg, inner);
        ContainerNeutral(cfg, Thunk(inner), attribute);
        assert Transform(cfg, t, attribute) == Container(Thunk(inner));
      } else {
        ContainerNeutral(cfg, inner, attribute);
        assert Transform(cfg, t, attribute) == Container(inner);
      }
    } else {
      SecondPassAllNeutral(cfg, t.children, AttributeOf(t.kind));
    }
  }

  lemma {:induction false} SecondPassAllNeutral(cfg: Config, ts: seq<Tree>, attribute: Option<string>)
    ensures var once := TransformAll(cfg, ts, attribute);
            && TransformAll(cfg, once, attribute) == once
            && TransformAll(cfg, ReparsedAll(once), attribute) == ReparsedAll(once)
            && var again := CountEach(cfg, ReparsedAll(once), attribute);
               again.expressionsWrapped == 0 && again.propsWrapped == 0
  {
    if ts != [] {
      SecondPassNeutral(cfg, ts[0], attribute);
      SecondPassAllNeutral(cfg, ts[1..], attribute);
      var once := TransformAll(cfg, ts, attribute);
      assert once[1..] == TransformAll(cfg, ts[1..], attribute);
      assert ReparsedAll(once)[1..] == ReparsedAll(once[1..]);
    }
  }

  // ---------------------------------------------------------------------------------------
  // Erasing the inserted arrows

  /** Every arrow comes from the source. */
  predicate IsSource(t: Tree) {
    (t.kind.Arrow? ==> t.kind.origin.Source?) && AllSource(t.children)
  }

  predicate AllSource(ts: seq<Tree>) {
    ts == [] || (IsSource(ts[0]) && AllSource(ts[1..]))
  }

  function Erase(t: Tree): Tree {
    if t.kind.Arrow? && t.kind.origin.Inserted? && |t.children| == 1 then Erase(t.children[0])
    else t.(children := EraseAll(t.children))
  }

  function EraseAll(ts: seq<Tree>): (r: seq<Tree>)
    ensures |r| == |ts|
  {
    if ts == [] then [] else [Erase(ts[0])] + EraseAll(ts[1..])
  }

  /** How many arrows of a tree were inserted. */
  function InsertedCount(t: Tree): nat {
    (if t.kind.Arrow? && t.kind.origin.Inserted? then 1 else 0) + InsertedCountAll(t.children)
  }

  function InsertedCountAll(ts: seq<Tree>): nat {
    if ts == [] then 0 else InsertedCount(ts[0]) + InsertedCountAll(ts[1..])
  }

  /**
   * Removing the inserted arrows gives the original tree back, and there are as many of
   * them as the counters say.
   */
  lemma {:induction false} EraseUndoesTransform(cfg: Config, t: Tree, attribute: Option<string>)
    requires IsSource(t)
    ensures Erase(Transform(cfg, t, attribute)) == t
    ensures var s := CountAll(cfg, t, attribute);
            InsertedCount(Transform(cfg, t, attribute)) == s.expressionsWrapped + s.propsWrapped
  {
    if IsContainer(t) {
      var e := t.children[0];
      var inner := Transform(cfg, e, None);
      assert AllSource(t.children) ==> IsSource(e);
      EraseUndoesTransform(cfg, e, None);
      var body := Transform(cfg, t, attribute).children[0];
      assert EraseAll([body]) == [Erase(body)];
      assert Erase(Thunk(inner)) == Erase(inner);
      assert t.children == [e];
      assert InsertedCountAll([inner]) == InsertedCount(inner) + InsertedCountAll([inner][1..]);
      assert InsertedCountAll([body]) == InsertedCount(body) + InsertedCountAll([body][1..]);
    } else {
      EraseAllUndoesTransform(cfg, t.children, AttributeOf(t.kind));
    }
  }

  lemma {:induction false} EraseAllUndoesTransform(cfg: Config, ts: seq<Tree>, attribute: Option<string>)
    requires AllSource(ts)
    ensures EraseAll(TransformAll(cfg, ts, attribute)) == ts
    ensures var s := CountEach(cfg, ts, attribute);
            InsertedCountAll(TransformAll(cfg, ts, attribute)) == s.expressionsWrapped + s.propsWrapped
  {
    if ts != [] {
      EraseUndoesTransform(cfg, ts[0], attribute);
      EraseAllUndoesTransform(cfg, ts[1..], attribute);
      assert TransformAll(cfg, ts, attribute)[1..] == TransformAll(cfg, ts[1..], attribute);
      assert ts == [ts[0]] + ts[1..];
    }
  }

  // ---------------------------------------------------------------------------------------
  // Accounting

  function NonEmptyContainers(t: Tree): nat {
    (if IsContainer(t) && !IsEmptyContainer(t) then 1 else 0) + NonEmptyContainersIn(t.children)
  }

  function NonEmptyContainersIn(ts: seq<Tree>): nat {
    if ts == [] then 0 else NonEmptyContainers(ts[0]) + NonEmptyContainersIn(ts[1..])
  }

  /** Every non-empty container is counted exactly once. */
  lemma {:induction false} EveryContainerCounted(cfg: Config, t: Tree, attribute: Option<string>)
    ensures var s := CountAll(cfg, t, attribute);
            s.expressionsWrapped + s.propsWrapped + s.skipped == NonEmptyContainers(t)
  {
    if IsContainer(t) {
      EveryContainerCounted(cfg, t.children[0], None);
      assert NonEmptyContainersIn(t.children)
             == NonEmptyContainers(t.children[0]) + NonEmptyContainersIn(t.children[1..]);
    } else {
      EveryContainerCountedIn(cfg, t.children, AttributeOf(t.kind));
    }
  }

  lemma {:induction false} EveryContainerCountedIn(cfg: Config, ts: seq<Tree>, attribute: Option<string>)
    ensures var s := CountEach(cfg, ts, attribute);
            s.expressionsWrapped + s.propsWrapped + s.skipped == NonEmptyContainersIn(ts)
  {
    if ts != [] {
      EveryContainerCounted(cfg, ts[0], attribute);
      EveryContainerCountedIn(cfg, ts[1..], attribute);
    }
  }
}
