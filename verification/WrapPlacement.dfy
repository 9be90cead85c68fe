/**
 * Where the transform puts its arrows: for every container of a source file, whether the
 * result holds an inserted arrow there, read off the result itself.
 */
module WrapPlacement {
  import opened Wrappers
  import opened JsxTransform
  import opened TreeWalk
  import SW = SignalWalk

  predicate IsInserted(t: Tree) {
    t.kind.Arrow? && t.kind.origin.Inserted? && |t.children| == 1
  }

  function PastInserted(t: Tree): Tree {
    if IsInserted(t) then t.children[0] else t
  }

  /** The node of a transformed tree that a position of the original leads to. */
  function Follow(r: Tree, p: Position): Option<Tree> {
    if p == [] then Some(r)
    else if p[0] < |r.children| then Follow(PastInserted(r.children[p[0]]), p[1..])
    else None
  }

  /** The attribute whose value stands at a position, if one does. */
  function AttributeAt(t: Tree, p: Position): Option<string>
    requires IsPosition(t, p)
  {
    if p == [] then None
    else
      PrefixPosition(t, p);
      AttributeOf(At(t, p[..|p| - 1]).kind)
  }

  lemma {:induction false} PrefixPosition(t: Tree, p: Position)
    requires p != [] && IsPosition(t, p)
    ensures IsPosition(t, p[..|p| - 1])
  {
    if |p| > 1 {
      PrefixPosition(t.children[p[0]], p[1..]);
      assert p[..|p| - 1][1..] == p[1..][..|p| - 2];
    }
  }

  /** The attribute name is one of the prefixes followed by a word of its own. */
  ghost predicate NamesHandler(cfg: Config, name: string) {
    exists prefix, rest :: prefix in cfg.prefixes && name == prefix + rest && rest != "" && cfg.isUpperCase(rest[0])
  }

  lemma {:induction false} HandlersAreNamed(cfg: Config, name: string)
    ensures IsEventHandler(cfg, name) <==> NamesHandler(cfg, name)
  {
    if IsEventHandler(cfg, name) {
      var i :| 0 <= i < |cfg.prefixes| &&
               cfg.prefixes[i] <= name && |cfg.prefixes[i]| < |name| && cfg.isUpperCase(name[|cfg.prefixes[i]|]);
      assert name == cfg.prefixes[i] + name[|cfg.prefixes[i]|..];
    }
    if prefix, rest :| prefix in cfg.prefixes && name == prefix + rest && rest != "" && cfg.isUpperCase(rest[0]) {
      var i :| 0 <= i < |cfg.prefixes| && cfg.prefixes[i] == prefix;
      assert name[|prefix|] == rest[0];
    }
  }

  lemma {:induction false} TransformAllAt(cfg: Config, ts: seq<Tree>, attribute: Option<string>, i: nat)
    requires i < |ts|
    ensures TransformAll(cfg, ts, attribute)[i] == Transform(cfg, ts[i], attribute)
  {
    hide Transform;
    if i > 0 {
      TransformAllAt(cfg, ts[1..], attribute, i - 1);
    }
  }

  lemma {:induction false} SourceChild(ts: seq<Tree>, i: nat)
    requires AllSource(ts) && i < |ts|
    ensures IsSource(ts[i]) && !IsInserted(ts[i])
  {
    if i > 0 {
      SourceChild(ts[1..], i - 1);
    }
  }

  lemma {:induction false} SameShape(cfg: Config, t: Tree, attribute: Option<string>)
    ensures Transform(cfg, t, attribute).kind == t.kind
    ensures |Transform(cfg, t, attribute).children| == |t.children|
  {
    hide ShouldWrap;
  }

  /** One step down: past an inserted arrow there is the transformed child. */
  lemma {:induction false} ChildTransformed(cfg: Config, t: Tree, attribute: Option<string>, i: nat)
    requires IsSource(t) && i < |t.children|
    ensures var r := Transform(cfg, t, attribute);
            i < |r.children|
            && PastInserted(r.children[i]) == Transform(cfg, t.children[i], AttributeOf(t.kind))
  {
    TransformOf(cfg, t, attribute);
    SourceStays(cfg, t.children, AttributeOf(t.kind), i);
    hide ShouldWrap, Transform, TransformAll, CountAll, CountEach, IsSource;
    if !IsContainer(t) {
      TransformAllAt(cfg, t.children, AttributeOf(t.kind), i);
    }
  }

  lemma {:induction false} SourceStays(cfg: Config, ts: seq<Tree>, attribute: Option<string>, i: nat)
    requires AllSource(ts) && i < |ts|
    ensures !IsInserted(Transform(cfg, ts[i], attribute))
  {
    SourceChild(ts, i);
    SameShape(cfg, ts[i], attribute);
    hide Transform;
  }

  lemma {:induction false} FollowedIsTransformed(cfg: Config, t: Tree, attribute: Option<string>, p: Position)
    requires IsSource(t) && IsPosition(t, p)
    ensures IsSource(At(t, p))
    ensures Follow(Transform(cfg, t, attribute), p) ==
            Some(Transform(cfg, At(t, p), if p == [] then attribute else AttributeAt(t, p)))
  {
    hide Transform;
    if p != [] {
      var i := p[0];
      ChildTransformed(cfg, t, attribute, i);
      SourceChild(t.children, i);
      FollowedIsTransformed(cfg, t.children[i], AttributeOf(t.kind), p[1..]);
      if |p| > 1 {
        PrefixPosition(t, p);
        PrefixPosition(t.children[i], p[1..]);
        assert p[..|p| - 1][1..] == p[1..][..|p| - 2];
      }
    }
  }

  /** Parts of a well-named tree are well named. */
  lemma {:induction false} PartWellNamed(t: Tree, p: Position)
    requires AllWellNamed(t) && IsPosition(t, p)
    ensures AllWellNamed(At(t, p))
  {
    if p != [] {
      forall q | IsPosition(t.children[p[0]], q) ensures WellNamed(At(t.children[p[0]], q).kind) {
        assert ([p[0]] + q)[1..] == q;
        assert IsPosition(t, [p[0]] + q);
      }
      PartWellNamed(t.children[p[0]], p[1..]);
    }
  }

  /** The decision about one container. */
  lemma {:induction false} DecidedExactly(cfg: Config, e: Tree, attribute: Option<string>)
    requires AllWellNamed(e)
    ensures ShouldWrap(cfg, e, attribute) <==>
              && (if attribute.Some? then cfg.autoUnwrapProps else cfg.autoUnwrap)
              && SW.ReachesSignal(GraphOf(e), cfg.accessors, [])
              && !(attribute.Some? && NamesHandler(cfg, attribute.value))
              && !e.kind.Arrow? && !e.kind.FunctionExpr? && !e.kind.Assignment? && !e.kind.Update?
  {
    WalkAgrees(cfg, e);
    if attribute.Some? {
      HandlersAreNamed(cfg, attribute.value);
    }
    hide ContainsSignal, IsEventHandler, NamesHandler, SW.ReachesSignal, AllWellNamed, GraphOf;
  }

  /**
   * What the transform wraps. At every container of a source file the result holds an
   * inserted arrow if and only if wrapping is on for that place, the expression reaches a
   * signal, the place is not an event handler, and the expression is no function, assignment
   * or update.
   */
  lemma {:induction false} WrappedExactly(cfg: Config, t: Tree, p: Position)
    requires IsSource(t) && AllWellNamed(t) && IsPosition(t, p) && IsContainer(At(t, p))
    ensures var there := Follow(Transform(cfg, t, None), p);
            var e, attribute := At(t, p).children[0], AttributeAt(t, p);
            && there.Some? && IsContainer(there.value)
            && (IsInserted(there.value.children[0]) <==>
                  && (if attribute.Some? then cfg.autoUnwrapProps else cfg.autoUnwrap)
                  && SW.ReachesSignal(GraphOf(e), cfg.accessors, [])
                  && !(attribute.Some? && NamesHandler(cfg, attribute.value))
                  && !e.kind.Arrow? && !e.kind.FunctionExpr? && !e.kind.Assignment? && !e.kind.Update?)
            && (IsInserted(there.value.children[0]) ==>
                  there.value.children[0].kind == Arrow(0, false, Inserted) && Erase(there.value.children[0]) == e)
  {
    var c, attribute := At(t, p), AttributeAt(t, p);
    FollowedIsTransformed(cfg, t, None, p);
    PartWellNamed(t, p);
    PartWellNamed(c, [0]);
    assert At(c, [0]) == c.children[0];
    DecidedExactly(cfg, c.children[0], attribute);
    if IsEmptyContainer(c) {
      EmptyHoldsNothing(cfg, c.children[0], attribute);
    }
    SourceChild(c.children, 0);
    SameShape(cfg, c.children[0], None);
    TransformOf(cfg, c, attribute);
    EraseUndoesTransform(cfg, c.children[0], None);
    hide Transform, ShouldWrap, NamesHandler, SW.ReachesSignal, GraphOf, AllWellNamed, IsSource, Erase;
  }

  /** An empty container is never to be wrapped. */
  lemma {:induction false} EmptyHoldsNothing(cfg: Config, e: Tree, attribute: Option<string>)
    requires e.kind.JsxEmpty?
    ensures !ShouldWrap(cfg, e, attribute)
  {
  }

  // ---------------------------------------------------------------------------------------
  // The two counters

  predicate HoldsArrow(t: Tree) {
    IsContainer(t) && IsInserted(t.children[0])
  }

  /** The inserted arrows of a tree that are values of its attributes. */
  function PropArrows(t: Tree): nat {
    (if t.kind.JsxAttribute? then HoldingArrows(t.children) else 0) + PropArrowsIn(t.children)
  }

  function PropArrowsIn(ts: seq<Tree>): nat {
    if ts == [] then 0 else PropArrows(ts[0]) + PropArrowsIn(ts[1..])
  }

  function HoldingArrows(ts: seq<Tree>): nat {
    if ts == [] then 0 else (if HoldsArrow(ts[0]) then 1 else 0) + HoldingArrows(ts[1..])
  }

  lemma {:induction false} PropsAreCounted(cfg: Config, t: Tree, attribute: Option<string>)
    requires IsSource(t)
    ensures var r := Transform(cfg, t, attribute);
            PropArrows(r) + (if attribute.Some? && HoldsArrow(r) then 1 else 0)
            == CountAll(cfg, t, attribute).propsWrapped
  {
    TransformOf(cfg, t, attribute);
    if IsContainer(t) {
      var e := t.children[0];
      var inner, r := Transform(cfg, e, None), Transform(cfg, t, attribute);
      SourceChild(t.children, 0);
      SameShape(cfg, e, None);
      PropsAreCounted(cfg, e, None);
      hide ShouldWrap, Transform, CountAll;
      assert PropArrowsIn([inner]) == PropArrows(inner) + PropArrowsIn([inner][1..]);
      assert PropArrowsIn([r.children[0]]) == PropArrows(r.children[0]) + PropArrowsIn([r.children[0]][1..]);
      assert r.children == [r.children[0]];
    } else {
      hide ShouldWrap, Transform, CountAll;
      PropsAreCountedIn(cfg, t.children, AttributeOf(t.kind));
    }
  }

  lemma {:induction false} PropsAreCountedIn(cfg: Config, ts: seq<Tree>, attribute: Option<string>)
    requires AllSource(ts)
    ensures var rs := TransformAll(cfg, ts, attribute);
            PropArrowsIn(rs) + (if attribute.Some? then HoldingArrows(rs) else 0)
            == CountEach(cfg, ts, attribute).propsWrapped
  {
    hide ShouldWrap, Transform, CountAll;
    if ts != [] {
      PropsAreCounted(cfg, ts[0], attribute);
      PropsAreCountedIn(cfg, ts[1..], attribute);
      assert TransformAll(cfg, ts, attribute)[1..] == TransformAll(cfg, ts[1..], attribute);
    }
  }

  /** The counters of a file: one for the arrows in attributes, the other for all the rest. */
  lemma {:induction false} CountersTellArrowsApart(cfg: Config, t: Tree)
    requires IsSource(t)
    ensures var r, s := Transform(cfg, t, None), CountAll(cfg, t, None);
            s.propsWrapped == PropArrows(r) && s.expressionsWrapped + PropArrows(r) == InsertedCount(r)
  {
    PropsAreCounted(cfg, t, None);
    EraseUndoesTransform(cfg, t, None);
    hide Transform, CountAll;
  }
}
