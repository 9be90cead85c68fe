/**
 * The walk over a graph and the recursion over a tree are the same search: on the graph of
 * a tree, with positions for node identities, they give the same answer.
 */
module TreeWalk {
  import opened Wrappers
  import opened JsxTransform
  import SW = SignalWalk

  type Position = seq<nat>

  function TypeOf(k: Kind): string {
    match k
    case Member(_, isOptional) => if isOptional then "OptionalMemberExpression" else "MemberExpression"
    case Arrow(_, _, _) => "ArrowFunctionExpression"
    case FunctionExpr => "FunctionExpression"
    case Assignment => "AssignmentExpression"
    case Update => "UpdateExpression"
    case JsxAttribute(_) => "JSXAttribute"
    case JsxContainer => "JSXExpressionContainer"
    case JsxEmpty => "JSXEmptyExpression"
    case JsxOther(suffix) => "JSX" + suffix
    case Plain(nodeType) => nodeType
  }

  /** A kind without a constructor of its own is not the name of one that has. */
  predicate WellNamed(k: Kind) {
    k.Plain? ==>
      !("JSX" <= k.nodeType) && k.nodeType != "MemberExpression" && k.nodeType != "OptionalMemberExpression"
  }

  lemma TypesTellJsx(k: Kind)
    requires WellNamed(k)
    ensures "JSX" <= TypeOf(k) <==> IsJsx(k)
  {
    if IsJsx(k) {
      assert TypeOf(k)[..3] == "JSX";
    } else if !k.Plain? {
      assert TypeOf(k)[0] != 'J';
    }
  }

  predicate IsPosition(t: Tree, p: Position) {
    p == [] || (p[0] < |t.children| && IsPosition(t.children[p[0]], p[1..]))
  }

  function At(t: Tree, p: Position): Tree
    requires IsPosition(t, p)
  {
    if p == [] then t else At(t.children[p[0]], p[1..])
  }

  function Positions(t: Tree): set<Position> {
    {[]} + PositionsFrom(t.children, 0)
  }

  function PositionsFrom(ts: seq<Tree>, k: nat): set<Position> {
    if ts == [] then {} else (set p | p in Positions(ts[0]) :: [k] + p) + PositionsFrom(ts[1..], k + 1)
  }

  ghost predicate AllWellNamed(t: Tree) {
    forall p :: IsPosition(t, p) ==> WellNamed(At(t, p).kind)
  }

  function NodeAt(t: Tree, p: Position): SW.Node<Position>
    requires IsPosition(t, p)
  {
    var s := At(t, p);
    SW.Node(TypeOf(s.kind), if s.kind.Member? then s.kind.property else None,
            seq(|s.children|, i requires 0 <= i => Some(p + [i])))
  }

  function GraphOf(t: Tree): SW.Graph<Position> {
    map p | p in Positions(t) && IsPosition(t, p) :: NodeAt(t, p)
  }

  lemma {:induction false} PositionsAre(t: Tree, p: Position)
    ensures p in Positions(t) <==> IsPosition(t, p)
  {
    if p != [] {
      PositionsFromAre(t.children, 0, p);
    }
  }

  lemma {:induction false} PositionsFromAre(ts: seq<Tree>, k: nat, p: Position)
    ensures p in PositionsFrom(ts, k) <==>
            p != [] && k <= p[0] < k + |ts| && IsPosition(ts[p[0] - k], p[1..])
  {
    if ts != [] {
      PositionsFromAre(ts[1..], k + 1, p);
      if p != [] && p[0] == k {
        PositionsAre(ts[0], p[1..]);
        assert p == [k] + p[1..];
      }
      if p in (set q | q in Positions(ts[0]) :: [k] + q) {
        var q :| q in Positions(ts[0]) && p == [k] + q;
        assert p[1..] == q;
      }
    }
  }

  lemma {:induction false} AtChild(t: Tree, p: Position, i: nat)
    requires IsPosition(t, p)
    ensures IsPosition(t, p + [i]) <==> i < |At(t, p).children|
    ensures i < |At(t, p).children| ==> At(t, p + [i]) == At(t, p).children[i]
  {
    if p == [] {
      assert (p + [i])[1..] == [];
    } else {
      assert (p + [i])[1..] == p[1..] + [i];
      AtChild(t.children[p[0]], p[1..], i);
    }
  }

  lemma {:induction false} GraphAt(t: Tree, p: Position)
    ensures p in GraphOf(t) <==> IsPosition(t, p)
    ensures IsPosition(t, p) ==> GraphOf(t)[p] == NodeAt(t, p)
  {
    PositionsAre(t, p);
  }

  lemma GraphClosed(t: Tree)
    ensures SW.Closed(GraphOf(t)) && [] in GraphOf(t)
  {
    GraphAt(t, []);
    forall p: Position, c: Position | p in GraphOf(t) && Some(c) in GraphOf(t)[p].children
      ensures c in GraphOf(t)
    {
      GraphAt(t, p);
      var i :| 0 <= i < |At(t, p).children| && c == p + [i];
      AtChild(t, p, i);
      GraphAt(t, c);
    }
  }

  lemma {:induction false} AnyContains(cfg: Config, ts: seq<Tree>)
    ensures AnyContainsSignal(cfg, ts) <==> exists i :: 0 <= i < |ts| && ContainsSignal(cfg, ts[i])
  {
    if ts != [] {
      AnyContains(cfg, ts[1..]);
      if i :| 0 <= i < |ts[1..]| && ContainsSignal(cfg, ts[1..][i]) {
        assert ContainsSignal(cfg, ts[i + 1]);
      }
      if i :| 0 <= i < |ts| && ContainsSignal(cfg, ts[i]) {
        assert i > 0 ==> ContainsSignal(cfg, ts[1..][i - 1]);
      }
    }
  }

  lemma {:induction false} RecursionIsReachability(cfg: Config, t: Tree, p: Position)
    requires AllWellNamed(t) && IsPosition(t, p)
    ensures ContainsSignal(cfg, At(t, p)) <==> SW.ReachesSignal(GraphOf(t), cfg.accessors, p)
    decreases At(t, p)
  {
    var g, s := GraphOf(t), At(t, p);
    GraphAt(t, p);
    assert WellNamed(s.kind);
    assert SW.IsSignalMemberAccess(g[p], cfg.accessors) <==> IsSignal(cfg, s.kind);
    TypesTellJsx(s.kind);
    AnyContains(cfg, s.children);
    forall i | 0 <= i < |s.children|
      ensures IsPosition(t, p + [i]) && At(t, p + [i]) == s.children[i]
      ensures ContainsSignal(cfg, s.children[i]) <==> SW.ReachesSignal(g, cfg.accessors, p + [i])
    {
      AtChild(t, p, i);
      RecursionIsReachability(cfg, t, p + [i]);
    }
    if IsSignal(cfg, s.kind) {
      SW.SignalHere(g, cfg.accessors, p);
    } else {
      if !IsJsx(s.kind) && AnyContainsSignal(cfg, s.children) {
        var i :| 0 <= i < |s.children| && ContainsSignal(cfg, s.children[i]);
        assert g[p].children[i] == Some(p + [i]);
        SW.SignalBelow(g, cfg.accessors, p, p + [i]);
      }
      if SW.ReachesSignal(g, cfg.accessors, p) {
        var _ := ReachedThroughChild(cfg, t, p);
      }
    }
  }

  /** A node that is no signal reaches one only by descending to a child that does. */
  lemma ReachedThroughChild(cfg: Config, t: Tree, p: Position) returns (i: nat)
    requires IsPosition(t, p) && SW.ReachesSignal(GraphOf(t), cfg.accessors, p)
    requires p in GraphOf(t) && !SW.IsSignalMemberAccess(GraphOf(t)[p], cfg.accessors)
    ensures !SW.IsJsx(GraphOf(t)[p]) && i < |At(t, p).children|
    ensures SW.ReachesSignal(GraphOf(t), cfg.accessors, p + [i])
  {
    var g := GraphOf(t);
    GraphAt(t, p);
    var path :| SW.SignalPath(g, cfg.accessors, path) && path[0] == p;
    assert |path| > 1;
    assert Some(path[1]) in g[p].children;
    i :| 0 <= i < |At(t, p).children| && path[1] == p + [i];
    assert SW.SignalPath(g, cfg.accessors, path[1..]) && path[1..][0] == p + [i];
  }

  /** What the transform decides on is what the walk over the tree's own nodes would answer. */
  lemma {:induction false} WalkAgrees(cfg: Config, t: Tree)
    requires AllWellNamed(t)
    ensures SW.Closed(GraphOf(t)) && [] in GraphOf(t)
    ensures ContainsSignal(cfg, t) <==> SW.ReachesSignal(GraphOf(t), cfg.accessors, [])
  {
    GraphClosed(t);
    RecursionIsReachability(cfg, t, []);
  }
}
