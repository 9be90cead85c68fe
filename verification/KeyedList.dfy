/**
 * Keyed list reconciliation: the children of a `For` list are computed from the items and
 * from what was rendered before, so that a key that stays keeps its node. Rendering a child
 * yields a fresh node, numbered here in order of creation.
 */
module KeyedList {
  import opened Wrappers

  type Node = nat

  /** What the cache remembers of a rendered node: its key and the current values of its two signals. */
  datatype Meta<T, K> = Meta(key: K, item: T, index: int)

  datatype Event = Enter(node: Node, at: int) | Move(node: Node, from: int, to: int) | Exit(node: Node, at: int)

  datatype Config<!T, !K> = Config(keyFn: (T, int) -> K, production: bool)

  datatype State<T, K> = State(cached: seq<Option<Node>>, meta: map<Node, Meta<T, K>>, next: Node)

  datatype Rendered = Fallback | DuplicateKeys | Children(nodes: seq<Option<Node>>)

  // ---------------------------------------------------------------------------------------
  // The range

  datatype Range = Range(start: int, end: int)

  predicate IsValidRange(r: Range) {
    r.end > r.start && r.start >= 0
  }

  /** The part of the list to show and the index of its first item. */
  function ComputeRange<T>(items: seq<T>, range: Option<Range>): (r: (int, seq<T>))
    ensures 0 <= r.0 <= |items| && |r.1| <= |items| - r.0 && r.1 == items[r.0..r.0 + |r.1|]
  {
    if range.None? || !IsValidRange(range.value) then (0, items)
    else
      var start, end := Min(range.value.start, |items|), Min(range.value.end, |items|);
      (start, items[start..end])
  }

  // ---------------------------------------------------------------------------------------
  // Reconciliation

  /** The previous children by key; a later child with the same key replaces an earlier one. */
  function NodesByKey<T, K(==)>(cached: seq<Option<Node>>, meta: map<Node, Meta<T, K>>): map<K, Node> {
    if cached == [] then map[]
    else
      var last := cached[|cached| - 1];
      var before := NodesByKey(cached[..|cached| - 1], meta);
      if last.Some? && last.value in meta then before[meta[last.value].key := last.value] else before
  }

  datatype Progress<T, K> = Progress(meta: map<Node, Meta<T, K>>, next: Node, seen: set<K>, events: seq<Event>)

  /** One item: its node kept under its key, or rendered anew. */
  function Place<T, K(==)>(cfg: Config<T, K>, p: Progress<T, K>, byKey: map<K, Node>, x: T, at: int)
    : (Option<Node>, Progress<T, K>)
  {
    var key := cfg.keyFn(x, at);
    var seen := if cfg.production then p.seen else p.seen + {key};
    if key in byKey then
      var node := byKey[key];
      if node !in p.meta then (None, p.(seen := seen))
      else
        var m := p.meta[node];
        (Some(node), Progress(p.meta[node := m.(item := x, index := at)], p.next, seen,
                              if m.index == at then p.events else p.events + [Move(node, m.index, at)]))
    else
      (Some(p.next), Progress(p.meta[p.next := Meta(key, x, at)], p.next + 1, seen, p.events + [Enter(p.next, at)]))
  }

  datatype Walked<T, K> = Stopped(p: Progress<T, K>) | Placed(nodes: seq<Option<Node>>, p: Progress<T, K>)

  /** A result with more nodes in front of it. */
  function After<T, K>(nodes: seq<Option<Node>>, w: Walked<T, K>): Walked<T, K> {
    match w
    case Stopped(p) => Stopped(p)
    case Placed(rest, p) => Placed(nodes + rest, p)
  }

  /** The items from `i` on; stops at a repeated key outside production. */
  function Walk<T, K(==)>(cfg: Config<T, K>, p: Progress<T, K>, byKey: map<K, Node>, items: seq<Option<T>>, start: int,
                          i: nat): Walked<T, K>
    requires i <= |items|
    decreases |items| - i
  {
    if i == |items| then Placed([], p)
    else if items[i].None? then After([None], Walk(cfg, p, byKey, items, start, i + 1))
    else if !cfg.production && cfg.keyFn(items[i].value, start + i) in p.seen then Stopped(p)
    else
      var (node, p') := Place(cfg, p, byKey, items[i].value, start + i);
      After([node], Walk(cfg, p', byKey, items, start, i + 1))
  }

  lemma AfterAfter<T, K>(a: seq<Option<Node>>, b: seq<Option<Node>>, w: Walked<T, K>)
    ensures After(a, After(b, w)) == After(a + b, w) && After([], w) == w
  {
    if w.Placed? {
      assert a + (b + w.nodes) == a + b + w.nodes;
      assert [] + w.nodes == w.nodes;
    }
  }

  /** Exit callbacks for the previous children whose key was not seen. */
  function Exits<T, K(==)>(cached: seq<Option<Node>>, meta: map<Node, Meta<T, K>>, seen: set<K>): seq<Event> {
    if cached == [] then []
    else
      (if cached[0].Some? && cached[0].value in meta && meta[cached[0].value].key !in seen
       then [Exit(cached[0].value, meta[cached[0].value].index)] else [])
      + Exits(cached[1..], meta, seen)
  }

  function Begin<T, K>(st: State<T, K>): Progress<T, K> {
    Progress(st.meta, st.next, {}, [])
  }

  function Render<T, K(==)>(cfg: Config<T, K>, st: State<T, K>, all: seq<Option<T>>, range: Option<Range>)
    : (Rendered, State<T, K>, seq<Event>)
  {
    var (start, items) := ComputeRange(all, range);
    if items == [] then (Fallback, st.(cached := []), [])
    else
      match Walk(cfg, Begin(st), NodesByKey(st.cached, st.meta), items, start, 0)
      case Stopped(p) => (DuplicateKeys, State(st.cached, p.meta, p.next), p.events)
      case Placed(nodes, p) =>
        (Children(nodes), State(nodes, p.meta, p.next), p.events + Exits(st.cached, p.meta, p.seen))
  }

  lemma PlaceSeen<T, K>(cfg: Config<T, K>, p: Progress<T, K>, byKey: map<K, Node>, x: T, at: int)
    ensures Place(cfg, p, byKey, x, at).1.seen == if cfg.production then p.seen else p.seen + {cfg.keyFn(x, at)}
  {
  }

  lemma StopsHere<T, K>(nodes: seq<Option<Node>>, p: Progress<T, K>)
    ensures After(nodes, Stopped(p)) == Stopped(p)
  {
  }

  lemma {:induction false} WalkDone<T, K>(cfg: Config<T, K>, p: Progress<T, K>, byKey: map<K, Node>,
                                          items: seq<Option<T>>, start: int, nodes: seq<Option<Node>>)
    ensures After(nodes, Walk(cfg, p, byKey, items, start, |items|)) == Placed(nodes, p)
  {
    assert nodes + [] == nodes;
  }

  lemma WalkStep<T, K>(cfg: Config<T, K>, p: Progress<T, K>, byKey: map<K, Node>, items: seq<Option<T>>, start: int,
                       i: nat)
    requires i < |items|
    ensures Walk(cfg, p, byKey, items, start, i) ==
            if items[i].None? then After([None], Walk(cfg, p, byKey, items, start, i + 1))
            else if !cfg.production && cfg.keyFn(items[i].value, start + i) in p.seen then Stopped(p)
            else
              var (node, p') := Place(cfg, p, byKey, items[i].value, start + i);
              After([node], Walk(cfg, p', byKey, items, start, i + 1))
  {
    hide Place;
  }

  // ---------------------------------------------------------------------------------------
  // The list node

  class ForList<T(!new), K(!new, ==)> {
    const cfg: Config<T, K>
    var cachedChildren: seq<Option<Node>>
    var meta: map<Node, Meta<T, K>>
    var nextNode: Node
    var fired: seq<Event>

    constructor (cfg: Config<T, K>)
      ensures this.cfg == cfg && Now() == State([], map[], 0) && fired == []
    {
      this.cfg := cfg;
      cachedChildren := [];
      meta := map[];
      nextNode := 0;
      fired := [];
    }

    ghost function Now(): State<T, K>
      reads this
    {
      State(cachedChildren, meta, nextNode)
    }

    /** The getter behind the list node's children. */
    method GetChildren(all: seq<Option<T>>, range: Option<Range>) returns (r: Rendered)
      modifies this
      ensures var (result, st, events) := Render(cfg, old(Now()), all, range);
              r == result && Now() == st && fired == old(fired) + events
    {
      hide NodesByKey, Place, Walk, After, Exits;
      var (start, items) := ComputeRange(all, range);
      if |items| == 0 {
        cachedChildren := [];
        return Fallback;
      }
      var prevChildren := cachedChildren;
      var byKey := CollectByKey();
      var newChildren: seq<Option<Node>> := [];
      var seenKeys: set<K> := {};
      ghost var p := Begin(Now());
      ghost var whole := Walk(cfg, p, byKey, items, start, 0);
      assert fired == old(fired) + p.events;
      AfterAfter([], [], whole);

      for i := 0 to |items|
        invariant meta == p.meta && nextNode == p.next && seenKeys == p.seen && fired == old(fired) + p.events
        invariant cachedChildren == prevChildren
        invariant whole == After(newChildren, Walk(cfg, p, byKey, items, start, i))
      {
        WalkStep(cfg, p, byKey, items, start, i);
        if items[i].None? {
          AfterAfter(newChildren, [None], Walk(cfg, p, byKey, items, start, i + 1));
          newChildren := newChildren + [None];
          continue;
        }
        var item, actualIndex := items[i].value, start + i;
        var key := cfg.keyFn(item, actualIndex);
        if !cfg.production && key in seenKeys {
          StopsHere(newChildren, p);
          return DuplicateKeys;
        }
        if !cfg.production {
          seenKeys := seenKeys + {key};
        }
        var node := KeepOrRender(byKey, item, actualIndex, key, p, old(fired));
        ghost var q := Place(cfg, p, byKey, item, actualIndex).1;
        PlaceSeen(cfg, p, byKey, item, actualIndex);
        AfterAfter(newChildren, [node], Walk(cfg, q, byKey, items, start, i + 1));
        newChildren := newChildren + [node];
        p := q;
      }
      WalkDone(cfg, p, byKey, items, start, newChildren);
      InvokeExits(prevChildren, seenKeys);
      cachedChildren := newChildren;
      assert fired == old(fired) + (p.events + Exits(prevChildren, meta, seenKeys));
      return Children(newChildren);
    }

    /** One item of the list: the node kept under its key, or a new one. */
    method KeepOrRender(byKey: map<K, Node>, item: T, actualIndex: int, key: K,
                        ghost p: Progress<T, K>, ghost base: seq<Event>) returns (node: Option<Node>)
      requires key == cfg.keyFn(item, actualIndex)
      requires meta == p.meta && nextNode == p.next && fired == base + p.events
      modifies this`meta, this`nextNode, this`fired
      ensures var (n, q) := Place(cfg, p, byKey, item, actualIndex);
              node == n && meta == q.meta && nextNode == q.next && fired == base + q.events
    {
      if key !in byKey {
        node := Some(nextNode);
        meta := meta[nextNode := Meta(key, item, actualIndex)];
        fired := fired + [Enter(nextNode, actualIndex)];
        nextNode := nextNode + 1;
      } else if byKey[key] !in meta {
        node := None;
      } else {
        node := Some(byKey[key]);
        var m := meta[byKey[key]];
        meta := meta[byKey[key] := m.(item := item, index := actualIndex)];
        if m.index != actualIndex {
          fired := fired + [Move(byKey[key], m.index, actualIndex)];
        }
      }
    }

    method CollectByKey() returns (byKey: map<K, Node>)
      ensures byKey == NodesByKey(cachedChildren, meta)
    {
      byKey := map[];
      for i := 0 to |cachedChildren|
        invariant byKey == NodesByKey(cachedChildren[..i], meta)
      {
        assert cachedChildren[..i + 1][..i] == cachedChildren[..i];
        var child := cachedChildren[i];
        if child.Some? && child.value in meta {
          byKey := byKey[meta[child.value].key := child.value];
        }
      }
      assert cachedChildren[..|cachedChildren|] == cachedChildren;
    }

    method InvokeExits(prevChildren: seq<Option<Node>>, seenKeys: set<K>)
      modifies this`fired
      ensures fired == old(fired) + Exits(prevChildren, meta, seenKeys)
    {
      for i := 0 to |prevChildren|
        invariant fired + Exits(prevChildren[i..], meta, seenKeys) == old(fired) + Exits(prevChildren, meta, seenKeys)
      {
        assert prevChildren[i..][1..] == prevChildren[i + 1..];
        var child := prevChildren[i];
        if child.None? || child.value !in meta || meta[child.value].key in seenKeys {
          continue;
        }
        fired := fired + [Exit(child.value, meta[child.value].index)];
      }
    }
  }
}
