/** What reconciliation guarantees, render after render. */
module KeyedListTheorems {
  import opened Wrappers
  import opened KeyedList

  function KeyAt<T, K>(cfg: Config<T, K>, items: seq<Option<T>>, start: int, j: nat): K
    requires j < |items| && items[j].Some?
  {
    cfg.keyFn(items[j].value, start + j)
  }

  ghost predicate DistinctKeys<T, K>(cfg: Config<T, K>, items: seq<Option<T>>, start: int, i: nat) {
    forall a, b :: i <= a < b < |items| && items[a].Some? && items[b].Some? ==>
                     KeyAt(cfg, items, start, a) != KeyAt(cfg, items, start, b)
  }

  /** The keys of the items from `i` on. */
  ghost predicate HasKey<T, K(!new)>(cfg: Config<T, K>, items: seq<Option<T>>, start: int, i: nat, k: K) {
    exists j :: i <= j < |items| && items[j].Some? && KeyAt(cfg, items, start, j) == k
  }

  /** The cache between renders: known nodes, each under a key of its own. */
  ghost predicate Good<T, K>(st: State<T, K>) {
    && (forall v :: v in st.meta ==> v < st.next)
    && (forall i :: 0 <= i < |st.cached| && st.cached[i].Some? ==> st.cached[i].value in st.meta)
    && (forall i, j :: 0 <= i < j < |st.cached| && st.cached[i].Some? && st.cached[j].Some? ==>
          st.meta[st.cached[i].value].key != st.meta[st.cached[j].value].key)
  }

  // ---------------------------------------------------------------------------------------
  // The previous children by key

  /** `byKey` files known nodes under their own keys. */
  ghost predicate FilesNodes<T, K>(byKey: map<K, Node>, meta: map<Node, Meta<T, K>>, next: Node) {
    && (forall v :: v in meta ==> v < next)
    && (forall k :: k in byKey ==> byKey[k] in meta && meta[byKey[k]].key == k)
  }

  predicate Cached(cached: seq<Option<Node>>, v: Node) {
    exists i :: 0 <= i < |cached| && cached[i].Some? && cached[i].value == v
  }

  /** Every node in the index is a previous child, filed under its own key. */
  ghost predicate FiledFrom<T, K(!new)>(byKey: map<K, Node>, cached: seq<Option<Node>>, meta: map<Node, Meta<T, K>>) {
    forall k {:trigger byKey[k]} :: k in byKey ==>
      byKey[k] in meta && meta[byKey[k]].key == k && Cached(cached, byKey[k])
  }

  lemma {:induction false} NodesByKeyStep<T(!new), K(!new)>(cached: seq<Option<Node>>, meta: map<Node, Meta<T, K>>)
    requires cached != []
    ensures var before, last := NodesByKey(cached[..|cached| - 1], meta), cached[|cached| - 1];
            NodesByKey(cached, meta)
            == if last.Some? && last.value in meta then before[meta[last.value].key := last.value] else before
  {
  }

  lemma {:induction false} NodesByKeyFiles<T(!new), K(!new)>(cached: seq<Option<Node>>, meta: map<Node, Meta<T, K>>)
    requires forall i, j :: 0 <= i < j < |cached| && cached[i].Some? && cached[j].Some?
                            && cached[i].value in meta && cached[j].value in meta ==>
               meta[cached[i].value].key != meta[cached[j].value].key
    ensures FiledFrom(NodesByKey(cached, meta), cached, meta)
    ensures var byKey := NodesByKey(cached, meta);
            forall i :: 0 <= i < |cached| && cached[i].Some? && cached[i].value in meta ==>
              meta[cached[i].value].key in byKey && byKey[meta[cached[i].value].key] == cached[i].value
  {
    if cached != [] {
      var before, last := cached[..|cached| - 1], cached[|cached| - 1];
      hide NodesByKey;
      NodesByKeyStep(cached, meta);
      NodesByKeyFiles(before, meta);
      assert cached == before + [last];
      forall v | Cached(before, v) ensures Cached(cached, v) {
        var i :| 0 <= i < |before| && before[i].Some? && before[i].value == v;
        assert cached[i] == before[i];
      }
      assert last.Some? ==> Cached(cached, last.value);
      var earlier, byKey := NodesByKey(before, meta), NodesByKey(cached, meta);
      forall k | k in byKey ensures byKey[k] in meta && meta[byKey[k]].key == k && Cached(cached, byKey[k]) {
        assert k in earlier ==> Cached(before, earlier[k]);
      }
    }
  }

  // ---------------------------------------------------------------------------------------
  // One walk

  /** The callback due for item `j`, judged by what was known before the render. */
  function Due<T, K(==)>(cfg: Config<T, K>, meta: map<Node, Meta<T, K>>, byKey: map<K, Node>, items: seq<Option<T>>,
                         nodes: seq<Option<Node>>, start: int, j: nat): seq<Event>
    requires j < |items| && j < |nodes|
  {
    if items[j].None? || nodes[j].None? then []
    else
      var k := KeyAt(cfg, items, start, j);
      if k !in byKey then [Enter(nodes[j].value, start + j)]
      else if byKey[k] !in meta || meta[byKey[k]].index == start + j then []
      else [Move(byKey[k], meta[byKey[k]].index, start + j)]
  }

  function DueFrom<T, K(==)>(cfg: Config<T, K>, meta: map<Node, Meta<T, K>>, byKey: map<K, Node>, items: seq<Option<T>>,
                             nodes: seq<Option<Node>>, start: int, j: nat): seq<Event>
    requires j <= |items| == |nodes|
    decreases |items| - j
  {
    if j == |items| then []
    else Due(cfg, meta, byKey, items, nodes, start, j) + DueFrom(cfg, meta, byKey, items, nodes, start, j + 1)
  }

  /** `node` is the right one for item `j`, with the right key, value and index. */
  ghost predicate Settled<T, K>(cfg: Config<T, K>, meta: map<Node, Meta<T, K>>, byKey: map<K, Node>, from: Node,
                                items: seq<Option<T>>, node: Option<Node>, start: int, j: nat)
    requires j < |items|
  {
    if items[j].None? then node.None?
    else
      var k := KeyAt(cfg, items, start, j);
      && node.Some? && node.value in meta
      && meta[node.value] == Meta(k, items[j].value, start + j)
      && (if k in byKey then node.value == byKey[k] else from <= node.value)
  }

  /** What a walk never does to nodes it does not place. */
  ghost predicate Undisturbed<T, K(!new)>(cfg: Config<T, K>, p: Progress<T, K>, q: Progress<T, K>, byKey: map<K, Node>,
                                          items: seq<Option<T>>, start: int, i: nat) {
    && p.next <= q.next
    && (forall v :: v in q.meta ==> v < q.next)
    && (forall v :: v in p.meta ==> v in q.meta && q.meta[v].key == p.meta[v].key)
    && (forall k :: k in byKey && byKey[k] in p.meta && byKey[k] in q.meta && !HasKey(cfg, items, start, i, k) ==>
          q.meta[byKey[k]] == p.meta[byKey[k]])
  }

  /** One step of a walk that does not stop. */
  lemma WalkStep<T(!new), K(!new)>(cfg: Config<T, K>, p: Progress<T, K>, byKey: map<K, Node>, items: seq<Option<T>>,
                                   start: int, i: nat)
    requires i < |items| && Walk(cfg, p, byKey, items, start, i).Placed?
    ensures var w := Walk(cfg, p, byKey, items, start, i);
            if items[i].None? then
              var rest := Walk(cfg, p, byKey, items, start, i + 1);
              rest.Placed? && w == Placed([None] + rest.nodes, rest.p)
            else
              var (node, q) := Place(cfg, p, byKey, items[i].value, start + i);
              var rest := Walk(cfg, q, byKey, items, start, i + 1);
              rest.Placed? && w == Placed([node] + rest.nodes, rest.p)
  {
  }

  lemma PlaceFacts<T(!new), K(!new)>(cfg: Config<T, K>, p: Progress<T, K>, byKey: map<K, Node>, items: seq<Option<T>>,
                                     start: int, i: nat)
    requires i < |items| && items[i].Some? && FilesNodes(byKey, p.meta, p.next)
    ensures var k := KeyAt(cfg, items, start, i);
            var (node, q) := Place(cfg, p, byKey, items[i].value, start + i);
            && node.Some? && q.meta == p.meta[node.value := Meta(k, items[i].value, start + i)]
            && (if k in byKey then node.value == byKey[k] && q.next == p.next
                else node.value == p.next && q.next == p.next + 1)
            && FilesNodes(byKey, q.meta, q.next)
  {
  }

  lemma {:induction false} WalkUndisturbed<T(!new), K(!new)>(cfg: Config<T, K>, p: Progress<T, K>, byKey: map<K, Node>,
                                                             items: seq<Option<T>>, start: int, i: nat)
    requires i <= |items| && FilesNodes(byKey, p.meta, p.next)
    ensures Undisturbed(cfg, p, Walk(cfg, p, byKey, items, start, i).p, byKey, items, start, i)
    decreases |items| - i
  {
    if i < |items| && items[i].None? {
      WalkUndisturbed(cfg, p, byKey, items, start, i + 1);
    } else if i < |items| && (cfg.production || KeyAt(cfg, items, start, i) !in p.seen) {
      var k := KeyAt(cfg, items, start, i);
      var q := Place(cfg, p, byKey, items[i].value, start + i).1;
      PlaceFacts(cfg, p, byKey, items, start, i);
      hide Place;
      WalkUndisturbed(cfg, q, byKey, items, start, i + 1);
      assert HasKey(cfg, items, start, i, k);
    }
  }

  /** Outside production a walk completes exactly when no key repeats or was seen before. */
  lemma {:induction false} CompletesExactly<T(!new), K(!new)>(cfg: Config<T, K>, p: Progress<T, K>, byKey: map<K, Node>,
                                                              items: seq<Option<T>>, start: int, i: nat)
    requires i <= |items| && !cfg.production
    ensures Walk(cfg, p, byKey, items, start, i).Placed? <==>
            DistinctKeys(cfg, items, start, i) && forall k :: HasKey(cfg, items, start, i, k) ==> k !in p.seen
    ensures var w := Walk(cfg, p, byKey, items, start, i);
            w.Placed? ==> forall k :: k in w.p.seen <==> k in p.seen || HasKey(cfg, items, start, i, k)
    decreases |items| - i
  {
    if i < |items| && items[i].None? {
      CompletesExactly(cfg, p, byKey, items, start, i + 1);
      assert forall k :: HasKey(cfg, items, start, i, k) <==> HasKey(cfg, items, start, i + 1, k);
    } else if i < |items| {
      var k := KeyAt(cfg, items, start, i);
      assert HasKey(cfg, items, start, i, k);
      PlaceSeen(cfg, p, byKey, items[i].value, start + i);
      var q := Place(cfg, p, byKey, items[i].value, start + i).1;
      hide Place;
      CompletesExactly(cfg, q, byKey, items, start, i + 1);
      assert forall x :: HasKey(cfg, items, start, i, x) <==> x == k || HasKey(cfg, items, start, i + 1, x);
      assert HasKey(cfg, items, start, i + 1, k) <==>
             exists b :: i < b < |items| && items[b].Some? && KeyAt(cfg, items, start, b) == k;
    }
  }

  lemma {:induction false} WalkLength<T(!new), K(!new)>(cfg: Config<T, K>, p: Progress<T, K>, byKey: map<K, Node>,
                                                        items: seq<Option<T>>, start: int, i: nat)
    requires i <= |items|
    ensures var w := Walk(cfg, p, byKey, items, start, i); w.Placed? ==> |w.nodes| == |items| - i
    decreases |items| - i
  {
    if i < |items| {
      WalkLength(cfg, p, byKey, items, start, i + 1);
      if items[i].Some? {
        WalkLength(cfg, Place(cfg, p, byKey, items[i].value, start + i).1, byKey, items, start, i + 1);
      }
    }
  }

  /** A node whose key does not come up again keeps its signals. */
  lemma {:induction false} NewNodeUndisturbed<T(!new), K(!new)>(cfg: Config<T, K>, p: Progress<T, K>,
                                                                byKey: map<K, Node>, items: seq<Option<T>>, start: int,
                                                                i: nat, v: Node)
    requires i <= |items| && FilesNodes(byKey, p.meta, p.next)
    requires v in p.meta && !HasKey(cfg, items, start, i, p.meta[v].key)
    ensures var q := Walk(cfg, p, byKey, items, start, i).p; v in q.meta && q.meta[v] == p.meta[v]
    decreases |items| - i
  {
    if i < |items| && items[i].None? {
      NewNodeUndisturbed(cfg, p, byKey, items, start, i + 1, v);
    } else if i < |items| && (cfg.production || KeyAt(cfg, items, start, i) !in p.seen) {
      assert HasKey(cfg, items, start, i, KeyAt(cfg, items, start, i));
      PlaceFacts(cfg, p, byKey, items, start, i);
      var q := Place(cfg, p, byKey, items[i].value, start + i).1;
      hide Place;
      NewNodeUndisturbed(cfg, q, byKey, items, start, i + 1, v);
    }
  }

  /** Nodes placed by a walk of distinct keys are the right ones when it ends. */
  lemma {:induction false} WalkSettles<T(!new), K(!new)>(cfg: Config<T, K>, p: Progress<T, K>, byKey: map<K, Node>,
                                                         items: seq<Option<T>>, start: int, i: nat, j: nat)
    requires i <= j < |items| && FilesNodes(byKey, p.meta, p.next) && DistinctKeys(cfg, items, start, i)
    requires Walk(cfg, p, byKey, items, start, i).Placed?
    ensures var w := Walk(cfg, p, byKey, items, start, i);
            |w.nodes| == |items| - i
            && Settled(cfg, w.p.meta, byKey, p.next, items, w.nodes[j - i], start, j)
    decreases |items| - i
  {
    WalkLength(cfg, p, byKey, items, start, i);
    WalkStep(cfg, p, byKey, items, start, i);
    hide Walk, Place;
    if items[i].None? {
      if i < j {
        WalkSettles(cfg, p, byKey, items, start, i + 1, j);
      }
    } else {
      var (node, q) := Place(cfg, p, byKey, items[i].value, start + i);
      PlaceFacts(cfg, p, byKey, items, start, i);
      if i < j {
        WalkSettles(cfg, q, byKey, items, start, i + 1, j);
      } else {
        NewNodeUndisturbed(cfg, q, byKey, items, start, i + 1, node.value);
      }
    }
  }

  /** The callbacks of a walk are exactly those due for each item, in order. */
  lemma DistinctTail<T(!new), K(!new)>(cfg: Config<T, K>, items: seq<Option<T>>, start: int, i: nat)
    requires DistinctKeys(cfg, items, start, i)
    ensures DistinctKeys(cfg, items, start, i + 1)
  {
  }

  lemma DueStep<T(!new), K(!new)>(cfg: Config<T, K>, events: seq<Event>, meta: map<Node, Meta<T, K>>,
                                  byKey: map<K, Node>,
                                  items: seq<Option<T>>, nodes: seq<Option<Node>>, start: int, i: nat)
    requires i < |items| == |nodes|
    ensures events + Due(cfg, meta, byKey, items, nodes, start, i)
            + DueFrom(cfg, meta, byKey, items, nodes, start, i + 1)
            == events + DueFrom(cfg, meta, byKey, items, nodes, start, i)
    ensures items[i].None? ==> events + DueFrom(cfg, meta, byKey, items, nodes, start, i + 1)
                               == events + DueFrom(cfg, meta, byKey, items, nodes, start, i)
  {
  }

  lemma {:induction false} WalkFires<T(!new), K(!new)>(cfg: Config<T, K>, p: Progress<T, K>, byKey: map<K, Node>,
                                                       meta: map<Node, Meta<T, K>>, items: seq<Option<T>>,
                                                       nodes: seq<Option<Node>>, start: int, i: nat)
    requires i <= |items| == |nodes| && FilesNodes(byKey, p.meta, p.next) && DistinctKeys(cfg, items, start, i)
    requires Walk(cfg, p, byKey, items, start, i).Placed? && nodes[i..] == Walk(cfg, p, byKey, items, start, i).nodes
    requires forall k :: k in byKey ==> byKey[k] in meta
    requires forall k :: k in byKey && HasKey(cfg, items, start, i, k) ==> meta[byKey[k]] == p.meta[byKey[k]]
    ensures Walk(cfg, p, byKey, items, start, i).p.events ==
            p.events + DueFrom(cfg, meta, byKey, items, nodes, start, i)
    decreases |items| - i
  {
    if i == |items| {
      assert p.events + [] == p.events;
    } else {
      WalkStep(cfg, p, byKey, items, start, i);
      DueStep(cfg, p.events, meta, byKey, items, nodes, start, i);
      assert nodes[i] == nodes[i..][0] && nodes[i + 1..] == nodes[i..][1..];
      hide DueFrom;
      if items[i].None? {
        hide Walk, Place, DistinctKeys, FilesNodes;
        DistinctTail(cfg, items, start, i);
        assert forall k :: HasKey(cfg, items, start, i + 1, k) ==> HasKey(cfg, items, start, i, k);
        hide HasKey;
        WalkFires(cfg, p, byKey, meta, items, nodes, start, i + 1);
      } else {
        var q := Place(cfg, p, byKey, items[i].value, start + i).1;
        hide Walk, Place, Due, DistinctKeys;
        DistinctTail(cfg, items, start, i);
        assert HasKey(cfg, items, start, i, KeyAt(cfg, items, start, i));
        PlaceFires(cfg, p, byKey, meta, items, nodes, start, i);
        PlaceFacts(cfg, p, byKey, items, start, i);
        StillAsBefore(cfg, p, byKey, meta, items, start, i);
        hide HasKey, FilesNodes;
        WalkFires(cfg, q, byKey, meta, items, nodes, start, i + 1);
      }
    }
  }

  /** Placing one item disturbs none of the nodes whose keys come later. */
  lemma StillAsBefore<T(!new), K(!new)>(cfg: Config<T, K>, p: Progress<T, K>, byKey: map<K, Node>,
                                        meta: map<Node, Meta<T, K>>, items: seq<Option<T>>, start: int, i: nat)
    requires i < |items| && items[i].Some? && FilesNodes(byKey, p.meta, p.next) && DistinctKeys(cfg, items, start, i)
    requires forall k :: k in byKey ==> byKey[k] in meta
    requires forall k :: k in byKey && HasKey(cfg, items, start, i, k) ==> meta[byKey[k]] == p.meta[byKey[k]]
    ensures var q := Place(cfg, p, byKey, items[i].value, start + i).1;
            forall k :: k in byKey && HasKey(cfg, items, start, i + 1, k) ==>
              byKey[k] in q.meta && meta[byKey[k]] == q.meta[byKey[k]]
  {
    PlaceFacts(cfg, p, byKey, items, start, i);
    var q := Place(cfg, p, byKey, items[i].value, start + i).1;
    hide Place;
    forall k | k in byKey && HasKey(cfg, items, start, i + 1, k)
      ensures byKey[k] in q.meta && meta[byKey[k]] == q.meta[byKey[k]]
    {
      var j :| i + 1 <= j < |items| && items[j].Some? && KeyAt(cfg, items, start, j) == k;
      assert HasKey(cfg, items, start, i, k);
      assert k != KeyAt(cfg, items, start, i);
    }
  }

  lemma PlaceFires<T(!new), K(!new)>(cfg: Config<T, K>, p: Progress<T, K>, byKey: map<K, Node>,
                                     meta: map<Node, Meta<T, K>>, items: seq<Option<T>>,
                                     nodes: seq<Option<Node>>, start: int, i: nat)
    requires i < |items| == |nodes| && items[i].Some? && FilesNodes(byKey, p.meta, p.next)
    requires nodes[i] == Place(cfg, p, byKey, items[i].value, start + i).0
    requires var k := KeyAt(cfg, items, start, i);
             k in byKey ==> byKey[k] in meta && meta[byKey[k]] == p.meta[byKey[k]]
    ensures Place(cfg, p, byKey, items[i].value, start + i).1.events
            == p.events + Due(cfg, meta, byKey, items, nodes, start, i)
  {
    assert p.events + [] == p.events;
  }

  // ---------------------------------------------------------------------------------------
  // One render

  /** A valid range shows exactly the items at its positions; without one, or with an invalid one, all are shown. */
  lemma ShownExactly<T>(all: seq<T>, range: Option<Range>, i: nat)
    requires i < |all|
    ensures var (first, shown) := ComputeRange(all, range);
            && (first <= i < first + |shown| <==>
                  range.None? || range.value.start < 0 || range.value.end <= range.value.start
                  || range.value.start <= i < range.value.end)
            && (first <= i < first + |shown| ==> shown[i - first] == all[i])
  {
  }

  /** Each key of the list in range comes once. */
  ghost predicate KeysOnce<T, K>(cfg: Config<T, K>, all: seq<Option<T>>, range: Option<Range>) {
    DistinctKeys(cfg, ComputeRange(all, range).1, ComputeRange(all, range).0, 0)
  }

  lemma GoodFiles<T(!new), K(!new)>(st: State<T, K>)
    requires Good(st)
    ensures FilesNodes(NodesByKey(st.cached, st.meta), st.meta, st.next)
  {
    NodesByKeyFiles(st.cached, st.meta);
  }

  /** Outside production a non-empty list renders exactly when its keys are distinct. */
  lemma RendersExactly<T(!new), K(!new)>(cfg: Config<T, K>, st: State<T, K>, all: seq<Option<T>>, range: Option<Range>)
    requires !cfg.production && ComputeRange(all, range).1 != []
    ensures Render(cfg, st, all, range).0.Children? <==> KeysOnce(cfg, all, range)
    ensures Render(cfg, st, all, range).0.DuplicateKeys? <==> !KeysOnce(cfg, all, range)
  {
    var (start, items) := ComputeRange(all, range);
    CompletesExactly(cfg, Begin(st), NodesByKey(st.cached, st.meta), items, start, 0);
  }

  /**
   * The result: position by position the item's own key, value and index; pairwise distinct
   * nodes; and for every key that was rendered before, the node it had.
   */
  lemma RenderedChildren<T(!new), K(!new)>(cfg: Config<T, K>, st: State<T, K>, all: seq<Option<T>>,
                                           range: Option<Range>)
    requires Good(st) && KeysOnce(cfg, all, range)
    requires Render(cfg, st, all, range).0.Children?
    ensures var (start, items) := ComputeRange(all, range);
            var (r, st', _) := Render(cfg, st, all, range);
            && |r.nodes| == |items| && st'.cached == r.nodes && Good(st') && st.next <= st'.next
            && (forall j :: 0 <= j < |items| ==>
                  if items[j].None? then r.nodes[j].None?
                  else r.nodes[j].Some? && r.nodes[j].value in st'.meta
                       && st'.meta[r.nodes[j].value] == Meta(KeyAt(cfg, items, start, j), items[j].value, start + j))
            && (forall i, j :: 0 <= i < j < |r.nodes| && r.nodes[i].Some? && r.nodes[j].Some? ==>
                r.nodes[i] != r.nodes[j])
            && (forall i, j :: 0 <= i < |st.cached| && st.cached[i].Some? && 0 <= j < |items| && items[j].Some?
                               && st.meta[st.cached[i].value].key == KeyAt(cfg, items, start, j) ==>
                  r.nodes[j] == st.cached[i])
  {
    var (start, items) := ComputeRange(all, range);
    var byKey := NodesByKey(st.cached, st.meta);
    GoodFiles(st);
    NodesByKeyFiles(st.cached, st.meta);
    var w := Walk(cfg, Begin(st), byKey, items, start, 0);
    WalkLength(cfg, Begin(st), byKey, items, start, 0);
    WalkUndisturbed(cfg, Begin(st), byKey, items, start, 0);
    forall j | 0 <= j < |items| ensures Settled(cfg, w.p.meta, byKey, st.next, items, w.nodes[j], start, j) {
      WalkSettles(cfg, Begin(st), byKey, items, start, 0, j);
    }
  }

  /** A list that stops at a repeated key leaves a cache that is still good, and the old children in it. */
  lemma StoppedRenderIsHarmless<T(!new), K(!new)>(cfg: Config<T, K>, st: State<T, K>, all: seq<Option<T>>,
                                                  range: Option<Range>)
    requires Good(st) && !Render(cfg, st, all, range).0.Children?
    ensures var (r, st', _) := Render(cfg, st, all, range);
            Good(st') && (r.DuplicateKeys? ==> st'.cached == st.cached) && (r.Fallback? ==> st'.cached == [])
  {
    var (start, items) := ComputeRange(all, range);
    GoodFiles(st);
    WalkUndisturbed(cfg, Begin(st), NodesByKey(st.cached, st.meta), items, start, 0);
  }

  // ---------------------------------------------------------------------------------------
  // Callbacks

  /** Exit callbacks for exactly the previous children whose key is gone. */
  ghost function ExitsDue<T, K(!new)>(cfg: Config<T, K>, cached: seq<Option<Node>>, meta: map<Node, Meta<T, K>>,
                                      items: seq<Option<T>>, start: int): seq<Event> {
    if cached == [] then []
    else
      (if cached[0].Some? && cached[0].value in meta && !HasKey(cfg, items, start, 0, meta[cached[0].value].key)
       then [Exit(cached[0].value, meta[cached[0].value].index)] else [])
      + ExitsDue(cfg, cached[1..], meta, items, start)
  }

  lemma {:induction false} ExitsFire<T(!new), K(!new)>(cfg: Config<T, K>, cached: seq<Option<Node>>,
                                                       before: map<Node, Meta<T, K>>, after: map<Node, Meta<T, K>>,
                                                       seen: set<K>, items: seq<Option<T>>, start: int)
    requires forall i :: 0 <= i < |cached| && cached[i].Some? ==>
               var v := cached[i].value;
               && v in before && v in after && after[v].key == before[v].key
               && (!HasKey(cfg, items, start, 0, before[v].key) ==> after[v] == before[v])
    requires forall k :: k in seen <==> HasKey(cfg, items, start, 0, k)
    ensures Exits(cached, after, seen) == ExitsDue(cfg, cached, before, items, start)
  {
    if cached != [] {
      ExitsFire(cfg, cached[1..], before, after, seen, items, start);
    }
  }

  lemma {:induction false} NothingDueExactly<T(!new), K(!new)>(cfg: Config<T, K>, cached: seq<Option<Node>>,
                                                               meta: map<Node, Meta<T, K>>, start: int)
    requires forall i :: 0 <= i < |cached| && cached[i].Some? ==> cached[i].value in meta
    ensures ExitsDue(cfg, cached, meta, [], start) == [] <==> forall i :: 0 <= i < |cached| ==> cached[i].None?
  {
    if cached != [] {
      NothingDueExactly(cfg, cached[1..], meta, start);
      assert (forall i :: 0 <= i < |cached| ==> cached[i].None?) <==>
             cached[0].None? && forall i :: 0 <= i < |cached[1..]| ==> cached[1..][i].None?
      by {
        assert cached == [cached[0]] + cached[1..];
      }
    }
  }

  /**
   * A list that has become empty fires no callback at all, in either mode, although every
   * child it had is gone: that is right exactly when it had none.
   */
  lemma {:induction false} EmptiedCallbacksExactly<T(!new), K(!new)>(cfg: Config<T, K>, st: State<T, K>,
                                                                     all: seq<Option<T>>, range: Option<Range>)
    requires Good(st) && ComputeRange(all, range).1 == []
    ensures var (r, st', events) := Render(cfg, st, all, range);
            && r == Fallback && st' == st.(cached := []) && events == []
            && (events == ExitsDue(cfg, st.cached, st.meta, [], ComputeRange(all, range).0) <==>
                forall i :: 0 <= i < |st.cached| ==> st.cached[i].None?)
  {
    NothingDueExactly(cfg, st.cached, st.meta, ComputeRange(all, range).0);
  }

  /**
   * Outside production the callbacks of a render are exactly these: item by item, enter for
   * a new key and move for a kept key whose index changed; then exit for every key that is gone.
   */
  lemma {:induction false} CallbacksExactly<T(!new), K(!new)>(cfg: Config<T, K>, st: State<T, K>, all: seq<Option<T>>,
                                                              range: Option<Range>)
    requires Good(st) && !cfg.production && Render(cfg, st, all, range).0.Children?
    ensures var (start, items) := ComputeRange(all, range);
            var (r, _, events) := Render(cfg, st, all, range);
            && |r.nodes| == |items|
            && events == DueFrom(cfg, st.meta, NodesByKey(st.cached, st.meta), items, r.nodes, start, 0)
                         + ExitsDue(cfg, st.cached, st.meta, items, start)
  {
    var (start, items) := ComputeRange(all, range);
    var byKey := NodesByKey(st.cached, st.meta);
    GoodFiles(st);
    NodesByKeyFiles(st.cached, st.meta);
    var p := Begin(st);
    var w := Walk(cfg, p, byKey, items, start, 0);
    CompletesExactly(cfg, p, byKey, items, start, 0);
    WalkLength(cfg, p, byKey, items, start, 0);
    WalkUndisturbed(cfg, p, byKey, items, start, 0);
    assert w.nodes[0..] == w.nodes;
    WalkFires(cfg, p, byKey, st.meta, items, w.nodes, start, 0);
    assert [] + DueFrom(cfg, st.meta, byKey, items, w.nodes, start, 0) ==
           DueFrom(cfg, st.meta, byKey, items, w.nodes, start, 0);
    ExitsFire(cfg, st.cached, st.meta, w.p.meta, w.p.seen, items, start);
  }

  lemma {:induction false} ProductionSeesNothing<T(!new), K(!new)>(cfg: Config<T, K>, p: Progress<T, K>,
                                                                   byKey: map<K, Node>, items: seq<Option<T>>,
                                                                   start: int, i: nat)
    requires i <= |items| && cfg.production
    ensures var w := Walk(cfg, p, byKey, items, start, i); w.Placed? && w.p.seen == p.seen
    decreases |items| - i
  {
    if i < |items| && items[i].None? {
      ProductionSeesNothing(cfg, p, byKey, items, start, i + 1);
    } else if i < |items| {
      PlaceSeen(cfg, p, byKey, items[i].value, start + i);
      var q := Place(cfg, p, byKey, items[i].value, start + i).1;
      hide Place;
      ProductionSeesNothing(cfg, q, byKey, items, start, i + 1);
    }
  }

  /** No previous child's key is in the new list. */
  ghost predicate NoneKept<T, K(!new)>(cfg: Config<T, K>, cached: seq<Option<Node>>, meta: map<Node, Meta<T, K>>,
                                       items: seq<Option<T>>, start: int) {
    forall i :: 0 <= i < |cached| && cached[i].Some? && cached[i].value in meta ==>
                  !HasKey(cfg, items, start, 0, meta[cached[i].value].key)
  }

  lemma {:induction false} UnseenExits<T(!new), K(!new)>(cfg: Config<T, K>, cached: seq<Option<Node>>,
                                                         before: map<Node, Meta<T, K>>, after: map<Node, Meta<T, K>>,
                                                         items: seq<Option<T>>, start: int)
    requires forall i :: 0 <= i < |cached| && cached[i].Some? ==>
               var v := cached[i].value;
               && v in before && v in after && after[v].key == before[v].key
               && (!HasKey(cfg, items, start, 0, before[v].key) ==> after[v] == before[v])
    ensures |ExitsDue(cfg, cached, before, items, start)| <= |Exits(cached, after, {})|
    ensures |ExitsDue(cfg, cached, before, items, start)| == |Exits(cached, after, {})| <==>
            NoneKept(cfg, cached, before, items, start)
    ensures NoneKept(cfg, cached, before, items, start) ==>
              Exits(cached, after, {}) == ExitsDue(cfg, cached, before, items, start)
  {
    if cached != [] {
      UnseenExits(cfg, cached[1..], before, after, items, start);
      assert forall i :: 0 <= i < |cached[1..]| ==> cached[1..][i] == cached[i + 1];
      assert NoneKept(cfg, cached, before, items, start) <==>
             (cached[0].Some? && cached[0].value in before ==>
              !HasKey(cfg, items, start, 0, before[cached[0].value].key))
             && NoneKept(cfg, cached[1..], before, items, start);
    }
  }

  /**
   * In production, where seen keys are not recorded, the callbacks are right exactly when
   * no child is kept: every previous child gets an exit, kept or not.
   */
  lemma {:induction false} ProductionCallbacksExactly<T(!new), K(!new)>(cfg: Config<T, K>, st: State<T, K>,
                                                                        all: seq<Option<T>>, range: Option<Range>)
    requires Good(st) && cfg.production && KeysOnce(cfg, all, range) && ComputeRange(all, range).1 != []
    ensures var (start, items) := ComputeRange(all, range);
            var (r, _, events) := Render(cfg, st, all, range);
            && r.Children? && |r.nodes| == |items|
            && (events == DueFrom(cfg, st.meta, NodesByKey(st.cached, st.meta), items, r.nodes, start, 0)
                          + ExitsDue(cfg, st.cached, st.meta, items, start)
                <==> NoneKept(cfg, st.cached, st.meta, items, start))
  {
    var (start, items) := ComputeRange(all, range);
    var byKey := NodesByKey(st.cached, st.meta);
    var p := Begin(st);
    GoodFiles(st);
    NodesByKeyFiles(st.cached, st.meta);
    ProductionSeesNothing(cfg, p, byKey, items, start, 0);
    var w := Walk(cfg, p, byKey, items, start, 0);
    WalkLength(cfg, p, byKey, items, start, 0);
    WalkUndisturbed(cfg, p, byKey, items, start, 0);
    assert w.nodes[0..] == w.nodes;
    WalkFires(cfg, p, byKey, st.meta, items, w.nodes, start, 0);
    var due := DueFrom(cfg, st.meta, byKey, items, w.nodes, start, 0);
    assert [] + due == due;
    UnseenExits(cfg, st.cached, st.meta, w.p.meta, items, start);
    assert |Render(cfg, st, all, range).2| == |due| + |Exits(st.cached, w.p.meta, {})|;
  }

  // ---------------------------------------------------------------------------------------
  // Any history

  datatype Update<T> = Update(items: seq<Option<T>>, range: Option<Range>)

  function RenderAll<T, K(==)>(cfg: Config<T, K>, st: State<T, K>, history: seq<Update<T>>): State<T, K>
    decreases |history|
  {
    if history == [] then st
    else RenderAll(cfg, Render(cfg, st, history[0].items, history[0].range).1, history[1..])
  }

  /** In production, where repeated keys are not noticed, every render of the history has its keys once. */
  ghost predicate Orderly<T, K>(cfg: Config<T, K>, history: seq<Update<T>>) {
    cfg.production ==> forall i :: 0 <= i < |history| ==> KeysOnce(cfg, history[i].items, history[i].range)
  }

  /** The cache is good after any history: outside production repeated keys are allowed in it. */
  lemma {:induction false} GoodAfterAnyHistory<T(!new), K(!new)>(cfg: Config<T, K>, st: State<T, K>,
                                                                 history: seq<Update<T>>)
    requires Good(st) && Orderly(cfg, history)
    ensures Good(RenderAll(cfg, st, history))
    decreases |history|
  {
    if history != [] {
      var u := history[0];
      if Render(cfg, st, u.items, u.range).0.Children? {
        if !cfg.production {
          RendersExactly(cfg, st, u.items, u.range);
        }
        RenderedChildren(cfg, st, u.items, u.range);
      } else {
        StoppedRenderIsHarmless(cfg, st, u.items, u.range);
      }
      hide KeysOnce, Render;
      GoodAfterAnyHistory(cfg, Render(cfg, st, u.items, u.range).1, history[1..]);
    }
  }
}
