/**
 * The compiler's search for signal accesses: a depth-first walk with a visited set over a
 * graph of syntax nodes, which may share children or even be cyclic.
 */
module SignalWalk {
  import opened Wrappers

  /**
   * A syntax node as the walk sees it: its type, the name of its property when that is an
   * identifier, and the values under its visitor keys in order, `None` where they are not nodes.
   */
  datatype Node<Id> = Node(nodeType: string, property: Option<string>, children: seq<Option<Id>>)

  type Graph<Id> = map<Id, Node<Id>>

  predicate IsSignalMemberAccess<Id>(n: Node<Id>, accessors: set<string>) {
    && (n.nodeType == "MemberExpression" || n.nodeType == "OptionalMemberExpression")
    && n.property.Some? && n.property.value in accessors
  }

  predicate IsJsx<Id>(n: Node<Id>) {
    "JSX" <= n.nodeType
  }

  /** Every child is a node of the graph. */
  ghost predicate Closed<Id(!new)>(g: Graph<Id>) {
    forall n, c :: n in g && Some(c) in g[n].children ==> c in g
  }

  /** A walk from `path[0]` to a signal access that never descends into a JSX node's children. */
  ghost predicate SignalPath<Id>(g: Graph<Id>, accessors: set<string>, path: seq<Id>) {
    && path != []
    && (forall i :: 0 <= i < |path| ==> path[i] in g)
    && (forall i :: 0 <= i < |path| - 1 ==> !IsJsx(g[path[i]]) && Some(path[i + 1]) in g[path[i]].children)
    && IsSignalMemberAccess(g[path[|path| - 1]], accessors)
  }

  ghost predicate ReachesSignal<Id(!new)>(g: Graph<Id>, accessors: set<string>, n: Id) {
    exists path :: SignalPath(g, accessors, path) && path[0] == n
  }

  lemma SignalHere<Id(!new)>(g: Graph<Id>, accessors: set<string>, n: Id)
    requires n in g && IsSignalMemberAccess(g[n], accessors)
    ensures ReachesSignal(g, accessors, n)
  {
    assert SignalPath(g, accessors, [n]);
  }

  lemma SignalBelow<Id(!new)>(g: Graph<Id>, accessors: set<string>, n: Id, c: Id)
    requires n in g && !IsJsx(g[n]) && Some(c) in g[n].children && ReachesSignal(g, accessors, c)
    ensures ReachesSignal(g, accessors, n)
  {
    var path :| SignalPath(g, accessors, path) && path[0] == c;
    var longer := [n] + path;
    assert forall i :: 1 <= i < |longer| ==> longer[i] == path[i - 1];
    assert SignalPath(g, accessors, longer) && longer[0] == n;
  }

  /** Nodes that are no signals, and whose children have all been visited where the walk descends. */
  ghost predicate Settled<Id(!new)>(g: Graph<Id>, accessors: set<string>, done: set<Id>, visited: set<Id>) {
    forall m :: m in done && m in g ==>
      && !IsSignalMemberAccess(g[m], accessors)
      && (IsJsx(g[m]) || forall c :: Some(c) in g[m].children ==> c in visited)
  }

  /** From a visited set that is settled as a whole no signal can be reached. */
  lemma SettledReachesNothing<Id(!new)>(g: Graph<Id>, accessors: set<string>, visited: set<Id>, n: Id)
    requires Settled(g, accessors, visited, visited) && n in visited
    ensures !ReachesSignal(g, accessors, n)
  {
    forall path | SignalPath(g, accessors, path) && path[0] == n
      ensures false
    {
      PathStaysInside(g, accessors, visited, path, |path| - 1);
    }
  }

  lemma {:induction false} PathStaysInside<Id(!new)>(g: Graph<Id>, accessors: set<string>, visited: set<Id>,
                                                     path: seq<Id>, i: nat)
    requires Settled(g, accessors, visited, visited)
    requires SignalPath(g, accessors, path) && path[0] in visited && i < |path|
    ensures path[i] in visited
  {
    if i > 0 {
      PathStaysInside(g, accessors, visited, path, i - 1);
    }
  }

  class Walker<Id(!new, ==)> {
    const g: Graph<Id>
    const accessors: set<string>
    var visited: set<Id>

    constructor (g: Graph<Id>, accessors: set<string>)
      ensures this.g == g && this.accessors == accessors && visited == {}
    {
      this.g := g;
      this.accessors := accessors;
      visited := {};
    }

    method Contains(n: Id) returns (found: bool)
      requires Closed(g) && n in g
      modifies this
      ensures old(visited) <= visited
      ensures found ==> ReachesSignal(g, accessors, n)
      ensures !found ==> n in visited && Settled(g, accessors, visited - old(visited), visited)
      decreases g.Keys - visited
    {
      if n in visited {
        return false;
      }
      visited := visited + {n};
      if IsSignalMemberAccess(g[n], accessors) {
        SignalHere(g, accessors, n);
        return true;
      }
      if IsJsx(g[n]) {
        return false;
      }
      var children := g[n].children;
      for i := 0 to |children|
        invariant old(visited) + {n} <= visited
        invariant forall j, c :: 0 <= j < i && children[j] == Some(c) ==> c in visited
        invariant Settled(g, accessors, visited - old(visited) - {n}, visited)
      {
        if children[i].Some? {
          var c := children[i].value;
          assert Some(c) in g[n].children;
          label before:
          var below := Contains(c);
          if below {
            SignalBelow(g, accessors, n, c);
            return true;
          }
          assert visited - old(visited) - {n} <=
                 (old@before(visited) - old(visited) - {n}) + (visited - old@before(visited));
        }
      }
      return false;
    }
  }

  /** The walk decides reachability exactly, and ends, on every finite graph. */
  method ContainsSignalAccess<Id(!new, ==)>(g: Graph<Id>, accessors: set<string>, n: Id) returns (found: bool)
    requires Closed(g) && n in g
    ensures found <==> ReachesSignal(g, accessors, n)
  {
    var walker := new Walker(g, accessors);
    found := walker.Contains(n);
    if !found {
      assert walker.visited - {} == walker.visited;
      SettledReachesNothing(g, accessors, walker.visited, n);
    }
  }
}
