/**
 * The topology graph: a map from a parent MAC to the ordered list of its
 * children's MACs, and the operations the registry performs on it.
 */
module Topology {
  import opened Wrappers

  type Graph = map<string, seq<string>>

  /** The child list of `mac`, empty when the graph has no entry for it. */
  function Children(g: Graph, mac: string): seq<string> {
    if mac in g then g[mac] else []
  }

  // ---------------------------------------------------------------------
  // Removing a child: `List.remove(Object)` drops the first occurrence only
  // ---------------------------------------------------------------------

  /** `s` with its first occurrence of `x` removed; `s` itself when `x` is absent. */
  function RemoveFirst(s: seq<string>, x: string): (r: seq<string>)
    ensures x !in s ==> r == s
  {
    if s == [] then []
    else if s[0] == x then s[1..]
    else [s[0]] + RemoveFirst(s[1..], x)
  }

  /** The position of the first occurrence of `x` in `s`. */
  function FirstIndex(s: seq<string>, x: string): (i: nat)
    requires x in s
    ensures i < |s| && s[i] == x && x !in s[..i]
  {
    if s[0] == x then 0
    else
      var j := FirstIndex(s[1..], x);
      assert s[..j + 1] == [s[0]] + s[1..][..j];
      j + 1
  }

  /** The removal cuts out exactly the first `x` and keeps the order of the rest. */
  lemma {:induction false} RemoveFirstCutsFirst(s: seq<string>, x: string)
    requires x in s
    ensures RemoveFirst(s, x) == s[..FirstIndex(s, x)] + s[FirstIndex(s, x) + 1..]
  {
    var t := s[1..];
    if s[0] == x {
      assert FirstIndex(s, x) == 0 && RemoveFirst(s, x) == t;
      assert s[..0] + s[1..] == t;
    } else {
      var j := FirstIndex(t, x);
      assert FirstIndex(s, x) == j + 1;
      assert RemoveFirst(s, x) == s[..j + 1] + s[j + 2..] by {
        RemoveFirstCutsFirst(t, x);
        assert s[..j + 1] == [s[0]] + t[..j];
        assert s[j + 2..] == t[j + 1..];
      }
    }
  }

  /** The removal takes away one occurrence of `x`, if any, and nothing else. */
  lemma {:induction false} RemoveFirstCount(s: seq<string>, x: string)
    ensures multiset(RemoveFirst(s, x)) == multiset(s) - multiset{x}
  {
    if s != [] {
      assert s == [s[0]] + s[1..];
      if s[0] != x {
        RemoveFirstCount(s[1..], x);
      }
    }
  }

  /**
   * The sweep run by delete and by an uplink-changing update: every child
   * list loses its first occurrence of `x`; the key set stays the same.
   */
  function Sweep(g: Graph, x: string): (r: Graph)
    ensures r.Keys == g.Keys
    ensures forall k | k in r :: r[k] == RemoveFirst(g[k], x)
  {
    map k | k in g :: RemoveFirst(g[k], x)
  }

  /** In each list the sweep takes away one occurrence of `x`, if any, and nothing else. */
  lemma SweepCount(g: Graph, x: string, k: string)
    requires k in g
    ensures multiset(Sweep(g, x)[k]) == multiset(g[k]) - multiset{x}
  {
    RemoveFirstCount(g[k], x);
  }

  /** The sweep keeps every other child where it was listed. */
  lemma SweepKeepsOthers(g: Graph, x: string, k: string, y: string)
    requires k in g && y != x
    ensures y in Sweep(g, x)[k] <==> y in g[k]
  {
    SweepCount(g, x, k);
    assert multiset(Sweep(g, x)[k])[y] == multiset(g[k])[y];
  }

  /** If `x` occurs at most once in every list, the sweep leaves it in none. */
  lemma SweepRemovesSingleOccurrences(g: Graph, x: string)
    requires forall k | k in g :: multiset(g[k])[x] <= 1
    ensures forall k | k in Sweep(g, x) :: x !in Sweep(g, x)[k]
  {
    var r := Sweep(g, x);
    forall k | k in r
      ensures x !in r[k]
    {
      SweepCount(g, x, k);
      assert multiset(r[k])[x] == 0;
    }
  }

  // ---------------------------------------------------------------------
  // Linking a device under its uplink, or marking it as a root
  // ---------------------------------------------------------------------

  /**
   * With an uplink, `mac` is appended to the uplink's list (created when
   * missing); without one, `mac` gets an empty root entry unless it already
   * has an entry, which is never overwritten. No other entry changes.
   */
  function Link(g: Graph, mac: string, uplink: Option<string>): (r: Graph)
    ensures uplink.Some? ==> uplink.value in r && r[uplink.value] == Children(g, uplink.value) + [mac]
    ensures uplink.None? ==> mac in r && (mac in g ==> r[mac] == g[mac]) && (mac !in g ==> r[mac] == [])
    ensures r.Keys == g.Keys + {if uplink.Some? then uplink.value else mac}
    ensures forall k | k in g && k != (if uplink.Some? then uplink.value else mac) :: r[k] == g[k]
  {
    match uplink
    case Some(u) => g[u := Children(g, u) + [mac]]
    case None => if mac in g then g else g[mac := []]
  }

  /** Linking only adds: every child listed before is still listed after. */
  lemma LinkKeepsChildren(g: Graph, mac: string, uplink: Option<string>, k: string, c: string)
    requires c in Children(g, k)
    ensures c in Children(Link(g, mac, uplink), k)
  {
  }

  // ---------------------------------------------------------------------
  // Reachability and the subtree below a device
  // ---------------------------------------------------------------------

  /** A non-empty walk that follows child lists from each node to the next. */
  ghost predicate IsPath(g: Graph, p: seq<string>) {
    |p| > 0 && forall i | 0 <= i < |p| - 1 :: p[i + 1] in Children(g, p[i])
  }

  /** `t` can be reached from `s` by following child lists (zero or more steps). */
  ghost predicate Reachable(g: Graph, s: string, t: string) {
    exists p :: IsPath(g, p) && p[0] == s && p[|p| - 1] == t
  }

  /** Every MAC that is a key of `g` or listed as somebody's child. */
  function Nodes(g: Graph): set<string> {
    g.Keys + set k, c | k in g && c in g[k] :: c
  }

  /** The children of all members of `s`. */
  function Step(g: Graph, s: set<string>): (r: set<string>)
    ensures r <= Nodes(g)
    ensures forall v, c | v in s && c in Children(g, v) :: c in r
    ensures forall c | c in r :: exists v :: v in s && c in Children(g, v)
  {
    set v, c | v in s && v in g && c in g[v] :: c
  }

  /** A set that holds the children of each of its members. */
  ghost predicate Closed(g: Graph, s: set<string>) {
    forall v, c | v in s && c in Children(g, v) :: c in s
  }

  /**
   * The least child-closed superset of `s`. It terminates on every graph,
   * cyclic or not, because it only adds members of the finite `Nodes(g)`.
   */
  function Closure(g: Graph, s: set<string>): (r: set<string>)
    ensures s <= r
    ensures Closed(g, r)
    decreases Nodes(g) - s
  {
    var next := Step(g, s);
    if next <= s then s
    else
      var c :| c in next && c !in s;
      assert c in Nodes(g) - s && c !in Nodes(g) - (s + next);
      Closure(g, s + next)
  }

  /** Within a child-closed set, a path never leaves the set. */
  lemma {:induction false} ClosedContainsPath(g: Graph, s: set<string>, p: seq<string>)
    requires Closed(g, s) && IsPath(g, p) && p[0] in s
    ensures p[|p| - 1] in s
    decreases |p|
  {
    if |p| > 1 {
      var q := p[..|p| - 1];
      assert IsPath(g, q);
      ClosedContainsPath(g, s, q);
      assert p[|p| - 1] in Children(g, q[|q| - 1]);
    }
  }

  /** Everything reachable from a member of a child-closed set lies in it. */
  lemma ClosedContainsReachable(g: Graph, s: set<string>, a: string, t: string)
    requires Closed(g, s) && a in s && Reachable(g, a, t)
    ensures t in s
  {
    var p :| IsPath(g, p) && p[0] == a && p[|p| - 1] == t;
    ClosedContainsPath(g, s, p);
  }

  /** One more step along a child list extends reachability. */
  lemma ReachableStep(g: Graph, a: string, v: string, c: string)
    requires Reachable(g, a, v) && c in Children(g, v)
    ensures Reachable(g, a, c)
  {
    var p :| IsPath(g, p) && p[0] == a && p[|p| - 1] == v;
    var q := p + [c];
    assert IsPath(g, q);
  }

  /** Every node is reachable from itself by the one-node path. */
  lemma ReachableSelf(g: Graph, a: string)
    ensures Reachable(g, a, a)
  {
    assert IsPath(g, [a]);
  }

  /** If all of `s` is reachable from `a`, so is all of its closure. */
  lemma {:induction false} ClosureReachable(g: Graph, a: string, s: set<string>)
    requires forall v | v in s :: Reachable(g, a, v)
    ensures forall t | t in Closure(g, s) :: Reachable(g, a, t)
    decreases Nodes(g) - s
  {
    var next := Step(g, s);
    if !(next <= s) {
      forall c | c in next
        ensures Reachable(g, a, c)
      {
        var v :| v in s && c in Children(g, v);
        ReachableStep(g, a, v, c);
      }
      var c :| c in next && c !in s;
      assert c in Nodes(g) - s && c !in Nodes(g) - (s + next);
      ClosureReachable(g, a, s + next);
    }
  }

  /** The closure of `{a}` is exactly the set of nodes reachable from `a`. */
  lemma ClosureIsReachable(g: Graph, a: string)
    ensures forall t :: t in Closure(g, {a}) <==> Reachable(g, a, t)
  {
    ReachableSelf(g, a);
    ClosureReachable(g, a, {a});
    forall t | Reachable(g, a, t)
      ensures t in Closure(g, {a})
    {
      ClosedContainsReachable(g, Closure(g, {a}), a, t);
    }
  }

  /**
   * A child-closed set containing `start`, all of whose members are reachable
   * from it, is exactly the reachable set.
   */
  lemma SubtreeOfClosedSet(g: Graph, start: string, s: set<string>)
    requires Closed(g, s) && start in s
    requires forall t | t in s :: Reachable(g, start, t)
    ensures Subtree(g, start).Keys == s
  {
    forall t | Reachable(g, start, t)
      ensures t in s
    {
      ClosedContainsReachable(g, s, start, t);
    }
  }

  /**
   * The topology below `start`: its keys are `start` and everything
   * reachable from it through child lists (so no ancestor or unrelated
   * sibling), each mapped to its child list, or to `[]` when it has none.
   */
  function Subtree(g: Graph, start: string): (r: Graph)
    ensures forall t :: t in r <==> Reachable(g, start, t)
    ensures start in r
    ensures forall t | t in r :: t in g ==> r[t] == g[t]
    ensures forall t | t in r :: t !in g ==> r[t] == []
    ensures forall t, c | t in r && c in r[t] :: c in r
  {
    ClosureIsReachable(g, start);
    ReachableSelf(g, start);
    map t | t in Closure(g, {start}) :: Children(g, t)
  }
}
