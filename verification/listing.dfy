/**
 * The type-ordered device listing: GATEWAY devices first, then SWITCH,
 * then ACCESS_POINT. The order within one type is not specified.
 */
module Listing {
  import opened Wrappers
  import opened DeviceModel

  // ---------------------------------------------------------------------
  // The ordering
  // ---------------------------------------------------------------------

  /**
   * Sort priority of a (nullable) device type. An absent type ties with
   * ACCESS_POINT, as the source's comparator compares it equal to one.
   */
  function Rank(t: Option<DeviceType>): (r: nat)
    ensures r <= 2
    ensures r == 0 <==> t == Some(GATEWAY)
    ensures r == 1 <==> t == Some(SWITCH)
  {
    match t
    case Some(GATEWAY) => 0
    case Some(SWITCH) => 1
    case _ => 2
  }

  function Sign(n: int): int {
    if n < 0 then -1 else if n > 0 then 1 else 0
  }

  /** The three requirements `java.util.Comparator` places on `compare`. */
  ghost predicate IsComparator(cmp: (Option<DeviceType>, Option<DeviceType>) -> int) {
    && (forall x, y :: Sign(cmp(x, y)) == -Sign(cmp(y, x)))
    && (forall x, y, z :: cmp(x, y) > 0 && cmp(y, z) > 0 ==> cmp(x, z) > 0)
    && (forall x, y, z :: cmp(x, y) == 0 ==> Sign(cmp(x, z)) == Sign(cmp(y, z)))
  }

  /** The type comparator exactly as written in the listing query. */
  function WrittenCompare(a: Option<DeviceType>, b: Option<DeviceType>): (c: int)
    ensures Rank(a) == Rank(b) ==> c == (if Rank(a) == 2 then 0 else -1)
  {
    if a == Some(GATEWAY) then -1
    else if b == Some(GATEWAY) then 1
    else if a == Some(SWITCH) then -1
    else if b == Some(SWITCH) then 1
    else 0
  }

  /** On types of different rank the written comparator orders by rank. */
  lemma WrittenCompareOrdersDistinctRanks(a: Option<DeviceType>, b: Option<DeviceType>)
    requires Rank(a) != Rank(b)
    ensures Sign(WrittenCompare(a, b)) == Sign(Rank(a) - Rank(b))
  {
  }

  /**
   * But it breaks the comparator contract: two gateways (and two switches)
   * each compare as smaller than the other.
   */
  lemma WrittenCompareIsNotComparator()
    ensures WrittenCompare(Some(GATEWAY), Some(GATEWAY)) == -1
    ensures WrittenCompare(Some(SWITCH), Some(SWITCH)) == -1
    ensures !IsComparator(WrittenCompare)
  {
    var g := Some(GATEWAY);
    assert Sign(WrittenCompare(g, g)) != -Sign(WrittenCompare(g, g));
  }

  /** The intended order: compare by rank. */
  function RankCompare(a: Option<DeviceType>, b: Option<DeviceType>): (c: int)
    ensures c < 0 <==> Rank(a) < Rank(b)
    ensures c == 0 <==> Rank(a) == Rank(b)
  {
    Rank(a) - Rank(b)
  }

  /** Comparing by rank meets the comparator contract. */
  lemma RankCompareIsComparator()
    ensures IsComparator(RankCompare)
  {
  }

  // ---------------------------------------------------------------------
  // Sorting
  // ---------------------------------------------------------------------

  /** No device of a lower priority precedes one of a higher priority. */
  ghost predicate SortedByRank(s: seq<Device>) {
    forall i, j | 0 <= i < j < |s| :: Rank(s[i].deviceType) <= Rank(s[j].deviceType)
  }

  /** All members of `s` have rank `k`. */
  ghost predicate AllOfRank(s: seq<Device>, k: nat) {
    forall i | 0 <= i < |s| :: Rank(s[i].deviceType) == k
  }

  /** Three rank blocks in order form a sorted sequence. */
  lemma BlocksAreSorted(a: seq<Device>, b: seq<Device>, c: seq<Device>)
    requires AllOfRank(a, 0) && AllOfRank(b, 1) && AllOfRank(c, 2)
    ensures SortedByRank(a + b + c)
  {
    var s := a + b + c;
    forall i, j | 0 <= i < j < |s|
      ensures Rank(s[i].deviceType) <= Rank(s[j].deviceType)
    {
      var ri := if i < |a| then 0 else if i < |a| + |b| then 1 else 2;
      var rj := if j < |a| then 0 else if j < |a| + |b| then 1 else 2;
      assert Rank(s[i].deviceType) == ri;
      assert Rank(s[j].deviceType) == rj;
    }
  }

  /**
   * Sorts devices by type priority: a permutation of the input in which
   * every GATEWAY precedes every SWITCH, which precedes every ACCESS_POINT.
   */
  method SortByType(vs: seq<Device>) returns (r: seq<Device>)
    ensures SortedByRank(r)
    ensures multiset(r) == multiset(vs)
    ensures |r| == |vs|
  {
    var gateways, switches, others := [], [], [];
    var i := 0;
    while i < |vs|
      invariant 0 <= i <= |vs|
      invariant AllOfRank(gateways, 0) && AllOfRank(switches, 1) && AllOfRank(others, 2)
      invariant multiset(gateways) + multiset(switches) + multiset(others) == multiset(vs[..i])
    {
      var d := vs[i];
      assert vs[..i + 1] == vs[..i] + [d];
      assert multiset(vs[..i + 1]) == multiset(vs[..i]) + multiset{d};
      var k := Rank(d.deviceType);
      if k == 0 {
        gateways := gateways + [d];
      } else if k == 1 {
        switches := switches + [d];
      } else {
        others := others + [d];
      }
      i := i + 1;
    }
    assert vs[..i] == vs;
    r := gateways + switches + others;
    BlocksAreSorted(gateways, switches, others);
    assert |r| == |multiset(r)| == |multiset(vs)| == |vs|;
  }

  // ---------------------------------------------------------------------
  // Iterating the device table
  // ---------------------------------------------------------------------

  /** `order` lists each member of `keys` exactly once: an iteration order. */
  ghost predicate Enumerates(order: seq<string>, keys: set<string>) {
    && (forall i, j | 0 <= i < j < |order| :: order[i] != order[j])
    && (forall k :: k in order <==> k in keys)
  }

  /** An iteration order has as many entries as there are keys. */
  lemma {:induction false} EnumerationSize(order: seq<string>, keys: set<string>)
    requires Enumerates(order, keys)
    ensures |order| == |keys|
    decreases |order|
  {
    if order != [] {
      var n := |order| - 1;
      var last := order[n];
      var front := order[..n];
      assert forall k :: k in front <==> k in keys - {last} by {
        forall k
          ensures k in front <==> k in keys - {last}
        {
          if k in front {
            var i :| 0 <= i < n && front[i] == k;
            assert order[i] == k;
          }
        }
      }
      EnumerationSize(front, keys - {last});
    }
  }

  /** Some iteration order exists for every finite key set. */
  method IterationOrder(keys: set<string>) returns (order: seq<string>)
    ensures Enumerates(order, keys)
  {
    order := [];
    var rest := keys;
    while rest != {}
      invariant rest <= keys
      invariant forall i, j | 0 <= i < j < |order| :: order[i] != order[j]
      invariant forall k :: k in order <==> k in keys - rest
      decreases |rest|
    {
      var k :| k in rest;
      forall i | 0 <= i < |order|
        ensures order[i] != k
      {
        assert order[i] in order;
      }
      order := order + [k];
      rest := rest - {k};
    }
  }

  /** The devices of a table, read in the given iteration order. */
  function Project(devices: map<string, Device>, order: seq<string>): (r: seq<Device>)
    requires forall k | k in order :: k in devices
    ensures |r| == |order|
    ensures forall i | 0 <= i < |order| :: r[i] == devices[order[i]]
  {
    if order == [] then [] else [devices[order[0]]] + Project(devices, order[1..])
  }

  /**
   * When every device is stored under its own MAC, a duplicate-free
   * iteration order reads each stored device exactly once.
   */
  lemma {:induction false} ProjectCount(devices: map<string, Device>, order: seq<string>, k: string)
    requires forall k' | k' in order :: k' in devices && devices[k'].mac == k'
    requires forall i, j | 0 <= i < j < |order| :: order[i] != order[j]
    requires k in devices && devices[k].mac == k
    ensures multiset(Project(devices, order))[devices[k]] == if k in order then 1 else 0
  {
    if order != [] {
      var rest := order[1..];
      assert forall i, j | 0 <= i < j < |rest| :: rest[i] != rest[j] by {
        forall i, j | 0 <= i < j < |rest|
          ensures rest[i] != rest[j]
        {
          assert rest[i] == order[i + 1] && rest[j] == order[j + 1];
        }
      }
      ProjectCount(devices, rest, k);
      assert Project(devices, order) == [devices[order[0]]] + Project(devices, rest);
      assert devices[order[0]] == devices[k] <==> order[0] == k;
      assert k in order <==> order[0] == k || k in rest;
    }
  }
}
