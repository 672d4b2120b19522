/**
 * Concrete registry histories: the unit-test scenarios of the registry,
 * and one history that shows the duplicate child entry an unchanged-uplink
 * update leaves behind.
 */
module Scenarios {
  import opened Wrappers
  import opened DeviceModel
  import opened Topology
  import opened Registry
  import Listing

  /** Registers a device that is known to be accepted. */
  function Reg(st: State, t: DeviceType, mac: string, uplink: Option<string>): (r: State)
    requires mac !in st.devices
    ensures r.devices == st.devices[mac := Device(Some(t), mac, uplink)]
    ensures r.topology == Link(st.topology, mac, uplink)
  {
    Register(st, Some(t), mac, uplink).value.0
  }

  /** A gateway registered as a root is found again with its type and MAC. */
  lemma ScenarioRegisterAndRetrieve()
    ensures Register(Empty, Some(GATEWAY), "G1", None).Ok?
    ensures Get(Register(Empty, Some(GATEWAY), "G1", None).value.0, "G1") == Ok(Device(Some(GATEWAY), "G1", None))
  {
  }

  /**
   * An access point registered below a switch that is not registered yet,
   * then the gateway and the switch: the listing has three entries in type
   * order.
   */
  method ScenarioSortedListing() returns (r: seq<Device>)
    ensures |r| == 3
    ensures r[0].deviceType == Some(GATEWAY)
    ensures r[1].deviceType == Some(SWITCH)
    ensures r[2].deviceType == Some(ACCESS_POINT)
  {
    var st := ListingFixture();
    var order := Listing.IterationOrder(st.devices.Keys);
    r := ListSortedByType(st, order);
    ThreeInTypeOrder(r, st.devices["G1"], st.devices["S1"], st.devices["AP1"]);
  }

  /** The registry of the listing scenario: the access point is registered before its switch. */
  function ListingFixture(): (st: State)
    ensures |st.devices| == 3
    ensures "G1" in st.devices && st.devices["G1"].deviceType == Some(GATEWAY)
    ensures "S1" in st.devices && st.devices["S1"].deviceType == Some(SWITCH)
    ensures "AP1" in st.devices && st.devices["AP1"].deviceType == Some(ACCESS_POINT)
  {
    var st1 := Reg(Empty, ACCESS_POINT, "AP1", Some("S1"));
    var st2 := Reg(st1, GATEWAY, "G1", None);
    var st3 := Reg(st2, SWITCH, "S1", Some("G1"));
    assert st3.devices.Keys == {"AP1", "G1", "S1"};
    st3
  }

  /** A sorted three-device listing holding one device of each type lists them in type order. */
  lemma ThreeInTypeOrder(r: seq<Device>, g: Device, s: Device, ap: Device)
    requires Listing.SortedByRank(r) && |r| == 3
    requires g in r && s in r && ap in r
    requires g.deviceType == Some(GATEWAY) && s.deviceType == Some(SWITCH) && ap.deviceType == Some(ACCESS_POINT)
    ensures r == [g, s, ap]
  {
    var i :| 0 <= i < |r| && r[i] == g;
    var j :| 0 <= j < |r| && r[j] == s;
    var k :| 0 <= k < |r| && r[k] == ap;
    assert Listing.Rank(g.deviceType) == 0 && Listing.Rank(s.deviceType) == 1 && Listing.Rank(ap.deviceType) == 2;
    assert i < j < k;
  }

  /** The full topology of a four-device tree lists every parent-child edge. */
  lemma ScenarioFullTopology()
    ensures var st := Reg(Reg(Reg(Reg(Empty,
        GATEWAY, "G1", None),
        SWITCH, "S1", Some("G1")),
        ACCESS_POINT, "AP1", Some("S1")),
        ACCESS_POINT, "AP2", Some("S1"));
      var g := FullTopology(st);
      && "G1" in g && "S1" in g["G1"]
      && "S1" in g && "AP1" in g["S1"] && "AP2" in g["S1"]
  {
  }

  /** The tree used by the subtree scenario. */
  function SubtreeFixture(): (st: State)
    ensures st.topology == map["G1" := ["S1", "S2"], "S1" := ["AP1", "AP2"]]
    ensures st.devices.Keys == {"G1", "S1", "AP1", "AP2", "S2"}
  {
    var st4 := SubtreeFixtureBase();
    assert Children(st4.topology, "G1") + ["S2"] == ["S1", "S2"];
    Reg(st4, SWITCH, "S2", Some("G1"))
  }

  /** The first four registrations of the subtree fixture. */
  function SubtreeFixtureBase(): (st: State)
    ensures st.topology == map["G1" := ["S1"], "S1" := ["AP1", "AP2"]]
    ensures st.devices.Keys == {"G1", "S1", "AP1", "AP2"}
  {
    var st2 := SubtreeFixtureRoot();
    assert Children(st2.topology, "S1") + ["AP1"] == ["AP1"];
    var st3 := Reg(st2, ACCESS_POINT, "AP1", Some("S1"));
    assert st3.topology == map["G1" := ["S1"], "S1" := ["AP1"]];
    assert Children(st3.topology, "S1") + ["AP2"] == ["AP1", "AP2"];
    Reg(st3, ACCESS_POINT, "AP2", Some("S1"))
  }

  /** The gateway and its first switch. */
  function SubtreeFixtureRoot(): (st: State)
    ensures st.topology == map["G1" := ["S1"]]
    ensures st.devices.Keys == {"G1", "S1"}
  {
    var st1 := Reg(Empty, GATEWAY, "G1", None);
    assert st1.topology == map["G1" := []];
    assert Children(st1.topology, "G1") + ["S1"] == ["S1"];
    Reg(st1, SWITCH, "S1", Some("G1"))
  }

  /** The subtree of a switch holds it and its access points, not its gateway or sibling switch. */
  lemma ScenarioSubtreeScoping()
    ensures SubtreeTopology(SubtreeFixture(), "S1").Ok?
    ensures var sub := SubtreeTopology(SubtreeFixture(), "S1").value;
      && sub.Keys == {"S1", "AP1", "AP2"}
      && sub["S1"] == ["AP1", "AP2"]
  {
    SwitchSubtree(SubtreeFixture().topology);
  }

  /** The subtree of the switch in the fixture topology. */
  lemma SwitchSubtree(g: Graph)
    requires g == map["G1" := ["S1", "S2"], "S1" := ["AP1", "AP2"]]
    ensures Subtree(g, "S1").Keys == {"S1", "AP1", "AP2"}
    ensures Subtree(g, "S1")["S1"] == ["AP1", "AP2"]
  {
    SwitchSubtreeIsClosed(g);
    SwitchReachesAccessPoints(g);
    SubtreeOfClosedSet(g, "S1", {"S1", "AP1", "AP2"});
  }

  /** The switch and its access points form a child-closed set. */
  lemma SwitchSubtreeIsClosed(g: Graph)
    requires g == map["G1" := ["S1", "S2"], "S1" := ["AP1", "AP2"]]
    ensures Closed(g, {"S1", "AP1", "AP2"})
  {
    assert Children(g, "S1") == ["AP1", "AP2"];
    assert Children(g, "AP1") == [] && Children(g, "AP2") == [];
  }

  /** The switch reaches itself and both access points. */
  lemma SwitchReachesAccessPoints(g: Graph)
    requires g == map["G1" := ["S1", "S2"], "S1" := ["AP1", "AP2"]]
    ensures forall t | t in {"S1", "AP1", "AP2"} :: Reachable(g, "S1", t)
  {
    ReachableSelf(g, "S1");
    assert "AP1" in Children(g, "S1") && "AP2" in Children(g, "S1");
    ReachableStep(g, "S1", "S1", "AP1");
    ReachableStep(g, "S1", "S1", "AP2");
  }

  /** A deleted root gateway is confirmed by MAC and no longer found. */
  lemma ScenarioDeleteThenLookup()
    ensures var st := Reg(Empty, GATEWAY, "G1", None);
      && Delete(st, "G1").Ok?
      && Delete(st, "G1").value.1 == "G1"
      && Get(Delete(st, "G1").value.0, "G1") == Err(NotFound)
  {
  }

  /** Two roots and a gateway under the first one. */
  function ReparentFixture(): (st: State)
    ensures st.topology == map["S1" := ["G1"], "S2" := []]
    ensures st.devices.Keys == {"S1", "G1", "S2"}
    ensures st.devices["G1"] == Device(Some(GATEWAY), "G1", Some("S1"))
  {
    var st1 := Reg(Empty, SWITCH, "S1", None);
    assert st1.topology == map["S1" := []];
    assert Children(st1.topology, "S1") + ["G1"] == ["G1"];
    var st2 := Reg(st1, GATEWAY, "G1", Some("S1"));
    assert st2.topology == map["S1" := ["G1"]];
    Reg(st2, SWITCH, "S2", None)
  }

  /** The gateway moved from the first root to the second. */
  const MoveToS2 := Device(Some(GATEWAY), "G1", Some("S2"))

  /** The gateway re-sent with the uplink it already has. */
  const KeepUnderS1 := Device(Some(GATEWAY), "G1", Some("S1"))

  /** Sweeping a two-key topology sweeps each of its two lists. */
  lemma SweepTwoKeys(a: string, b: string, sa: seq<string>, sb: seq<string>, x: string)
    requires a != b
    ensures Sweep(map[a := sa, b := sb], x) == map[a := RemoveFirst(sa, x), b := RemoveFirst(sb, x)]
  {
    var g := map[a := sa, b := sb];
    var swept := Sweep(g, x);
    var expected := map[a := RemoveFirst(sa, x), b := RemoveFirst(sb, x)];
    assert swept.Keys == {a, b};
    forall k | k in swept
      ensures swept[k] == expected[k]
    {
      assert swept[k] == RemoveFirst(g[k], x);
    }
  }

  /** Sweeping the gateway out of the two-root topology that lists it once. */
  lemma SweepSingle()
    ensures Sweep(map["S1" := ["G1"], "S2" := []], "G1") == map["S1" := [], "S2" := []]
  {
    SweepTwoKeys("S1", "S2", ["G1"], [], "G1");
    assert RemoveFirst(["G1"], "G1") == [];
  }

  /** Sweeping the gateway out of the two-root topology that lists it twice. */
  lemma SweepDouble()
    ensures Sweep(map["S1" := ["G1", "G1"], "S2" := []], "G1") == map["S1" := ["G1"], "S2" := []]
  {
    SweepTwoKeys("S1", "S2", ["G1", "G1"], [], "G1");
    assert RemoveFirst(["G1", "G1"], "G1") == ["G1"];
  }

  /** Linking the gateway under the second root. */
  lemma LinkUnderS2(s1: seq<string>)
    ensures Link(map["S1" := s1, "S2" := []], "G1", Some("S2")) == map["S1" := s1, "S2" := ["G1"]]
  {
    assert Children(map["S1" := s1, "S2" := []], "S2") + ["G1"] == ["G1"];
  }

  /** Moving the gateway sweeps it out of every list and links it under the second root. */
  lemma MoveUnfolds(st: State)
    requires "G1" in st.devices && st.devices["G1"] == KeepUnderS1
    ensures Update(st, MoveToS2).Ok?
    ensures Update(st, MoveToS2).value.0.topology == Link(Sweep(st.topology, "G1"), "G1", Some("S2"))
    ensures Update(st, MoveToS2).value.0.devices["G1"] == MoveToS2
  {
    assert Some("S1") != Some("S2");
  }

  /** Moving the gateway to the second root empties the first root's subtree list. */
  lemma ScenarioUpdateReparent()
    ensures Update(ReparentFixture(), MoveToS2).Ok?
    ensures var st := Update(ReparentFixture(), MoveToS2).value.0;
      && Get(st, "G1").Ok? && Get(st, "G1").value.uplink == Some("S2")
      && SubtreeTopology(st, "S1").Ok? && SubtreeTopology(st, "S1").value["S1"] == []
      && SubtreeTopology(st, "S2").Ok? && "G1" in SubtreeTopology(st, "S2").value["S2"]
  {
    var st0 := ReparentFixture();
    MoveUnfolds(st0);
    SweepSingle();
    LinkUnderS2([]);
    var st := Update(st0, MoveToS2).value.0;
    assert st.topology == map["S1" := [], "S2" := ["G1"]];
    ReachableSelf(st.topology, "S1");
    ReachableSelf(st.topology, "S2");
  }

  /**
   * Re-sending the gateway's unchanged uplink lists it twice under its
   * parent; moving it afterwards removes one entry only, so the old parent
   * still lists it.
   */
  lemma ScenarioStaleChildAfterUnchangedUplink()
    ensures Update(ReparentFixture(), KeepUnderS1).Ok?
    ensures var st1 := Update(ReparentFixture(), KeepUnderS1).value.0;
      && st1.topology["S1"] == ["G1", "G1"]
      && Update(st1, MoveToS2).Ok?
      && var st2 := Update(st1, MoveToS2).value.0;
      && st2.topology == map["S1" := ["G1"], "S2" := ["G1"]]
      && st2.devices["G1"].uplink == Some("S2")
  {
    var st0 := ReparentFixture();
    assert Children(st0.topology, "S1") + ["G1"] == ["G1", "G1"];
    var st1 := Update(st0, KeepUnderS1).value.0;
    assert st1.topology == map["S1" := ["G1", "G1"], "S2" := []];
    MoveUnfolds(st1);
    SweepDouble();
    LinkUnderS2(["G1"]);
  }
}
