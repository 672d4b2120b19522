/**
 * The in-memory device registry: a device table (MAC to device) and a
 * topology graph (parent MAC to ordered child MACs), updated together by
 * register, update and delete, and read by the lookup, listing and
 * topology queries.
 */
module Registry {
  import opened Wrappers
  import opened DeviceModel
  import opened Topology
  import Listing

  /** The error kinds the registry raises in place of exceptions. */
  datatype Error = MissingType | AlreadyExists | NotFound

  /** The registry's two structures, always replaced together. */
  datatype State = State(devices: map<string, Device>, topology: Graph)

  /** A freshly constructed registry. */
  const Empty: State := State(map[], map[])

  /** The empty registry, where every history starts, is well-formed and linked. */
  lemma EmptyIsValid()
    ensures WellFormed(Empty) && Linked(Empty)
  {
  }

  // ---------------------------------------------------------------------
  // Invariants
  // ---------------------------------------------------------------------

  /**
   * Every stored device is filed under its own (non-empty) MAC and has a
   * device type: an absent type is rejected on register and filled in on
   * update.
   */
  predicate WellFormed(st: State) {
    forall k | k in st.devices ::
      st.devices[k].mac == k && ValidMac(k) && st.devices[k].deviceType.Some?
  }

  /** `mac` is listed under `uplink`, or has a root entry when it names none. */
  predicate Placed(g: Graph, mac: string, uplink: Option<string>) {
    match uplink
    case Some(u) => mac in Children(g, u)
    case None => mac in g
  }

  /** Every stored device is placed in the topology according to its uplink. */
  predicate Linked(st: State) {
    forall k | k in st.devices :: Placed(st.topology, k, st.devices[k].uplink)
  }

  // ---------------------------------------------------------------------
  // Mutating operations
  // ---------------------------------------------------------------------

  /**
   * Registers a new device. An absent type is checked first, then a taken
   * MAC; on success the device is stored and linked under its uplink (which
   * need not be registered) or given a root entry.
   */
  function Register(st: State, t: Option<DeviceType>, mac: string, uplink: Option<string>): (r: Result<(State, Device), Error>)
    ensures r == Err(MissingType) <==> t.None?
    ensures r == Err(AlreadyExists) <==> t.Some? && mac in st.devices
    ensures r.Ok? <==> t.Some? && mac !in st.devices
    ensures r.Ok? ==> r.value.1 == Device(t, mac, uplink)
    ensures r.Ok? ==> r.value.0.devices == st.devices[mac := r.value.1]
    ensures r.Ok? ==> r.value.0.topology == Link(st.topology, mac, uplink)
  {
    if t.None? then Err(MissingType)
    else if mac in st.devices then Err(AlreadyExists)
    else
      var d := Device(t, mac, uplink);
      Ok((State(st.devices[mac := d], Link(st.topology, mac, uplink)), d))
  }

  /**
   * Deletes a device: its table entry goes, and the first occurrence of its
   * MAC leaves every child list. Its own topology entry stays behind.
   * Returns the deleted MAC as confirmation.
   */
  function Delete(st: State, mac: string): (r: Result<(State, string), Error>)
    ensures r.Err? <==> mac !in st.devices
    ensures r.Err? ==> r.error == NotFound
    ensures r.Ok? ==> r.value.1 == mac
    ensures r.Ok? ==> r.value.0.devices == st.devices - {mac}
    ensures r.Ok? ==> r.value.0.topology == Sweep(st.topology, mac)
    ensures r.Ok? ==> r.value.0.topology.Keys == st.topology.Keys
    ensures r.Ok? ==> forall k | k in st.topology ::
      multiset(r.value.0.topology[k]) == multiset(st.topology[k]) - multiset{mac}
  {
    if mac !in st.devices then Err(NotFound)
    else
      forall k | k in st.topology
        ensures multiset(Sweep(st.topology, mac)[k]) == multiset(st.topology[k]) - multiset{mac}
      {
        SweepCount(st.topology, mac, k);
      }
      Ok((State(st.devices - {mac}, Sweep(st.topology, mac)), mac))
  }

  /**
   * The device actually stored by an update of `prev` by `d`: `d` itself,
   * except that an absent type keeps the previously stored one.
   */
  function Merged(prev: Device, d: Device): (r: Device)
    ensures r.mac == d.mac && r.uplink == d.uplink
    ensures r.deviceType == if d.deviceType.Some? then d.deviceType else prev.deviceType
  {
    if d.deviceType.None? then d.(deviceType := prev.deviceType) else d
  }

  /**
   * Updates the device stored under `d.mac`. When the uplink differs from
   * the stored one the MAC's first occurrence leaves every child list; then
   * the merged device replaces the stored entry and is linked exactly as on
   * register.
   */
  function Update(st: State, d: Device): (r: Result<(State, Device), Error>)
    ensures r.Err? <==> d.mac !in st.devices
    ensures r.Err? ==> r.error == NotFound
    ensures r.Ok? ==> r.value.1 == Merged(st.devices[d.mac], d)
    ensures r.Ok? ==> r.value.0.devices == st.devices[d.mac := r.value.1]
    ensures r.Ok? ==> r.value.0.topology == Link(
      if d.uplink != st.devices[d.mac].uplink then Sweep(st.topology, d.mac) else st.topology,
      d.mac, d.uplink)
  {
    if d.mac !in st.devices then Err(NotFound)
    else
      var prev := st.devices[d.mac];
      var swept := if d.uplink != prev.uplink then Sweep(st.topology, d.mac) else st.topology;
      var stored := Merged(prev, d);
      Ok((State(st.devices[d.mac := stored], Link(swept, d.mac, d.uplink)), stored))
  }

  // ---------------------------------------------------------------------
  // Queries
  // ---------------------------------------------------------------------

  /** Looks up a device by MAC. */
  function Get(st: State, mac: string): (r: Result<Device, Error>)
    ensures r.Ok? <==> mac in st.devices
    ensures r.Err? ==> r.error == NotFound
    ensures r.Ok? ==> r.value == st.devices[mac]
  {
    if mac in st.devices then Ok(st.devices[mac]) else Err(NotFound)
  }

  /**
   * The whole topology graph, tombstone keys of deleted devices included.
   * In a linked registry it shows each device under its uplink or as a root.
   */
  function FullTopology(st: State): (r: Graph)
    ensures Linked(st) ==> forall k | k in st.devices :: Placed(r, k, st.devices[k].uplink)
  {
    st.topology
  }

  /**
   * The topology below a registered device: exactly the device and its
   * descendants, each with a copy of its child list (empty when it has
   * no topology entry).
   */
  function SubtreeTopology(st: State, mac: string): (r: Result<Graph, Error>)
    ensures r.Err? <==> mac !in st.devices
    ensures r.Err? ==> r.error == NotFound
    ensures r.Ok? ==> forall t :: t in r.value <==> Reachable(st.topology, mac, t)
    ensures r.Ok? ==> forall t | t in r.value :: r.value[t] == Children(st.topology, t)
  {
    if mac !in st.devices then Err(NotFound) else Ok(Subtree(st.topology, mac))
  }

  /**
   * All stored devices, GATEWAY first, then SWITCH, then ACCESS_POINT.
   * `order` is the table's iteration order, which the source leaves to the
   * hash map. The result holds exactly the stored devices; in a well-formed
   * table it is a permutation of them.
   */
  method ListSortedByType(st: State, order: seq<string>) returns (r: seq<Device>)
    requires Listing.Enumerates(order, st.devices.Keys)
    ensures Listing.SortedByRank(r)
    ensures |r| == |st.devices|
    ensures forall d :: d in r <==> d in st.devices.Values
    ensures WellFormed(st) ==> multiset(r) == multiset(st.devices.Values)
  {
    var vs := Listing.Project(st.devices, order);
    r := Listing.SortByType(vs);
    Listing.EnumerationSize(order, st.devices.Keys);
    forall d
      ensures d in r <==> d in st.devices.Values
    {
      assert d in r <==> d in multiset(vs);
      if d in st.devices.Values {
        var k :| k in st.devices && st.devices[k] == d;
        var i :| 0 <= i < |order| && order[i] == k;
        assert vs[i] == d;
      }
    }
    if WellFormed(st) {
      forall d
        ensures multiset(r)[d] == multiset(st.devices.Values)[d]
      {
        if d in st.devices.Values {
          var k :| k in st.devices && st.devices[k] == d;
          Listing.ProjectCount(st.devices, order, k);
        }
      }
    }
  }

  // ---------------------------------------------------------------------
  // Register
  // ---------------------------------------------------------------------

  /** After a successful register the lookup returns exactly the new device; other lookups are unchanged. */
  lemma RegisterThenGet(st: State, t: DeviceType, mac: string, uplink: Option<string>, other: string)
    requires mac !in st.devices && other != mac
    ensures Register(st, Some(t), mac, uplink).Ok?
    ensures Get(Register(st, Some(t), mac, uplink).value.0, mac) == Ok(Device(Some(t), mac, uplink))
    ensures Get(Register(st, Some(t), mac, uplink).value.0, other) == Get(st, other)
  {
  }

  /** Registering a MAC twice fails the second time and keeps the first device. */
  lemma RegisterTwiceFails(st: State, t: DeviceType, t2: Option<DeviceType>, mac: string, u: Option<string>, u2: Option<string>)
    requires mac !in st.devices && t2.Some?
    ensures var st1 := Register(st, Some(t), mac, u).value.0;
      && Register(st1, t2, mac, u2) == Err(AlreadyExists)
      && Get(st1, mac) == Ok(Device(Some(t), mac, u))
  {
  }

  /**
   * Register's topology effect: with an uplink, the uplink's list (or an
   * empty one) gains the MAC at its end; without one, the MAC's own entry is
   * created empty only if absent. No other entry changes.
   */
  lemma RegisterLinking(st: State, t: Option<DeviceType>, mac: string, uplink: Option<string>)
    requires Register(st, t, mac, uplink).Ok?
    ensures var g := Register(st, t, mac, uplink).value.0.topology;
      && (uplink.Some? ==> uplink.value in g && g[uplink.value] == Children(st.topology, uplink.value) + [mac])
      && (uplink.None? ==> mac in g && g[mac] == Children(st.topology, mac))
      && (forall k | k in st.topology && k != (if uplink.Some? then uplink.value else mac) :: k in g && g[k] == st.topology[k])
      && (forall k | k in g :: k in st.topology || k == (if uplink.Some? then uplink.value else mac))
  {
  }

  /** Register keeps a registry well-formed and linked, given a valid MAC. */
  lemma RegisterPreservesInvariants(st: State, t: Option<DeviceType>, mac: string, uplink: Option<string>)
    requires WellFormed(st) && Linked(st) && ValidMac(mac)
    requires Register(st, t, mac, uplink).Ok?
    ensures WellFormed(Register(st, t, mac, uplink).value.0)
    ensures Linked(Register(st, t, mac, uplink).value.0)
  {
    var after := Register(st, t, mac, uplink).value.0;
    forall k | k in after.devices
      ensures Placed(after.topology, k, after.devices[k].uplink)
    {
      if k != mac {
        var u := st.devices[k].uplink;
        if u.Some? {
          LinkKeepsChildren(st.topology, mac, uplink, u.value, k);
        }
      }
    }
  }

  // ---------------------------------------------------------------------
  // Delete
  // ---------------------------------------------------------------------

  /** After a delete the MAC is no longer found; other lookups are unchanged. */
  lemma DeleteThenGet(st: State, mac: string, other: string)
    requires mac in st.devices && other != mac
    ensures Delete(st, mac).Ok?
    ensures Get(Delete(st, mac).value.0, mac) == Err(NotFound)
    ensures Get(Delete(st, mac).value.0, other) == Get(st, other)
  {
  }

  /**
   * A delete leaves the deleted device's own topology entry, with its former
   * children, in place: a tombstone key.
   */
  lemma DeleteKeepsTombstone(st: State, mac: string)
    requires mac in st.devices && mac in st.topology && mac !in st.topology[mac]
    ensures Delete(st, mac).Ok?
    ensures mac in Delete(st, mac).value.0.topology
    ensures Delete(st, mac).value.0.topology[mac] == st.topology[mac]
  {
  }

  /** Delete keeps a registry well-formed and linked. */
  lemma DeletePreservesInvariants(st: State, mac: string)
    requires WellFormed(st) && Linked(st) && mac in st.devices
    ensures WellFormed(Delete(st, mac).value.0)
    ensures Linked(Delete(st, mac).value.0)
  {
    var after := Delete(st, mac).value.0;
    forall k | k in after.devices
      ensures Placed(after.topology, k, after.devices[k].uplink)
    {
      SweepKeepsOthersPlaced(st.topology, mac, k, st.devices[k].uplink);
    }
  }

  // ---------------------------------------------------------------------
  // Update
  // ---------------------------------------------------------------------

  /** After an update the lookup returns the merged device; other lookups are unchanged. */
  lemma UpdateThenGet(st: State, d: Device, other: string)
    requires d.mac in st.devices && other != d.mac
    ensures Update(st, d).Ok?
    ensures Get(Update(st, d).value.0, d.mac) == Ok(Merged(st.devices[d.mac], d))
    ensures Get(Update(st, d).value.0, other) == Get(st, other)
  {
  }

  /** Update keeps a registry well-formed: no stored type is ever absent. */
  lemma UpdatePreservesWellFormed(st: State, d: Device)
    requires WellFormed(st) && Update(st, d).Ok?
    ensures WellFormed(Update(st, d).value.0)
  {
  }

  /** Sweeping a MAC out of the child lists keeps every other child listed. */
  lemma SweepKeepsOthersPlaced(g: Graph, x: string, k: string, uplink: Option<string>)
    requires Placed(g, k, uplink) && k != x
    ensures Placed(Sweep(g, x), k, uplink)
  {
    if uplink.Some? {
      SweepKeepsOthers(g, x, uplink.value, k);
    }
  }

  /** Update keeps a registry linked. */
  lemma UpdatePreservesLinked(st: State, d: Device)
    requires Linked(st) && Update(st, d).Ok?
    ensures Linked(Update(st, d).value.0)
  {
    var prev := st.devices[d.mac];
    var swept := if d.uplink != prev.uplink then Sweep(st.topology, d.mac) else st.topology;
    var after := Update(st, d).value.0;
    assert after.topology == Link(swept, d.mac, d.uplink);
    forall k | k in after.devices
      ensures Placed(after.topology, k, after.devices[k].uplink)
    {
      if k != d.mac {
        var u := st.devices[k].uplink;
        assert Placed(st.topology, k, u);
        if d.uplink != prev.uplink {
          SweepKeepsOthersPlaced(st.topology, d.mac, k, u);
        }
        if u.Some? {
          LinkKeepsChildren(swept, d.mac, d.uplink, u.value, k);
        }
      }
    }
  }

  /**
   * Re-parenting: when the uplink changes and the MAC occurred at most once
   * per child list, afterwards it is listed under the new uplink only (at
   * its end), or under no one with a root entry when the new uplink is absent.
   */
  lemma UpdateReparents(st: State, d: Device)
    requires d.mac in st.devices && d.uplink != st.devices[d.mac].uplink
    requires forall k | k in st.topology :: multiset(st.topology[k])[d.mac] <= 1
    ensures Update(st, d).Ok?
    ensures var g := Update(st, d).value.0.topology;
      match d.uplink
      case Some(u) =>
        && u in g && g[u][|g[u]| - 1] == d.mac && multiset(g[u])[d.mac] == 1
        && forall k | k in g && k != u :: d.mac !in g[k]
      case None =>
        && d.mac in g
        && forall k | k in g :: d.mac !in g[k]
  {
    var swept := Sweep(st.topology, d.mac);
    SweepRemovesSingleOccurrences(st.topology, d.mac);
    var g := Link(swept, d.mac, d.uplink);
    assert Update(st, d).value.0.topology == g;
    if d.uplink.Some? {
      var u := d.uplink.value;
      assert d.mac !in Children(swept, u);
      assert g[u] == Children(swept, u) + [d.mac];
      assert multiset(g[u]) == multiset(Children(swept, u)) + multiset{d.mac};
    }
  }

  /**
   * After a re-parenting update the previous parent's subtree lists the device
   * no longer among its children, and the new parent's subtree does.
   */
  lemma UpdateReparentsSubtrees(st: State, d: Device, oldParent: string)
    requires d.mac in st.devices && st.devices[d.mac].uplink == Some(oldParent)
    requires d.uplink != Some(oldParent)
    requires forall k | k in st.topology :: multiset(st.topology[k])[d.mac] <= 1
    requires oldParent in st.devices
    ensures Update(st, d).Ok?
    ensures var after := Update(st, d).value.0;
      && SubtreeTopology(after, oldParent).Ok?
      && d.mac !in SubtreeTopology(after, oldParent).value[oldParent]
      && (d.uplink.Some? && d.uplink.value in after.devices ==>
            d.mac in SubtreeTopology(after, d.uplink.value).value[d.uplink.value])
  {
    UpdateReparents(st, d);
    var after := Update(st, d).value.0;
    ReachableSelf(after.topology, oldParent);
    if d.uplink.Some? {
      ReachableSelf(after.topology, d.uplink.value);
    }
  }

  /**
   * An update that keeps the uplink skips the sweep but still appends, so
   * the parent's list gains a second entry for the device.
   */
  lemma UpdateSameUplinkAppendsAgain(st: State, d: Device)
    requires d.mac in st.devices && d.uplink == st.devices[d.mac].uplink && d.uplink.Some?
    ensures Update(st, d).Ok?
    ensures var g := Update(st, d).value.0.topology;
      multiset(g[d.uplink.value])[d.mac] == multiset(Children(st.topology, d.uplink.value))[d.mac] + 1
  {
  }
}
