/**
 * The entities of the physical topology as objects. Each holds its children
 * in a map keyed by identifier (last put wins, `null` ignored, removal by
 * identifier) and a `parent` back-reference that the owner, the copy
 * constructors and PhysicalTopology keep up to date. Identifiers never
 * change (`const id`); disks are the only entities with mutable figures.
 */
module Topology {
  import opened JavaLang
  import TopologyValues

  /** The parent of a disk: a rack (rack-level disk), a host (host-level disk) or none. */
  datatype StoreOwner = Detached | OnRack(rack: PhysicalRack) | OnHost(host: PhysicalHost)

  // ---------------------------------------------------------------- keyed maps

  /** Every entry sits under its own identifier, as `put(x.getUniqueIdentifier(), x)` leaves it. */
  ghost predicate StoresKeyed(m: map<string, PhysicalStore>) { forall k :: k in m ==> m[k].id == k }
  ghost predicate HostsKeyed(m: map<string, PhysicalHost>) { forall k :: k in m ==> m[k].id == k }
  ghost predicate RacksKeyed(m: map<string, PhysicalRack>) { forall k :: k in m ==> m[k].id == k }
  ghost predicate DataCentersKeyed(m: map<string, PhysicalDataCenter>) { forall k :: k in m ==> m[k].id == k }

  function StoreIds(list: seq<PhysicalStore>): (ids: seq<string>)
    ensures |ids| == |list| && forall i :: 0 <= i < |list| ==> ids[i] == list[i].id
  {
    seq(|list|, i requires 0 <= i < |list| => list[i].id)
  }

  function HostIds(list: seq<PhysicalHost>): (ids: seq<string>)
    ensures |ids| == |list| && forall i :: 0 <= i < |list| ==> ids[i] == list[i].id
  {
    seq(|list|, i requires 0 <= i < |list| => list[i].id)
  }

  function RackIds(list: seq<PhysicalRack>): (ids: seq<string>)
    ensures |ids| == |list| && forall i :: 0 <= i < |list| ==> ids[i] == list[i].id
  {
    seq(|list|, i requires 0 <= i < |list| => list[i].id)
  }

  function DataCenterIds(list: seq<PhysicalDataCenter>): (ids: seq<string>)
    ensures |ids| == |list| && forall i :: 0 <= i < |list| ==> ids[i] == list[i].id
  {
    seq(|list|, i requires 0 <= i < |list| => list[i].id)
  }

  // ---------------------------------------------------------------- nodes below a node

  /** The disks of the given hosts. */
  ghost function DisksOfHosts(hosts: set<PhysicalHost>): set<PhysicalStore>
    reads hosts`disks
  {
    set h, s | h in hosts && s in h.disks.Values :: s
  }

  /** The hosts of the given racks. */
  ghost function HostsOfRacks(racks: set<PhysicalRack>): set<PhysicalHost>
    reads racks`cpus
  {
    set r, h | r in racks && h in r.cpus.Values :: h
  }

  /** The disks held by the given racks themselves. */
  ghost function DisksOfRacks(racks: set<PhysicalRack>): set<PhysicalStore>
    reads racks`disks
  {
    set r, s | r in racks && s in r.disks.Values :: s
  }

  /** The racks of the given data centers. */
  ghost function RacksOfDataCenters(dcs: set<PhysicalDataCenter>): set<PhysicalRack>
    reads dcs`racks
  {
    set dc, r | dc in dcs && r in dc.racks.Values :: r
  }

  // ---------------------------------------------------------------- parent links

  /** Every disk of the host has the host as parent. */
  ghost predicate HostLinked(h: PhysicalHost)
    reads h`disks, h.disks.Values`parent
  {
    forall k :: k in h.disks ==> h.disks[k].parent == OnHost(h)
  }

  /** Every rack-level disk and every host of the rack has the rack as parent, and every host is linked. */
  ghost predicate RackLinked(r: PhysicalRack)
    reads r`cpus, r`disks, r.disks.Values`parent, r.cpus.Values`parent, r.cpus.Values`disks, DisksOfHosts(r.cpus.Values)`parent
  {
    && (forall k :: k in r.disks ==> r.disks[k].parent == OnRack(r))
    && (forall k :: k in r.cpus ==> r.cpus[k].parent == r && HostLinked(r.cpus[k]))
  }

  /** Every rack of the data center has it as parent and is linked. */
  ghost predicate DataCenterLinked(dc: PhysicalDataCenter)
    reads dc`racks, dc.racks.Values`parent, dc.racks.Values`cpus, dc.racks.Values`disks, DisksOfRacks(dc.racks.Values)`parent
    reads HostsOfRacks(dc.racks.Values)`parent, HostsOfRacks(dc.racks.Values)`disks, DisksOfHosts(HostsOfRacks(dc.racks.Values))`parent
  {
    forall k :: k in dc.racks ==> dc.racks[k].parent == dc && RackLinked(dc.racks[k])
  }

  /** Every data center of the root has it as parent and is linked: each node below the root has as parent the node holding it. */
  ghost predicate RootLinked(root: PhysicalRoot)
    reads root`dataCenters, root.dataCenters.Values`parent, root.dataCenters.Values`racks
    reads RacksOfDataCenters(root.dataCenters.Values)`parent, RacksOfDataCenters(root.dataCenters.Values)`cpus
    reads RacksOfDataCenters(root.dataCenters.Values)`disks, DisksOfRacks(RacksOfDataCenters(root.dataCenters.Values))`parent
    reads HostsOfRacks(RacksOfDataCenters(root.dataCenters.Values))`parent, HostsOfRacks(RacksOfDataCenters(root.dataCenters.Values))`disks
    reads DisksOfHosts(HostsOfRacks(RacksOfDataCenters(root.dataCenters.Values)))`parent
  {
    forall k :: k in root.dataCenters ==> root.dataCenters[k].parent == root && DataCenterLinked(root.dataCenters[k])
  }

  // ---------------------------------------------------------------- value images

  /** The value image of a disk map: each disk's identifier and figures, under its key. */
  ghost function StoresValue(m: map<string, PhysicalStore>): map<string, TopologyValues.StoreV>
    reads m.Values`capacity, m.Values`used
  {
    map k | k in m :: TopologyValues.StoreV(m[k].id, m[k].capacity, m[k].used)
  }

  /** The value image of a host and its disks. */
  ghost function HostValue(h: PhysicalHost): TopologyValues.HostV
    reads h`disks, h.disks.Values`capacity, h.disks.Values`used
  {
    TopologyValues.HostV(h.id, h.cpuUsage, h.memUsage, StoresValue(h.disks))
  }

  /** The value image of a host map. */
  ghost function HostsValue(m: map<string, PhysicalHost>): map<string, TopologyValues.HostV>
    reads m.Values`disks, DisksOfHosts(m.Values)`capacity, DisksOfHosts(m.Values)`used
  {
    map k | k in m :: HostValue(m[k])
  }

  /** The value image of a rack, its hosts and all its disks. */
  ghost function RackValue(r: PhysicalRack): TopologyValues.RackV
    reads r`cpus, r`disks, r.cpus.Values`disks, r.disks.Values`capacity, r.disks.Values`used
    reads DisksOfHosts(r.cpus.Values)`capacity, DisksOfHosts(r.cpus.Values)`used
  {
    TopologyValues.RackV(r.id, HostsValue(r.cpus), StoresValue(r.disks))
  }

  /** The value image of a rack map. */
  ghost function RacksValue(m: map<string, PhysicalRack>): map<string, TopologyValues.RackV>
    reads m.Values`cpus, m.Values`disks, HostsOfRacks(m.Values)`disks
    reads DisksOfRacks(m.Values)`capacity, DisksOfRacks(m.Values)`used
    reads DisksOfHosts(HostsOfRacks(m.Values))`capacity, DisksOfHosts(HostsOfRacks(m.Values))`used
  {
    map k | k in m :: RackValue(m[k])
  }

  /** The value image of a data center and everything below it. */
  ghost function DataCenterValue(dc: PhysicalDataCenter): TopologyValues.DataCenterV
    reads dc`racks, dc.racks.Values`cpus, dc.racks.Values`disks, HostsOfRacks(dc.racks.Values)`disks
    reads DisksOfRacks(dc.racks.Values)`capacity, DisksOfRacks(dc.racks.Values)`used
    reads DisksOfHosts(HostsOfRacks(dc.racks.Values))`capacity, DisksOfHosts(HostsOfRacks(dc.racks.Values))`used
  {
    TopologyValues.DataCenterV(dc.id, RacksValue(dc.racks))
  }

  /** The value image of a data-center map. */
  ghost function DataCentersValue(m: map<string, PhysicalDataCenter>): map<string, TopologyValues.DataCenterV>
    reads m.Values`racks, RacksOfDataCenters(m.Values)`cpus, RacksOfDataCenters(m.Values)`disks
    reads HostsOfRacks(RacksOfDataCenters(m.Values))`disks
    reads DisksOfRacks(RacksOfDataCenters(m.Values))`capacity, DisksOfRacks(RacksOfDataCenters(m.Values))`used
    reads DisksOfHosts(HostsOfRacks(RacksOfDataCenters(m.Values)))`capacity
    reads DisksOfHosts(HostsOfRacks(RacksOfDataCenters(m.Values)))`used
  {
    map k | k in m :: DataCenterValue(m[k])
  }

  /** The value image of a root and the whole tree below it. */
  ghost function RootValue(root: PhysicalRoot): TopologyValues.RootV
    reads root`dataCenters, root.dataCenters.Values`racks
    reads RacksOfDataCenters(root.dataCenters.Values)`cpus, RacksOfDataCenters(root.dataCenters.Values)`disks
    reads HostsOfRacks(RacksOfDataCenters(root.dataCenters.Values))`disks
    reads DisksOfRacks(RacksOfDataCenters(root.dataCenters.Values))`capacity
    reads DisksOfRacks(RacksOfDataCenters(root.dataCenters.Values))`used
    reads DisksOfHosts(HostsOfRacks(RacksOfDataCenters(root.dataCenters.Values)))`capacity
    reads DisksOfHosts(HostsOfRacks(RacksOfDataCenters(root.dataCenters.Values)))`used
  {
    TopologyValues.RootV(root.id, DataCentersValue(root.dataCenters))
  }

  // ---------------------------------------------------------------- values depend only on what they read

  twostate lemma StoresValueUnchanged(m: map<string, PhysicalStore>)
    requires unchanged(m.Values`capacity, m.Values`used)
    ensures StoresValue(m) == old(StoresValue(m))
  {
  }

  twostate lemma RackValueUnchanged(r: PhysicalRack)
    requires unchanged(r`cpus, r`disks, old(r.cpus.Values)`disks)
    requires unchanged(old(r.disks.Values)`capacity, old(r.disks.Values)`used)
    requires unchanged(old(DisksOfHosts(r.cpus.Values))`capacity, old(DisksOfHosts(r.cpus.Values))`used)
    ensures DisksOfHosts(r.cpus.Values) == old(DisksOfHosts(r.cpus.Values))
    ensures RackValue(r) == old(RackValue(r))
    ensures RackKeyed(r) == old(RackKeyed(r))
  {
  }

  twostate lemma RacksValueUnchanged(m: map<string, PhysicalRack>)
    requires unchanged(m.Values`cpus, m.Values`disks)
    requires unchanged(old(HostsOfRacks(m.Values)), old(DisksOfRacks(m.Values)), old(DisksOfHosts(HostsOfRacks(m.Values))))
    ensures RacksValue(m) == old(RacksValue(m))
    ensures RacksDeepKeyed(m) == old(RacksDeepKeyed(m))
  {
  }

  twostate lemma RackSetsUnchanged(m: map<string, PhysicalRack>)
    requires unchanged(m.Values`cpus, m.Values`disks, old(HostsOfRacks(m.Values))`disks)
    ensures HostsOfRacks(m.Values) == old(HostsOfRacks(m.Values))
    ensures DisksOfRacks(m.Values) == old(DisksOfRacks(m.Values))
    ensures DisksOfHosts(HostsOfRacks(m.Values)) == old(DisksOfHosts(HostsOfRacks(m.Values)))
  {
  }

  twostate lemma DataCenterValueUnchanged(dc: PhysicalDataCenter)
    requires unchanged(dc`racks) && unchanged(old(dc.racks.Values)) && unchanged(old(HostsOfRacks(dc.racks.Values)))
    requires unchanged(old(DisksOfRacks(dc.racks.Values))) && unchanged(old(DisksOfHosts(HostsOfRacks(dc.racks.Values))))
    ensures HostsOfRacks(dc.racks.Values) == old(HostsOfRacks(dc.racks.Values))
    ensures DisksOfRacks(dc.racks.Values) == old(DisksOfRacks(dc.racks.Values))
    ensures DisksOfHosts(HostsOfRacks(dc.racks.Values)) == old(DisksOfHosts(HostsOfRacks(dc.racks.Values)))
    ensures DataCenterValue(dc) == old(DataCenterValue(dc))
    ensures DataCenterKeyed(dc) == old(DataCenterKeyed(dc)) && DataCenterLinked(dc) == old(DataCenterLinked(dc))
  {
  }

  twostate lemma DataCentersValueUnchanged(m: map<string, PhysicalDataCenter>)
    requires unchanged(m.Values`racks, old(RacksOfDataCenters(m.Values))`cpus, old(RacksOfDataCenters(m.Values))`disks)
    requires unchanged(old(HostsOfRacks(RacksOfDataCenters(m.Values)))`disks)
    requires unchanged(old(DisksOfRacks(RacksOfDataCenters(m.Values)))`capacity)
    requires unchanged(old(DisksOfRacks(RacksOfDataCenters(m.Values)))`used)
    requires unchanged(old(DisksOfHosts(HostsOfRacks(RacksOfDataCenters(m.Values))))`capacity)
    requires unchanged(old(DisksOfHosts(HostsOfRacks(RacksOfDataCenters(m.Values))))`used)
    ensures DataCentersValue(m) == old(DataCentersValue(m))
    ensures DataCentersDeepKeyed(m) == old(DataCentersDeepKeyed(m))
  {
  }

  twostate lemma DataCenterSetsUnchanged(m: map<string, PhysicalDataCenter>)
    requires unchanged(m.Values`racks, old(RacksOfDataCenters(m.Values))`cpus, old(RacksOfDataCenters(m.Values))`disks)
    requires unchanged(old(HostsOfRacks(RacksOfDataCenters(m.Values)))`disks)
    ensures RacksOfDataCenters(m.Values) == old(RacksOfDataCenters(m.Values))
    ensures HostsOfRacks(RacksOfDataCenters(m.Values)) == old(HostsOfRacks(RacksOfDataCenters(m.Values)))
    ensures DisksOfRacks(RacksOfDataCenters(m.Values)) == old(DisksOfRacks(RacksOfDataCenters(m.Values)))
    ensures DisksOfHosts(HostsOfRacks(RacksOfDataCenters(m.Values))) == old(DisksOfHosts(HostsOfRacks(RacksOfDataCenters(m.Values))))
  {
  }

  /** Changing nothing but a data center leaves the value of every rack map, and the nodes below it, as they were. */
  twostate lemma RacksKeptBesides(m: map<string, PhysicalRack>, new dc: PhysicalDataCenter)
    requires forall o: object {:trigger old(allocated(o))} :: old(allocated(o)) && o != dc ==> unchanged(o)
    ensures HostsOfRacks(m.Values) == old(HostsOfRacks(m.Values))
    ensures DisksOfRacks(m.Values) == old(DisksOfRacks(m.Values))
    ensures DisksOfHosts(HostsOfRacks(m.Values)) == old(DisksOfHosts(HostsOfRacks(m.Values)))
    ensures RacksValue(m) == old(RacksValue(m))
    ensures RacksDeepKeyed(m) == old(RacksDeepKeyed(m))
  {
    forall o: object | o in m.Values || o in old(HostsOfRacks(m.Values)) ensures unchanged(o) {
      assert old(allocated(o));
    }
    forall o: object | o in old(DisksOfRacks(m.Values)) || o in old(DisksOfHosts(HostsOfRacks(m.Values))) ensures unchanged(o) {
      assert old(allocated(o));
    }
    RackSetsUnchanged(m);
    RacksValueUnchanged(m);
  }

  /** Putting a rack into a map puts its value into the map's value. */
  lemma RacksValuePut(m: map<string, PhysicalRack>, k: string, r: PhysicalRack)
    ensures RacksValue(m[k := r]) == RacksValue(m)[k := RackValue(r)]
  {
    var after, next := RacksValue(m[k := r]), RacksValue(m)[k := RackValue(r)];
    assert after.Keys == next.Keys;
    forall j | j in after ensures after[j] == next[j] {
    }
  }

  /** Putting a data center into a map puts its value into the map's value. */
  lemma DataCentersValuePut(m: map<string, PhysicalDataCenter>, k: string, dc: PhysicalDataCenter)
    ensures DataCentersValue(m[k := dc]) == DataCentersValue(m)[k := DataCenterValue(dc)]
  {
    var after, next := DataCentersValue(m[k := dc]), DataCentersValue(m)[k := DataCenterValue(dc)];
    assert after.Keys == next.Keys;
    forall j | j in after ensures after[j] == next[j] {
    }
  }

  /** `o` is no node below a root: not a data center, a rack, a host or a disk. */
  ghost predicate AboveNodes(o: object)
  {
    !(o is PhysicalDataCenter) && !(o is PhysicalRack) && !(o is PhysicalHost) && !(o is PhysicalStore)
  }

  /** Changing nothing but one object, not a data center or below one, leaves the value of every data-center map as it was. */
  twostate lemma DataCentersKeptBesides(m: map<string, PhysicalDataCenter>, new changed: object)
    requires AboveNodes(changed)
    requires forall o: object {:trigger old(allocated(o))} :: old(allocated(o)) && o != changed ==> unchanged(o)
    ensures RacksOfDataCenters(m.Values) == old(RacksOfDataCenters(m.Values))
    ensures HostsOfRacks(RacksOfDataCenters(m.Values)) == old(HostsOfRacks(RacksOfDataCenters(m.Values)))
    ensures DisksOfRacks(RacksOfDataCenters(m.Values)) == old(DisksOfRacks(RacksOfDataCenters(m.Values)))
    ensures DisksOfHosts(HostsOfRacks(RacksOfDataCenters(m.Values))) == old(DisksOfHosts(HostsOfRacks(RacksOfDataCenters(m.Values))))
    ensures DataCentersValue(m) == old(DataCentersValue(m))
    ensures DataCentersDeepKeyed(m) == old(DataCentersDeepKeyed(m))
  {
    forall o: object | o in m.Values || o in old(RacksOfDataCenters(m.Values)) ensures unchanged(o) {
      assert old(allocated(o));
    }
    forall o: object | o in old(HostsOfRacks(RacksOfDataCenters(m.Values))) || o in old(DisksOfRacks(RacksOfDataCenters(m.Values))) ensures unchanged(o) {
      assert old(allocated(o));
    }
    forall o: object | o in old(DisksOfHosts(HostsOfRacks(RacksOfDataCenters(m.Values)))) ensures unchanged(o) {
      assert old(allocated(o));
    }
    DataCenterSetsUnchanged(m);
    DataCentersValueUnchanged(m);
  }

  /** A tree whose maps and disk figures are untouched (its `parent` references may change) keeps its value. */
  twostate lemma RootValueUnchanged(root: PhysicalRoot)
    requires unchanged(root`dataCenters, old(root.dataCenters.Values)`racks)
    requires unchanged(old(RacksOfDataCenters(root.dataCenters.Values))`cpus, old(RacksOfDataCenters(root.dataCenters.Values))`disks)
    requires unchanged(old(HostsOfRacks(RacksOfDataCenters(root.dataCenters.Values)))`disks)
    requires unchanged(old(DisksOfRacks(RacksOfDataCenters(root.dataCenters.Values)))`capacity)
    requires unchanged(old(DisksOfRacks(RacksOfDataCenters(root.dataCenters.Values)))`used)
    requires unchanged(old(DisksOfHosts(HostsOfRacks(RacksOfDataCenters(root.dataCenters.Values))))`capacity)
    requires unchanged(old(DisksOfHosts(HostsOfRacks(RacksOfDataCenters(root.dataCenters.Values))))`used)
    ensures RootValue(root) == old(RootValue(root))
    ensures RootKeyed(root) == old(RootKeyed(root))
  {
    DataCentersValueUnchanged(root.dataCenters);
  }

  /** Where no object that existed before has changed but `changed`, a tree not rooted at `changed` keeps its value. */
  twostate lemma RootKeptBesides(root: PhysicalRoot, new changed: object)
    requires root != changed && AboveNodes(changed)
    requires forall o: object {:trigger old(allocated(o))} :: old(allocated(o)) && o != changed ==> unchanged(o)
    ensures RootValue(root) == old(RootValue(root))
    ensures RootKeyed(root) == old(RootKeyed(root))
  {
    var node: object := root;
    assert old(allocated(node));
    DataCentersKeptBesides(root.dataCenters, changed);
  }

  /** Every host of the map keys its disks by identifier. */
  ghost predicate HostDisksKeyed(m: map<string, PhysicalHost>)
    reads m.Values`disks
  {
    forall k :: k in m ==> StoresKeyed(m[k].disks)
  }

  /** Every map of the rack, and of each of its hosts, is keyed by identifier. */
  ghost predicate RackKeyed(r: PhysicalRack)
    reads r`cpus, r`disks, r.cpus.Values`disks
  {
    HostsKeyed(r.cpus) && StoresKeyed(r.disks) && HostDisksKeyed(r.cpus)
  }

  /** Every rack of the map is keyed all the way down. */
  ghost predicate RacksDeepKeyed(m: map<string, PhysicalRack>)
    reads m.Values`cpus, m.Values`disks, HostsOfRacks(m.Values)`disks
  {
    forall k :: k in m ==> RackKeyed(m[k])
  }

  /** Every map of the data center and of everything below it is keyed by identifier. */
  ghost predicate DataCenterKeyed(dc: PhysicalDataCenter)
    reads dc`racks, dc.racks.Values`cpus, dc.racks.Values`disks, HostsOfRacks(dc.racks.Values)`disks
  {
    RacksKeyed(dc.racks) && RacksDeepKeyed(dc.racks)
  }

  /** Every data center of the map is keyed all the way down. */
  ghost predicate DataCentersDeepKeyed(m: map<string, PhysicalDataCenter>)
    reads m.Values`racks, RacksOfDataCenters(m.Values)`cpus, RacksOfDataCenters(m.Values)`disks
    reads HostsOfRacks(RacksOfDataCenters(m.Values))`disks
  {
    forall k :: k in m ==> DataCenterKeyed(m[k])
  }

  /** Every map of the tree is keyed by identifier. */
  ghost predicate RootKeyed(root: PhysicalRoot)
    reads root`dataCenters, root.dataCenters.Values`racks
    reads RacksOfDataCenters(root.dataCenters.Values)`cpus, RacksOfDataCenters(root.dataCenters.Values)`disks
    reads HostsOfRacks(RacksOfDataCenters(root.dataCenters.Values))`disks
  {
    DataCentersKeyed(root.dataCenters) && DataCentersDeepKeyed(root.dataCenters)
  }

  // ---------------------------------------------------------------- PhysicalStore

  class PhysicalStore {
    const id: string
    var parent: StoreOwner
    var capacity: int64
    var used: int64

    /** The builder's constructor: every field exactly as given, no bounds checked. */
    constructor (id: string, parent: StoreOwner, capacity: int64, used: int64)
      ensures this.id == id && this.parent == parent
      ensures this.capacity == capacity && this.used == used
    {
      this.id, this.parent, this.capacity, this.used := id, parent, capacity, used;
    }

    /** The copy constructor: same identifier, capacity and used; no parent. */
    constructor Copy(other: PhysicalStore)
      ensures id == other.id && capacity == other.capacity && used == other.used
      ensures parent == Detached
    {
      id, capacity, used, parent := other.id, other.capacity, other.used, Detached;
    }

    method SetParent(p: StoreOwner)
      modifies this`parent
      ensures parent == p
    {
      parent := p;
    }

    method SetCapacity(c: int64)
      modifies this`capacity
      ensures capacity == c
    {
      capacity := c;
    }

    method SetUsed(u: int64)
      modifies this`used
      ensures used == u
    {
      used := u;
    }

    function HashCode(): (r: int32)
      ensures r == Wrap(HashPolynomial(id))
    {
      StringHash(id)
    }

    /** Equal to every disk with the same identifier, whatever its other fields. */
    function Equals(that: object?): (r: bool)
      ensures that == this ==> r
      ensures r ==> that is PhysicalStore && (that as PhysicalStore).HashCode() == HashCode()
      ensures r <==> that is PhysicalStore && (that as PhysicalStore).id == id
    {
      that is PhysicalStore && (that as PhysicalStore).id == id
    }
  }

  /** Keyed disk maps under the same keys with the same figures have the same value. */
  lemma SameStoresValue(m: map<string, PhysicalStore>, source: map<string, PhysicalStore>)
    requires StoresKeyed(m) && StoresKeyed(source) && m.Keys == source.Keys
    requires forall k :: k in m ==> m[k].capacity == source[k].capacity && m[k].used == source[k].used
    ensures StoresValue(m) == StoresValue(source)
  {
  }

  /**
   * The list constructor of PhysicalResourceWithDisks: a fresh copy of each
   * listed disk, owned by `owner`, put under its identifier in list order;
   * the result holds, key by key, a copy of what those puts leave in a map
   * (of several disks with one identifier the last one wins).
   */
  method CopyDisks(list: seq<PhysicalStore>, owner: StoreOwner) returns (m: map<string, PhysicalStore>)
    ensures StoresKeyed(m) && m.Keys == PutAll(StoreIds(list), list).Keys
    ensures forall k :: k in m ==> fresh(m[k]) && m[k].parent == owner
    ensures forall k :: k in m ==>
      var s := PutAll(StoreIds(list), list)[k];
      m[k].capacity == s.capacity && m[k].used == s.used
  {
    m := map[];
    ghost var last: map<string, PhysicalStore> := map[];
    for i := 0 to |list|
      invariant last == PutAll(StoreIds(list)[..i], list[..i])
      invariant StoresKeyed(m) && m.Keys == last.Keys
      invariant forall k :: k in m ==> fresh(m[k]) && m[k].parent == owner
      invariant forall k :: k in m ==> m[k].capacity == last[k].capacity && m[k].used == last[k].used
    {
      var copy := new PhysicalStore.Copy(list[i]);
      copy.SetParent(owner);
      m := m[copy.id := copy];
      last := last[list[i].id := list[i]];
      PutAllStep(StoreIds(list), list, i);
    }
    assert StoreIds(list)[..|list|] == StoreIds(list) && list[..|list|] == list;
  }

  /**
   * `new PhysicalResourceWithDisks(id, other.getDisks())` as the copy
   * constructors use it: the disks of `source` copied for `owner`; from a map
   * keyed by identifier, under the same keys with the same figures.
   */
  method CopyDiskMap(source: map<string, PhysicalStore>, owner: StoreOwner) returns (m: map<string, PhysicalStore>)
    ensures StoresKeyed(m)
    ensures forall k :: k in m ==> fresh(m[k]) && m[k].parent == owner
    ensures StoresKeyed(source) ==> m.Keys == source.Keys
    ensures StoresKeyed(source) ==> forall k :: k in m ==>
      m[k].capacity == source[k].capacity && m[k].used == source[k].used
    ensures StoresKeyed(source) ==> StoresValue(m) == StoresValue(source)
  {
    var list, keys := ValuesOf(source);
    m := CopyDisks(list, owner);
    if StoresKeyed(source) {
      assert StoreIds(list) == keys;
      ListedPutAll(list, source, keys);
      SameStoresValue(m, source);
    }
  }

  // ---------------------------------------------------------------- PhysicalHost

  class PhysicalHost {
    const id: string
    var parent: PhysicalRack?
    const cpuUsage: real
    const memUsage: real
    var disks: map<string, PhysicalStore>

    /** The builder's constructor: adopts the given disk map. */
    constructor (id: string, parent: PhysicalRack?, disks: map<string, PhysicalStore>, cpuUsage: real, memUsage: real)
      ensures this.id == id && this.parent == parent && this.disks == disks
      ensures this.cpuUsage == cpuUsage && this.memUsage == memUsage
    {
      this.id, this.parent, this.disks, this.cpuUsage, this.memUsage := id, parent, disks, cpuUsage, memUsage;
    }

    /**
     * The copy constructor: same identifier and usage figures, no parent, and
     * a fresh copy of every disk, owned by the new host.
     */
    constructor Copy(other: PhysicalHost)
      ensures id == other.id && cpuUsage == other.cpuUsage && memUsage == other.memUsage
      ensures parent == null
      ensures StoresKeyed(disks)
      ensures forall k :: k in disks ==> fresh(disks[k]) && disks[k].parent == OnHost(this)
      ensures fresh(disks.Values) && HostLinked(this)
      ensures StoresKeyed(other.disks) ==> disks.Keys == other.disks.Keys
      ensures StoresKeyed(other.disks) ==> forall k :: k in disks ==>
        disks[k].capacity == other.disks[k].capacity && disks[k].used == other.disks[k].used
      ensures StoresKeyed(other.disks) ==> HostValue(this) == HostValue(other)
    {
      id, parent, cpuUsage, memUsage := other.id, null, other.cpuUsage, other.memUsage;
      new;
      disks := CopyDiskMap(other.disks, OnHost(this));
      if StoresKeyed(other.disks) {
        SameStoresValue(disks, other.disks);
      }
    }

    method SetParent(p: PhysicalRack?)
      modifies this`parent
      ensures parent == p
    {
      parent := p;
    }

    /** A fresh list of the disks. */
    method GetDisks() returns (list: seq<PhysicalStore>, ghost keys: seq<string>)
      ensures ListsValues(list, disks, keys)
      ensures |list| == |disks|
      ensures forall i :: 0 <= i < |list| ==> list[i] in disks.Values
      ensures forall k :: k in disks ==> disks[k] in list
    {
      list, keys := ValuesOf(disks);
    }

    /** Puts the disk under its identifier; `null` is ignored. */
    method AddDisk(disk: PhysicalStore?)
      modifies this`disks
      ensures disk == null ==> disks == old(disks)
      ensures disk != null ==> disks == old(disks)[disk.id := disk]
      ensures StoresKeyed(old(disks)) ==> StoresKeyed(disks)
    {
      if disk != null {
        disks := disks[disk.id := disk];
      }
    }

    /** Removes whatever sits under the disk's identifier; `null` is ignored. */
    method RemoveDisk(disk: PhysicalStore?)
      modifies this`disks
      ensures disk == null ==> disks == old(disks)
      ensures disk != null ==> disks == old(disks) - {disk.id}
      ensures StoresKeyed(old(disks)) ==> StoresKeyed(disks)
    {
      if disk != null {
        disks := disks - {disk.id};
      }
    }

    function HashCode(): (r: int32)
      ensures r == Wrap(HashPolynomial(id))
    {
      StringHash(id)
    }

    /** Equal to every host with the same identifier, whatever its other fields. */
    function Equals(that: object?): (r: bool)
      ensures that == this ==> r
      ensures r ==> that is PhysicalHost && (that as PhysicalHost).HashCode() == HashCode()
      ensures r <==> that is PhysicalHost && (that as PhysicalHost).id == id
    {
      that is PhysicalHost && (that as PhysicalHost).id == id
    }
  }

  /** `copy` has the value of `host` when `host`'s disks are keyed. */
  ghost predicate CopiedHost(copy: PhysicalHost, host: PhysicalHost)
    reads copy`disks, copy.disks.Values`capacity, copy.disks.Values`used
    reads host`disks, host.disks.Values`capacity, host.disks.Values`used
  {
    StoresKeyed(host.disks) ==> HostValue(copy) == HostValue(host)
  }

  /**
   * PhysicalRack's copy loop over a host listing: a fresh copy of each host
   * with `owner` as parent, put under its identifier in list order.
   */
  method CopyHosts(list: seq<PhysicalHost>, owner: PhysicalRack) returns (m: map<string, PhysicalHost>)
    ensures HostsKeyed(m) && m.Keys == PutAll(HostIds(list), list).Keys
    ensures forall k :: k in m ==> fresh(m[k]) && m[k].parent == owner && fresh(m[k].disks.Values)
    ensures forall k :: k in m ==> StoresKeyed(m[k].disks) && HostLinked(m[k])
    ensures forall k :: k in m ==>
      var h := PutAll(HostIds(list), list)[k];
      m[k].cpuUsage == h.cpuUsage && m[k].memUsage == h.memUsage
    ensures forall k :: k in m ==>
      var h := PutAll(HostIds(list), list)[k];
      StoresKeyed(h.disks) ==> HostValue(m[k]) == HostValue(h)
  {
    m := map[];
    ghost var last: map<string, PhysicalHost> := map[];
    for i := 0 to |list|
      invariant last == PutAll(HostIds(list)[..i], list[..i])
      invariant HostCopies(m, last, owner)
      invariant forall k :: k in m ==> fresh(m[k]) && fresh(m[k].disks.Values)
    {
      var copy;
      m, copy := PutHostCopy(m, last, list[i], owner);
      last := last[list[i].id := list[i]];
      PutAllStep(HostIds(list), list, i);
    }
    assert HostIds(list)[..|list|] == HostIds(list) && list[..|list|] == list;
  }

  /**
   * Each host of `m` is a copy of the host under the same key in `last`:
   * owned by `owner`, with the same usage figures, keyed disks and, when
   * the original's disks are keyed, the same value.
   */
  ghost predicate HostCopies(m: map<string, PhysicalHost>, last: map<string, PhysicalHost>, owner: PhysicalRack)
    reads m.Values, DisksOfHosts(m.Values)`capacity, DisksOfHosts(m.Values)`used, DisksOfHosts(m.Values)`parent
    reads last.Values`disks, DisksOfHosts(last.Values)`capacity, DisksOfHosts(last.Values)`used
  {
    && HostsKeyed(m) && m.Keys == last.Keys
    && forall k :: k in m ==>
      && m[k].parent == owner && m[k].cpuUsage == last[k].cpuUsage && m[k].memUsage == last[k].memUsage
      && StoresKeyed(m[k].disks) && HostLinked(m[k]) && CopiedHost(m[k], last[k])
  }

  /** `copy = new PhysicalHost(cpu); copy.setParent(owner)`. */
  method CopyHostOwnedBy(host: PhysicalHost, owner: PhysicalRack) returns (copy: PhysicalHost)
    ensures fresh(copy) && fresh(copy.disks.Values) && copy.id == host.id && copy.parent == owner
    ensures copy.cpuUsage == host.cpuUsage && copy.memUsage == host.memUsage
    ensures StoresKeyed(copy.disks) && HostLinked(copy) && CopiedHost(copy, host)
  {
    copy := new PhysicalHost.Copy(host);
    copy.SetParent(owner);
  }

  /** One turn of PhysicalRack's copy loop: a copy of `host`, owned by `owner`, put under its identifier. */
  method PutHostCopy(m: map<string, PhysicalHost>, ghost last: map<string, PhysicalHost>, host: PhysicalHost, owner: PhysicalRack)
    returns (grown: map<string, PhysicalHost>, copy: PhysicalHost)
    requires HostCopies(m, last, owner)
    ensures HostCopies(grown, last[host.id := host], owner)
    ensures grown == m[host.id := copy] && fresh(copy) && fresh(copy.disks.Values)
  {
    copy := CopyHostOwnedBy(host, owner);
    grown := m[copy.id := copy];
  }

  /** The value of a host map depends only on its hosts and their disks. */
  twostate lemma HostsValueUnchanged(m: map<string, PhysicalHost>)
    requires unchanged(m.Values, old(DisksOfHosts(m.Values)))
    ensures HostsValue(m) == old(HostsValue(m))
  {
  }

  /** Where no object that existed before has changed but `changed`, which is no host and no disk, a host map keeps its value. */
  twostate lemma HostsKeptBesides(m: map<string, PhysicalHost>, new changed: object)
    requires !(changed is PhysicalHost) && !(changed is PhysicalStore)
    requires forall o: object {:trigger old(allocated(o))} :: old(allocated(o)) && o != changed ==> unchanged(o)
    ensures HostsValue(m) == old(HostsValue(m))
  {
    forall o: object | o in m.Values ensures unchanged(o) {
      assert old(allocated(o));
    }
    forall o: object | o in old(DisksOfHosts(m.Values)) ensures unchanged(o) {
      assert old(allocated(o));
    }
    HostsValueUnchanged(m);
  }

  /** Putting a host into a map puts its value into the map's value. */
  lemma HostsValuePut(m: map<string, PhysicalHost>, k: string, h: PhysicalHost)
    ensures HostsValue(m[k := h]) == HostsValue(m)[k := HostValue(h)]
  {
    var after, next := HostsValue(m[k := h]), HostsValue(m)[k := HostValue(h)];
    assert after.Keys == next.Keys;
    forall j | j in after ensures after[j] == next[j] {
    }
  }

  /** Host maps under the same keys whose hosts have, key by key, the same value, have the same value. */
  lemma SameHostsValue(m: map<string, PhysicalHost>, source: map<string, PhysicalHost>)
    requires m.Keys == source.Keys && forall k :: k in m ==> HostValue(m[k]) == HostValue(source[k])
    ensures HostsValue(m) == HostsValue(source)
  {
  }

  /**
   * The hosts of PhysicalRack's copy constructor, copied from the
   * `getCPUs()` listing of `source`; from a map keyed by identifier, under
   * the same keys with the same usage figures and, when every host keys its
   * disks, the same value.
   */
  method CopyHostMap(source: map<string, PhysicalHost>, owner: PhysicalRack) returns (m: map<string, PhysicalHost>)
    ensures HostsKeyed(m) && forall k :: k in m ==> StoresKeyed(m[k].disks) && HostLinked(m[k])
    ensures forall k :: k in m ==> fresh(m[k]) && m[k].parent == owner && fresh(m[k].disks.Values)
    ensures HostsKeyed(source) ==> m.Keys == source.Keys
    ensures HostsKeyed(source) ==> forall k :: k in m ==>
      m[k].cpuUsage == source[k].cpuUsage && m[k].memUsage == source[k].memUsage
    ensures HostsKeyed(source) && HostDisksKeyed(source) ==> HostsValue(m) == HostsValue(source)
  {
    var list, keys := ValuesOf(source);
    m := CopyHosts(list, owner);
    if HostsKeyed(source) {
      assert HostIds(list) == keys;
      ListedPutAll(list, source, keys);
      if HostDisksKeyed(source) {
        SameHostsValue(m, source);
      }
    }
  }

  // ---------------------------------------------------------------- PhysicalRack

  class PhysicalRack {
    const id: string
    var parent: PhysicalDataCenter?
    var cpus: map<string, PhysicalHost>
    var disks: map<string, PhysicalStore>

    /** The builder's constructor: adopts the given host and disk maps. */
    constructor (id: string, parent: PhysicalDataCenter?, cpus: map<string, PhysicalHost>, disks: map<string, PhysicalStore>)
      ensures this.id == id && this.parent == parent && this.cpus == cpus && this.disks == disks
    {
      this.id, this.parent, this.cpus, this.disks := id, parent, cpus, disks;
    }

    /**
     * The copy constructor: same identifier, no parent, a fresh copy of every
     * rack-level disk owned by the new rack, and a fresh copy of every host
     * (itself with fresh disks) whose parent is the new rack.
     */
    constructor Copy(other: PhysicalRack)
      ensures id == other.id && parent == null
      ensures StoresKeyed(disks)
      ensures forall k :: k in disks ==> fresh(disks[k]) && disks[k].parent == OnRack(this)
      ensures StoresKeyed(other.disks) ==> disks.Keys == other.disks.Keys
      ensures StoresKeyed(other.disks) ==> forall k :: k in disks ==>
        disks[k].capacity == other.disks[k].capacity && disks[k].used == other.disks[k].used
      ensures HostsKeyed(cpus)
      ensures forall k :: k in cpus ==> fresh(cpus[k]) && cpus[k].parent == this
      ensures fresh(cpus.Values) && fresh(disks.Values) && fresh(DisksOfHosts(cpus.Values))
      ensures HostsKeyed(other.cpus) ==> cpus.Keys == other.cpus.Keys
      ensures HostsKeyed(other.cpus) ==> forall k :: k in cpus ==>
        cpus[k].cpuUsage == other.cpus[k].cpuUsage && cpus[k].memUsage == other.cpus[k].memUsage
      ensures RackKeyed(this) && RackLinked(this)
      ensures RackKeyed(other) ==> RackValue(this) == RackValue(other)
    {
      id, parent := other.id, null;
      new;
      disks := CopyDiskMap(other.disks, OnRack(this));
      CopyHostsOf(other);
      forall s | s in DisksOfHosts(cpus.Values) ensures fresh(s) {
        var h :| h in cpus.Values && s in h.disks.Values;
      }
      if RackKeyed(other) {
        SameStoresValue(disks, other.disks);
      }
    }

    /** The host loop of the copy constructor: a copy of every host of `other`, with this rack as parent. */
    method CopyHostsOf(other: PhysicalRack)
      requires other != this
      modifies this`cpus
      ensures HostsKeyed(cpus) && forall k :: k in cpus ==> StoresKeyed(cpus[k].disks) && HostLinked(cpus[k])
      ensures forall k :: k in cpus ==> fresh(cpus[k]) && cpus[k].parent == this && fresh(cpus[k].disks.Values)
      ensures HostsKeyed(other.cpus) ==> cpus.Keys == other.cpus.Keys
      ensures HostsKeyed(other.cpus) ==> forall k :: k in cpus ==>
        cpus[k].cpuUsage == other.cpus[k].cpuUsage && cpus[k].memUsage == other.cpus[k].memUsage
      ensures HostsKeyed(other.cpus) && HostDisksKeyed(other.cpus) ==> HostsValue(cpus) == HostsValue(other.cpus)
    {
      var m := CopyHostMap(other.cpus, this);
      label copied:
      cpus := m;
      HostsValueUnchanged@copied(m);
      HostsValueUnchanged@copied(other.cpus);
    }

    method SetParent(p: PhysicalDataCenter?)
      modifies this`parent
      ensures parent == p
    {
      parent := p;
    }

    /** A fresh list of the hosts. */
    method GetCPUs() returns (list: seq<PhysicalHost>, ghost keys: seq<string>)
      ensures ListsValues(list, cpus, keys)
      ensures |list| == |cpus|
      ensures forall i :: 0 <= i < |list| ==> list[i] in cpus.Values
      ensures forall k :: k in cpus ==> cpus[k] in list
    {
      list, keys := ValuesOf(cpus);
    }

    /** Puts the host under its identifier; `null` is ignored. */
    method AddCPU(cpu: PhysicalHost?)
      modifies this`cpus
      ensures cpu == null ==> cpus == old(cpus)
      ensures cpu != null ==> cpus == old(cpus)[cpu.id := cpu]
      ensures HostsKeyed(old(cpus)) ==> HostsKeyed(cpus)
    {
      if cpu != null {
        cpus := cpus[cpu.id := cpu];
      }
    }

    /** Removes whatever sits under the host's identifier; `null` is ignored. */
    method RemoveCPU(cpu: PhysicalHost?)
      modifies this`cpus
      ensures cpu == null ==> cpus == old(cpus)
      ensures cpu != null ==> cpus == old(cpus) - {cpu.id}
      ensures HostsKeyed(old(cpus)) ==> HostsKeyed(cpus)
    {
      if cpu != null {
        cpus := cpus - {cpu.id};
      }
    }

    /** A fresh list of the rack-level disks. */
    method GetDisks() returns (list: seq<PhysicalStore>, ghost keys: seq<string>)
      ensures ListsValues(list, disks, keys)
      ensures |list| == |disks|
      ensures forall i :: 0 <= i < |list| ==> list[i] in disks.Values
      ensures forall k :: k in disks ==> disks[k] in list
    {
      list, keys := ValuesOf(disks);
    }

    /** Puts the disk under its identifier; `null` is ignored. */
    method AddDisk(disk: PhysicalStore?)
      modifies this`disks
      ensures disk == null ==> disks == old(disks)
      ensures disk != null ==> disks == old(disks)[disk.id := disk]
      ensures StoresKeyed(old(disks)) ==> StoresKeyed(disks)
    {
      if disk != null {
        disks := disks[disk.id := disk];
      }
    }

    /** Removes whatever sits under the disk's identifier; `null` is ignored. */
    method RemoveDisk(disk: PhysicalStore?)
      modifies this`disks
      ensures disk == null ==> disks == old(disks)
      ensures disk != null ==> disks == old(disks) - {disk.id}
      ensures StoresKeyed(old(disks)) ==> StoresKeyed(disks)
    {
      if disk != null {
        disks := disks - {disk.id};
      }
    }

    function HashCode(): (r: int32)
      ensures r == Wrap(HashPolynomial(id))
    {
      StringHash(id)
    }

    /** Equal to every rack with the same identifier, whatever its other fields. */
    function Equals(that: object?): (r: bool)
      ensures that == this ==> r
      ensures r ==> that is PhysicalRack && (that as PhysicalRack).HashCode() == HashCode()
      ensures r <==> that is PhysicalRack && (that as PhysicalRack).id == id
    {
      that is PhysicalRack && (that as PhysicalRack).id == id
    }
  }

  /** The rack, its hosts and all its disks were allocated since the pre-state. */
  twostate predicate NewRack(new r: PhysicalRack)
    reads r`cpus, r`disks, r.cpus.Values`disks
  {
    fresh(r) && fresh(r.cpus.Values) && fresh(r.disks.Values) && fresh(DisksOfHosts(r.cpus.Values))
  }

  /** Racks that are new, and so everything below them. */
  twostate lemma NewRacks(new m: map<string, PhysicalRack>)
    requires forall k :: k in m ==> NewRack(m[k])
    ensures fresh(m.Values) && fresh(HostsOfRacks(m.Values))
    ensures fresh(DisksOfRacks(m.Values)) && fresh(DisksOfHosts(HostsOfRacks(m.Values)))
  {
    forall h | h in HostsOfRacks(m.Values) ensures fresh(h) {
      var r :| r in m.Values && h in r.cpus.Values;
      var k :| k in m && m[k] == r;
    }
    forall s | s in DisksOfRacks(m.Values) ensures fresh(s) {
      var r :| r in m.Values && s in r.disks.Values;
      var k :| k in m && m[k] == r;
    }
    forall s | s in DisksOfHosts(HostsOfRacks(m.Values)) ensures fresh(s) {
      var h :| h in HostsOfRacks(m.Values) && s in h.disks.Values;
      var r :| r in m.Values && h in r.cpus.Values;
      var k :| k in m && m[k] == r;
      assert s in DisksOfHosts(r.cpus.Values);
    }
  }

  /** A copy of `rack` placed under `owner`, with every node below it new and, from a keyed rack, the same value. */
  method CopyRackOwnedBy(rack: PhysicalRack, owner: PhysicalDataCenter) returns (copy: PhysicalRack)
    ensures fresh(copy) && NewRack(copy) && copy.id == rack.id && copy.parent == owner
    ensures RackKeyed(copy) && RackLinked(copy)
    ensures RackKeyed(rack) ==> RackValue(copy) == RackValue(rack)
  {
    copy := new PhysicalRack.Copy(rack);
    label copied:
    copy.SetParent(owner);
    RackValueUnchanged@copied(copy);
    RackValueUnchanged@copied(rack);
  }

  /** The state of a copy loop: the copies `made` so far, the originals `last` they copy, and their new owner. */
  datatype CopyLoop<N, P> = CopyLoop(made: map<string, N>, last: map<string, N>, owner: P)

  /**
   * Each rack of `m` is a copy of the rack under the same key in `last`:
   * owned by `owner`, keyed all the way down and, when the original is,
   * with the same value.
   */
  ghost predicate RackCopies(m: map<string, PhysicalRack>, last: map<string, PhysicalRack>, owner: PhysicalDataCenter)
    reads m.Values, HostsOfRacks(m.Values)
    reads DisksOfRacks(m.Values)`capacity, DisksOfRacks(m.Values)`used, DisksOfRacks(m.Values)`parent
    reads DisksOfHosts(HostsOfRacks(m.Values))`capacity, DisksOfHosts(HostsOfRacks(m.Values))`used
    reads DisksOfHosts(HostsOfRacks(m.Values))`parent
    reads last.Values`cpus, last.Values`disks, HostsOfRacks(last.Values)`disks
    reads DisksOfRacks(last.Values)`capacity, DisksOfRacks(last.Values)`used
    reads DisksOfHosts(HostsOfRacks(last.Values))`capacity, DisksOfHosts(HostsOfRacks(last.Values))`used
  {
    && RacksKeyed(m) && m.Keys == last.Keys
    && forall k :: k in m ==>
      && m[k].parent == owner && RackKeyed(m[k]) && RackLinked(m[k])
      && (RackKeyed(last[k]) ==> RackValue(m[k]) == RackValue(last[k]))
  }

  /** One turn of PhysicalDataCenter's copy loop: a copy of `rack`, owned by `owner`, put under its identifier. */
  method PutRackCopy(m: map<string, PhysicalRack>, last: map<string, PhysicalRack>, rack: PhysicalRack, owner: PhysicalDataCenter)
    returns (grown: map<string, PhysicalRack>)
    requires RackCopies(m, last, owner)
    ensures RackCopies(grown, last[rack.id := rack], owner)
    ensures rack.id in grown && grown == m[rack.id := grown[rack.id]]
    ensures fresh(grown[rack.id]) && NewRack(grown[rack.id])
  {
    var copy := CopyRackOwnedBy(rack, owner);
    grown := m[copy.id := copy];
    RackCopiesUnchanged(CopyLoop(m, last, owner));
    RackCopiesPut(m, last, owner, rack, copy);
  }

  /** Putting a copy of `rack` under its identifier extends the copies by that rack. */
  lemma RackCopiesPut(m: map<string, PhysicalRack>, last: map<string, PhysicalRack>, owner: PhysicalDataCenter,
                      rack: PhysicalRack, copy: PhysicalRack)
    requires RackCopies(m, last, owner)
    requires copy.id == rack.id && copy.parent == owner && RackKeyed(copy) && RackLinked(copy)
    requires RackKeyed(rack) ==> RackValue(copy) == RackValue(rack)
    ensures RackCopies(m[rack.id := copy], last[rack.id := rack], owner)
  {
  }

  /** RackCopies of a copy map, its source map and their owner holds as long as the racks and their nodes are untouched. */
  twostate lemma RackCopiesUnchanged(copies: CopyLoop<PhysicalRack, PhysicalDataCenter>)
    requires unchanged(copies.made.Values) && unchanged(copies.last.Values)
    requires unchanged(old(HostsOfRacks(copies.made.Values))) && unchanged(old(HostsOfRacks(copies.last.Values)))
    requires unchanged(old(DisksOfRacks(copies.made.Values))) && unchanged(old(DisksOfRacks(copies.last.Values)))
    requires unchanged(old(DisksOfHosts(HostsOfRacks(copies.made.Values))))
    requires unchanged(old(DisksOfHosts(HostsOfRacks(copies.last.Values))))
    ensures old(RackCopies(copies.made, copies.last, copies.owner)) ==> RackCopies(copies.made, copies.last, copies.owner)
  {
  }

  /**
   * PhysicalDataCenter's copy loop over a rack listing: a fresh copy of each
   * rack with `owner` as parent, put under its identifier in list order.
   */
  method CopyRacks(list: seq<PhysicalRack>, owner: PhysicalDataCenter) returns (m: map<string, PhysicalRack>)
    ensures RacksKeyed(m) && m.Keys == PutAll(RackIds(list), list).Keys
    ensures fresh(m.Values)
    ensures forall k :: k in m ==> NewRack(m[k]) && m[k].parent == owner && RackKeyed(m[k]) && RackLinked(m[k])
    ensures forall k :: k in m ==>
      var r := PutAll(RackIds(list), list)[k];
      RackKeyed(r) ==> RackValue(m[k]) == RackValue(r)
  {
    m := map[];
    var last: map<string, PhysicalRack> := map[];
    for i := 0 to |list|
      invariant last == PutAll(RackIds(list)[..i], list[..i])
      invariant RackCopies(m, last, owner)
      invariant forall k :: k in m ==> NewRack(m[k])
    {
      m := PutRackCopy(m, last, list[i], owner);
      last := last[list[i].id := list[i]];
      PutAllStep(RackIds(list), list, i);
    }
    assert RackIds(list)[..|list|] == RackIds(list) && list[..|list|] == list;
  }

  /** Rack maps under the same keys whose racks have, key by key, the same value, have the same value. */
  lemma SameRacksValue(m: map<string, PhysicalRack>, source: map<string, PhysicalRack>)
    requires m.Keys == source.Keys && forall k :: k in m ==> RackValue(m[k]) == RackValue(source[k])
    ensures RacksValue(m) == RacksValue(source)
  {
  }

  /**
   * The racks of PhysicalDataCenter's copy constructor, copied from the
   * `getRacks()` listing of `source`; from a map keyed by identifier all the
   * way down, under the same keys with the same value.
   */
  method CopyRackMap(source: map<string, PhysicalRack>, owner: PhysicalDataCenter) returns (m: map<string, PhysicalRack>)
    ensures RacksKeyed(m) && RacksDeepKeyed(m)
    ensures fresh(m.Values)
    ensures forall k :: k in m ==> NewRack(m[k]) && m[k].parent == owner && RackLinked(m[k])
    ensures RacksKeyed(source) ==> m.Keys == source.Keys
    ensures RacksKeyed(source) && RacksDeepKeyed(source) ==> RacksValue(m) == RacksValue(source)
  {
    var list, keys := ValuesOf(source);
    label listed:
    m := CopyRacks(list, owner);
    forall k | k in m ensures NewRack(m[k]) {
      assert NewRack@listed(m[k]);
    }
    if RacksKeyed(source) {
      assert RackIds(list) == keys;
      ListedPutAll(list, source, keys);
      if RacksDeepKeyed(source) {
        SameRacksValue(m, source);
      }
    }
  }

  // ---------------------------------------------------------------- PhysicalDataCenter

  class PhysicalDataCenter {
    const id: string
    var parent: PhysicalRoot?
    var racks: map<string, PhysicalRack>

    /** The builder's constructor: adopts the given rack map. */
    constructor (id: string, parent: PhysicalRoot?, racks: map<string, PhysicalRack>)
      ensures this.id == id && this.parent == parent && this.racks == racks
    {
      this.id, this.parent, this.racks := id, parent, racks;
    }

    /** The copy constructor: same identifier, no parent, a fresh copy of every rack whose parent is the new data center. */
    constructor Copy(other: PhysicalDataCenter)
      ensures id == other.id && parent == null
      ensures RacksKeyed(racks)
      ensures forall k :: k in racks ==> fresh(racks[k]) && racks[k].parent == this
      ensures fresh(racks.Values) && fresh(HostsOfRacks(racks.Values))
      ensures fresh(DisksOfRacks(racks.Values)) && fresh(DisksOfHosts(HostsOfRacks(racks.Values)))
      ensures RacksKeyed(other.racks) ==> racks.Keys == other.racks.Keys
      ensures DataCenterKeyed(this) && DataCenterLinked(this)
      ensures DataCenterKeyed(other) ==> DataCenterValue(this) == DataCenterValue(other)
    {
      id, parent := other.id, null;
      new;
      CopyRacksOf(other);
    }

    /** The rack loop of the copy constructor: a copy of every rack of `other`, with this data center as parent. */
    method CopyRacksOf(other: PhysicalDataCenter)
      requires other != this
      modifies this`racks
      ensures RacksKeyed(racks) && RacksDeepKeyed(racks) && DataCenterLinked(this)
      ensures forall k :: k in racks ==> fresh(racks[k]) && racks[k].parent == this
      ensures fresh(racks.Values) && fresh(HostsOfRacks(racks.Values))
      ensures fresh(DisksOfRacks(racks.Values)) && fresh(DisksOfHosts(HostsOfRacks(racks.Values)))
      ensures RacksKeyed(other.racks) ==> racks.Keys == other.racks.Keys
      ensures RacksKeyed(other.racks) && RacksDeepKeyed(other.racks) ==> RacksValue(racks) == RacksValue(other.racks)
      ensures parent == old(parent)
    {
      var m := CopyRackMap(other.racks, this);
      NewRacks(m);
      label copied:
      racks := m;
      RacksKeptBesides@copied(m, this);
      RacksKeptBesides@copied(other.racks, this);
    }

    method SetParent(p: PhysicalRoot?)
      modifies this`parent
      ensures parent == p
    {
      parent := p;
    }

    /** A fresh list of the racks. */
    method GetRacks() returns (list: seq<PhysicalRack>, ghost keys: seq<string>)
      ensures ListsValues(list, racks, keys)
      ensures |list| == |racks|
      ensures forall i :: 0 <= i < |list| ==> list[i] in racks.Values
      ensures forall k :: k in racks ==> racks[k] in list
    {
      list, keys := ValuesOf(racks);
    }

    /** Puts the rack under its identifier; `null` is ignored. */
    method AddRack(rack: PhysicalRack?)
      modifies this`racks
      ensures rack == null ==> racks == old(racks)
      ensures rack != null ==> racks == old(racks)[rack.id := rack]
      ensures RacksKeyed(old(racks)) ==> RacksKeyed(racks)
    {
      if rack != null {
        racks := racks[rack.id := rack];
      }
    }

    /** Removes whatever sits under the rack's identifier; `null` is ignored. */
    method RemoveRack(rack: PhysicalRack?)
      modifies this`racks
      ensures rack == null ==> racks == old(racks)
      ensures rack != null ==> racks == old(racks) - {rack.id}
      ensures RacksKeyed(old(racks)) ==> RacksKeyed(racks)
    {
      if rack != null {
        racks := racks - {rack.id};
      }
    }

    function HashCode(): (r: int32)
      ensures r == Wrap(HashPolynomial(id))
    {
      StringHash(id)
    }

    /** Equal to every data center with the same identifier, whatever its other fields. */
    function Equals(that: object?): (r: bool)
      ensures that == this ==> r
      ensures r ==> that is PhysicalDataCenter && (that as PhysicalDataCenter).HashCode() == HashCode()
      ensures r <==> that is PhysicalDataCenter && (that as PhysicalDataCenter).id == id
    {
      that is PhysicalDataCenter && (that as PhysicalDataCenter).id == id
    }
  }

  /** The data center, its racks and everything below them were allocated since the pre-state. */
  twostate predicate NewDataCenter(new dc: PhysicalDataCenter)
    reads dc`racks, dc.racks.Values`cpus, dc.racks.Values`disks, HostsOfRacks(dc.racks.Values)`disks
  {
    && fresh(dc) && fresh(dc.racks.Values) && fresh(HostsOfRacks(dc.racks.Values))
    && fresh(DisksOfRacks(dc.racks.Values)) && fresh(DisksOfHosts(HostsOfRacks(dc.racks.Values)))
  }

  /** Data centers that are new, and so everything below them. */
  twostate lemma NewDataCenters(new m: map<string, PhysicalDataCenter>)
    requires forall k :: k in m ==> NewDataCenter(m[k])
    ensures fresh(m.Values) && fresh(RacksOfDataCenters(m.Values))
    ensures fresh(HostsOfRacks(RacksOfDataCenters(m.Values)))
    ensures fresh(DisksOfRacks(RacksOfDataCenters(m.Values)))
    ensures fresh(DisksOfHosts(HostsOfRacks(RacksOfDataCenters(m.Values))))
  {
    var racks := RacksOfDataCenters(m.Values);
    forall r | r in racks ensures fresh(r) {
      var dc :| dc in m.Values && r in dc.racks.Values;
      var k :| k in m && m[k] == dc;
    }
    forall h | h in HostsOfRacks(racks) ensures fresh(h) {
      var r :| r in racks && h in r.cpus.Values;
      var dc :| dc in m.Values && r in dc.racks.Values;
      var k :| k in m && m[k] == dc;
      assert h in HostsOfRacks(dc.racks.Values);
    }
    forall s | s in DisksOfRacks(racks) ensures fresh(s) {
      var r :| r in racks && s in r.disks.Values;
      var dc :| dc in m.Values && r in dc.racks.Values;
      var k :| k in m && m[k] == dc;
      assert s in DisksOfRacks(dc.racks.Values);
    }
    forall s | s in DisksOfHosts(HostsOfRacks(racks)) ensures fresh(s) {
      var h :| h in HostsOfRacks(racks) && s in h.disks.Values;
      var r :| r in racks && h in r.cpus.Values;
      var dc :| dc in m.Values && r in dc.racks.Values;
      var k :| k in m && m[k] == dc;
      assert h in HostsOfRacks(dc.racks.Values);
      assert s in DisksOfHosts(HostsOfRacks(dc.racks.Values));
    }
  }

  /** A copy of `dc` placed under `owner`, with every node below it new and, from a keyed data center, the same value. */
  method CopyDataCenterOwnedBy(dc: PhysicalDataCenter, owner: PhysicalRoot) returns (copy: PhysicalDataCenter)
    ensures fresh(copy) && NewDataCenter(copy) && copy.id == dc.id && copy.parent == owner
    ensures DataCenterKeyed(copy) && DataCenterLinked(copy)
    ensures DataCenterKeyed(dc) ==> DataCenterValue(copy) == DataCenterValue(dc)
  {
    copy := new PhysicalDataCenter.Copy(dc);
    label copied:
    copy.SetParent(owner);
    DataCenterValueUnchanged@copied(copy);
    DataCenterValueUnchanged@copied(dc);
  }

  /**
   * The state of PhysicalRoot's copy loop: `m` holds, under the keys of
   * `last`, keyed copies owned by `owner`, each with the value of the data
   * center it copies whenever that one is keyed.
   */
  ghost predicate DataCenterCopies(m: map<string, PhysicalDataCenter>, last: map<string, PhysicalDataCenter>, owner: PhysicalRoot)
    reads m.Values, RacksOfDataCenters(m.Values), HostsOfRacks(RacksOfDataCenters(m.Values))
    reads DisksOfRacks(RacksOfDataCenters(m.Values))`capacity, DisksOfRacks(RacksOfDataCenters(m.Values))`used
    reads DisksOfRacks(RacksOfDataCenters(m.Values))`parent
    reads DisksOfHosts(HostsOfRacks(RacksOfDataCenters(m.Values)))`capacity
    reads DisksOfHosts(HostsOfRacks(RacksOfDataCenters(m.Values)))`used
    reads DisksOfHosts(HostsOfRacks(RacksOfDataCenters(m.Values)))`parent
    reads last.Values`racks, RacksOfDataCenters(last.Values)`cpus, RacksOfDataCenters(last.Values)`disks
    reads HostsOfRacks(RacksOfDataCenters(last.Values))`disks
    reads DisksOfRacks(RacksOfDataCenters(last.Values))`capacity, DisksOfRacks(RacksOfDataCenters(last.Values))`used
    reads DisksOfHosts(HostsOfRacks(RacksOfDataCenters(last.Values)))`capacity
    reads DisksOfHosts(HostsOfRacks(RacksOfDataCenters(last.Values)))`used
  {
    && DataCentersKeyed(m) && m.Keys == last.Keys
    && forall k :: k in m ==>
      && m[k].parent == owner && DataCenterKeyed(m[k]) && DataCenterLinked(m[k])
      && (DataCenterKeyed(last[k]) ==> DataCenterValue(m[k]) == DataCenterValue(last[k]))
  }

  /** One turn of PhysicalRoot's copy loop: a copy of `dc`, owned by `owner`, put under its identifier. */
  method PutDataCenterCopy(m: map<string, PhysicalDataCenter>, last: map<string, PhysicalDataCenter>, dc: PhysicalDataCenter, owner: PhysicalRoot)
    returns (grown: map<string, PhysicalDataCenter>)
    requires DataCenterCopies(m, last, owner)
    ensures DataCenterCopies(grown, last[dc.id := dc], owner)
    ensures dc.id in grown && grown == m[dc.id := grown[dc.id]]
    ensures fresh(grown[dc.id]) && NewDataCenter(grown[dc.id])
  {
    var copy := CopyDataCenterOwnedBy(dc, owner);
    grown := m[copy.id := copy];
    DataCenterCopiesUnchanged(CopyLoop(m, last, owner));
    DataCenterCopiesPut(m, last, owner, dc, copy);
  }

  /** Putting a copy of `dc` under its identifier extends the copies by that data center. */
  lemma DataCenterCopiesPut(m: map<string, PhysicalDataCenter>, last: map<string, PhysicalDataCenter>, owner: PhysicalRoot,
                            dc: PhysicalDataCenter, copy: PhysicalDataCenter)
    requires DataCenterCopies(m, last, owner)
    requires copy.id == dc.id && copy.parent == owner && DataCenterKeyed(copy) && DataCenterLinked(copy)
    requires DataCenterKeyed(dc) ==> DataCenterValue(copy) == DataCenterValue(dc)
    ensures DataCenterCopies(m[dc.id := copy], last[dc.id := dc], owner)
  {
  }

  /** DataCenterCopies of a copy map, its source map and their owner holds as long as the data centers and their nodes are untouched. */
  twostate lemma DataCenterCopiesUnchanged(copies: CopyLoop<PhysicalDataCenter, PhysicalRoot>)
    requires unchanged(copies.made.Values) && unchanged(copies.last.Values)
    requires unchanged(old(RacksOfDataCenters(copies.made.Values))) && unchanged(old(RacksOfDataCenters(copies.last.Values)))
    requires unchanged(old(HostsOfRacks(RacksOfDataCenters(copies.made.Values))))
    requires unchanged(old(HostsOfRacks(RacksOfDataCenters(copies.last.Values))))
    requires unchanged(old(DisksOfRacks(RacksOfDataCenters(copies.made.Values))))
    requires unchanged(old(DisksOfRacks(RacksOfDataCenters(copies.last.Values))))
    requires unchanged(old(DisksOfHosts(HostsOfRacks(RacksOfDataCenters(copies.made.Values)))))
    requires unchanged(old(DisksOfHosts(HostsOfRacks(RacksOfDataCenters(copies.last.Values)))))
    ensures old(DataCenterCopies(copies.made, copies.last, copies.owner)) ==> DataCenterCopies(copies.made, copies.last, copies.owner)
  {
  }

  /**
   * PhysicalRoot's copy loop over a data-center listing: a fresh copy of
   * each with `owner` as parent, put under its identifier in list order.
   */
  method CopyDataCenters(list: seq<PhysicalDataCenter>, owner: PhysicalRoot) returns (m: map<string, PhysicalDataCenter>)
    ensures DataCentersKeyed(m) && m.Keys == PutAll(DataCenterIds(list), list).Keys
    ensures fresh(m.Values)
    ensures forall k :: k in m ==> NewDataCenter(m[k]) && m[k].parent == owner && DataCenterKeyed(m[k]) && DataCenterLinked(m[k])
    ensures forall k :: k in m ==>
      var dc := PutAll(DataCenterIds(list), list)[k];
      DataCenterKeyed(dc) ==> DataCenterValue(m[k]) == DataCenterValue(dc)
  {
    m := map[];
    var last: map<string, PhysicalDataCenter> := map[];
    for i := 0 to |list|
      invariant last == PutAll(DataCenterIds(list)[..i], list[..i])
      invariant DataCenterCopies(m, last, owner)
      invariant forall k :: k in m ==> NewDataCenter(m[k])
    {
      m := PutDataCenterCopy(m, last, list[i], owner);
      last := last[list[i].id := list[i]];
      PutAllStep(DataCenterIds(list), list, i);
    }
    assert DataCenterIds(list)[..|list|] == DataCenterIds(list) && list[..|list|] == list;
  }

  /** Data-center maps under the same keys whose data centers have, key by key, the same value, have the same value. */
  lemma SameDataCentersValue(m: map<string, PhysicalDataCenter>, source: map<string, PhysicalDataCenter>)
    requires m.Keys == source.Keys && forall k :: k in m ==> DataCenterValue(m[k]) == DataCenterValue(source[k])
    ensures DataCentersValue(m) == DataCentersValue(source)
  {
  }

  /**
   * The data centers of PhysicalRoot's copy constructor, copied from the
   * `getDataCenters()` listing of `source`; from a map keyed by identifier
   * all the way down, under the same keys with the same value.
   */
  method CopyDataCenterMap(source: map<string, PhysicalDataCenter>, owner: PhysicalRoot) returns (m: map<string, PhysicalDataCenter>)
    ensures DataCentersKeyed(m) && DataCentersDeepKeyed(m)
    ensures fresh(m.Values)
    ensures forall k :: k in m ==> NewDataCenter(m[k]) && m[k].parent == owner && DataCenterLinked(m[k])
    ensures DataCentersKeyed(source) ==> m.Keys == source.Keys
    ensures DataCentersKeyed(source) && DataCentersDeepKeyed(source) ==> DataCentersValue(m) == DataCentersValue(source)
  {
    var list, keys := ValuesOf(source);
    label listed:
    m := CopyDataCenters(list, owner);
    forall k | k in m ensures NewDataCenter(m[k]) {
      assert NewDataCenter@listed(m[k]);
    }
    if DataCentersKeyed(source) {
      assert DataCenterIds(list) == keys;
      ListedPutAll(list, source, keys);
      if DataCentersDeepKeyed(source) {
        SameDataCentersValue(m, source);
      }
    }
  }

  // ---------------------------------------------------------------- PhysicalRoot

  class PhysicalRoot {
    const id: string
    var dataCenters: map<string, PhysicalDataCenter>

    /** The builder's constructor: adopts the given data-center map. */
    constructor (id: string, dataCenters: map<string, PhysicalDataCenter>)
      ensures this.id == id && this.dataCenters == dataCenters
    {
      this.id, this.dataCenters := id, dataCenters;
    }

    /** The copy constructor: same identifier, a fresh copy of every data center whose parent is the new root. */
    constructor Copy(other: PhysicalRoot)
      ensures id == other.id
      ensures DataCentersKeyed(dataCenters)
      ensures forall k :: k in dataCenters ==> fresh(dataCenters[k]) && dataCenters[k].parent == this
      ensures fresh(dataCenters.Values) && fresh(RacksOfDataCenters(dataCenters.Values))
      ensures fresh(HostsOfRacks(RacksOfDataCenters(dataCenters.Values)))
      ensures fresh(DisksOfRacks(RacksOfDataCenters(dataCenters.Values)))
      ensures fresh(DisksOfHosts(HostsOfRacks(RacksOfDataCenters(dataCenters.Values))))
      ensures DataCentersKeyed(other.dataCenters) ==> dataCenters.Keys == other.dataCenters.Keys
      ensures RootKeyed(this) && RootLinked(this)
      ensures RootKeyed(other) ==> RootValue(this) == RootValue(other)
    {
      id := other.id;
      new;
      CopyDataCentersOf(other);
    }

    /** The data-center loop of the copy constructor: a copy of every data center of `other`, with this root as parent. */
    method CopyDataCentersOf(other: PhysicalRoot)
      requires other != this
      modifies this`dataCenters
      ensures DataCentersKeyed(dataCenters) && DataCentersDeepKeyed(dataCenters) && RootLinked(this)
      ensures forall k :: k in dataCenters ==> fresh(dataCenters[k]) && dataCenters[k].parent == this
      ensures fresh(dataCenters.Values) && fresh(RacksOfDataCenters(dataCenters.Values))
      ensures fresh(HostsOfRacks(RacksOfDataCenters(dataCenters.Values)))
      ensures fresh(DisksOfRacks(RacksOfDataCenters(dataCenters.Values)))
      ensures fresh(DisksOfHosts(HostsOfRacks(RacksOfDataCenters(dataCenters.Values))))
      ensures DataCentersKeyed(other.dataCenters) ==> dataCenters.Keys == other.dataCenters.Keys
      ensures DataCentersKeyed(other.dataCenters) && DataCentersDeepKeyed(other.dataCenters) ==>
        DataCentersValue(dataCenters) == DataCentersValue(other.dataCenters)
    {
      var m := CopyDataCenterMap(other.dataCenters, this);
      NewDataCenters(m);
      label copied:
      dataCenters := m;
      DataCentersKeptBesides@copied(m, this);
      DataCentersKeptBesides@copied(other.dataCenters, this);
    }

    /** A fresh list of the data centers. */
    method GetDataCenters() returns (list: seq<PhysicalDataCenter>, ghost keys: seq<string>)
      ensures ListsValues(list, dataCenters, keys)
      ensures |list| == |dataCenters|
      ensures forall i :: 0 <= i < |list| ==> list[i] in dataCenters.Values
      ensures forall k :: k in dataCenters ==> dataCenters[k] in list
    {
      list, keys := ValuesOf(dataCenters);
    }

    /** Puts the data center under its identifier; `null` is ignored. */
    method AddDataCenter(dc: PhysicalDataCenter?)
      modifies this`dataCenters
      ensures dc == null ==> dataCenters == old(dataCenters)
      ensures dc != null ==> dataCenters == old(dataCenters)[dc.id := dc]
      ensures DataCentersKeyed(old(dataCenters)) ==> DataCentersKeyed(dataCenters)
    {
      if dc != null {
        dataCenters := dataCenters[dc.id := dc];
      }
    }

    /** Removes whatever sits under the data center's identifier; `null` is ignored. */
    method RemoveDataCenter(dc: PhysicalDataCenter?)
      modifies this`dataCenters
      ensures dc == null ==> dataCenters == old(dataCenters)
      ensures dc != null ==> dataCenters == old(dataCenters) - {dc.id}
      ensures DataCentersKeyed(old(dataCenters)) ==> DataCentersKeyed(dataCenters)
    {
      if dc != null {
        dataCenters := dataCenters - {dc.id};
      }
    }

    function HashCode(): (r: int32)
      ensures r == Wrap(HashPolynomial(id))
    {
      StringHash(id)
    }

    /** Equal to every root with the same identifier, whatever its other fields. */
    function Equals(that: object?): (r: bool)
      ensures that == this ==> r
      ensures r ==> that is PhysicalRoot && (that as PhysicalRoot).HashCode() == HashCode()
      ensures r <==> that is PhysicalRoot && (that as PhysicalRoot).id == id
    {
      that is PhysicalRoot && (that as PhysicalRoot).id == id
    }
  }
}
