/**
 * PhysicalTopology: a root and the operations that keep the tree below it
 * consistent. Wrapping or copying a root rebuilds every parent reference;
 * the flattened views list every node of a level; the guarded add/remove
 * pairs update the owner's map and the child's back-reference together.
 */
module TopologyFacade {
  import opened Wrappers
  import opened JavaLang
  import opened ErrorChecker
  import opened Topology
  import opened ParentWalk

  const DiskName := "disk"
  const HostName := "host"
  const RackName := "rack"
  const DataCenterName := "dataCenter"
  const RootName := "root"

  // ---------------------------------------------------------------- the nodes below a root

  ghost function RacksBelow(root: PhysicalRoot): set<PhysicalRack>
    reads root`dataCenters, root.dataCenters.Values`racks
  {
    RacksOfDataCenters(root.dataCenters.Values)
  }

  ghost function HostsBelow(root: PhysicalRoot): set<PhysicalHost>
    reads root`dataCenters, root.dataCenters.Values`racks, RacksBelow(root)`cpus
  {
    HostsOfRacks(RacksBelow(root))
  }

  /** Every disk of the tree: the rack-level ones and the host-level ones. */
  ghost function StoresBelow(root: PhysicalRoot): set<PhysicalStore>
    reads root`dataCenters, root.dataCenters.Values`racks, RacksBelow(root)`cpus, RacksBelow(root)`disks, HostsBelow(root)`disks
  {
    DisksOfRacks(RacksBelow(root)) + DisksOfHosts(HostsBelow(root))
  }

  /**
   * Every parent reference below `root` is consistent: each data center's
   * parent is the root, each rack's a data center holding it, each host's a
   * rack holding it, each disk's the rack or host holding it.
   */
  ghost predicate ParentsConsistent(root: PhysicalRoot)
    reads root, root.dataCenters.Values, RacksBelow(root), HostsBelow(root), StoresBelow(root)
  {
    ParentsHeld(root, root.dataCenters.Values, RacksBelow(root), HostsBelow(root), StoresBelow(root))
  }

  /**
   * No node below `root` is held by two owners: a rack sits in one data
   * center, a host in one rack, a disk in one rack or one host. It reads no
   * `parent` field.
   */
  ghost predicate Unshared(root: PhysicalRoot)
    reads root`dataCenters, root.dataCenters.Values`racks, RacksBelow(root)`cpus, RacksBelow(root)`disks, HostsBelow(root)`disks
  {
    var dcs, racks, hosts := root.dataCenters.Values, RacksBelow(root), HostsBelow(root);
    && (forall a, b, r :: a in dcs && b in dcs && r in a.racks.Values && r in b.racks.Values ==> a == b)
    && (forall a, b, h :: a in racks && b in racks && h in a.cpus.Values && h in b.cpus.Values ==> a == b)
    && (forall a, b, s :: a in racks && b in racks && s in a.disks.Values && s in b.disks.Values ==> a == b)
    && (forall a, b, s :: a in hosts && b in hosts && s in a.disks.Values && s in b.disks.Values ==> a == b)
    && (forall a, b, s :: a in racks && b in hosts && s in a.disks.Values ==> s !in b.disks.Values)
  }

  /** Links to the holding node make every parent reference consistent. */
  lemma LinkedConsistent(root: PhysicalRoot)
    requires RootLinked(root)
    ensures ParentsConsistent(root)
  {
    var dcs, racks, hosts := root.dataCenters.Values, RacksBelow(root), HostsBelow(root);
    forall r | r in racks ensures r.parent != null && r.parent in dcs && r in r.parent.racks.Values {
      var dc :| dc in dcs && r in dc.racks.Values;
      var k :| k in root.dataCenters && root.dataCenters[k] == dc;
      var j :| j in dc.racks && dc.racks[j] == r;
    }
    forall h | h in hosts ensures h.parent != null && h.parent in racks && h in h.parent.cpus.Values {
      var r :| r in racks && h in r.cpus.Values;
      var dc :| dc in dcs && r in dc.racks.Values;
      var k :| k in root.dataCenters && root.dataCenters[k] == dc;
      var j :| j in dc.racks && dc.racks[j] == r;
      var i :| i in r.cpus && r.cpus[i] == h;
    }
    forall s | s in StoresBelow(root) ensures StoreHeld(s, racks, hosts) {
      if s in DisksOfRacks(racks) {
        var r :| r in racks && s in r.disks.Values;
        var dc :| dc in dcs && r in dc.racks.Values;
        var k :| k in root.dataCenters && root.dataCenters[k] == dc;
        var j :| j in dc.racks && dc.racks[j] == r;
        var i :| i in r.disks && r.disks[i] == s;
      } else {
        var h :| h in hosts && s in h.disks.Values;
        var r :| r in racks && h in r.cpus.Values;
        var dc :| dc in dcs && r in dc.racks.Values;
        var k :| k in root.dataCenters && root.dataCenters[k] == dc;
        var j :| j in dc.racks && dc.racks[j] == r;
        var i :| i in r.cpus && r.cpus[i] == h;
        var l :| l in h.disks && h.disks[l] == s;
      }
    }
  }

  /** A linked tree shares no node: a node's single parent is every owner holding it. */
  lemma LinkedUnshared(root: PhysicalRoot)
    requires RootLinked(root)
    ensures Unshared(root)
  {
    var dcs, racks, hosts := root.dataCenters.Values, RacksBelow(root), HostsBelow(root);
    LinkedConsistent(root);
    forall a, b, r | a in dcs && b in dcs && r in a.racks.Values && r in b.racks.Values ensures a == b {
      var ka :| ka in root.dataCenters && root.dataCenters[ka] == a;
      var kb :| kb in root.dataCenters && root.dataCenters[kb] == b;
      var ja :| ja in a.racks && a.racks[ja] == r;
      var jb :| jb in b.racks && b.racks[jb] == r;
    }
    assert forall r :: r in racks ==> RackLinked(r) by {
      forall r | r in racks ensures RackLinked(r) {
        var dc :| dc in dcs && r in dc.racks.Values;
        var k :| k in root.dataCenters && root.dataCenters[k] == dc;
        var j :| j in dc.racks && dc.racks[j] == r;
      }
    }
    forall a, b, h | a in racks && b in racks && h in a.cpus.Values && h in b.cpus.Values ensures a == b {
      var ja :| ja in a.cpus && a.cpus[ja] == h;
      var jb :| jb in b.cpus && b.cpus[jb] == h;
    }
    forall a, b, s | a in racks && b in racks && s in a.disks.Values && s in b.disks.Values ensures a == b {
      var ja :| ja in a.disks && a.disks[ja] == s;
      var jb :| jb in b.disks && b.disks[jb] == s;
    }
    assert forall h :: h in hosts ==> HostLinked(h) by {
      forall h | h in hosts ensures HostLinked(h) {
        var r :| r in racks && h in r.cpus.Values;
        var i :| i in r.cpus && r.cpus[i] == h;
      }
    }
    forall a, b, s | a in hosts && b in hosts && s in a.disks.Values && s in b.disks.Values ensures a == b {
      var ja :| ja in a.disks && a.disks[ja] == s;
      var jb :| jb in b.disks && b.disks[jb] == s;
    }
    forall a, b, s | a in racks && b in hosts && s in a.disks.Values ensures s !in b.disks.Values {
      var ja :| ja in a.disks && a.disks[ja] == s;
      forall l | l in b.disks ensures b.disks[l] != s {
        assert b.disks[l].parent == OnHost(b);
      }
    }
  }

  /** Consistent parent references in a tree that shares no node are links to the holding node. */
  lemma UnsharedLinked(root: PhysicalRoot)
    requires ParentsConsistent(root) && Unshared(root)
    ensures RootLinked(root)
  {
    var dcs, racks, hosts := root.dataCenters.Values, RacksBelow(root), HostsBelow(root);
    forall k | k in root.dataCenters ensures DataCenterLinked(root.dataCenters[k]) {
      var dc := root.dataCenters[k];
      assert dc in dcs;
      forall j | j in dc.racks ensures dc.racks[j].parent == dc && RackLinked(dc.racks[j]) {
        var r := dc.racks[j];
        assert r in dc.racks.Values;
        assert r in racks;
        forall i | i in r.cpus ensures r.cpus[i].parent == r && HostLinked(r.cpus[i]) {
          var h := r.cpus[i];
          assert h in r.cpus.Values;
          assert h in hosts;
          forall l | l in h.disks ensures h.disks[l].parent == OnHost(h) {
            assert h.disks[l] in h.disks.Values;
            assert h.disks[l] in DisksOfHosts(hosts);
          }
        }
        forall l | l in r.disks ensures r.disks[l].parent == OnRack(r) {
          assert r.disks[l] in r.disks.Values;
          assert r.disks[l] in DisksOfRacks(racks);
        }
      }
    }
  }

  /** A root together with the node sets below it. */
  datatype NodeSets = NodeSets(root: PhysicalRoot, dcs: set<PhysicalDataCenter>, racks: set<PhysicalRack>,
                               hosts: set<PhysicalHost>, stores: set<PhysicalStore>)

  /** A tree whose node sets are given keeps its value when no link and no figure of those nodes changed. */
  twostate lemma ValueKeptOverNodes(tree: NodeSets)
    requires old(Nodes(tree.root, tree.dcs, tree.racks, tree.hosts, tree.stores))
    requires unchanged(tree.root`dataCenters, tree.dcs`racks, tree.racks`cpus, tree.racks`disks, tree.hosts`disks, tree.stores`capacity, tree.stores`used)
    ensures Nodes(tree.root, tree.dcs, tree.racks, tree.hosts, tree.stores)
    ensures RootValue(tree.root) == old(RootValue(tree.root)) && RootKeyed(tree.root) == old(RootKeyed(tree.root))
  {
    RootValueUnchanged(tree.root);
  }

  /** The node sets below a root depend only on the links that lead down to them. */
  twostate lemma BelowUnchanged(root: PhysicalRoot)
    requires unchanged(root`dataCenters) && unchanged(old(root.dataCenters.Values)`racks)
    requires unchanged(old(RacksBelow(root))`cpus, old(RacksBelow(root))`disks, old(HostsBelow(root))`disks)
    ensures RacksBelow(root) == old(RacksBelow(root))
    ensures HostsBelow(root) == old(HostsBelow(root))
    ensures StoresBelow(root) == old(StoresBelow(root))
  {
    assert RacksBelow(root) == old(RacksBelow(root));
    assert HostsOfRacks(RacksBelow(root)) == old(HostsOfRacks(RacksBelow(root)));
    assert DisksOfRacks(RacksBelow(root)) == old(DisksOfRacks(RacksBelow(root)));
    assert DisksOfHosts(HostsBelow(root)) == old(DisksOfHosts(HostsBelow(root)));
  }

  /** `ParentsHeld` over fixed node sets depends only on those nodes . */
  twostate lemma ParentsHeldUnchanged(tree: NodeSets)
    requires unchanged(tree.dcs) && unchanged(tree.racks) && unchanged(tree.hosts) && unchanged(tree.stores)
    ensures old(ParentsHeld(tree.root, tree.dcs, tree.racks, tree.hosts, tree.stores)) ==> ParentsHeld(tree.root, tree.dcs, tree.racks, tree.hosts, tree.stores)
  {
  }

  /**
   * Where no object that existed before has changed but `changed`, a tree not
   * rooted at `changed` keeps its node sets and its parent references.
   */
  twostate lemma ParentsKeptBesides(root: PhysicalRoot, new changed: object)
    requires root != changed && AboveNodes(changed)
    requires forall o: object {:trigger old(allocated(o))} :: old(allocated(o)) && o != changed ==> unchanged(o)
    ensures root.dataCenters == old(root.dataCenters)
    ensures RacksBelow(root) == old(RacksBelow(root)) && HostsBelow(root) == old(HostsBelow(root))
    ensures StoresBelow(root) == old(StoresBelow(root))
    ensures old(ParentsConsistent(root)) ==> ParentsConsistent(root)
    ensures old(RootLinked(root)) ==> RootLinked(root)
  {
    var node: object := root;
    assert old(allocated(node));
    assert root.dataCenters == old(root.dataCenters);
    forall o: object | o in old(root.dataCenters.Values) ensures unchanged(o) {
      assert old(allocated(o));
    }
    forall o: object | o in old(RacksBelow(root)) ensures unchanged(o) {
      assert old(allocated(o));
    }
    forall o: object | o in old(HostsBelow(root)) ensures unchanged(o) {
      assert old(allocated(o));
    }
    forall o: object | o in old(StoresBelow(root)) ensures unchanged(o) {
      assert old(allocated(o));
    }
    BelowUnchanged(root);
    ParentsHeldUnchanged(NodeSets(root, root.dataCenters.Values, RacksBelow(root), HostsBelow(root), StoresBelow(root)));
  }

  // ---------------------------------------------------------------- flattened listings

  /** `parts[i]` lists the racks of `dcList[i]`, for every data center of the listing. */
  ghost predicate RackParts(dcList: seq<PhysicalDataCenter>, parts: seq<seq<PhysicalRack>>)
    reads set i | 0 <= i < |dcList| :: dcList[i]
  {
    |parts| == |dcList| && forall i :: 0 <= i < |parts| ==> Enumerates(parts[i], dcList[i].racks)
  }

  /** `parts[i]` lists the hosts of `rackList[i]`. */
  ghost predicate HostParts(rackList: seq<PhysicalRack>, parts: seq<seq<PhysicalHost>>)
    reads set i | 0 <= i < |rackList| :: rackList[i]
  {
    |parts| == |rackList| && forall i :: 0 <= i < |parts| ==> Enumerates(parts[i], rackList[i].cpus)
  }

  /** `parts[i]` lists the rack-level disks of `rackList[i]`. */
  ghost predicate RackDiskParts(rackList: seq<PhysicalRack>, parts: seq<seq<PhysicalStore>>)
    reads set i | 0 <= i < |rackList| :: rackList[i]
  {
    |parts| == |rackList| && forall i :: 0 <= i < |parts| ==> Enumerates(parts[i], rackList[i].disks)
  }

  /** `parts[i]` lists the disks of `hostList[i]`. */
  ghost predicate HostDiskParts(hostList: seq<PhysicalHost>, parts: seq<seq<PhysicalStore>>)
    reads set i | 0 <= i < |hostList| :: hostList[i]
  {
    |parts| == |hostList| && forall i :: 0 <= i < |parts| ==> Enumerates(parts[i], hostList[i].disks)
  }

  /** What the identifier scan over a listing of the tree's hosts finds. */
  lemma HostFound(cpus: seq<PhysicalHost>, id: string, index: int, root: PhysicalRoot)
    requires forall h :: h in cpus <==> h in HostsBelow(root)
    requires -1 <= index < |cpus| && (index < 0 <==> id !in HostIds(cpus))
    requires 0 <= index ==> HostIds(cpus)[index] == id
    ensures 0 <= index ==> cpus[index] in HostsBelow(root) && cpus[index].id == id
    ensures index < 0 <==> !exists h :: h in HostsBelow(root) && h.id == id
  {
    if index < 0 {
      forall h | h in HostsBelow(root) ensures h.id != id {
        var j :| 0 <= j < |cpus| && cpus[j] == h;
        assert HostIds(cpus)[j] == h.id;
      }
    } else {
      assert cpus[index] in cpus;
    }
  }

  /** The racks listed part by part are exactly the racks of the listed data centers. */
  lemma RacksListed(dcList: seq<PhysicalDataCenter>, parts: seq<seq<PhysicalRack>>, dcs: set<PhysicalDataCenter>)
    requires forall dc :: dc in dcList <==> dc in dcs
    requires RackParts(dcList, parts)
    ensures forall r :: r in Concat(parts) <==> r in RacksOfDataCenters(dcs)
  {
    forall r ensures r in Concat(parts) <==> r in RacksOfDataCenters(dcs) {
      ConcatMembers(parts, r);
      if r in Concat(parts) {
        var i :| 0 <= i < |parts| && r in parts[i];
        assert dcList[i] in dcs;
      }
      if r in RacksOfDataCenters(dcs) {
        var dc :| dc in dcs && r in dc.racks.Values;
        var i :| 0 <= i < |dcList| && dcList[i] == dc;
      }
    }
  }

  /** The hosts listed part by part are exactly the hosts of the listed racks. */
  lemma HostsListed(rackList: seq<PhysicalRack>, parts: seq<seq<PhysicalHost>>, racks: set<PhysicalRack>)
    requires forall r :: r in rackList <==> r in racks
    requires HostParts(rackList, parts)
    ensures forall h :: h in Concat(parts) <==> h in HostsOfRacks(racks)
  {
    forall h ensures h in Concat(parts) <==> h in HostsOfRacks(racks) {
      ConcatMembers(parts, h);
      if h in Concat(parts) {
        var i :| 0 <= i < |parts| && h in parts[i];
        assert rackList[i] in racks;
      }
      if h in HostsOfRacks(racks) {
        var r :| r in racks && h in r.cpus.Values;
        var i :| 0 <= i < |rackList| && rackList[i] == r;
      }
    }
  }

  /** The rack-level disks listed part by part are exactly those of the listed racks. */
  lemma RackDisksListed(rackList: seq<PhysicalRack>, parts: seq<seq<PhysicalStore>>, racks: set<PhysicalRack>)
    requires forall r :: r in rackList <==> r in racks
    requires RackDiskParts(rackList, parts)
    ensures forall s :: s in Concat(parts) <==> s in DisksOfRacks(racks)
  {
    forall s ensures s in Concat(parts) <==> s in DisksOfRacks(racks) {
      ConcatMembers(parts, s);
      if s in Concat(parts) {
        var i :| 0 <= i < |parts| && s in parts[i];
        assert rackList[i] in racks;
      }
      if s in DisksOfRacks(racks) {
        var r :| r in racks && s in r.disks.Values;
        var i :| 0 <= i < |rackList| && rackList[i] == r;
      }
    }
  }

  /** The host-level disks listed part by part are exactly those of the listed hosts. */
  lemma HostDisksListed(hostList: seq<PhysicalHost>, parts: seq<seq<PhysicalStore>>, hosts: set<PhysicalHost>)
    requires forall h :: h in hostList <==> h in hosts
    requires HostDiskParts(hostList, parts)
    ensures forall s :: s in Concat(parts) <==> s in DisksOfHosts(hosts)
  {
    forall s ensures s in Concat(parts) <==> s in DisksOfHosts(hosts) {
      ConcatMembers(parts, s);
      if s in Concat(parts) {
        var i :| 0 <= i < |parts| && s in parts[i];
        assert hostList[i] in hosts;
      }
      if s in DisksOfHosts(hosts) {
        var h :| h in hosts && s in h.disks.Values;
        var i :| 0 <= i < |hostList| && hostList[i] == h;
      }
    }
  }

  // ---------------------------------------------------------------- PhysicalTopology

  class PhysicalTopology {
    const root: PhysicalRoot

    /** A topology with a fresh, empty root named "root". */
    constructor ()
      ensures fresh(root) && root.id == RootName && root.dataCenters == map[]
    {
      root := new PhysicalRoot(RootName, map[]);
    }

    /** Wraps `root` and rebuilds every parent reference below it; only `parent` fields change. */
    constructor FromRoot(root: PhysicalRoot)
      modifies root.dataCenters.Values`parent, RacksBelow(root)`parent, HostsBelow(root)`parent, StoresBelow(root)`parent
      ensures this.root == root
      ensures ParentsHeld(root, old(root.dataCenters.Values), old(RacksBelow(root)), old(HostsBelow(root)), old(StoresBelow(root)))
    {
      ghost var dcs, racks, hosts, stores := root.dataCenters.Values, RacksBelow(root), HostsBelow(root), StoresBelow(root);
      Fixme(root, dcs, racks, hosts, stores);
      this.root := root;
      new;
      ghost var held := ParentsHeld(root, dcs, racks, hosts, stores);
      assert held;
    }

    /**
     * `PhysicalTopology(other)`: a deep copy of `topology`'s root, keyed by
     * identifier, whose parent references are consistent.
     */
    constructor Copy(topology: PhysicalTopology)
      ensures fresh(root) && root.id == topology.root.id
      ensures DataCentersKeyed(old(topology.root.dataCenters)) ==> root.dataCenters.Keys == old(topology.root.dataCenters.Keys)
      ensures DataCentersKeyed(root.dataCenters) && ParentsConsistent(root) && RootLinked(root)
      ensures RootKeyed(root)
      ensures old(RootKeyed(topology.root)) ==> RootValue(root) == old(RootValue(topology.root))
      ensures fresh(root.dataCenters.Values) && fresh(RacksBelow(root)) && fresh(HostsBelow(root)) && fresh(StoresBelow(root))
    {
      var copy := CopiedRoot(topology.root);
      label made:
      root := copy;
      new;
      RootKeptBesides@made(copy, this);
      ParentsKeptBesides@made(copy, this);
    }

    /** `new PhysicalRoot(other)` followed by `fixme` on the copy: a fresh tree whose parents are all consistent. */
    static method CopiedRoot(other: PhysicalRoot) returns (copy: PhysicalRoot)
      ensures fresh(copy) && copy.id == other.id
      ensures DataCentersKeyed(old(other.dataCenters)) ==> copy.dataCenters.Keys == old(other.dataCenters.Keys)
      ensures DataCentersKeyed(copy.dataCenters) && ParentsConsistent(copy) && RootLinked(copy)
      ensures RootKeyed(copy)
      ensures old(RootKeyed(other)) ==> RootValue(copy) == old(RootValue(other))
      ensures fresh(copy.dataCenters.Values) && fresh(RacksBelow(copy)) && fresh(HostsBelow(copy)) && fresh(StoresBelow(copy))
    {
      ghost var dcs, racks, hosts, stores;
      copy, dcs, racks, hosts, stores := NewCopy(other);
      LinkedUnshared(copy);
      FixmeKept(copy, dcs, racks, hosts, stores);
      UnsharedLinked(copy);
    }

    /** `new PhysicalRoot(other)`, with the node sets of the fresh tree. */
    static method NewCopy(other: PhysicalRoot)
      returns (copy: PhysicalRoot, ghost dcs: set<PhysicalDataCenter>, ghost racks: set<PhysicalRack>,
               ghost hosts: set<PhysicalHost>, ghost stores: set<PhysicalStore>)
      ensures fresh(copy) && copy.id == other.id
      ensures DataCentersKeyed(old(other.dataCenters)) ==> copy.dataCenters.Keys == old(other.dataCenters.Keys)
      ensures DataCentersKeyed(copy.dataCenters) && Nodes(copy, dcs, racks, hosts, stores) && RootLinked(copy)
      ensures fresh(dcs) && fresh(racks) && fresh(hosts) && fresh(stores)
      ensures RootKeyed(copy)
      ensures old(RootKeyed(other)) ==> RootValue(copy) == old(RootValue(other))
    {
      copy := new PhysicalRoot.Copy(other);
      RootKeptBesides(other, copy);
      dcs, racks, hosts, stores := copy.dataCenters.Values, RacksBelow(copy), HostsBelow(copy), StoresBelow(copy);
    }

    /** `fixme`, with the node sets it walked still those of the tree afterwards (only `parent` fields change). */
    static method FixmeKept(root: PhysicalRoot, ghost dcs: set<PhysicalDataCenter>, ghost racks: set<PhysicalRack>,
                        ghost hosts: set<PhysicalHost>, ghost stores: set<PhysicalStore>)
      requires Nodes(root, dcs, racks, hosts, stores)
      modifies dcs`parent, racks`parent, hosts`parent, stores`parent
      ensures root.dataCenters == old(root.dataCenters)
      ensures Nodes(root, dcs, racks, hosts, stores)
      ensures ParentsConsistent(root) && Unshared(root) == old(Unshared(root))
      ensures RootValue(root) == old(RootValue(root)) && RootKeyed(root) == old(RootKeyed(root))
    {
      Fixme(root, dcs, racks, hosts, stores);
      ValueKeptOverNodes(NodeSets(root, dcs, racks, hosts, stores));
    }

    /** `getDataCenters`: the root's listing of its data centers. */
    method GetDataCenters() returns (list: seq<PhysicalDataCenter>)
      ensures Enumerates(list, root.dataCenters)
    {
      ghost var keys;
      list, keys := root.GetDataCenters();
    }

    /**
     * `getRacks`: the racks of each data center of `dcList` (a listing of the
     * root's data centers), one data center after another. It holds exactly
     * the racks of the tree, as many entries as the data centers hold together.
     */
    method GetRacks() returns (list: seq<PhysicalRack>, ghost dcList: seq<PhysicalDataCenter>, ghost parts: seq<seq<PhysicalRack>>)
      ensures Enumerates(dcList, root.dataCenters)
      ensures RackParts(dcList, parts) && list == Concat(parts)
      ensures |list| == TotalLength(parts)
      ensures forall r :: r in list <==> r in RacksBelow(root)
    {
      var dcs := GetDataCenters();
      dcList := dcs;
      list, parts := AllRacks(dcs);
      ConcatLength(parts);
      RacksListed(dcList, parts, root.dataCenters.Values);
    }

    /** The `addAll` loop of `getRacks` over the listed data centers. */
    static method AllRacks(dcs: seq<PhysicalDataCenter>) returns (list: seq<PhysicalRack>, ghost parts: seq<seq<PhysicalRack>>)
      ensures RackParts(dcs, parts) && list == Concat(parts)
    {
      list, parts := [], [];
      for i := 0 to |dcs|
        invariant |parts| == i && forall j :: 0 <= j < i ==> Enumerates(parts[j], dcs[j].racks)
        invariant list == Concat(parts)
      {
        var racks, keys := dcs[i].GetRacks();
        Enumerated(racks, dcs[i].racks, keys);
        ConcatSnoc(parts, racks);
        forall j | 0 <= j < i ensures Enumerates((parts + [racks])[j], dcs[j].racks) {
          assert (parts + [racks])[j] == parts[j];
        }
        list, parts := list + racks, parts + [racks];
      }
    }

    /**
     * `getCPUs`: the hosts of each rack of `rackList` (the racks `getRacks`
     * lists), one rack after another. It holds exactly the hosts of the tree.
     */
    method GetCPUs() returns (list: seq<PhysicalHost>, ghost rackList: seq<PhysicalRack>, ghost parts: seq<seq<PhysicalHost>>)
      ensures forall r :: r in rackList <==> r in RacksBelow(root)
      ensures HostParts(rackList, parts) && list == Concat(parts)
      ensures |list| == TotalLength(parts)
      ensures forall h :: h in list <==> h in HostsBelow(root)
    {
      ghost var dcList, rackParts;
      var racks;
      racks, dcList, rackParts := GetRacks();
      rackList := racks;
      list, parts := AllHosts(racks);
      ConcatLength(parts);
      HostsListed(rackList, parts, RacksBelow(root));
    }

    /**
     * `getStores`: the rack-level disks of the racks `getRacks` lists, then the
     * disks of the hosts `getCPUs` lists. It holds exactly the disks of the tree.
     */
    method GetStores() returns (list: seq<PhysicalStore>,
                                ghost rackList: seq<PhysicalRack>, ghost rackParts: seq<seq<PhysicalStore>>,
                                ghost hostList: seq<PhysicalHost>, ghost hostParts: seq<seq<PhysicalStore>>)
      ensures forall r :: r in rackList <==> r in RacksBelow(root)
      ensures forall h :: h in hostList <==> h in HostsBelow(root)
      ensures RackDiskParts(rackList, rackParts) && HostDiskParts(hostList, hostParts)
      ensures list == Concat(rackParts) + Concat(hostParts)
      ensures |list| == TotalLength(rackParts) + TotalLength(hostParts)
      ensures forall s :: s in list <==> s in StoresBelow(root)
    {
      ghost var dcList, racksOf, hostsOf;
      var racks;
      racks, dcList, racksOf := GetRacks();
      rackList := racks;
      var rackDisks;
      rackDisks, rackParts := AllRackDisks(racks);
      ghost var racksOfHosts;
      var hosts;
      hosts, racksOfHosts, hostsOf := GetCPUs();
      hostList := hosts;
      var hostDisks;
      hostDisks, hostParts := AllHostDisks(hosts);
      list := rackDisks + hostDisks;
      ConcatLength(rackParts);
      ConcatLength(hostParts);
      RackDisksListed(rackList, rackParts, RacksBelow(root));
      HostDisksListed(hostList, hostParts, HostsBelow(root));
    }

    /** The `addAll` loop of `getCPUs` over the listed racks. */
    static method AllHosts(racks: seq<PhysicalRack>) returns (list: seq<PhysicalHost>, ghost parts: seq<seq<PhysicalHost>>)
      ensures HostParts(racks, parts) && list == Concat(parts)
    {
      list, parts := [], [];
      for i := 0 to |racks|
        invariant |parts| == i && forall j :: 0 <= j < i ==> Enumerates(parts[j], racks[j].cpus)
        invariant list == Concat(parts)
      {
        var hosts, keys := racks[i].GetCPUs();
        Enumerated(hosts, racks[i].cpus, keys);
        ConcatSnoc(parts, hosts);
        forall j | 0 <= j < i ensures Enumerates((parts + [hosts])[j], racks[j].cpus) {
          assert (parts + [hosts])[j] == parts[j];
        }
        list, parts := list + hosts, parts + [hosts];
      }
    }

    /** The first `addAll` loop of `getStores`, over the listed racks. */
    static method AllRackDisks(racks: seq<PhysicalRack>) returns (list: seq<PhysicalStore>, ghost parts: seq<seq<PhysicalStore>>)
      ensures RackDiskParts(racks, parts) && list == Concat(parts)
    {
      list, parts := [], [];
      for i := 0 to |racks|
        invariant |parts| == i && forall j :: 0 <= j < i ==> Enumerates(parts[j], racks[j].disks)
        invariant list == Concat(parts)
      {
        var disks, keys := racks[i].GetDisks();
        Enumerated(disks, racks[i].disks, keys);
        ConcatSnoc(parts, disks);
        forall j | 0 <= j < i ensures Enumerates((parts + [disks])[j], racks[j].disks) {
          assert (parts + [disks])[j] == parts[j];
        }
        list, parts := list + disks, parts + [disks];
      }
    }

    /** The second `addAll` loop of `getStores`, over the listed hosts. */
    static method AllHostDisks(hosts: seq<PhysicalHost>) returns (list: seq<PhysicalStore>, ghost parts: seq<seq<PhysicalStore>>)
      ensures HostDiskParts(hosts, parts) && list == Concat(parts)
    {
      list, parts := [], [];
      for i := 0 to |hosts|
        invariant |parts| == i && forall j :: 0 <= j < i ==> Enumerates(parts[j], hosts[j].disks)
        invariant list == Concat(parts)
      {
        var disks, keys := hosts[i].GetDisks();
        Enumerated(disks, hosts[i].disks, keys);
        ConcatSnoc(parts, disks);
        forall j | 0 <= j < i ensures Enumerates((parts + [disks])[j], hosts[j].disks) {
          assert (parts + [disks])[j] == parts[j];
        }
        list, parts := list + disks, parts + [disks];
      }
    }

    // ------------------------------------------------------------ guarded add / remove pairs

    /** `addDataCenter`: the root holds `dc` under its identifier and is its parent; `null` is an argument error. */
    method AddDataCenter(dc: PhysicalDataCenter?) returns (r: Outcome<Error>)
      modifies root`dataCenters, {dc}`parent
      ensures r.Fail? <==> dc == null
      ensures r.Fail? ==> r.error == IllegalArgument(ArgumentMessage(DataCenterName)) && root.dataCenters == old(root.dataCenters)
      ensures r.Pass? ==> dc != null && root.dataCenters == old(root.dataCenters)[dc.id := dc] && dc.parent == root
    {
      r := ThrowIfNullArgument(Ref(dc), DataCenterName);
      if r.Fail? {
        return;
      }
      root.AddDataCenter(dc);
      dc.SetParent(root);
    }

    /** `removeDataCenter`: the root drops whatever sits under `dc`'s identifier and `dc` loses its parent. */
    method RemoveDataCenter(dc: PhysicalDataCenter?) returns (r: Outcome<Error>)
      modifies root`dataCenters, {dc}`parent
      ensures r.Fail? <==> dc == null
      ensures r.Fail? ==> r.error == IllegalArgument(ArgumentMessage(DataCenterName)) && root.dataCenters == old(root.dataCenters)
      ensures r.Pass? ==> dc != null && root.dataCenters == old(root.dataCenters) - {dc.id} && dc.parent == null
    {
      r := ThrowIfNullArgument(Ref(dc), DataCenterName);
      if r.Fail? {
        return;
      }
      root.RemoveDataCenter(dc);
      dc.SetParent(null);
    }

    /** `addRackToDataCenter`: `dc` holds `rack` under its identifier and is its parent. */
    method AddRackToDataCenter(rack: PhysicalRack?, dc: PhysicalDataCenter?) returns (r: Outcome<Error>)
      modifies {dc}`racks, {rack}`parent
      ensures r.Fail? <==> rack == null || dc == null
      ensures rack == null ==> r == Fail(IllegalArgument(ArgumentMessage(RackName)))
      ensures rack != null && dc == null ==> r == Fail(IllegalArgument(ArgumentMessage(DataCenterName))) && rack.parent == old(rack.parent)
      ensures r.Fail? && dc != null ==> dc.racks == old(dc.racks)
      ensures r.Pass? ==> rack != null && dc != null && dc.racks == old(dc.racks)[rack.id := rack] && rack.parent == dc
    {
      r := ThrowIfNullArgument(Ref(rack), RackName);
      if r.Fail? {
        return;
      }
      r := ThrowIfNullArgument(Ref(dc), DataCenterName);
      if r.Fail? {
        return;
      }
      dc.AddRack(rack);
      rack.SetParent(dc);
    }

    /** `removeRackFromDataCenter`: `dc` drops whatever sits under `rack`'s identifier and `rack` loses its parent. */
    method RemoveRackFromDataCenter(rack: PhysicalRack?, dc: PhysicalDataCenter?) returns (r: Outcome<Error>)
      modifies {dc}`racks, {rack}`parent
      ensures r.Fail? <==> rack == null || dc == null
      ensures rack == null ==> r == Fail(IllegalArgument(ArgumentMessage(RackName)))
      ensures rack != null && dc == null ==> r == Fail(IllegalArgument(ArgumentMessage(DataCenterName))) && rack.parent == old(rack.parent)
      ensures r.Fail? && dc != null ==> dc.racks == old(dc.racks)
      ensures r.Pass? ==> rack != null && dc != null && dc.racks == old(dc.racks) - {rack.id} && rack.parent == null
    {
      r := ThrowIfNullArgument(Ref(rack), RackName);
      if r.Fail? {
        return;
      }
      r := ThrowIfNullArgument(Ref(dc), DataCenterName);
      if r.Fail? {
        return;
      }
      dc.RemoveRack(rack);
      rack.SetParent(null);
    }

    /** `addCPUToRack`: `rack` holds `cpu` under its identifier and is its parent. Both checks name "host". */
    method AddCPUToRack(cpu: PhysicalHost?, rack: PhysicalRack?) returns (r: Outcome<Error>)
      modifies {rack}`cpus, {cpu}`parent
      ensures r.Fail? <==> cpu == null || rack == null
      ensures cpu == null ==> r == Fail(IllegalArgument(ArgumentMessage(HostName)))
      ensures cpu != null && rack == null ==> r == Fail(IllegalArgument(ArgumentMessage(HostName))) && cpu.parent == old(cpu.parent)
      ensures r.Fail? && rack != null ==> rack.cpus == old(rack.cpus)
      ensures r.Pass? ==> cpu != null && rack != null && rack.cpus == old(rack.cpus)[cpu.id := cpu] && cpu.parent == rack
    {
      r := ThrowIfNullArgument(Ref(cpu), HostName);
      if r.Fail? {
        return;
      }
      r := ThrowIfNullArgument(Ref(rack), HostName);
      if r.Fail? {
        return;
      }
      rack.AddCPU(cpu);
      cpu.SetParent(rack);
    }

    /** `removeCPUFromRack`: `rack` drops whatever sits under `cpu`'s identifier and `cpu` loses its parent. */
    method RemoveCPUFromRack(cpu: PhysicalHost?, rack: PhysicalRack?) returns (r: Outcome<Error>)
      modifies {rack}`cpus, {cpu}`parent
      ensures r.Fail? <==> cpu == null || rack == null
      ensures cpu == null ==> r == Fail(IllegalArgument(ArgumentMessage(HostName)))
      ensures cpu != null && rack == null ==> r == Fail(IllegalArgument(ArgumentMessage(RackName))) && cpu.parent == old(cpu.parent)
      ensures r.Fail? && rack != null ==> rack.cpus == old(rack.cpus)
      ensures r.Pass? ==> cpu != null && rack != null && rack.cpus == old(rack.cpus) - {cpu.id} && cpu.parent == null
    {
      r := ThrowIfNullArgument(Ref(cpu), HostName);
      if r.Fail? {
        return;
      }
      r := ThrowIfNullArgument(Ref(rack), RackName);
      if r.Fail? {
        return;
      }
      rack.RemoveCPU(cpu);
      cpu.SetParent(null);
    }

    /** `addDiskToRack`: `rack` holds `disk` as a rack-level disk and is its parent. */
    method AddDiskToRack(disk: PhysicalStore?, rack: PhysicalRack?) returns (r: Outcome<Error>)
      modifies {rack}`disks, {disk}`parent
      ensures r.Fail? <==> disk == null || rack == null
      ensures disk == null ==> r == Fail(IllegalArgument(ArgumentMessage(DiskName)))
      ensures disk != null && rack == null ==> r == Fail(IllegalArgument(ArgumentMessage(RackName))) && disk.parent == old(disk.parent)
      ensures r.Fail? && rack != null ==> rack.disks == old(rack.disks)
      ensures r.Pass? ==> disk != null && rack != null && rack.disks == old(rack.disks)[disk.id := disk] && disk.parent == OnRack(rack)
    {
      r := ThrowIfNullArgument(Ref(disk), DiskName);
      if r.Fail? {
        return;
      }
      r := ThrowIfNullArgument(Ref(rack), RackName);
      if r.Fail? {
        return;
      }
      rack.AddDisk(disk);
      disk.SetParent(OnRack(rack));
    }

    /** `removeDiskFromRack`: `rack` drops whatever sits under `disk`'s identifier and `disk` loses its parent. */
    method RemoveDiskFromRack(disk: PhysicalStore?, rack: PhysicalRack?) returns (r: Outcome<Error>)
      modifies {rack}`disks, {disk}`parent
      ensures r.Fail? <==> disk == null || rack == null
      ensures disk == null ==> r == Fail(IllegalArgument(ArgumentMessage(DiskName)))
      ensures disk != null && rack == null ==> r == Fail(IllegalArgument(ArgumentMessage(RackName))) && disk.parent == old(disk.parent)
      ensures r.Fail? && rack != null ==> rack.disks == old(rack.disks)
      ensures r.Pass? ==> disk != null && rack != null && rack.disks == old(rack.disks) - {disk.id} && disk.parent == Detached
    {
      r := ThrowIfNullArgument(Ref(disk), DiskName);
      if r.Fail? {
        return;
      }
      r := ThrowIfNullArgument(Ref(rack), RackName);
      if r.Fail? {
        return;
      }
      rack.RemoveDisk(disk);
      disk.SetParent(Detached);
    }

    /** `addDiskToHost`: `host` holds `disk` and is its parent. The host check names "rack". */
    method AddDiskToHost(disk: PhysicalStore?, host: PhysicalHost?) returns (r: Outcome<Error>)
      modifies {host}`disks, {disk}`parent
      ensures r.Fail? <==> disk == null || host == null
      ensures disk == null ==> r == Fail(IllegalArgument(ArgumentMessage(DiskName)))
      ensures disk != null && host == null ==> r == Fail(IllegalArgument(ArgumentMessage(RackName))) && disk.parent == old(disk.parent)
      ensures r.Fail? && host != null ==> host.disks == old(host.disks)
      ensures r.Pass? ==> disk != null && host != null && host.disks == old(host.disks)[disk.id := disk] && disk.parent == OnHost(host)
    {
      r := ThrowIfNullArgument(Ref(disk), DiskName);
      if r.Fail? {
        return;
      }
      r := ThrowIfNullArgument(Ref(host), RackName);
      if r.Fail? {
        return;
      }
      host.AddDisk(disk);
      disk.SetParent(OnHost(host));
    }

    /** `removeDiskFromHost`: `host` drops whatever sits under `disk`'s identifier and `disk` loses its parent. */
    method RemoveDiskFromHost(disk: PhysicalStore?, host: PhysicalHost?) returns (r: Outcome<Error>)
      modifies {host}`disks, {disk}`parent
      ensures r.Fail? <==> disk == null || host == null
      ensures disk == null ==> r == Fail(IllegalArgument(ArgumentMessage(DiskName)))
      ensures disk != null && host == null ==> r == Fail(IllegalArgument(ArgumentMessage(RackName))) && disk.parent == old(disk.parent)
      ensures r.Fail? && host != null ==> host.disks == old(host.disks)
      ensures r.Pass? ==> disk != null && host != null && host.disks == old(host.disks) - {disk.id} && disk.parent == Detached
    {
      r := ThrowIfNullArgument(Ref(disk), DiskName);
      if r.Fail? {
        return;
      }
      r := ThrowIfNullArgument(Ref(host), RackName);
      if r.Fail? {
        return;
      }
      host.RemoveDisk(disk);
      disk.SetParent(Detached);
    }

    // ------------------------------------------------------------ lookups by identifier

    /** `hasCPUByID`: whether some host of the tree carries the identifier. */
    method HasCPUByID(cpuID: string) returns (b: bool)
      ensures b <==> exists h :: h in HostsBelow(root) && h.id == cpuID
    {
      ghost var rackList, parts;
      var cpus;
      cpus, rackList, parts := GetCPUs();
      var index := IndexOf(HostIds(cpus), cpuID);
      b := 0 <= index;
      HostFound(cpus, cpuID, index, root);
    }

    /** `getCPUByID`: a host of the tree with the identifier; none is `NoSuchElementException`. */
    method GetCPUByID(cpuID: string) returns (r: Result<PhysicalHost, Error>)
      ensures r.Ok? ==> r.value in HostsBelow(root) && r.value.id == cpuID
      ensures r.Err? <==> !exists h :: h in HostsBelow(root) && h.id == cpuID
      ensures r.Err? ==> r.error == NoSuchElement
    {
      ghost var rackList, parts;
      var cpus;
      cpus, rackList, parts := GetCPUs();
      var index := IndexOf(HostIds(cpus), cpuID);
      HostFound(cpus, cpuID, index, root);
      if 0 <= index {
        r := Ok(cpus[index]);
      } else {
        r := Err(NoSuchElement);
      }
    }

    // ------------------------------------------------------------ identity

    /** `hashCode`: the root's hash. */
    function HashCode(): (r: int32)
      ensures r == Wrap(HashPolynomial(root.id))
    {
      root.HashCode()
    }

    /** `equals`: another topology whose root equals this one's, that is, has the same identifier. */
    function Equals(that: object?): (r: bool)
      ensures r <==> that is PhysicalTopology && (that as PhysicalTopology).root.id == root.id
      ensures r ==> (that as PhysicalTopology).HashCode() == HashCode()
    {
      that is PhysicalTopology && root.Equals((that as PhysicalTopology).root)
    }

    /** `fixme`: the walk over the data centers, racks, hosts and disks of the root. */
    static method Fixme(root: PhysicalRoot, ghost dcs: set<PhysicalDataCenter>, ghost racks: set<PhysicalRack>,
                        ghost hosts: set<PhysicalHost>, ghost stores: set<PhysicalStore>)
      requires Nodes(root, dcs, racks, hosts, stores)
      modifies dcs`parent, racks`parent, hosts`parent, stores`parent
      ensures ParentsHeld(root, dcs, racks, hosts, stores)
      ensures unchanged(root`dataCenters, dcs`racks, racks`cpus, racks`disks, hosts`disks, stores`capacity, stores`used)
    {
      ghost var racksOf, hostsOf, disksOf := RackTable(dcs), HostTable(racks), DiskTable(racks, hosts);
      Prepare(root, dcs, racks, hosts, stores);
      ghost var D, R, H, S := FixRoot(root, map[root := dcs], racksOf, hostsOf, disksOf, dcs, racks, hosts, stores);
      Conclude(root, dcs, racks, hosts, stores, racksOf, hostsOf, disksOf, D, R, H, S);
    }
  }
}
