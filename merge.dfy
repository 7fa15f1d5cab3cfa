/**
 * The merge operations of PhysicalTopology: `mergeTree` and the private
 * per-level merges it calls. Each builds a fresh tree from copies of the
 * first argument's nodes, adds a copy of (or a merge with) every child of
 * the second argument, and leaves both arguments untouched: none of these
 * methods has a `modifies` clause, so no object that existed before the call
 * changes. For inputs whose maps are keyed by identifier (as the add
 * operations keep them) the children of the result are the union of the
 * children of the two arguments, a disk present on both sides carrying the
 * first argument's figures.
 */
module TopologyMerge {
  import opened Wrappers
  import opened JavaLang
  import opened ErrorChecker
  import opened Topology
  import opened TopologyFacade
  import TopologyValues

  /** The state of a merge loop: the node being filled, the two inputs, and the keys of `two` handled so far. */
  datatype MergeState<N> = MergeState(into: N, one: N, two: N, seen: set<string>)

  /** One turn of a merge loop: the state before the turn and the key of `two` it handles. */
  datatype MergeStep<N> = MergeStep(into: N, one: N, two: N, key: string, seen: set<string>)

  /** Every disk of `m` has the capacity and usage of the disk under the same key in `source`. */
  ghost predicate SameFigures(m: map<string, PhysicalStore>, source: map<string, PhysicalStore>)
    reads m.Values, source.Values
  {
    forall k :: k in m ==> k in source && m[k].capacity == source[k].capacity && m[k].used == source[k].used
  }

  /**
   * A keyed disk map holding the union of two keyed maps, with the first
   * map's figures where both have a disk, has as value the merge of their
   * values that keeps the first disk.
   */
  lemma MergedStoresValue(res: map<string, PhysicalStore>, one: map<string, PhysicalStore>, two: map<string, PhysicalStore>)
    requires StoresKeyed(res) && StoresKeyed(one) && StoresKeyed(two)
    requires res.Keys == one.Keys + two.Keys && SameFigures(res, two + one)
    ensures StoresValue(res) == TopologyValues.MergeMaps(StoresValue(one), StoresValue(two), TopologyValues.KeepFirst)
  {
  }

  /** A keyed listing lists the identifiers of its map's values in key order. */
  lemma StoreIdsAreKeys(list: seq<PhysicalStore>, m: map<string, PhysicalStore>, keys: seq<string>)
    requires StoresKeyed(m) && ListsValues(list, m, keys)
    ensures StoreIds(list) == keys
  {
  }

  /** Some disk of `m` carries the identifier (what `indexOf` on a listing of `m` looks for). */
  ghost predicate CarriesStore(m: map<string, PhysicalStore>, id: string)
    reads m.Values
  {
    exists k :: k in m && m[k].id == id
  }

  /** A keyed map carries exactly the identifiers it is keyed by. */
  lemma CarriesStoreKeyed(m: map<string, PhysicalStore>, id: string)
    requires StoresKeyed(m)
    ensures CarriesStore(m, id) <==> id in m
  {
    if id in m {
      assert m[id].id == id;
    }
  }

  /** A loop that visited every position of a key listing has seen every key. */
  lemma AllSeen<T>(list: seq<T>, m: map<string, T>, keys: seq<string>, seen: set<string>)
    requires ListsValues(list, m, keys)
    requires seen <= m.Keys && forall j :: 0 <= j < |keys| ==> keys[j] in seen
    ensures seen == m.Keys
  {
  }

  /** Every disk of `m` is owned by `owner`. */
  ghost predicate OwnedBy(m: map<string, PhysicalStore>, owner: StoreOwner)
    reads m.Values
  {
    forall k :: k in m ==> m[k].parent == owner
  }

  /** `one.getDisks().indexOf(disk) >= 0`: whether some disk of `one` has the identifier (disks are equal by identifier). */
  method HostHasDisk(one: PhysicalHost, id: string) returns (b: bool)
    ensures b <==> CarriesStore(one.disks, id)
  {
    var ones, oneKeys := one.GetDisks();
    var index := IndexOf(StoreIds(ones), id);
    ListedValues(ones, one.disks, oneKeys);
    if index < 0 {
      forall k | k in one.disks ensures one.disks[k].id != id {
        var j :| 0 <= j < |ones| && ones[j] == one.disks[k];
        assert StoreIds(ones)[j] == ones[j].id;
      }
    } else {
      assert ones[index] in one.disks.Values;
    }
    b := 0 <= index;
  }

  /** `clone = new PhysicalStore(disk); clone.setParent(host); host.addDisk(clone)`. */
  method PutHostDiskCopy(host: PhysicalHost, disk: PhysicalStore)
    requires StoresKeyed(host.disks) && OwnedBy(host.disks, OnHost(host))
    modifies host`disks
    ensures StoresKeyed(host.disks) && OwnedBy(host.disks, OnHost(host))
    ensures disk.id in host.disks && fresh(host.disks[disk.id])
    ensures host.disks == old(host.disks)[disk.id := host.disks[disk.id]]
    ensures host.disks[disk.id].capacity == disk.capacity && host.disks[disk.id].used == disk.used
  {
    var clone := new PhysicalStore.Copy(disk);
    clone.SetParent(OnHost(host));
    host.AddDisk(clone);
  }

  /** Putting a disk with the right figures keeps the figures right. */
  lemma SameFiguresPut(m: map<string, PhysicalStore>, source: map<string, PhysicalStore>, id: string, c: PhysicalStore)
    requires SameFigures(m, source) && id in source
    requires c.capacity == source[id].capacity && c.used == source[id].used
    ensures SameFigures(m[id := c], source)
  {
  }

  /**
   * What the disk loop of `mergeHost` keeps: `host`'s disks are keyed and
   * owned by it; from keyed inputs, with `seen` the identifiers of `two`'s
   * disks handled so far, they sit under `one`'s keys and `seen`, and
   * (when `host` started from copies of `one`'s disks) carry the figures of
   * the union that favours `one`.
   */
  ghost predicate HostDisksMerging(host: PhysicalHost, one: PhysicalHost, two: PhysicalHost,
                                   keyed: bool, figures: bool, seen: set<string>)
    reads host, host.disks.Values, one, one.disks.Values, two, two.disks.Values
  {
    && StoresKeyed(host.disks) && OwnedBy(host.disks, OnHost(host))
    && (keyed ==> StoresKeyed(one.disks) && StoresKeyed(two.disks) && seen <= two.disks.Keys)
    && (keyed ==> host.disks.Keys == one.disks.Keys + seen)
    && (figures ==> keyed && SameFigures(host.disks, two.disks + one.disks))
  }

  /** One turn of the disk loop of `mergeHost`, for the disk of `two` under `key`. */
  method MergeHostDisk(host: PhysicalHost, one: PhysicalHost, two: PhysicalHost, disk: PhysicalStore,
                       ghost key: string, ghost keyed: bool, ghost figures: bool, ghost seen: set<string>)
    requires host != one && host != two
    requires HostDisksMerging(host, one, two, keyed, figures, seen)
    requires key in two.disks && two.disks[key] == disk
    modifies host`disks
    ensures HostDisksMerging(host, one, two, keyed, figures, seen + {key})
    ensures fresh(host.disks.Values - old(host.disks.Values))
  {
    var present := HostHasDisk(one, disk.id);
    if keyed {
      CarriesStoreKeyed(one.disks, disk.id);
      assert disk.id == key;
    }
    if !present {
      ghost var before := host.disks;
      PutHostDiskCopy(host, disk);
      if figures {
        assert SameFigures(before, two.disks + one.disks);
        SameFiguresPut(before, two.disks + one.disks, disk.id, host.disks[disk.id]);
      }
    }
  }

  /** The turn of the disk loop for the `i`-th disk of the listing of `two`'s disks; `seen'` adds its key. */
  method MergeHostDiskAt(host: PhysicalHost, one: PhysicalHost, two: PhysicalHost, list: seq<PhysicalStore>, ghost keys: seq<string>, i: nat,
                          ghost keyed: bool, ghost figures: bool, ghost seen: set<string>)
    returns (ghost seen': set<string>)
    requires host != one && host != two
    requires ListsValues(list, two.disks, keys) && i < |list|
    requires HostDisksMerging(host, one, two, keyed, figures, seen)
    requires seen <= two.disks.Keys && forall j :: 0 <= j < i ==> keys[j] in seen
    modifies host`disks
    ensures HostDisksMerging(host, one, two, keyed, figures, seen')
    ensures seen' <= two.disks.Keys && forall j :: 0 <= j < i + 1 ==> keys[j] in seen'
    ensures fresh(host.disks.Values - old(host.disks.Values))
  {
    MergeHostDisk(host, one, two, list[i], keys[i], keyed, figures, seen);
    seen' := seen + {keys[i]};
  }

  /**
   * The disk loop of `mergeHost`: every disk
   * of `two` that `one` lacks is copied into `host`. From keyed maps, with
   * `host` holding copies of `one`'s disks, it ends with the union, `one`'s
   * figures kept where both have a disk.
   */
  method AddMissingHostDisks(host: PhysicalHost, one: PhysicalHost, two: PhysicalHost, ghost keyed: bool, ghost figures: bool)
    requires host != one && host != two
    requires HostDisksMerging(host, one, two, keyed, figures, {})
    modifies host`disks
    ensures HostDisksMerging(host, one, two, keyed, figures, two.disks.Keys)
    ensures fresh(host.disks.Values - old(host.disks.Values))
  {
    var list, keys := two.GetDisks();
    ghost var seen: set<string> := {};
    for i := 0 to |list|
      invariant HostDisksMerging(host, one, two, keyed, figures, seen)
      invariant seen <= two.disks.Keys && forall j :: 0 <= j < i ==> keys[j] in seen
      invariant fresh(host.disks.Values - old(host.disks.Values))
    {
      seen := MergeHostDiskAt(host, one, two, list, keys, i, keyed, figures, seen);
    }
    AllSeen(list, two.disks, keys, seen);
  }

  /** `one.getDisks().indexOf(disk) >= 0`: whether some disk of `one` has the identifier (disks are equal by identifier). */
  method RackHasDisk(one: PhysicalRack, id: string) returns (b: bool)
    ensures b <==> CarriesStore(one.disks, id)
  {
    var ones, oneKeys := one.GetDisks();
    var index := IndexOf(StoreIds(ones), id);
    ListedValues(ones, one.disks, oneKeys);
    if index < 0 {
      forall k | k in one.disks ensures one.disks[k].id != id {
        var j :| 0 <= j < |ones| && ones[j] == one.disks[k];
        assert StoreIds(ones)[j] == ones[j].id;
      }
    } else {
      assert ones[index] in one.disks.Values;
    }
    b := 0 <= index;
  }

  /** `clone = new PhysicalStore(disk); clone.setParent(rack); rack.addDisk(clone)`. */
  method PutRackDiskCopy(rack: PhysicalRack, disk: PhysicalStore)
    requires StoresKeyed(rack.disks) && OwnedBy(rack.disks, OnRack(rack))
    modifies rack`disks
    ensures StoresKeyed(rack.disks) && OwnedBy(rack.disks, OnRack(rack))
    ensures disk.id in rack.disks && fresh(rack.disks[disk.id])
    ensures rack.disks == old(rack.disks)[disk.id := rack.disks[disk.id]]
    ensures rack.disks[disk.id].capacity == disk.capacity && rack.disks[disk.id].used == disk.used
  {
    var clone := new PhysicalStore.Copy(disk);
    clone.SetParent(OnRack(rack));
    rack.AddDisk(clone);
  }

  /**
   * What the rack-level disk loop of `mergeRack` keeps: `rack`'s disks are keyed and
   * owned by it; from keyed inputs, with `seen` the identifiers of `two`'s
   * disks handled so far, they sit under `one`'s keys and `seen`, and
   * (when `rack` started from copies of `one`'s disks) carry the figures of
   * the union that favours `one`.
   */
  ghost predicate RackDisksMerging(rack: PhysicalRack, one: PhysicalRack, two: PhysicalRack,
                                   keyed: bool, figures: bool, seen: set<string>)
    reads rack`disks, rack.disks.Values, one`disks, one.disks.Values, two`disks, two.disks.Values
  {
    && StoresKeyed(rack.disks) && OwnedBy(rack.disks, OnRack(rack))
    && (keyed ==> StoresKeyed(one.disks) && StoresKeyed(two.disks) && seen <= two.disks.Keys)
    && (keyed ==> rack.disks.Keys == one.disks.Keys + seen)
    && (figures ==> keyed && SameFigures(rack.disks, two.disks + one.disks))
  }

  /** One turn of the rack-level disk loop of `mergeRack`, for the disk of `two` under `key`. */
  method MergeRackDisk(rack: PhysicalRack, one: PhysicalRack, two: PhysicalRack, disk: PhysicalStore,
                       ghost key: string, ghost keyed: bool, ghost figures: bool, ghost seen: set<string>)
    requires rack != one && rack != two
    requires RackDisksMerging(rack, one, two, keyed, figures, seen)
    requires key in two.disks && two.disks[key] == disk
    modifies rack`disks
    ensures RackDisksMerging(rack, one, two, keyed, figures, seen + {key})
    ensures fresh(rack.disks.Values - old(rack.disks.Values))
  {
    var present := RackHasDisk(one, disk.id);
    if keyed {
      CarriesStoreKeyed(one.disks, disk.id);
      assert disk.id == key;
    }
    if !present {
      ghost var before := rack.disks;
      PutRackDiskCopy(rack, disk);
      if figures {
        assert SameFigures(before, two.disks + one.disks);
        SameFiguresPut(before, two.disks + one.disks, disk.id, rack.disks[disk.id]);
      }
    }
  }

  /** The turn of the disk loop for the `i`-th disk of the listing of `two`'s disks; `seen'` adds its key. */
  method MergeRackDiskAt(rack: PhysicalRack, one: PhysicalRack, two: PhysicalRack, list: seq<PhysicalStore>, ghost keys: seq<string>, i: nat,
                          ghost keyed: bool, ghost figures: bool, ghost seen: set<string>)
    returns (ghost seen': set<string>)
    requires rack != one && rack != two
    requires ListsValues(list, two.disks, keys) && i < |list|
    requires RackDisksMerging(rack, one, two, keyed, figures, seen)
    requires seen <= two.disks.Keys && forall j :: 0 <= j < i ==> keys[j] in seen
    modifies rack`disks
    ensures RackDisksMerging(rack, one, two, keyed, figures, seen')
    ensures seen' <= two.disks.Keys && forall j :: 0 <= j < i + 1 ==> keys[j] in seen'
    ensures fresh(rack.disks.Values - old(rack.disks.Values))
  {
    MergeRackDisk(rack, one, two, list[i], keys[i], keyed, figures, seen);
    seen' := seen + {keys[i]};
  }

  /**
   * The rack-level disk loop of `mergeRack`: every disk
   * of `two` that `one` lacks is copied into `rack`. From keyed maps, with
   * `rack` holding copies of `one`'s disks, it ends with the union, `one`'s
   * figures kept where both have a disk.
   */
  method AddMissingRackDisks(rack: PhysicalRack, one: PhysicalRack, two: PhysicalRack, ghost keyed: bool, ghost figures: bool)
    requires rack != one && rack != two
    requires RackDisksMerging(rack, one, two, keyed, figures, {})
    modifies rack`disks
    ensures RackDisksMerging(rack, one, two, keyed, figures, two.disks.Keys)
    ensures fresh(rack.disks.Values - old(rack.disks.Values))
  {
    var list, keys := two.GetDisks();
    ghost var seen: set<string> := {};
    for i := 0 to |list|
      invariant RackDisksMerging(rack, one, two, keyed, figures, seen)
      invariant seen <= two.disks.Keys && forall j :: 0 <= j < i ==> keys[j] in seen
      invariant fresh(rack.disks.Values - old(rack.disks.Values))
    {
      seen := MergeRackDiskAt(rack, one, two, list, keys, i, keyed, figures, seen);
    }
    AllSeen(list, two.disks, keys, seen);
  }

  /**
   * The rack-level disk loop of `mergeRack` as a whole: from keyed maps,
   * with `rack` holding copies of `one`'s disks, it ends with the union,
   * whose value is the merge that keeps `one`'s disks.
   */
  method MergeRackDisks(rack: PhysicalRack, one: PhysicalRack, two: PhysicalRack, ghost keyed: bool)
    requires rack != one && rack != two
    requires RackDisksMerging(rack, one, two, keyed, keyed, {})
    modifies rack`disks
    ensures StoresKeyed(rack.disks) && OwnedBy(rack.disks, OnRack(rack))
    ensures fresh(rack.disks.Values - old(rack.disks.Values))
    ensures keyed ==> rack.disks.Keys == one.disks.Keys + two.disks.Keys && SameFigures(rack.disks, two.disks + one.disks)
    ensures keyed ==>
      StoresValue(rack.disks) == TopologyValues.MergeMaps(StoresValue(one.disks), StoresValue(two.disks), TopologyValues.KeepFirst)
  {
    AddMissingRackDisks(rack, one, two, keyed, keyed);
    if keyed {
      MergedStoresValue(rack.disks, one.disks, two.disks);
    }
  }

  /**
   * The data centers, racks, hosts and disks of part of a tree: what a merge
   * step brings in, or what sits below a node.
   */
  datatype Nodes = Nodes(dataCenters: set<PhysicalDataCenter>, racks: set<PhysicalRack>, hosts: set<PhysicalHost>,
                         stores: set<PhysicalStore>)

  /** Every node of `n` is a node of `m`. */
  ghost predicate Within(n: Nodes, m: Nodes)
  {
    n.dataCenters <= m.dataCenters && n.racks <= m.racks && n.hosts <= m.hosts && n.stores <= m.stores
  }

  /** The nodes of `n` and of `m`. */
  ghost function Plus(n: Nodes, m: Nodes): Nodes
  {
    Nodes(n.dataCenters + m.dataCenters, n.racks + m.racks, n.hosts + m.hosts, n.stores + m.stores)
  }

  /** Every node of `n` was allocated since the pre-state. */
  twostate predicate FreshNodes(new n: Nodes)
  {
    fresh(n.dataCenters) && fresh(n.racks) && fresh(n.hosts) && fresh(n.stores)
  }

  /** The nodes below the given racks, the racks included. */
  ghost function RacksNodes(racks: set<PhysicalRack>): Nodes
    reads racks`cpus, racks`disks, HostsOfRacks(racks)`disks
  {
    Nodes({}, racks, HostsOfRacks(racks), DisksOfRacks(racks) + DisksOfHosts(HostsOfRacks(racks)))
  }

  /** A rack and the nodes below it. */
  ghost function RackNodes(r: PhysicalRack): Nodes
    reads r`cpus, r`disks, r.cpus.Values`disks
  {
    Nodes({}, {r}, r.cpus.Values, r.disks.Values + DisksOfHosts(r.cpus.Values))
  }

  /** The nodes below the given data centers, the data centers included. */
  ghost function DataCentersNodes(dcs: set<PhysicalDataCenter>): Nodes
    reads dcs`racks, RacksOfDataCenters(dcs)`cpus, RacksOfDataCenters(dcs)`disks, HostsOfRacks(RacksOfDataCenters(dcs))`disks
  {
    var racks := RacksOfDataCenters(dcs);
    Nodes(dcs, racks, HostsOfRacks(racks), DisksOfRacks(racks) + DisksOfHosts(HostsOfRacks(racks)))
  }

  /** A data center and the nodes below it. */
  ghost function DataCenterNodes(dc: PhysicalDataCenter): Nodes
    reads dc`racks, dc.racks.Values`cpus, dc.racks.Values`disks, HostsOfRacks(dc.racks.Values)`disks
  {
    var racks := dc.racks.Values;
    Nodes({dc}, racks, HostsOfRacks(racks), DisksOfRacks(racks) + DisksOfHosts(HostsOfRacks(racks)))
  }

  /** Nodes within those before a step and what the step brought are within those at the start and all that was brought. */
  lemma WithinStep(now: Nodes, before: Nodes, start: Nodes, created: Nodes, made: Nodes)
    requires Within(before, Plus(start, created)) && Within(now, Plus(before, made))
    ensures Within(now, Plus(start, Plus(created, made)))
  {
  }

  /** The nodes of two sets of new nodes are new. */
  twostate lemma FreshPlus(new a: Nodes, new b: Nodes)
    requires FreshNodes(a) && FreshNodes(b)
    ensures FreshNodes(Plus(a, b))
  {
  }

  /** Nodes all found among new nodes are new. */
  twostate lemma FreshWithin(new n: Nodes, new a: Nodes, new b: Nodes)
    requires Within(n, Plus(a, b)) && FreshNodes(a) && FreshNodes(b)
    ensures FreshNodes(n)
  {
  }

  // ---------------------------------------------------------------- mergeHost

  /**
   * `mergeHost`: a copy of `one` with a copy of every disk of `two` that `one`
   * lacks. From keyed disk maps the result holds the union of the disks, with
   * `one`'s figures where both have a disk.
   */
  method MergeHost(one: PhysicalHost, two: PhysicalHost) returns (res: PhysicalHost)
    ensures fresh(res) && res.parent == null
    ensures res.id == one.id && res.cpuUsage == one.cpuUsage && res.memUsage == one.memUsage
    ensures StoresKeyed(res.disks) && HostLinked(res) && fresh(res.disks.Values)
    ensures StoresKeyed(one.disks) && StoresKeyed(two.disks) ==>
      res.disks.Keys == one.disks.Keys + two.disks.Keys && SameFigures(res.disks, two.disks + one.disks)
    ensures StoresKeyed(one.disks) && StoresKeyed(two.disks) ==>
      HostValue(res) == TopologyValues.MergeHost(HostValue(one), HostValue(two))
  {
    res := new PhysicalHost.Copy(one);
    ghost var keyed := StoresKeyed(one.disks) && StoresKeyed(two.disks);
    AddMissingHostDisks(res, one, two, keyed, keyed);
    if keyed {
      MergedStoresValue(res.disks, one.disks, two.disks);
    }
  }

  // ---------------------------------------------------------------- mergeRack

  /** Every host of `m` has the usage figures of the host under the same key in `source`. */
  ghost predicate SameUsage(m: map<string, PhysicalHost>, source: map<string, PhysicalHost>)
    reads m.Values, source.Values
  {
    forall k :: k in m ==> k in source && m[k].cpuUsage == source[k].cpuUsage && m[k].memUsage == source[k].memUsage
  }

  /**
   * What the host loop of `mergeRack` keeps: `rack`'s hosts are keyed and
   * have `rack` as parent; from keyed inputs, with `seen` the identifiers of
   * `two`'s hosts handled so far, they sit under `one`'s keys and `seen`
   * and carry the usage figures of the union that favours `one`.
   */
  ghost predicate RackHostsMerging(rack: PhysicalRack, one: PhysicalRack, two: PhysicalRack, keyed: bool, seen: set<string>)
    reads rack, rack.cpus.Values, DisksOfHosts(rack.cpus.Values)`parent, one, one.cpus.Values, two, two.cpus.Values
  {
    && HostsKeyed(rack.cpus) && (forall k :: k in rack.cpus ==> rack.cpus[k].parent == rack && HostLinked(rack.cpus[k]))
    && (keyed ==> HostsKeyed(one.cpus) && HostsKeyed(two.cpus) && seen <= two.cpus.Keys)
    && (keyed ==> rack.cpus.Keys == one.cpus.Keys + seen)
    && (keyed ==> SameUsage(rack.cpus, two.cpus + one.cpus))
  }

  /**
   * What the host loop of `mergeRack` keeps of the values: `rack`'s hosts
   * have as value the merge of `one`'s hosts with those of `two` under
   * `seen`, the identifiers handled so far.
   */
  ghost predicate RackHostsValued(rack: PhysicalRack, one: PhysicalRack, two: PhysicalRack, seen: set<string>)
    reads rack, rack.cpus.Values, DisksOfHosts(rack.cpus.Values)
    reads one, one.cpus.Values, DisksOfHosts(one.cpus.Values), two, two.cpus.Values, DisksOfHosts(two.cpus.Values)
  {
    HostsValue(rack.cpus)
      == TopologyValues.MergeMaps(HostsValue(one.cpus), TopologyValues.Only(HostsValue(two.cpus), seen), TopologyValues.MergeHost)
  }

  /**
   * Where nothing that existed before has changed but `changed`, which is
   * neither input nor a host or disk, and the rack's host map is the same,
   * the host loop's value invariant is kept.
   */
  twostate lemma RackHostsValuedKept(state: MergeState<PhysicalRack>, new changed: object)
    requires !(changed is PhysicalHost) && !(changed is PhysicalStore) && changed != state.one && changed != state.two
    requires unchanged(state.into`cpus)
    requires forall o: object {:trigger old(allocated(o))} :: old(allocated(o)) && o != changed ==> unchanged(o)
    ensures old(RackHostsValued(state.into, state.one, state.two, state.seen)) ==> RackHostsValued(state.into, state.one, state.two, state.seen)
  {
    var MergeState(rack, one, two, seen) := state;
    var node1: object, node2: object := one, two;
    assert old(allocated(node1)) && old(allocated(node2));
    HostsKeptBesides(rack.cpus, changed);
    HostsKeptBesides(one.cpus, changed);
    HostsKeptBesides(two.cpus, changed);
  }

  /** A rack with `one`'s identifier, the merged hosts and the merged disks has as value the merge of the two racks' values. */
  lemma RackValueOfMerge(res: PhysicalRack, one: PhysicalRack, two: PhysicalRack)
    requires res.id == one.id && RackHostsValued(res, one, two, two.cpus.Keys)
    requires StoresValue(res.disks) == TopologyValues.MergeMaps(StoresValue(one.disks), StoresValue(two.disks), TopologyValues.KeepFirst)
    ensures RackValue(res) == TopologyValues.MergeRack(RackValue(one), RackValue(two))
  {
    var a, b := RackValue(one), RackValue(two);
    assert a.hosts == HostsValue(one.cpus) && b.hosts == HostsValue(two.cpus);
    assert a.disks == StoresValue(one.disks) && b.disks == StoresValue(two.disks);
    assert b.hosts.Keys == two.cpus.Keys;
    TopologyValues.MergeMapsAll(a.hosts, b.hosts, TopologyValues.MergeHost);
    assert HostsValue(res.cpus) == TopologyValues.MergeMaps(a.hosts, b.hosts, TopologyValues.MergeHost);
  }

  /**
   * `one.getCPUs().indexOf(cpu)` followed by `get(index)`: the host of `one`
   * with the identifier, if any (hosts are equal by identifier).
   */
  method FindHost(one: PhysicalRack, id: string) returns (found: Option<PhysicalHost>)
    ensures found.None? ==> forall k :: k in one.cpus ==> one.cpus[k].id != id
    ensures found.Some? ==> found.value in one.cpus.Values && found.value.id == id
  {
    var ones, oneKeys := one.GetCPUs();
    var index := IndexOf(HostIds(ones), id);
    ListedValues(ones, one.cpus, oneKeys);
    if index < 0 {
      forall k | k in one.cpus ensures one.cpus[k].id != id {
        var j :| 0 <= j < |ones| && ones[j] == one.cpus[k];
        assert HostIds(ones)[j] == ones[j].id;
      }
      found := None;
    } else {
      assert HostIds(ones)[index] == ones[index].id;
      found := Some(ones[index]);
    }
  }

  /**
   * The host `mergeRack` puts in place of `cpu`: a merge with `one`'s host of
   * the same identifier, or a copy when `one` has none. It has `cpu`'s
   * identifier and, from a keyed map, the usage figures of `one`'s host when
   * there is one and of `cpu` otherwise; when the disk maps are keyed too,
   * its value is the merge of the two hosts' values, or `cpu`'s.
   */
  method HostClone(one: PhysicalRack, cpu: PhysicalHost, ghost keyed: bool) returns (clone: PhysicalHost)
    requires keyed ==> HostsKeyed(one.cpus)
    ensures fresh(clone) && clone.id == cpu.id && fresh(clone.disks.Values) && StoresKeyed(clone.disks) && HostLinked(clone)
    ensures keyed && cpu.id in one.cpus ==>
      clone.cpuUsage == one.cpus[cpu.id].cpuUsage && clone.memUsage == one.cpus[cpu.id].memUsage
    ensures keyed && cpu.id !in one.cpus ==> clone.cpuUsage == cpu.cpuUsage && clone.memUsage == cpu.memUsage
    ensures keyed && HostDisksKeyed(one.cpus) && StoresKeyed(cpu.disks) ==>
      HostValue(clone) == old(if cpu.id in one.cpus then TopologyValues.MergeHost(HostsValue(one.cpus)[cpu.id], HostValue(cpu))
                              else HostValue(cpu))
  {
    ghost var cpuValue := HostValue(cpu);
    ghost var hostValues := HostsValue(one.cpus);
    var found := FindHost(one, cpu.id);
    if found.None? {
      clone := new PhysicalHost.Copy(cpu);
      HostsKeptBesides(map[cpu.id := cpu], one);
      assert HostValue(cpu) == cpuValue by {
        assert HostsValue(map[cpu.id := cpu])[cpu.id] == HostValue(cpu);
      }
    } else {
      clone := MergeHost(found.value, cpu);
      HostsKeptBesides(one.cpus, one);
      HostsKeptBesides(map[cpu.id := cpu], one);
      assert HostValue(cpu) == cpuValue by {
        assert HostsValue(map[cpu.id := cpu])[cpu.id] == HostValue(cpu);
      }
      if keyed {
        assert one.cpus[cpu.id] == found.value;
        assert HostValue(found.value) == hostValues[cpu.id];
      }
    }
  }

  /** `clone.setParent(rack); rack.addCPU(clone)`. */
  method PutRackHost(rack: PhysicalRack, clone: PhysicalHost)
    requires HostsKeyed(rack.cpus) && forall k :: k in rack.cpus ==> rack.cpus[k].parent == rack && HostLinked(rack.cpus[k])
    requires HostLinked(clone)
    modifies rack`cpus, clone`parent
    ensures HostsKeyed(rack.cpus) && forall k :: k in rack.cpus ==> rack.cpus[k].parent == rack && HostLinked(rack.cpus[k])
    ensures rack.cpus == old(rack.cpus)[clone.id := clone]
    ensures HostValue(clone) == old(HostValue(clone))
  {
    clone.SetParent(rack);
    rack.AddCPU(clone);
  }

  /** One turn of the host loop of `mergeRack`, for the host of `two` under `key`. */
  method MergeRackHost(rack: PhysicalRack, one: PhysicalRack, two: PhysicalRack, cpu: PhysicalHost,
                       ghost key: string, ghost keyed: bool, ghost valued: bool, ghost seen: set<string>)
    requires rack != one && rack != two
    requires RackHostsMerging(rack, one, two, keyed, seen)
    requires key in two.cpus && two.cpus[key] == cpu
    requires valued ==> keyed && RackKeyed(one) && RackKeyed(two) && RackHostsValued(rack, one, two, seen)
    modifies rack`cpus
    ensures RackHostsMerging(rack, one, two, keyed, seen + {key})
    ensures valued ==> RackHostsValued(rack, one, two, seen + {key})
    ensures fresh(rack.cpus.Values - old(rack.cpus.Values))
    ensures fresh(DisksOfHosts(rack.cpus.Values) - old(DisksOfHosts(rack.cpus.Values)))
  {
    if valued {
      assert HostsValue(two.cpus)[key] == HostValue(cpu);
    }
    var clone := HostClone(one, cpu, keyed);
    PutRackHost(rack, clone);
    HostPutMerging(MergeStep(rack, one, two, key, seen), keyed, clone);
    if valued {
      HostPutValued(MergeStep(rack, one, two, key, seen), clone);
    }
  }

  /**
   * One turn of the host loop keeps the loop's invariant on keys, parents and
   * usage figures: the host put under `key` has that identifier, `rack` as
   * parent and the figures of `one`'s host under `key`, or of `two`'s.
   * The arguments are the rack, `one`, `two`, `key`, `keyed` and `seen`.
   */
  twostate lemma HostPutMerging(step: MergeStep<PhysicalRack>, new keyed: bool, new clone: PhysicalHost)
    requires step.into != step.one && step.into != step.two && old(step.key in step.two.cpus)
    requires old(RackHostsMerging(step.into, step.one, step.two, keyed, step.seen))
    requires step.into.cpus == old(step.into.cpus)[clone.id := clone] && (keyed ==> clone.id == step.key)
    requires HostsKeyed(step.into.cpus)
    requires forall k :: k in step.into.cpus ==> step.into.cpus[k].parent == step.into && HostLinked(step.into.cpus[k])
    requires keyed && step.key in old(step.one.cpus) ==>
      clone.cpuUsage == old(step.one.cpus[step.key].cpuUsage) && clone.memUsage == old(step.one.cpus[step.key].memUsage)
    requires keyed && step.key !in old(step.one.cpus) ==>
      clone.cpuUsage == old(step.two.cpus[step.key].cpuUsage) && clone.memUsage == old(step.two.cpus[step.key].memUsage)
    requires forall o: object {:trigger old(allocated(o))} :: old(allocated(o)) && o != step.into ==> unchanged(o)
    ensures RackHostsMerging(step.into, step.one, step.two, keyed, step.seen + {step.key})
  {
    var MergeStep(rack, one, two, key, seen) := step;
    var node1: object, node2: object := one, two;
    assert old(allocated(node1)) && old(allocated(node2));
    forall o: object | o in old(rack.cpus.Values) || o in old(one.cpus.Values) || o in old(two.cpus.Values) ensures unchanged(o) {
      assert old(allocated(o));
    }
  }

  /**
   * One turn of the host loop keeps the loop's value invariant: putting in
   * place of `key` a host whose value is the merge of the two hosts under
   * `key` (or `two`'s host when `one` has none) extends the merge by `key`.
   * The arguments are the rack, `one`, `two`, the clone, `key` and `seen`.
   */
  twostate lemma HostPutValued(step: MergeStep<PhysicalRack>, new clone: PhysicalHost)
    requires step.into != step.one && step.into != step.two
    requires old(step.key in step.two.cpus && RackHostsValued(step.into, step.one, step.two, step.seen))
    requires step.into.cpus == old(step.into.cpus)[step.key := clone]
    requires HostValue(clone) == old(
      if step.key in step.one.cpus then TopologyValues.MergeHost(HostsValue(step.one.cpus)[step.key], HostsValue(step.two.cpus)[step.key])
      else HostsValue(step.two.cpus)[step.key])
    requires forall o: object {:trigger old(allocated(o))} :: old(allocated(o)) && o != step.into ==> unchanged(o)
    ensures RackHostsValued(step.into, step.one, step.two, step.seen + {step.key})
  {
    var MergeStep(rack, one, two, key, seen) := step;
    var node1: object, node2: object := one, two;
    assert old(allocated(node1)) && old(allocated(node2));
    ghost var before := old(rack.cpus);
    HostsKeptBesides(before, rack);
    HostsKeptBesides(one.cpus, rack);
    HostsKeptBesides(two.cpus, rack);
    HostsValuePut(before, key, clone);
    TopologyValues.MergeMapsStep(HostsValue(one.cpus), HostsValue(two.cpus), seen, key, TopologyValues.MergeHost);
  }

  /** The turn of the host loop for the `i`-th host of the listing of `two`'s hosts; `seen'` adds its key. */
  method MergeRackHostAt(rack: PhysicalRack, one: PhysicalRack, two: PhysicalRack, list: seq<PhysicalHost>, ghost keys: seq<string>,
                         i: nat, ghost keyed: bool, ghost valued: bool, ghost seen: set<string>)
    returns (ghost seen': set<string>)
    requires rack != one && rack != two
    requires ListsValues(list, two.cpus, keys) && i < |list|
    requires RackHostsMerging(rack, one, two, keyed, seen)
    requires valued ==> keyed && RackKeyed(one) && RackKeyed(two) && RackHostsValued(rack, one, two, seen)
    requires seen <= two.cpus.Keys && forall j :: 0 <= j < i ==> keys[j] in seen
    modifies rack`cpus
    ensures RackHostsMerging(rack, one, two, keyed, seen')
    ensures valued ==> RackHostsValued(rack, one, two, seen')
    ensures seen' <= two.cpus.Keys && forall j :: 0 <= j < i + 1 ==> keys[j] in seen'
    ensures fresh(rack.cpus.Values - old(rack.cpus.Values))
    ensures fresh(DisksOfHosts(rack.cpus.Values) - old(DisksOfHosts(rack.cpus.Values)))
  {
    MergeRackHost(rack, one, two, list[i], keys[i], keyed, valued, seen);
    seen' := seen + {keys[i]};
  }

  /**
   * The host loop of `mergeRack`: every host of `two` is merged with the
   * host of `one` of the same identifier, or copied when `one` has none,
   * and put into `rack` with `rack` as parent.
   */
  method AddMergedHosts(rack: PhysicalRack, one: PhysicalRack, two: PhysicalRack, ghost keyed: bool, ghost valued: bool)
    requires rack != one && rack != two
    requires RackHostsMerging(rack, one, two, keyed, {})
    requires valued ==> keyed && RackKeyed(one) && RackKeyed(two) && RackHostsValued(rack, one, two, {})
    modifies rack`cpus
    ensures RackHostsMerging(rack, one, two, keyed, two.cpus.Keys)
    ensures valued ==> RackHostsValued(rack, one, two, two.cpus.Keys)
    ensures fresh(rack.cpus.Values - old(rack.cpus.Values))
    ensures fresh(DisksOfHosts(rack.cpus.Values) - old(DisksOfHosts(rack.cpus.Values)))
  {
    label start:
    var list, keys := two.GetCPUs();
    ghost var seen: set<string> := {};
    RackHostsValuedKept@start(MergeState(rack, one, two, seen), rack);
    for i := 0 to |list|
      invariant RackHostsMerging(rack, one, two, keyed, seen)
      invariant valued ==> RackHostsValued(rack, one, two, seen)
      invariant seen <= two.cpus.Keys && forall j :: 0 <= j < i ==> keys[j] in seen
      invariant fresh(rack.cpus.Values - old(rack.cpus.Values))
      invariant fresh(DisksOfHosts(rack.cpus.Values) - old(DisksOfHosts(rack.cpus.Values)))
    {
      seen := MergeRackHostAt(rack, one, two, list, keys, i, keyed, valued, seen);
    }
    AllSeen(list, two.cpus, keys, seen);
  }

  /** `new PhysicalRack(one)`, as the start of both merge loops of `mergeRack`. */
  method RackCopy(one: PhysicalRack, two: PhysicalRack, ghost hostsKeyed: bool, ghost disksKeyed: bool, ghost valued: bool)
    returns (res: PhysicalRack)
    requires hostsKeyed ==> HostsKeyed(one.cpus) && HostsKeyed(two.cpus)
    requires disksKeyed ==> StoresKeyed(one.disks) && StoresKeyed(two.disks)
    requires valued ==> RackKeyed(one)
    ensures fresh(res) && res.parent == null && res.id == one.id
    ensures fresh(res.cpus.Values) && fresh(res.disks.Values) && fresh(DisksOfHosts(res.cpus.Values))
    ensures RackHostsMerging(res, one, two, hostsKeyed, {})
    ensures RackDisksMerging(res, one, two, disksKeyed, disksKeyed, {})
    ensures valued ==> RackHostsValued(res, one, two, {})
  {
    res := new PhysicalRack.Copy(one);
    TopologyValues.MergeMapsNone(HostsValue(one.cpus), HostsValue(two.cpus), TopologyValues.MergeHost);
  }

  /** The first half of `mergeRack`: the copy of `one` and its host loop. */
  method MergeRackHosts(one: PhysicalRack, two: PhysicalRack, ghost hostsKeyed: bool, ghost disksKeyed: bool, ghost valued: bool)
    returns (res: PhysicalRack)
    requires hostsKeyed ==> HostsKeyed(one.cpus) && HostsKeyed(two.cpus)
    requires disksKeyed ==> StoresKeyed(one.disks) && StoresKeyed(two.disks)
    requires valued ==> hostsKeyed && RackKeyed(one) && RackKeyed(two)
    ensures fresh(res) && res.parent == null && res.id == one.id
    ensures fresh(res.cpus.Values) && fresh(res.disks.Values) && fresh(DisksOfHosts(res.cpus.Values))
    ensures RackHostsMerging(res, one, two, hostsKeyed, two.cpus.Keys)
    ensures RackDisksMerging(res, one, two, disksKeyed, disksKeyed, {})
    ensures valued ==> RackHostsValued(res, one, two, two.cpus.Keys)
  {
    res := RackCopy(one, two, hostsKeyed, disksKeyed, valued);
    AddMergedHosts(res, one, two, hostsKeyed, valued);
    ghost var held := RackDisksMerging(res, one, two, disksKeyed, disksKeyed, {});
    assert held;
  }

  /** Where nothing that existed before has changed but `rack`, whose host map is the same, its hosts keep their disks and links. */
  twostate lemma RackHostsKept(rack: PhysicalRack)
    requires unchanged(rack`cpus)
    requires forall o: object {:trigger old(allocated(o))} :: old(allocated(o)) && o != rack ==> unchanged(o)
    ensures DisksOfHosts(rack.cpus.Values) == old(DisksOfHosts(rack.cpus.Values))
    ensures old(forall k :: k in rack.cpus ==> rack.cpus[k].parent == rack && HostLinked(rack.cpus[k])) ==>
      forall k :: k in rack.cpus ==> rack.cpus[k].parent == rack && HostLinked(rack.cpus[k])
  {
    forall o: object | o in rack.cpus.Values ensures unchanged(o) {
      assert old(allocated(o));
    }
    forall o: object | o in old(DisksOfHosts(rack.cpus.Values)) ensures unchanged(o) {
      assert old(allocated(o));
    }
    if old(forall k :: k in rack.cpus ==> rack.cpus[k].parent == rack && HostLinked(rack.cpus[k])) {
      forall k | k in rack.cpus ensures rack.cpus[k].parent == rack && HostLinked(rack.cpus[k]) {
        var h := rack.cpus[k];
        assert h in rack.cpus.Values && unchanged(h);
        assert old(HostLinked(h));
        forall l | l in h.disks ensures h.disks[l].parent == OnHost(h) {
          var d := h.disks[l];
          assert old(h in rack.cpus.Values && d in h.disks.Values && d.parent == OnHost(h));
          assert d in old(DisksOfHosts(rack.cpus.Values));
        }
      }
    }
  }

  /**
   * `mergeRack`: a copy of `one` into which every host of `two` is merged (or
   * copied), followed by a copy of every rack-level disk of `two` that `one`
   * lacks. From keyed maps the result holds the union of the hosts and the
   * union of the disks, `one`'s figures kept where both sides have the node.
   */
  method MergeRack(one: PhysicalRack, two: PhysicalRack) returns (res: PhysicalRack)
    ensures fresh(res) && res.parent == null && res.id == one.id
    ensures fresh(res.cpus.Values) && fresh(res.disks.Values) && fresh(DisksOfHosts(res.cpus.Values))
    ensures HostsKeyed(res.cpus) && StoresKeyed(res.disks) && RackLinked(res)
    ensures HostsKeyed(one.cpus) && HostsKeyed(two.cpus) ==>
      res.cpus.Keys == one.cpus.Keys + two.cpus.Keys && SameUsage(res.cpus, two.cpus + one.cpus)
    ensures StoresKeyed(one.disks) && StoresKeyed(two.disks) ==>
      res.disks.Keys == one.disks.Keys + two.disks.Keys && SameFigures(res.disks, two.disks + one.disks)
    ensures StoresKeyed(one.disks) && StoresKeyed(two.disks) ==>
      StoresValue(res.disks) == TopologyValues.MergeMaps(StoresValue(one.disks), StoresValue(two.disks), TopologyValues.KeepFirst)
    ensures RackKeyed(one) && RackKeyed(two) ==> RackValue(res) == TopologyValues.MergeRack(RackValue(one), RackValue(two))
  {
    ghost var hostsKeyed := HostsKeyed(one.cpus) && HostsKeyed(two.cpus);
    ghost var disksKeyed := StoresKeyed(one.disks) && StoresKeyed(two.disks);
    ghost var valued := RackKeyed(one) && RackKeyed(two);
    res := MergeRackHosts(one, two, hostsKeyed, disksKeyed, valued);
    label hosts:
    MergeRackDisks(res, one, two, disksKeyed);
    RackHostsKept@hosts(res);
    if valued {
      RackHostsValuedKept@hosts(MergeState(res, one, two, two.cpus.Keys), res);
      RackValueOfMerge(res, one, two);
    }
  }

  // ---------------------------------------------------------------- mergeDatacenter

  /**
   * What the rack loop of `mergeDatacenter` keeps: `dc`'s racks are keyed and
   * have `dc` as parent; from keyed inputs, with `seen` the identifiers of
   * `two`'s racks handled so far, they sit under `one`'s keys and `seen`.
   */
  ghost predicate DataCenterRacksMerging(dc: PhysicalDataCenter, one: PhysicalDataCenter, two: PhysicalDataCenter,
                                         keyed: bool, seen: set<string>)
    reads dc, dc.racks.Values, DisksOfRacks(dc.racks.Values)`parent, HostsOfRacks(dc.racks.Values)`parent
    reads HostsOfRacks(dc.racks.Values)`disks, DisksOfHosts(HostsOfRacks(dc.racks.Values))`parent, one, two
  {
    && RacksKeyed(dc.racks) && (forall k :: k in dc.racks ==> dc.racks[k].parent == dc && RackLinked(dc.racks[k]))
    && (keyed ==> RacksKeyed(one.racks) && RacksKeyed(two.racks) && seen <= two.racks.Keys)
    && (keyed ==> dc.racks.Keys == one.racks.Keys + seen)
  }

  /**
   * What the rack loop of `mergeDatacenter` keeps of the values: both inputs
   * are keyed all the way down and `dc`'s racks have as value the merge of
   * `one`'s racks with those of `two` under `seen`, the identifiers handled
   * so far.
   */
  ghost predicate DataCenterRacksValued(dc: PhysicalDataCenter, one: PhysicalDataCenter, two: PhysicalDataCenter, seen: set<string>)
    reads dc, dc.racks.Values, HostsOfRacks(dc.racks.Values), DisksOfRacks(dc.racks.Values), DisksOfHosts(HostsOfRacks(dc.racks.Values))
    reads one, one.racks.Values, HostsOfRacks(one.racks.Values), DisksOfRacks(one.racks.Values), DisksOfHosts(HostsOfRacks(one.racks.Values))
    reads two, two.racks.Values, HostsOfRacks(two.racks.Values), DisksOfRacks(two.racks.Values), DisksOfHosts(HostsOfRacks(two.racks.Values))
  {
    && DataCenterKeyed(one) && DataCenterKeyed(two)
    && RacksValue(dc.racks)
       == TopologyValues.MergeMaps(RacksValue(one.racks), TopologyValues.Only(RacksValue(two.racks), seen), TopologyValues.MergeRack)
  }

  /**
   * Where nothing that existed before has changed but `changed`, which is
   * neither input, and the data center's rack map is the same, the rack
   * loop's value invariant is kept.
   */
  twostate lemma DataCenterRacksValuedKept(state: MergeState<PhysicalDataCenter>,
                                           new changed: PhysicalDataCenter)
    requires changed != state.one && changed != state.two && unchanged(state.into`racks)
    requires forall o: object {:trigger old(allocated(o))} :: old(allocated(o)) && o != changed ==> unchanged(o)
    ensures old(DataCenterRacksValued(state.into, state.one, state.two, state.seen)) ==> DataCenterRacksValued(state.into, state.one, state.two, state.seen)
  {
    var MergeState(dc, one, two, seen) := state;
    var node1: object, node2: object := one, two;
    assert old(allocated(node1)) && old(allocated(node2));
    RacksKeptBesides(dc.racks, changed);
    RacksKeptBesides(one.racks, changed);
    RacksKeptBesides(two.racks, changed);
  }

  /** A data center with `one`'s identifier and the merged racks has as value the merge of the two data centers' values. */
  lemma DataCenterValueOfMerge(res: PhysicalDataCenter, one: PhysicalDataCenter, two: PhysicalDataCenter)
    requires res.id == one.id && DataCenterRacksValued(res, one, two, two.racks.Keys)
    ensures DataCenterValue(res) == TopologyValues.MergeDataCenter(DataCenterValue(one), DataCenterValue(two))
  {
    var a, b := DataCenterValue(one), DataCenterValue(two);
    assert a.racks == RacksValue(one.racks) && b.racks == RacksValue(two.racks);
    assert b.racks.Keys == two.racks.Keys;
    TopologyValues.MergeMapsAll(a.racks, b.racks, TopologyValues.MergeRack);
    assert RacksValue(res.racks) == TopologyValues.MergeMaps(a.racks, b.racks, TopologyValues.MergeRack);
  }

  /**
   * `one.getRacks().indexOf(rack)` followed by `get(index)`: the rack of `one`
   * with the identifier, if any (racks are equal by identifier).
   */
  method FindRack(one: PhysicalDataCenter, id: string) returns (found: Option<PhysicalRack>)
    ensures found.None? ==> forall k :: k in one.racks ==> one.racks[k].id != id
    ensures found.Some? ==> found.value in one.racks.Values && found.value.id == id
  {
    var ones, oneKeys := one.GetRacks();
    var index := IndexOf(RackIds(ones), id);
    ListedValues(ones, one.racks, oneKeys);
    if index < 0 {
      forall k | k in one.racks ensures one.racks[k].id != id {
        var j :| 0 <= j < |ones| && ones[j] == one.racks[k];
        assert RackIds(ones)[j] == ones[j].id;
      }
      found := None;
    } else {
      assert RackIds(ones)[index] == ones[index].id;
      found := Some(ones[index]);
    }
  }

  /**
   * The rack `mergeDatacenter` puts in place of `rack`: a merge with `one`'s
   * rack of the same identifier, or a copy. From keyed maps its value is the
   * merge of the two racks' values, or `rack`'s.
   */
  method RackClone(one: PhysicalDataCenter, rack: PhysicalRack) returns (clone: PhysicalRack)
    ensures fresh(clone) && clone.id == rack.id && RackLinked(clone)
    ensures fresh(clone.cpus.Values) && fresh(clone.disks.Values) && fresh(DisksOfHosts(clone.cpus.Values))
    ensures old(DataCenterKeyed(one) && RackKeyed(rack)) ==>
      RackValue(clone) == old(if rack.id in one.racks then TopologyValues.MergeRack(RacksValue(one.racks)[rack.id], RackValue(rack))
                              else RackValue(rack))
  {
    ghost var rackValues := RacksValue(one.racks);
    var found := FindRack(one, rack.id);
    if found.None? {
      clone := new PhysicalRack.Copy(rack);
      RackValueUnchanged(rack);
    } else {
      clone := MergeRack(found.value, rack);
      RacksKeptBesides(one.racks, one);
      RackValueUnchanged(rack);
      if old(DataCenterKeyed(one)) {
        assert one.racks[rack.id] == found.value;
        assert RackValue(found.value) == rackValues[rack.id];
      }
    }
  }

  /** `clone.setParent(dc); dc.addRack(clone)`. */
  method PutDataCenterRack(dc: PhysicalDataCenter, clone: PhysicalRack)
    requires RacksKeyed(dc.racks) && forall k :: k in dc.racks ==> dc.racks[k].parent == dc && RackLinked(dc.racks[k])
    requires RackLinked(clone)
    modifies dc`racks, clone`parent
    ensures RacksKeyed(dc.racks) && forall k :: k in dc.racks ==> dc.racks[k].parent == dc && RackLinked(dc.racks[k])
    ensures dc.racks == old(dc.racks)[clone.id := clone]
    ensures RackValue(clone) == old(RackValue(clone)) && RackNodes(clone) == old(RackNodes(clone))
  {
    ghost var before := dc.racks;
    clone.SetParent(dc);
    dc.AddRack(clone);
    RackValueUnchanged(clone);
    PutRackKept((dc, clone), before);
    RacksLinkedPut(dc, before, clone);
  }

  /** A rack whose host and disk maps, hosts and disks are unchanged is linked exactly when it was. */
  twostate lemma RackLinkedUnchanged(r: PhysicalRack)
    requires unchanged(r`cpus, r`disks) && unchanged(old(r.disks.Values)) && unchanged(old(r.cpus.Values))
    requires unchanged(old(DisksOfHosts(r.cpus.Values)))
    ensures RackLinked(r) == old(RackLinked(r))
  {
  }

  /**
   * Where nothing that existed before has changed but the data center and
   * the rack put into it (whose hosts and disks are the same), the racks
   * the data center held before are still linked, and so is that rack.
   * The pair is the data center and that rack.
   */
  twostate lemma PutRackKept(put: (PhysicalDataCenter, PhysicalRack), new before: map<string, PhysicalRack>)
    requires before == old(put.0.racks)
    requires forall o: object {:trigger old(allocated(o))} :: old(allocated(o)) && o != put.0 && o != put.1 ==> unchanged(o)
    requires unchanged(put.1`cpus, put.1`disks) && put.1.parent == put.0 && old(RackLinked(put.1))
    requires old(forall k :: k in before ==> before[k].parent == put.0 && RackLinked(before[k]))
    ensures RackLinked(put.1)
    ensures forall k :: k in before ==> before[k].parent == put.0 && RackLinked(before[k])
  {
    var (dc, clone) := put;
    RackChildrenKept(clone);
    forall k | k in before ensures before[k].parent == dc && RackLinked(before[k]) {
      var r := before[k];
      var node: object := r;
      assert old(allocated(node));
      RackChildrenKept(r);
    }
  }

  /** Every host and disk below rack `r`, which existed before, is unchanged. */
  twostate lemma RackChildrenKept(r: PhysicalRack)
    requires old(allocated(r)) && unchanged(r`cpus, r`disks)
    requires forall o: object {:trigger old(allocated(o))} :: old(allocated(o)) && o is PhysicalHost ==> unchanged(o)
    requires forall o: object {:trigger old(allocated(o))} :: old(allocated(o)) && o is PhysicalStore ==> unchanged(o)
    ensures RackLinked(r) == old(RackLinked(r))
  {
    forall o: object | o in old(r.disks.Values) ensures unchanged(o) {
      assert old(allocated(o));
    }
    forall o: object | o in old(r.cpus.Values) ensures unchanged(o) {
      assert old(allocated(o));
    }
    forall o: object | o in old(DisksOfHosts(r.cpus.Values)) ensures unchanged(o) {
      assert old(allocated(o));
    }
    RackLinkedUnchanged(r);
  }

  /** A data center whose racks are linked ones with a linked rack put under its identifier has every rack linked. */
  lemma RacksLinkedPut(dc: PhysicalDataCenter, before: map<string, PhysicalRack>, clone: PhysicalRack)
    requires dc.racks == before[clone.id := clone]
    requires forall k :: k in before ==> before[k].parent == dc && RackLinked(before[k])
    requires clone.parent == dc && RackLinked(clone)
    ensures forall k :: k in dc.racks ==> dc.racks[k].parent == dc && RackLinked(dc.racks[k])
  {
  }

  /** The nodes below a rack map with a rack put under `k` are those below the map or below that rack. */
  lemma RacksPutBelow(m: map<string, PhysicalRack>, k: string, r: PhysicalRack)
    ensures HostsOfRacks(m[k := r].Values) <= HostsOfRacks(m.Values) + r.cpus.Values
    ensures DisksOfRacks(m[k := r].Values) <= DisksOfRacks(m.Values) + r.disks.Values
    ensures DisksOfHosts(HostsOfRacks(m[k := r].Values)) <= DisksOfHosts(HostsOfRacks(m.Values)) + DisksOfHosts(r.cpus.Values)
  {
  }

  /**
   * Where nothing that existed before has changed but `dc`, into which a
   * rack has been put, the nodes below `dc` are those that were below it
   * or below that rack.
   */
  twostate lemma RackPutNodes(dc: PhysicalDataCenter, new clone: PhysicalRack)
    requires dc.racks == old(dc.racks)[clone.id := clone]
    requires forall o: object {:trigger old(allocated(o))} :: old(allocated(o)) && o != dc ==> unchanged(o)
    ensures Within(RacksNodes(dc.racks.Values), Plus(old(RacksNodes(dc.racks.Values)), RackNodes(clone)))
  {
    var before := old(dc.racks);
    forall o: object | o in before.Values ensures unchanged(o) {
      assert old(allocated(o));
    }
    forall o: object | o in old(HostsOfRacks(before.Values)) ensures unchanged(o) {
      assert old(allocated(o));
    }
    assert HostsOfRacks(before.Values) == old(HostsOfRacks(before.Values));
    assert DisksOfRacks(before.Values) == old(DisksOfRacks(before.Values));
    assert DisksOfHosts(HostsOfRacks(before.Values)) == old(DisksOfHosts(HostsOfRacks(before.Values)));
    RacksPutBelow(before, clone.id, clone);
  }

  /**
   * The clone of `rack` (a merge with `one`'s rack of that identifier, or a
   * copy) put into `dc` with `dc` as parent; every node it brings is new.
   */
  method PutRackClone(dc: PhysicalDataCenter, one: PhysicalDataCenter, rack: PhysicalRack)
    returns (ghost clone: PhysicalRack, ghost made: Nodes)
    requires RacksKeyed(dc.racks) && forall k :: k in dc.racks ==> dc.racks[k].parent == dc && RackLinked(dc.racks[k])
    modifies dc`racks
    ensures fresh(clone) && clone.id == rack.id
    ensures dc.racks == old(dc.racks)[clone.id := clone]
    ensures RacksKeyed(dc.racks) && forall k :: k in dc.racks ==> dc.racks[k].parent == dc && RackLinked(dc.racks[k])
    ensures old(DataCenterKeyed(one) && RackKeyed(rack)) ==>
      RackValue(clone) == old(if rack.id in one.racks then TopologyValues.MergeRack(RacksValue(one.racks)[rack.id], RackValue(rack))
                              else RackValue(rack))
    ensures FreshNodes(made) && Within(RacksNodes(dc.racks.Values), Plus(old(RacksNodes(dc.racks.Values)), made))
  {
    var c := RackClone(one, rack);
    made := RackNodes(c);
    PutDataCenterRack(dc, c);
    RackPutNodes(dc, c);
    clone := c;
  }

  /**
   * One turn of the rack loop keeps the loop's invariant on keys and
   * parents: the rack put under `key` has that identifier and `dc` as
   * parent. The arguments are the data center, `one`, `two`, `key`,
   * `keyed` and `seen`.
   */
  twostate lemma RackPutMerging(step: MergeStep<PhysicalDataCenter>, new keyed: bool, new clone: PhysicalRack)
    requires step.into != step.one && step.into != step.two && old(step.key in step.two.racks)
    requires old(DataCenterRacksMerging(step.into, step.one, step.two, keyed, step.seen))
    requires step.into.racks == old(step.into.racks)[clone.id := clone] && (keyed ==> clone.id == step.key)
    requires RacksKeyed(step.into.racks)
    requires forall k :: k in step.into.racks ==> step.into.racks[k].parent == step.into && RackLinked(step.into.racks[k])
    requires forall o: object {:trigger old(allocated(o))} :: old(allocated(o)) && o != step.into ==> unchanged(o)
    ensures DataCenterRacksMerging(step.into, step.one, step.two, keyed, step.seen + {step.key})
  {
    var MergeStep(dc, one, two, key, seen) := step;
    var node1: object, node2: object := one, two;
    assert old(allocated(node1)) && old(allocated(node2));
  }

  /** One turn of the rack loop of `mergeDatacenter`, for the rack of `two` under `key`. */
  method MergeDataCenterRack(dc: PhysicalDataCenter, one: PhysicalDataCenter, two: PhysicalDataCenter, rack: PhysicalRack,
                             ghost key: string, ghost keyed: bool, ghost valued: bool, ghost seen: set<string>)
    returns (ghost made: Nodes)
    requires dc != one && dc != two
    requires DataCenterRacksMerging(dc, one, two, keyed, seen)
    requires key in two.racks && two.racks[key] == rack
    requires valued ==> keyed && DataCenterRacksValued(dc, one, two, seen)
    modifies dc`racks
    ensures DataCenterRacksMerging(dc, one, two, keyed, seen + {key})
    ensures valued ==> DataCenterRacksValued(dc, one, two, seen + {key})
    ensures FreshNodes(made) && Within(RacksNodes(dc.racks.Values), Plus(old(RacksNodes(dc.racks.Values)), made))
  {
    if valued {
      assert RacksValue(two.racks)[key] == RackValue(rack);
    }
    if keyed {
      assert rack.id == key;
    }
    ghost var clone;
    clone, made := PutRackClone(dc, one, rack);
    RackPutMerging(MergeStep(dc, one, two, key, seen), keyed, clone);
    if valued {
      RackPutValued(MergeStep(dc, one, two, key, seen), clone);
    }
  }

  /**
   * One turn of the rack loop keeps the loop's value invariant: putting in
   * place of `key` a rack whose value is the merge of the two racks under
   * `key` (or `two`'s rack when `one` has none) extends the merge by `key`.
   * The arguments are the data center, `one`, `two`, `key` and `seen`.
   */
  twostate lemma RackPutValued(step: MergeStep<PhysicalDataCenter>, new clone: PhysicalRack)
    requires step.into != step.one && step.into != step.two
    requires old(step.key in step.two.racks && DataCenterRacksValued(step.into, step.one, step.two, step.seen))
    requires step.into.racks == old(step.into.racks)[step.key := clone]
    requires RackValue(clone) == old(
      if step.key in step.one.racks then TopologyValues.MergeRack(RacksValue(step.one.racks)[step.key], RacksValue(step.two.racks)[step.key])
      else RacksValue(step.two.racks)[step.key])
    requires forall o: object {:trigger old(allocated(o))} :: old(allocated(o)) && o != step.into ==> unchanged(o)
    ensures DataCenterRacksValued(step.into, step.one, step.two, step.seen + {step.key})
  {
    var MergeStep(dc, one, two, key, seen) := step;
    var node1: object, node2: object := one, two;
    assert old(allocated(node1)) && old(allocated(node2));
    ghost var before := old(dc.racks);
    RacksKeptBesides(before, dc);
    RacksKeptBesides(one.racks, dc);
    RacksKeptBesides(two.racks, dc);
    RacksValuePut(before, key, clone);
    TopologyValues.MergeMapsStep(RacksValue(one.racks), RacksValue(two.racks), seen, key, TopologyValues.MergeRack);
  }

  /** The turn of the rack loop for the `i`-th rack of the listing of `two`'s racks; `seen'` adds its key. */
  method MergeDataCenterRackAt(dc: PhysicalDataCenter, one: PhysicalDataCenter, two: PhysicalDataCenter, list: seq<PhysicalRack>,
                               ghost keys: seq<string>, i: nat, ghost keyed: bool, ghost valued: bool, ghost seen: set<string>)
    returns (ghost seen': set<string>, ghost made: Nodes)
    requires dc != one && dc != two
    requires ListsValues(list, two.racks, keys) && i < |list|
    requires DataCenterRacksMerging(dc, one, two, keyed, seen)
    requires valued ==> keyed && DataCenterRacksValued(dc, one, two, seen)
    requires seen <= two.racks.Keys && forall j :: 0 <= j < i ==> keys[j] in seen
    modifies dc`racks
    ensures DataCenterRacksMerging(dc, one, two, keyed, seen')
    ensures valued ==> DataCenterRacksValued(dc, one, two, seen')
    ensures seen' <= two.racks.Keys && forall j :: 0 <= j < i + 1 ==> keys[j] in seen'
    ensures FreshNodes(made) && Within(RacksNodes(dc.racks.Values), Plus(old(RacksNodes(dc.racks.Values)), made))
  {
    made := MergeDataCenterRack(dc, one, two, list[i], keys[i], keyed, valued, seen);
    seen' := seen + {keys[i]};
  }

  /**
   * The rack loop of `mergeDatacenter`: every rack of `two` is merged with the
   * rack of `one` of the same identifier, or copied when `one` has none, and
   * put into `dc` with `dc` as parent.
   */
  method AddMergedRacks(dc: PhysicalDataCenter, one: PhysicalDataCenter, two: PhysicalDataCenter, ghost keyed: bool, ghost valued: bool)
    returns (ghost created: Nodes)
    requires dc != one && dc != two
    requires DataCenterRacksMerging(dc, one, two, keyed, {})
    requires valued ==> keyed && DataCenterRacksValued(dc, one, two, {})
    modifies dc`racks
    ensures DataCenterRacksMerging(dc, one, two, keyed, two.racks.Keys)
    ensures valued ==> DataCenterRacksValued(dc, one, two, two.racks.Keys)
    ensures FreshNodes(created) && Within(RacksNodes(dc.racks.Values), Plus(old(RacksNodes(dc.racks.Values)), created))
  {
    ghost var start := RacksNodes(dc.racks.Values);
    created := Nodes({}, {}, {}, {});
    label start:
    var list, keys := two.GetRacks();
    ghost var seen: set<string> := {};
    DataCenterRacksValuedKept@start(MergeState(dc, one, two, seen), dc);
    for i := 0 to |list|
      invariant DataCenterRacksMerging(dc, one, two, keyed, seen)
      invariant valued ==> DataCenterRacksValued(dc, one, two, seen)
      invariant seen <= two.racks.Keys && forall j :: 0 <= j < i ==> keys[j] in seen
      invariant FreshNodes(created) && Within(RacksNodes(dc.racks.Values), Plus(start, created))
    {
      ghost var before, made := RacksNodes(dc.racks.Values), Nodes({}, {}, {}, {});
      seen, made := MergeDataCenterRackAt(dc, one, two, list, keys, i, keyed, valued, seen);
      WithinStep(RacksNodes(dc.racks.Values), before, start, created, made);
      FreshPlus@start(created, made);
      created := Plus(created, made);
    }
    AllSeen(list, two.racks, keys, seen);
  }

  /** `new PhysicalDataCenter(one)`, as the start of the rack loop of `mergeDatacenter`. */
  method DataCenterCopy(one: PhysicalDataCenter, two: PhysicalDataCenter, ghost keyed: bool, ghost valued: bool)
    returns (res: PhysicalDataCenter)
    requires keyed ==> RacksKeyed(one.racks) && RacksKeyed(two.racks)
    requires valued ==> DataCenterKeyed(one) && DataCenterKeyed(two)
    ensures fresh(res) && res.parent == null && res.id == one.id && fresh(res.racks.Values)
    ensures fresh(HostsOfRacks(res.racks.Values)) && fresh(DisksOfRacks(res.racks.Values))
    ensures fresh(DisksOfHosts(HostsOfRacks(res.racks.Values)))
    ensures DataCenterRacksMerging(res, one, two, keyed, {})
    ensures valued ==> DataCenterRacksValued(res, one, two, {})
  {
    res := new PhysicalDataCenter.Copy(one);
    TopologyValues.MergeMapsNone(RacksValue(one.racks), RacksValue(two.racks), TopologyValues.MergeRack);
  }

  /** The body of `mergeDatacenter`: the copy of `one` and its rack loop. */
  method MergeRacksInto(one: PhysicalDataCenter, two: PhysicalDataCenter, ghost keyed: bool, ghost valued: bool)
    returns (res: PhysicalDataCenter)
    requires keyed ==> RacksKeyed(one.racks) && RacksKeyed(two.racks)
    requires valued ==> keyed && DataCenterKeyed(one) && DataCenterKeyed(two)
    ensures fresh(res) && res.parent == null && res.id == one.id
    ensures fresh(res.racks.Values) && fresh(HostsOfRacks(res.racks.Values)) && fresh(DisksOfRacks(res.racks.Values))
    ensures fresh(DisksOfHosts(HostsOfRacks(res.racks.Values)))
    ensures DataCenterRacksMerging(res, one, two, keyed, two.racks.Keys)
    ensures valued ==> DataCenterRacksValued(res, one, two, two.racks.Keys)
  {
    res := DataCenterCopy(one, two, keyed, valued);
    ghost var copied := RacksNodes(res.racks.Values);
    ghost var created := AddMergedRacks(res, one, two, keyed, valued);
    FreshWithin(RacksNodes(res.racks.Values), copied, created);
  }

  /**
   * `mergeDatacenter`: a copy of `one` into which every rack of `two` is
   * merged (or copied). From keyed maps the result holds the union of the
   * racks.
   */
  method MergeDataCenter(one: PhysicalDataCenter, two: PhysicalDataCenter) returns (res: PhysicalDataCenter)
    ensures fresh(res) && res.parent == null && res.id == one.id
    ensures fresh(res.racks.Values) && fresh(HostsOfRacks(res.racks.Values)) && fresh(DisksOfRacks(res.racks.Values))
    ensures fresh(DisksOfHosts(HostsOfRacks(res.racks.Values)))
    ensures RacksKeyed(res.racks) && DataCenterLinked(res)
    ensures RacksKeyed(one.racks) && RacksKeyed(two.racks) ==> res.racks.Keys == one.racks.Keys + two.racks.Keys
    ensures DataCenterKeyed(one) && DataCenterKeyed(two) ==>
      DataCenterValue(res) == TopologyValues.MergeDataCenter(DataCenterValue(one), DataCenterValue(two))
  {
    ghost var keyed := RacksKeyed(one.racks) && RacksKeyed(two.racks);
    ghost var valued := DataCenterKeyed(one) && DataCenterKeyed(two);
    res := MergeRacksInto(one, two, keyed, valued);
    if valued {
      DataCenterValueOfMerge(res, one, two);
    }
  }

  // ---------------------------------------------------------------- mergeTree

  /**
   * What the data-center loop of `mergeTree` keeps: `root`'s data centers are
   * keyed and linked, with `root` as parent; from keyed inputs, with `seen`
   * the identifiers of `two`'s data centers handled so far, they sit under
   * `one`'s keys and `seen`.
   */
  ghost predicate TreeMerging(root: PhysicalRoot, one: PhysicalRoot, two: PhysicalRoot, keyed: bool, seen: set<string>)
    reads root, root.dataCenters.Values, RacksOfDataCenters(root.dataCenters.Values)
    reads HostsOfRacks(RacksOfDataCenters(root.dataCenters.Values))`parent, HostsOfRacks(RacksOfDataCenters(root.dataCenters.Values))`disks
    reads DisksOfRacks(RacksOfDataCenters(root.dataCenters.Values))`parent
    reads DisksOfHosts(HostsOfRacks(RacksOfDataCenters(root.dataCenters.Values)))`parent, one, two
  {
    && DataCentersKeyed(root.dataCenters) && RootLinked(root)
    && (keyed ==> DataCentersKeyed(one.dataCenters) && DataCentersKeyed(two.dataCenters) && seen <= two.dataCenters.Keys)
    && (keyed ==> root.dataCenters.Keys == one.dataCenters.Keys + seen)
  }

  /**
   * The value invariant of the data-center loop of `mergeTree`: from trees
   * keyed all the way down, with `seen` the identifiers of `two`'s data
   * centers handled so far, `root`'s data centers have as value the merge of
   * `one`'s with those of `two` under `seen`.
   */
  ghost predicate TreeValued(root: PhysicalRoot, one: PhysicalRoot, two: PhysicalRoot, seen: set<string>)
    reads root, root.dataCenters.Values, RacksOfDataCenters(root.dataCenters.Values)
    reads HostsOfRacks(RacksOfDataCenters(root.dataCenters.Values)), DisksOfRacks(RacksOfDataCenters(root.dataCenters.Values))
    reads DisksOfHosts(HostsOfRacks(RacksOfDataCenters(root.dataCenters.Values)))
    reads one, one.dataCenters.Values, RacksOfDataCenters(one.dataCenters.Values)
    reads HostsOfRacks(RacksOfDataCenters(one.dataCenters.Values)), DisksOfRacks(RacksOfDataCenters(one.dataCenters.Values))
    reads DisksOfHosts(HostsOfRacks(RacksOfDataCenters(one.dataCenters.Values)))
    reads two, two.dataCenters.Values, RacksOfDataCenters(two.dataCenters.Values)
    reads HostsOfRacks(RacksOfDataCenters(two.dataCenters.Values)), DisksOfRacks(RacksOfDataCenters(two.dataCenters.Values))
    reads DisksOfHosts(HostsOfRacks(RacksOfDataCenters(two.dataCenters.Values)))
  {
    && RootKeyed(one) && RootKeyed(two)
    && DataCentersValue(root.dataCenters)
       == TopologyValues.MergeMaps(DataCentersValue(one.dataCenters), TopologyValues.Only(DataCentersValue(two.dataCenters), seen),
                                   TopologyValues.MergeDataCenter)
  }

  /**
   * Where nothing that existed before has changed but `changed`, which is no
   * node and neither input root, and the root's data-center map is the same,
   * the data-center loop's value invariant is kept.
   */
  twostate lemma TreeValuedKept(state: MergeState<PhysicalRoot>, new changed: object)
    requires AboveNodes(changed) && changed != state.one && changed != state.two && unchanged(state.into`dataCenters)
    requires forall o: object {:trigger old(allocated(o))} :: old(allocated(o)) && o != changed ==> unchanged(o)
    ensures old(TreeValued(state.into, state.one, state.two, state.seen)) ==> TreeValued(state.into, state.one, state.two, state.seen)
  {
    var MergeState(root, one, two, seen) := state;
    var node1: object, node2: object := one, two;
    assert old(allocated(node1)) && old(allocated(node2));
    DataCentersKeptBesides(root.dataCenters, changed);
    DataCentersKeptBesides(one.dataCenters, changed);
    DataCentersKeptBesides(two.dataCenters, changed);
  }

  /** A root with `one`'s identifier and the merged data centers has as value the merge of the two roots' values. */
  lemma RootValueOfMerge(res: PhysicalRoot, one: PhysicalRoot, two: PhysicalRoot)
    requires res.id == one.id && one.id == two.id && TreeValued(res, one, two, two.dataCenters.Keys)
    ensures RootValue(res) == TopologyValues.MergeRoot(RootValue(one), RootValue(two))
  {
    var a, b := RootValue(one), RootValue(two);
    assert a.dataCenters == DataCentersValue(one.dataCenters) && b.dataCenters == DataCentersValue(two.dataCenters);
    assert b.dataCenters.Keys == two.dataCenters.Keys;
    TopologyValues.MergeMapsAll(a.dataCenters, b.dataCenters, TopologyValues.MergeDataCenter);
    assert DataCentersValue(res.dataCenters) == TopologyValues.MergeMaps(a.dataCenters, b.dataCenters, TopologyValues.MergeDataCenter);
  }

  /** A loop over a listing of a keyed map that saw every listed identifier saw every key. */
  lemma AllDataCentersSeen(list: seq<PhysicalDataCenter>, m: map<string, PhysicalDataCenter>, seen: set<string>)
    requires Enumerates(list, m) && DataCentersKeyed(m)
    requires seen <= m.Keys && forall j :: 0 <= j < |list| ==> list[j].id in seen
    ensures seen == m.Keys
  {
    forall k | k in m ensures k in seen {
      var j :| 0 <= j < |list| && list[j] == m[k];
    }
  }

  /**
   * `one.getDataCenters().indexOf(datacenter)` followed by `get(index)`: the
   * data center of `one` with the identifier, if any (data centers are equal
   * by identifier).
   */
  method FindDataCenter(one: PhysicalTopology, id: string) returns (found: Option<PhysicalDataCenter>)
    ensures found.None? ==> forall k :: k in one.root.dataCenters ==> one.root.dataCenters[k].id != id
    ensures found.Some? ==> found.value in one.root.dataCenters.Values && found.value.id == id
  {
    var ones := one.GetDataCenters();
    var index := IndexOf(DataCenterIds(ones), id);
    if index < 0 {
      forall k | k in one.root.dataCenters ensures one.root.dataCenters[k].id != id {
        var j :| 0 <= j < |ones| && ones[j] == one.root.dataCenters[k];
        assert DataCenterIds(ones)[j] == ones[j].id;
      }
      found := None;
    } else {
      assert DataCenterIds(ones)[index] == ones[index].id;
      found := Some(ones[index]);
    }
  }

  /**
   * The data center `mergeTree` puts in place of `dc`: a merge with `one`'s
   * data center of the same identifier, or a copy. From keyed trees its value
   * is the merge of the two data centers' values, or `dc`'s.
   */
  method DataCenterClone(one: PhysicalTopology, dc: PhysicalDataCenter) returns (clone: PhysicalDataCenter)
    ensures fresh(clone) && clone.id == dc.id && DataCenterLinked(clone)
    ensures fresh(clone.racks.Values) && fresh(HostsOfRacks(clone.racks.Values)) && fresh(DisksOfRacks(clone.racks.Values))
    ensures fresh(DisksOfHosts(HostsOfRacks(clone.racks.Values)))
    ensures old(RootKeyed(one.root) && DataCenterKeyed(dc)) ==>
      DataCenterValue(clone) == old(if dc.id in one.root.dataCenters
                                    then TopologyValues.MergeDataCenter(DataCentersValue(one.root.dataCenters)[dc.id], DataCenterValue(dc))
                                    else DataCenterValue(dc))
  {
    ghost var dcValues := DataCentersValue(one.root.dataCenters);
    var found := FindDataCenter(one, dc.id);
    if found.None? {
      clone := new PhysicalDataCenter.Copy(dc);
      DataCenterValueUnchanged(dc);
    } else {
      clone := MergeDataCenter(found.value, dc);
      DataCentersKeptBesides(one.root.dataCenters, one);
      DataCenterValueUnchanged(dc);
      if old(RootKeyed(one.root)) {
        assert one.root.dataCenters[dc.id] == found.value;
        assert DataCenterValue(found.value) == dcValues[dc.id];
      }
    }
  }

  /** `clone.setParent(root); root.addDataCenter(clone)`. */
  method PutRootDataCenter(root: PhysicalRoot, clone: PhysicalDataCenter)
    requires DataCentersKeyed(root.dataCenters) && RootLinked(root) && DataCenterLinked(clone)
    modifies root`dataCenters, clone`parent
    ensures DataCentersKeyed(root.dataCenters) && RootLinked(root)
    ensures root.dataCenters == old(root.dataCenters)[clone.id := clone]
    ensures DataCenterValue(clone) == old(DataCenterValue(clone)) && DataCenterNodes(clone) == old(DataCenterNodes(clone))
  {
    ghost var before := root.dataCenters;
    clone.SetParent(root);
    root.AddDataCenter(clone);
    DataCenterValueUnchanged(clone);
    PutRootKept((root, clone), before);
    RootLinkedPut(root, before, clone);
  }

  /**
   * Where nothing that existed before has changed but the root and the data
   * center put into it (whose racks are the same), the data centers the
   * root held before are still linked. The pair is the root and that data
   * center.
   */
  twostate lemma PutRootKept(put: (PhysicalRoot, PhysicalDataCenter), new before: map<string, PhysicalDataCenter>)
    requires before == old(put.0.dataCenters)
    requires forall o: object {:trigger old(allocated(o))} :: old(allocated(o)) && o != put.0 && o != put.1 ==> unchanged(o)
    requires unchanged(put.1`racks) && put.1.parent == put.0
    requires old(forall k :: k in before ==> before[k].parent == put.0 && DataCenterLinked(before[k]))
    ensures forall k :: k in before ==> before[k].parent == put.0 && DataCenterLinked(before[k])
  {
    var (root, clone) := put;
    forall k | k in before ensures before[k].parent == root && DataCenterLinked(before[k]) {
      var dc := before[k];
      var node: object := dc;
      assert old(allocated(node)) && dc.racks == old(dc.racks);
      forall o: object | o in old(dc.racks.Values) ensures unchanged(o) {
        assert old(allocated(o));
      }
      forall o: object | o in old(HostsOfRacks(dc.racks.Values)) ensures unchanged(o) {
        assert old(allocated(o));
      }
      forall o: object | o in old(DisksOfRacks(dc.racks.Values)) ensures unchanged(o) {
        assert old(allocated(o));
      }
      forall o: object | o in old(DisksOfHosts(HostsOfRacks(dc.racks.Values))) ensures unchanged(o) {
        assert old(allocated(o));
      }
      DataCenterValueUnchanged(dc);
    }
  }

  /** A root whose data centers are linked ones with a linked data center put under its identifier is linked. */
  lemma RootLinkedPut(root: PhysicalRoot, before: map<string, PhysicalDataCenter>, clone: PhysicalDataCenter)
    requires root.dataCenters == before[clone.id := clone]
    requires forall k :: k in before ==> before[k].parent == root && DataCenterLinked(before[k])
    requires clone.parent == root && DataCenterLinked(clone)
    ensures RootLinked(root)
  {
  }

  /** The nodes below a data-center map with a data center put under `k` are those below the map or below that data center. */
  lemma DataCentersPutBelow(m: map<string, PhysicalDataCenter>, k: string, dc: PhysicalDataCenter)
    ensures RacksOfDataCenters(m[k := dc].Values) <= RacksOfDataCenters(m.Values) + dc.racks.Values
    ensures HostsOfRacks(RacksOfDataCenters(m[k := dc].Values)) <= HostsOfRacks(RacksOfDataCenters(m.Values)) + HostsOfRacks(dc.racks.Values)
    ensures DisksOfRacks(RacksOfDataCenters(m[k := dc].Values)) <= DisksOfRacks(RacksOfDataCenters(m.Values)) + DisksOfRacks(dc.racks.Values)
    ensures DisksOfHosts(HostsOfRacks(RacksOfDataCenters(m[k := dc].Values)))
         <= DisksOfHosts(HostsOfRacks(RacksOfDataCenters(m.Values))) + DisksOfHosts(HostsOfRacks(dc.racks.Values))
  {
  }

  /**
   * Where nothing that existed before has changed but `root`, into which a
   * data center has been put, the nodes below `root` are those that were
   * below it or below that data center.
   */
  twostate lemma DataCenterPutNodes(root: PhysicalRoot, new clone: PhysicalDataCenter)
    requires root.dataCenters == old(root.dataCenters)[clone.id := clone]
    requires forall o: object {:trigger old(allocated(o))} :: old(allocated(o)) && o != root ==> unchanged(o)
    ensures Within(DataCentersNodes(root.dataCenters.Values), Plus(old(DataCentersNodes(root.dataCenters.Values)), DataCenterNodes(clone)))
  {
    var before := old(root.dataCenters);
    forall o: object | o in before.Values ensures unchanged(o) {
      assert old(allocated(o));
    }
    forall o: object | o in old(RacksOfDataCenters(before.Values)) ensures unchanged(o) {
      assert old(allocated(o));
    }
    forall o: object | o in old(HostsOfRacks(RacksOfDataCenters(before.Values))) ensures unchanged(o) {
      assert old(allocated(o));
    }
    assert RacksOfDataCenters(before.Values) == old(RacksOfDataCenters(before.Values));
    assert HostsOfRacks(RacksOfDataCenters(before.Values)) == old(HostsOfRacks(RacksOfDataCenters(before.Values)));
    assert DisksOfRacks(RacksOfDataCenters(before.Values)) == old(DisksOfRacks(RacksOfDataCenters(before.Values)));
    assert DisksOfHosts(HostsOfRacks(RacksOfDataCenters(before.Values)))
        == old(DisksOfHosts(HostsOfRacks(RacksOfDataCenters(before.Values))));
    DataCentersPutBelow(before, clone.id, clone);
  }

  /**
   * The clone of `dc` (a merge with `one`'s data center of that identifier,
   * or a copy) put into `root` with `root` as parent; every node it brings
   * is new.
   */
  method PutDataCenterClone(root: PhysicalRoot, one: PhysicalTopology, dc: PhysicalDataCenter)
    returns (ghost clone: PhysicalDataCenter, ghost made: Nodes)
    requires DataCentersKeyed(root.dataCenters) && RootLinked(root)
    modifies root`dataCenters
    ensures fresh(clone) && clone.id == dc.id
    ensures root.dataCenters == old(root.dataCenters)[clone.id := clone]
    ensures DataCentersKeyed(root.dataCenters) && RootLinked(root)
    ensures old(RootKeyed(one.root) && DataCenterKeyed(dc)) ==>
      DataCenterValue(clone) == old(if dc.id in one.root.dataCenters
                                    then TopologyValues.MergeDataCenter(DataCentersValue(one.root.dataCenters)[dc.id], DataCenterValue(dc))
                                    else DataCenterValue(dc))
    ensures FreshNodes(made)
    ensures Within(DataCentersNodes(root.dataCenters.Values), Plus(old(DataCentersNodes(root.dataCenters.Values)), made))
  {
    var c := DataCenterClone(one, dc);
    made := DataCenterNodes(c);
    PutRootDataCenter(root, c);
    DataCenterPutNodes(root, c);
    clone := c;
  }

  /** One turn of the data-center loop of `mergeTree`, for the data center `dc` of `two`. */
  method MergeTreeDataCenter(root: PhysicalRoot, one: PhysicalTopology, two: PhysicalTopology, dc: PhysicalDataCenter,
                             ghost keyed: bool, ghost valued: bool, ghost seen: set<string>)
    returns (ghost made: Nodes)
    requires root != one.root && root != two.root
    requires TreeMerging(root, one.root, two.root, keyed, seen)
    requires valued ==> keyed && TreeValued(root, one.root, two.root, seen)
    requires dc in two.root.dataCenters.Values
    modifies root`dataCenters
    ensures TreeMerging(root, one.root, two.root, keyed, seen + {dc.id})
    ensures valued ==> TreeValued(root, one.root, two.root, seen + {dc.id})
    ensures FreshNodes(made)
    ensures Within(DataCentersNodes(root.dataCenters.Values), Plus(old(DataCentersNodes(root.dataCenters.Values)), made))
  {
    if keyed {
      ghost var k :| k in two.root.dataCenters && two.root.dataCenters[k] == dc;
      assert k == dc.id;
    }
    if valued {
      assert DataCentersValue(two.root.dataCenters)[dc.id] == DataCenterValue(dc);
    }
    ghost var clone;
    clone, made := PutDataCenterClone(root, one, dc);
    if valued {
      DataCenterPutValued(MergeStep(root, one.root, two.root, dc.id, seen), clone);
    }
  }

  /**
   * One turn of the data-center loop keeps the loop's value invariant:
   * putting in place of `key` a data center whose value is the merge of the
   * two data centers under `key` (or `two`'s when `one` has none) extends the
   * merge by `key`. The arguments are the new root, `one`, `two`, `key` and
   * `seen`.
   */
  twostate lemma DataCenterPutValued(step: MergeStep<PhysicalRoot>, new clone: PhysicalDataCenter)
    requires step.into != step.one && step.into != step.two
    requires old(step.key in step.two.dataCenters && TreeValued(step.into, step.one, step.two, step.seen))
    requires step.into.dataCenters == old(step.into.dataCenters)[step.key := clone]
    requires DataCenterValue(clone) == old(
      if step.key in step.one.dataCenters
      then TopologyValues.MergeDataCenter(DataCentersValue(step.one.dataCenters)[step.key], DataCentersValue(step.two.dataCenters)[step.key])
      else DataCentersValue(step.two.dataCenters)[step.key])
    requires forall o: object {:trigger old(allocated(o))} :: old(allocated(o)) && o != step.into ==> unchanged(o)
    ensures TreeValued(step.into, step.one, step.two, step.seen + {step.key})
  {
    var MergeStep(root, one, two, key, seen) := step;
    var node1: object, node2: object := one, two;
    assert old(allocated(node1)) && old(allocated(node2));
    ghost var before := old(root.dataCenters);
    DataCentersKeptBesides(before, root);
    DataCentersKeptBesides(one.dataCenters, root);
    DataCentersKeptBesides(two.dataCenters, root);
    DataCentersValuePut(before, key, clone);
    TopologyValues.MergeMapsStep(DataCentersValue(one.dataCenters), DataCentersValue(two.dataCenters), seen, key,
                                 TopologyValues.MergeDataCenter);
  }

  /** The turn of the data-center loop for the `i`-th entry of the listing of `two`'s data centers; `seen'` adds its identifier. */
  method MergeTreeDataCenterAt(root: PhysicalRoot, one: PhysicalTopology, two: PhysicalTopology, list: seq<PhysicalDataCenter>,
                               i: nat, ghost keyed: bool, ghost valued: bool, ghost seen: set<string>)
    returns (ghost seen': set<string>, ghost made: Nodes)
    requires root != one.root && root != two.root
    requires Enumerates(list, two.root.dataCenters) && i < |list|
    requires TreeMerging(root, one.root, two.root, keyed, seen)
    requires valued ==> keyed && TreeValued(root, one.root, two.root, seen)
    requires forall j :: 0 <= j < i ==> list[j].id in seen
    modifies root`dataCenters
    ensures TreeMerging(root, one.root, two.root, keyed, seen')
    ensures valued ==> TreeValued(root, one.root, two.root, seen')
    ensures forall j :: 0 <= j < i + 1 ==> list[j].id in seen'
    ensures FreshNodes(made)
    ensures Within(DataCentersNodes(root.dataCenters.Values), Plus(old(DataCentersNodes(root.dataCenters.Values)), made))
  {
    made := MergeTreeDataCenter(root, one, two, list[i], keyed, valued, seen);
    seen' := seen + {list[i].id};
  }

  /**
   * The data-center loop of `mergeTree`: every data center of `two` is merged
   * with the data center of `one` of the same identifier, or copied when
   * `one` has none, and put under `root`.
   */
  method AddMergedDataCenters(root: PhysicalRoot, one: PhysicalTopology, two: PhysicalTopology, ghost keyed: bool, ghost valued: bool)
    returns (ghost created: Nodes)
    requires root != one.root && root != two.root
    requires TreeMerging(root, one.root, two.root, keyed, {})
    requires valued ==> keyed && TreeValued(root, one.root, two.root, {})
    modifies root`dataCenters
    ensures TreeMerging(root, one.root, two.root, keyed, two.root.dataCenters.Keys)
    ensures valued ==> TreeValued(root, one.root, two.root, two.root.dataCenters.Keys)
    ensures FreshNodes(created)
    ensures Within(DataCentersNodes(root.dataCenters.Values), Plus(old(DataCentersNodes(root.dataCenters.Values)), created))
  {
    ghost var start := DataCentersNodes(root.dataCenters.Values);
    created := Nodes({}, {}, {}, {});
    label start:
    var list := two.GetDataCenters();
    ghost var seen: set<string> := {};
    TreeValuedKept@start(MergeState(root, one.root, two.root, seen), root);
    for i := 0 to |list|
      invariant TreeMerging(root, one.root, two.root, keyed, seen)
      invariant valued ==> TreeValued(root, one.root, two.root, seen)
      invariant forall j :: 0 <= j < i ==> list[j].id in seen
      invariant FreshNodes(created) && Within(DataCentersNodes(root.dataCenters.Values), Plus(start, created))
    {
      ghost var before, made := DataCentersNodes(root.dataCenters.Values), Nodes({}, {}, {}, {});
      seen, made := MergeTreeDataCenterAt(root, one, two, list, i, keyed, valued, seen);
      WithinStep(DataCentersNodes(root.dataCenters.Values), before, start, created, made);
      FreshPlus@start(created, made);
      created := Plus(created, made);
    }
    if keyed {
      AllDataCentersSeen(list, two.root.dataCenters, seen);
    }
  }

  /** `new PhysicalTopology(one)`, as the start of the data-center loop of `mergeTree`. */
  method TreeCopy(one: PhysicalTopology, two: PhysicalTopology, ghost keyed: bool, ghost valued: bool) returns (res: PhysicalTopology)
    requires keyed ==> DataCentersKeyed(one.root.dataCenters) && DataCentersKeyed(two.root.dataCenters)
    requires valued ==> RootKeyed(one.root) && RootKeyed(two.root)
    ensures fresh(res) && fresh(res.root) && res.root.id == one.root.id
    ensures fresh(res.root.dataCenters.Values) && fresh(RacksBelow(res.root)) && fresh(HostsBelow(res.root))
    ensures fresh(StoresBelow(res.root))
    ensures TreeMerging(res.root, one.root, two.root, keyed, {})
    ensures valued ==> TreeValued(res.root, one.root, two.root, {})
  {
    res := new PhysicalTopology.Copy(one);
    RootKeptBesides(one.root, res);
    RootKeptBesides(two.root, res);
    TopologyValues.MergeMapsNone(DataCentersValue(one.root.dataCenters), DataCentersValue(two.root.dataCenters),
                                 TopologyValues.MergeDataCenter);
    if valued {
      assert DataCentersValue(res.root.dataCenters) == DataCentersValue(one.root.dataCenters);
    }
  }

  /** The body of `mergeTree` for equal roots: the copy of `one` and its data-center loop. */
  method MergeDataCentersInto(one: PhysicalTopology, two: PhysicalTopology, ghost keyed: bool, ghost valued: bool)
    returns (res: PhysicalTopology)
    requires keyed ==> DataCentersKeyed(one.root.dataCenters) && DataCentersKeyed(two.root.dataCenters)
    requires valued ==> keyed && RootKeyed(one.root) && RootKeyed(two.root)
    ensures fresh(res) && fresh(res.root) && res.root.id == one.root.id
    ensures fresh(res.root.dataCenters.Values) && fresh(RacksBelow(res.root)) && fresh(HostsBelow(res.root))
    ensures fresh(StoresBelow(res.root))
    ensures TreeMerging(res.root, one.root, two.root, keyed, two.root.dataCenters.Keys)
    ensures valued ==> TreeValued(res.root, one.root, two.root, two.root.dataCenters.Keys)
  {
    res := TreeCopy(one, two, keyed, valued);
    ghost var copied := DataCentersNodes(res.root.dataCenters.Values);
    ghost var created := AddMergedDataCenters(res.root, one, two, keyed, valued);
    FreshWithin(DataCentersNodes(res.root.dataCenters.Values), copied, created);
  }

  /**
   * `mergeTree`: `null` arguments are refused, first argument first. Trees
   * whose roots differ (roots are equal by identifier) yield a copy of `one`;
   * otherwise every data center of `two` is merged into (or copied into) a
   * copy of `one`. Either way every node of the result is new and has its
   * holder as parent. From keyed maps the result holds the union of the data
   * centers.
   */
  method MergeTree(one: PhysicalTopology?, two: PhysicalTopology?) returns (r: Result<PhysicalTopology, Error>)
    ensures r.Err? <==> one == null || two == null
    ensures one == null ==> r == Err(IllegalArgument(ArgumentMessage("First Argument")))
    ensures one != null && two == null ==> r == Err(IllegalArgument(ArgumentMessage("Second Argument")))
    ensures r.Ok? ==> fresh(r.value) && fresh(r.value.root) && r.value.root.id == one.root.id
    ensures r.Ok? ==> DataCentersKeyed(r.value.root.dataCenters) && ParentsConsistent(r.value.root)
    ensures r.Ok? ==> fresh(r.value.root.dataCenters.Values) && fresh(RacksBelow(r.value.root))
    ensures r.Ok? ==> fresh(HostsBelow(r.value.root)) && fresh(StoresBelow(r.value.root))
    ensures r.Ok? && one.root.id != two.root.id && DataCentersKeyed(one.root.dataCenters) ==>
      r.value.root.dataCenters.Keys == one.root.dataCenters.Keys
    ensures r.Ok? && one.root.id == two.root.id && DataCentersKeyed(one.root.dataCenters) && DataCentersKeyed(two.root.dataCenters) ==>
      r.value.root.dataCenters.Keys == one.root.dataCenters.Keys + two.root.dataCenters.Keys
    ensures r.Ok? && one.root.id != two.root.id && RootKeyed(one.root) ==> RootValue(r.value.root) == RootValue(one.root)
    ensures r.Ok? && RootKeyed(one.root) && RootKeyed(two.root) ==>
      RootValue(r.value.root) == TopologyValues.MergeRoot(RootValue(one.root), RootValue(two.root))
  {
    var check := ThrowIfNullArgument(Ref(one), "First Argument");
    if check.Fail? {
      return Err(check.error);
    }
    check := ThrowIfNullArgument(Ref(two), "Second Argument");
    if check.Fail? {
      return Err(check.error);
    }
    if !one.root.Equals(two.root) {
      var copy := new PhysicalTopology.Copy(one);
      RootKeptBesides(one.root, copy);
      return Ok(copy);
    }
    ghost var keyed := DataCentersKeyed(one.root.dataCenters) && DataCentersKeyed(two.root.dataCenters);
    ghost var valued := RootKeyed(one.root) && RootKeyed(two.root);
    var res := MergeDataCentersInto(one, two, keyed, valued);
    LinkedConsistent(res.root);
    RootKeptBesides(one.root, res);
    RootKeptBesides(two.root, res);
    if valued {
      RootValueOfMerge(res.root, one.root, two.root);
    }
    return Ok(res);
  }
}
