/**
 * The parent-reconstruction walk of PhysicalTopology (`fixme`): every data
 * center of the root gets the root as parent, every rack its data center,
 * every host its rack, and every disk the rack or host holding it.
 *
 * The walk is proved against ghost tables taken before it starts, mapping
 * each owner to the set of its children (`RacksOf`, `HostsOf`, `DisksOf`).
 * A node is "linked" once its parent is an owner whose table entry holds it,
 * and an owner is "covered" once it and everything below it is linked.
 * Only `parent` fields change, so the tables keep describing the tree.
 */
module ParentWalk {
  import opened JavaLang
  import opened Topology

  /** `getCPUs()` of a rack, as the walk uses it: exactly the rack's hosts. */
  method ListHosts(r: PhysicalRack) returns (list: seq<PhysicalHost>)
    ensures forall i :: 0 <= i < |list| ==> list[i] in r.cpus.Values
    ensures forall h :: h in r.cpus.Values ==> h in list
  {
    ghost var keys;
    list, keys := r.GetCPUs();
    ListedValues(list, r.cpus, keys);
  }

  /** `getDisks()` of a host: exactly its disks. */
  method ListHostDisks(h: PhysicalHost) returns (list: seq<PhysicalStore>)
    ensures forall i :: 0 <= i < |list| ==> list[i] in h.disks.Values
    ensures forall s :: s in h.disks.Values ==> s in list
  {
    ghost var keys;
    list, keys := h.GetDisks();
    ListedValues(list, h.disks, keys);
  }

  /** `getDisks()` of a rack: exactly its rack-level disks. */
  method ListRackDisks(r: PhysicalRack) returns (list: seq<PhysicalStore>)
    ensures forall i :: 0 <= i < |list| ==> list[i] in r.disks.Values
    ensures forall s :: s in r.disks.Values ==> s in list
  {
    ghost var keys;
    list, keys := r.GetDisks();
    ListedValues(list, r.disks, keys);
  }

  /** `getDataCenters()` of the root: exactly its data centers. */
  method ListDataCenters(root: PhysicalRoot) returns (list: seq<PhysicalDataCenter>)
    ensures forall i :: 0 <= i < |list| ==> list[i] in root.dataCenters.Values
    ensures forall dc :: dc in root.dataCenters.Values ==> dc in list
  {
    ghost var keys;
    list, keys := root.GetDataCenters();
    ListedValues(list, root.dataCenters, keys);
  }

  /** `getRacks()` of a data center: exactly its racks. */
  method ListRacks(dc: PhysicalDataCenter) returns (list: seq<PhysicalRack>)
    ensures forall i :: 0 <= i < |list| ==> list[i] in dc.racks.Values
    ensures forall r :: r in dc.racks.Values ==> r in list
  {
    ghost var keys;
    list, keys := dc.GetRacks();
    ListedValues(list, dc.racks, keys);
  }

  /** The ghost tables: for each owner, the set of its children when the walk starts. */
  type DisksOf = map<StoreOwner, set<PhysicalStore>>
  type HostsOf = map<PhysicalRack?, set<PhysicalHost>>
  type RacksOf = map<PhysicalDataCenter?, set<PhysicalRack>>
  type DataCentersOf = map<PhysicalRoot?, set<PhysicalDataCenter>>

  /** Each store of `done` is among the children its parent holds. */
  ghost predicate StoresLinked(done: set<PhysicalStore>, disksOf: DisksOf)
    reads done`parent
  {
    forall s :: s in done ==> s.parent in disksOf && s in disksOf[s.parent]
  }

  /** Each host of `done` is among the children its parent holds. */
  ghost predicate HostsLinked(done: set<PhysicalHost>, hostsOf: HostsOf)
    reads done`parent
  {
    forall h :: h in done ==> h.parent in hostsOf && h in hostsOf[h.parent]
  }

  /** Each data center of `done` is among the children its parent holds. */
  ghost predicate DataCentersLinked(done: set<PhysicalDataCenter>, dataCentersOf: DataCentersOf)
    reads done`parent
  {
    forall dc :: dc in done ==> dc.parent in dataCentersOf && dc in dataCentersOf[dc.parent]
  }

  /** Each rack of `done` is among the children its parent holds. */
  ghost predicate RacksLinked(done: set<PhysicalRack>, racksOf: RacksOf)
    reads done`parent
  {
    forall r :: r in done ==> r.parent in racksOf && r in racksOf[r.parent]
  }

  /** `h` is linked (in `H`) and so are all its disks (in `S`). */
  ghost predicate HostCovered(h: PhysicalHost, disksOf: DisksOf, H: set<PhysicalHost>, S: set<PhysicalStore>)
  {
    h in H && OnHost(h) in disksOf && disksOf[OnHost(h)] <= S
  }

  /** `r` is linked, and so are its rack-level disks and each of its hosts with their disks. */
  ghost predicate RackCovered(r: PhysicalRack, hostsOf: HostsOf, disksOf: DisksOf,
                              R: set<PhysicalRack>, H: set<PhysicalHost>, S: set<PhysicalStore>)
  {
    && r in R && r in hostsOf && OnRack(r) in disksOf
    && (forall h :: h in hostsOf[r] ==> HostCovered(h, disksOf, H, S))
    && disksOf[OnRack(r)] <= S
  }

  /** Coverage survives the linked sets growing. */
  lemma RackCoveredGrows(r: PhysicalRack, hostsOf: HostsOf, disksOf: DisksOf,
                         R: set<PhysicalRack>, H: set<PhysicalHost>, S: set<PhysicalStore>,
                         R': set<PhysicalRack>, H': set<PhysicalHost>, S': set<PhysicalStore>)
    requires RackCovered(r, hostsOf, disksOf, R, H, S) && R <= R' && H <= H' && S <= S'
    ensures RackCovered(r, hostsOf, disksOf, R', H', S')
  {
    forall h | h in hostsOf[r] ensures HostCovered(h, disksOf, H', S') {
      assert HostCovered(h, disksOf, H, S);
    }
  }

  /** `dc` is linked and every one of its racks is covered. */
  ghost predicate DataCenterCovered(dc: PhysicalDataCenter, racksOf: RacksOf, hostsOf: HostsOf, disksOf: DisksOf,
                                    D: set<PhysicalDataCenter>, R: set<PhysicalRack>, H: set<PhysicalHost>, S: set<PhysicalStore>)
  {
    dc in D && dc in racksOf && forall r :: r in racksOf[dc] ==> RackCovered(r, hostsOf, disksOf, R, H, S)
  }

  /** Coverage survives the linked sets growing. */
  lemma DataCenterCoveredGrows(dc: PhysicalDataCenter, racksOf: RacksOf, hostsOf: HostsOf, disksOf: DisksOf,
                               D: set<PhysicalDataCenter>, R: set<PhysicalRack>, H: set<PhysicalHost>, S: set<PhysicalStore>,
                               D': set<PhysicalDataCenter>, R': set<PhysicalRack>, H': set<PhysicalHost>, S': set<PhysicalStore>)
    requires DataCenterCovered(dc, racksOf, hostsOf, disksOf, D, R, H, S) && D <= D' && R <= R' && H <= H' && S <= S'
    ensures DataCenterCovered(dc, racksOf, hostsOf, disksOf, D', R', H', S')
  {
    forall r | r in racksOf[dc] ensures RackCovered(r, hostsOf, disksOf, R', H', S') {
      RackCoveredGrows(r, hostsOf, disksOf, R, H, S, R', H', S');
    }
  }

  /** The recorded disks of a host are its disks. */
  ghost predicate HostExact(h: PhysicalHost, disksOf: DisksOf)
    reads h`disks
  {
    OnHost(h) in disksOf && disksOf[OnHost(h)] == h.disks.Values
  }

  /** The recorded hosts and disks of a rack are its own, and each host's recorded disks are its disks. */
  ghost predicate RackExact(r: PhysicalRack, hostsOf: HostsOf, disksOf: DisksOf)
    reads r`cpus, r`disks, r.cpus.Values`disks
  {
    && r in hostsOf && hostsOf[r] == r.cpus.Values
    && OnRack(r) in disksOf && disksOf[OnRack(r)] == r.disks.Values
    && forall h :: h in r.cpus.Values ==> HostExact(h, disksOf)
  }

  /** The loop over a host's disks: each gets the host as parent. */
  method FixHostDisks(h: PhysicalHost, ghost disksOf: DisksOf, ghost H: set<PhysicalHost>, ghost S: set<PhysicalStore>)
    returns (ghost S': set<PhysicalStore>)
    requires HostExact(h, disksOf) && StoresLinked(S, disksOf) && h in H
    modifies h.disks.Values`parent
    ensures S <= S' && StoresLinked(S', disksOf) && HostCovered(h, disksOf, H, S')
  {
    var disks := ListHostDisks(h);
    S' := S;
    for k := 0 to |disks|
      invariant S <= S' && StoresLinked(S', disksOf)
      invariant forall l :: 0 <= l < k ==> disks[l] in S'
    {
      disks[k].SetParent(OnHost(h));
      S' := S' + {disks[k]};
    }
  }

  /** A host gets the rack as parent, then its disks get the host. */
  method FixHost(h: PhysicalHost, r: PhysicalRack, ghost hostsOf: HostsOf, ghost disksOf: DisksOf,
                 ghost H: set<PhysicalHost>, ghost S: set<PhysicalStore>)
    returns (ghost H': set<PhysicalHost>, ghost S': set<PhysicalStore>)
    requires r in hostsOf && h in hostsOf[r] && HostExact(h, disksOf)
    requires HostsLinked(H, hostsOf) && StoresLinked(S, disksOf)
    modifies h`parent, h.disks.Values`parent
    ensures H <= H' && HostsLinked(H', hostsOf)
    ensures S <= S' && StoresLinked(S', disksOf)
    ensures HostCovered(h, disksOf, H', S')
  {
    h.SetParent(r);
    H' := H + {h};
    S' := FixHostDisks(h, disksOf, H', S);
  }

  /** One turn of the loop over a rack's hosts: fixes `list[i]` and keeps the hosts before it covered. */
  method FixHostAt(list: seq<PhysicalHost>, i: nat, r: PhysicalRack, ghost hostsOf: HostsOf, ghost disksOf: DisksOf,
                   ghost H: set<PhysicalHost>, ghost S: set<PhysicalStore>)
    returns (ghost H': set<PhysicalHost>, ghost S': set<PhysicalStore>)
    requires i < |list| && r in hostsOf && list[i] in hostsOf[r] && HostExact(list[i], disksOf)
    requires HostsLinked(H, hostsOf) && StoresLinked(S, disksOf)
    requires forall j :: 0 <= j < i ==> HostCovered(list[j], disksOf, H, S)
    modifies {list[i]}`parent, list[i].disks.Values`parent
    ensures H <= H' && HostsLinked(H', hostsOf)
    ensures S <= S' && StoresLinked(S', disksOf)
    ensures forall j :: 0 <= j <= i ==> HostCovered(list[j], disksOf, H', S')
  {
    H', S' := FixHost(list[i], r, hostsOf, disksOf, H, S);
  }

  /** The loop over a rack's hosts: afterwards every host of the rack is covered. */
  method FixRackHosts(r: PhysicalRack, ghost hostsOf: HostsOf, ghost disksOf: DisksOf,
                      ghost stores: set<PhysicalStore>, ghost H: set<PhysicalHost>, ghost S: set<PhysicalStore>)
    returns (ghost H': set<PhysicalHost>, ghost S': set<PhysicalStore>)
    requires RackExact(r, hostsOf, disksOf)
    requires forall o :: o in disksOf ==> disksOf[o] <= stores
    requires HostsLinked(H, hostsOf) && StoresLinked(S, disksOf)
    modifies r.cpus.Values`parent, stores`parent
    ensures H <= H' && HostsLinked(H', hostsOf)
    ensures S <= S' && StoresLinked(S', disksOf)
    ensures forall h :: h in hostsOf[r] ==> HostCovered(h, disksOf, H', S')
  {
    var list := ListHosts(r);
    H', S' := H, S;
    for i := 0 to |list|
      invariant H <= H' && HostsLinked(H', hostsOf)
      invariant S <= S' && StoresLinked(S', disksOf)
      invariant forall j :: 0 <= j < i ==> HostCovered(list[j], disksOf, H', S')
    {
      H', S' := FixHostAt(list, i, r, hostsOf, disksOf, H', S');
    }
  }

  /** The loop over a rack's own disks: each gets the rack as parent. */
  method FixRackDisks(r: PhysicalRack, ghost disksOf: DisksOf, ghost S: set<PhysicalStore>)
    returns (ghost S': set<PhysicalStore>)
    requires OnRack(r) in disksOf && disksOf[OnRack(r)] == r.disks.Values
    requires StoresLinked(S, disksOf)
    modifies r.disks.Values`parent
    ensures S <= S' && StoresLinked(S', disksOf)
    ensures disksOf[OnRack(r)] <= S'
  {
    var disks := ListRackDisks(r);
    S' := S;
    for k := 0 to |disks|
      invariant S <= S' && StoresLinked(S', disksOf)
      invariant forall l :: 0 <= l < k ==> disks[l] in S'
    {
      disks[k].SetParent(OnRack(r));
      S' := S' + {disks[k]};
    }
  }

  /** A rack gets the data center as parent, then its hosts and its disks are fixed. */
  method FixRack(r: PhysicalRack, dc: PhysicalDataCenter, ghost racksOf: RacksOf, ghost hostsOf: HostsOf, ghost disksOf: DisksOf,
                 ghost stores: set<PhysicalStore>,
                 ghost R: set<PhysicalRack>, ghost H: set<PhysicalHost>, ghost S: set<PhysicalStore>)
    returns (ghost R': set<PhysicalRack>, ghost H': set<PhysicalHost>, ghost S': set<PhysicalStore>)
    requires dc in racksOf && r in racksOf[dc] && RackExact(r, hostsOf, disksOf)
    requires forall o :: o in disksOf ==> disksOf[o] <= stores
    requires RacksLinked(R, racksOf) && HostsLinked(H, hostsOf) && StoresLinked(S, disksOf)
    modifies r`parent, r.cpus.Values`parent, stores`parent
    ensures R <= R' && RacksLinked(R', racksOf)
    ensures H <= H' && HostsLinked(H', hostsOf)
    ensures S <= S' && StoresLinked(S', disksOf)
    ensures RackCovered(r, hostsOf, disksOf, R', H', S')
  {
    r.SetParent(dc);
    R' := R + {r};
    H', S' := FixRackHosts(r, hostsOf, disksOf, stores, H, S);
    S' := FixRackDisks(r, disksOf, S');
  }

  /** One turn of the loop over a data centre's racks: fixes `list[i]` and keeps the racks before it covered. */
  method FixRackAt(list: seq<PhysicalRack>, i: nat, dc: PhysicalDataCenter, ghost racksOf: RacksOf, ghost hostsOf: HostsOf, ghost disksOf: DisksOf,
                   ghost stores: set<PhysicalStore>,
                   ghost R: set<PhysicalRack>, ghost H: set<PhysicalHost>, ghost S: set<PhysicalStore>)
    returns (ghost R': set<PhysicalRack>, ghost H': set<PhysicalHost>, ghost S': set<PhysicalStore>)
    requires i < |list| && dc in racksOf && list[i] in racksOf[dc] && RackExact(list[i], hostsOf, disksOf)
    requires forall o :: o in disksOf ==> disksOf[o] <= stores
    requires RacksLinked(R, racksOf) && HostsLinked(H, hostsOf) && StoresLinked(S, disksOf)
    requires forall j :: 0 <= j < i ==> RackCovered(list[j], hostsOf, disksOf, R, H, S)
    modifies {list[i]}`parent, list[i].cpus.Values`parent, stores`parent
    ensures R <= R' && RacksLinked(R', racksOf)
    ensures H <= H' && HostsLinked(H', hostsOf)
    ensures S <= S' && StoresLinked(S', disksOf)
    ensures forall j :: 0 <= j <= i ==> RackCovered(list[j], hostsOf, disksOf, R', H', S')
  {
    R', H', S' := FixRack(list[i], dc, racksOf, hostsOf, disksOf, stores, R, H, S);
    forall j | 0 <= j < i ensures RackCovered(list[j], hostsOf, disksOf, R', H', S') {
      RackCoveredGrows(list[j], hostsOf, disksOf, R, H, S, R', H', S');
    }
  }

  /** The loop over a data center's racks: afterwards the data center's racks are covered. */
  method FixDataCenter(dc: PhysicalDataCenter, ghost racksOf: RacksOf, ghost hostsOf: HostsOf, ghost disksOf: DisksOf,
                       ghost racks: set<PhysicalRack>, ghost hosts: set<PhysicalHost>, ghost stores: set<PhysicalStore>,
                       ghost R: set<PhysicalRack>, ghost H: set<PhysicalHost>, ghost S: set<PhysicalStore>)
    returns (ghost R': set<PhysicalRack>, ghost H': set<PhysicalHost>, ghost S': set<PhysicalStore>)
    requires dc in racksOf && racksOf[dc] == dc.racks.Values
    requires forall r :: r in dc.racks.Values ==> RackExact(r, hostsOf, disksOf)
    requires forall o :: o in racksOf ==> racksOf[o] <= racks
    requires forall o :: o in hostsOf ==> hostsOf[o] <= hosts
    requires forall o :: o in disksOf ==> disksOf[o] <= stores
    requires RacksLinked(R, racksOf) && HostsLinked(H, hostsOf) && StoresLinked(S, disksOf)
    modifies racks`parent, hosts`parent, stores`parent
    ensures R <= R' && RacksLinked(R', racksOf)
    ensures H <= H' && HostsLinked(H', hostsOf)
    ensures S <= S' && StoresLinked(S', disksOf)
    ensures forall r :: r in racksOf[dc] ==> RackCovered(r, hostsOf, disksOf, R', H', S')
  {
    var list := ListRacks(dc);
    R', H', S' := R, H, S;
    for i := 0 to |list|
      invariant R <= R' && RacksLinked(R', racksOf)
      invariant H <= H' && HostsLinked(H', hostsOf)
      invariant S <= S' && StoresLinked(S', disksOf)
      invariant forall j :: 0 <= j < i ==> RackCovered(list[j], hostsOf, disksOf, R', H', S')
    {
      R', H', S' := FixRackAt(list, i, dc, racksOf, hostsOf, disksOf, stores, R', H', S');
    }
  }

  /** One turn of the loop over the root's data centres: fixes `list[i]` and keeps the data centres before it covered. */
  method FixDataCenterAt(list: seq<PhysicalDataCenter>, i: nat, root: PhysicalRoot,
                         ghost dataCentersOf: DataCentersOf, ghost racksOf: RacksOf, ghost hostsOf: HostsOf, ghost disksOf: DisksOf,
                         ghost racks: set<PhysicalRack>, ghost hosts: set<PhysicalHost>, ghost stores: set<PhysicalStore>,
                         ghost D: set<PhysicalDataCenter>, ghost R: set<PhysicalRack>, ghost H: set<PhysicalHost>, ghost S: set<PhysicalStore>)
    returns (ghost D': set<PhysicalDataCenter>, ghost R': set<PhysicalRack>, ghost H': set<PhysicalHost>, ghost S': set<PhysicalStore>)
    requires i < |list| && root in dataCentersOf && list[i] in dataCentersOf[root]
    requires list[i] in racksOf && racksOf[list[i]] == list[i].racks.Values
    requires forall r :: r in list[i].racks.Values ==> RackExact(r, hostsOf, disksOf)
    requires forall o :: o in racksOf ==> racksOf[o] <= racks
    requires forall o :: o in hostsOf ==> hostsOf[o] <= hosts
    requires forall o :: o in disksOf ==> disksOf[o] <= stores
    requires DataCentersLinked(D, dataCentersOf) && RacksLinked(R, racksOf) && HostsLinked(H, hostsOf) && StoresLinked(S, disksOf)
    requires forall j :: 0 <= j < i ==> DataCenterCovered(list[j], racksOf, hostsOf, disksOf, D, R, H, S)
    modifies {list[i]}`parent, racks`parent, hosts`parent, stores`parent
    ensures D <= D' && DataCentersLinked(D', dataCentersOf)
    ensures R <= R' && RacksLinked(R', racksOf)
    ensures H <= H' && HostsLinked(H', hostsOf)
    ensures S <= S' && StoresLinked(S', disksOf)
    ensures forall j :: 0 <= j <= i ==> DataCenterCovered(list[j], racksOf, hostsOf, disksOf, D', R', H', S')
  {
    list[i].SetParent(root);
    D' := D + {list[i]};
    R', H', S' := FixDataCenter(list[i], racksOf, hostsOf, disksOf, racks, hosts, stores, R, H, S);
    forall j | 0 <= j < i ensures DataCenterCovered(list[j], racksOf, hostsOf, disksOf, D', R', H', S') {
      DataCenterCoveredGrows(list[j], racksOf, hostsOf, disksOf, D, R, H, S, D', R', H', S');
    }
  }

  /** The tables list, for each owner of the tree, its children as they are. */
  ghost predicate TablesDescribe(dcs: set<PhysicalDataCenter>, racks: set<PhysicalRack>, hosts: set<PhysicalHost>,
                                 racksOf: RacksOf, hostsOf: HostsOf, disksOf: DisksOf)
    reads dcs`racks, racks`cpus, racks`disks, hosts`disks
  {
    && racksOf.Keys == dcs && (forall dc :: dc in dcs ==> racksOf[dc] == dc.racks.Values)
    && hostsOf.Keys == racks && (forall r :: r in racks ==> hostsOf[r] == r.cpus.Values)
    && (forall o :: o in disksOf ==>
          || (o.OnRack? && o.rack in racks && disksOf[o] == o.rack.disks.Values)
          || (o.OnHost? && o.host in hosts && disksOf[o] == o.host.disks.Values))
    && (forall r :: r in racks ==> OnRack(r) in disksOf && disksOf[OnRack(r)] == r.disks.Values)
    && (forall h :: h in hosts ==> OnHost(h) in disksOf && disksOf[OnHost(h)] == h.disks.Values)
  }

  /** What the walk from the root achieves: every node visited is linked, and every data center of the root is covered. */
  ghost predicate Walked(root: PhysicalRoot, dataCentersOf: DataCentersOf, racksOf: RacksOf, hostsOf: HostsOf, disksOf: DisksOf,
                         D: set<PhysicalDataCenter>, R: set<PhysicalRack>, H: set<PhysicalHost>, S: set<PhysicalStore>)
    reads D`parent, R`parent, H`parent, S`parent
  {
    && DataCentersLinked(D, dataCentersOf) && RacksLinked(R, racksOf) && HostsLinked(H, hostsOf) && StoresLinked(S, disksOf)
    && root in dataCentersOf
    && forall dc :: dc in dataCentersOf[root] ==> DataCenterCovered(dc, racksOf, hostsOf, disksOf, D, R, H, S)
  }

  /** What the walk from the root needs: the tables match the tree and name only nodes of the frame sets. */
  ghost predicate RootReady(root: PhysicalRoot, dataCentersOf: DataCentersOf, racksOf: RacksOf, hostsOf: HostsOf, disksOf: DisksOf,
                            dcs: set<PhysicalDataCenter>, racks: set<PhysicalRack>, hosts: set<PhysicalHost>, stores: set<PhysicalStore>)
    reads root, root.dataCenters.Values, RacksOfDataCenters(root.dataCenters.Values), HostsOfRacks(RacksOfDataCenters(root.dataCenters.Values))
  {
    && root in dataCentersOf && dataCentersOf[root] == root.dataCenters.Values
    && (forall dc :: dc in root.dataCenters.Values ==> dc in racksOf && racksOf[dc] == dc.racks.Values)
    && (forall dc, r :: dc in root.dataCenters.Values && r in dc.racks.Values ==> RackExact(r, hostsOf, disksOf))
    && (forall o :: o in dataCentersOf ==> dataCentersOf[o] <= dcs)
    && (forall o :: o in racksOf ==> racksOf[o] <= racks)
    && (forall o :: o in hostsOf ==> hostsOf[o] <= hosts)
    && (forall o :: o in disksOf ==> disksOf[o] <= stores)
  }

  /** The loop over the root's data centers: each gets the root as parent and is then covered. */
  method FixRoot(root: PhysicalRoot,
                 ghost dataCentersOf: DataCentersOf, ghost racksOf: RacksOf, ghost hostsOf: HostsOf, ghost disksOf: DisksOf,
                 ghost dcs: set<PhysicalDataCenter>, ghost racks: set<PhysicalRack>, ghost hosts: set<PhysicalHost>, ghost stores: set<PhysicalStore>)
    returns (ghost D: set<PhysicalDataCenter>, ghost R: set<PhysicalRack>, ghost H: set<PhysicalHost>, ghost S: set<PhysicalStore>)
    requires RootReady(root, dataCentersOf, racksOf, hostsOf, disksOf, dcs, racks, hosts, stores)
    modifies dcs`parent, racks`parent, hosts`parent, stores`parent
    ensures Walked(root, dataCentersOf, racksOf, hostsOf, disksOf, D, R, H, S)
    ensures unchanged(dcs`racks, racks`cpus, racks`disks, hosts`disks, stores`capacity, stores`used)
  {
    var list := ListDataCenters(root);
    D, R, H, S := {}, {}, {}, {};
    for i := 0 to |list|
      invariant DataCentersLinked(D, dataCentersOf) && RacksLinked(R, racksOf) && HostsLinked(H, hostsOf) && StoresLinked(S, disksOf)
      invariant forall j :: 0 <= j < i ==> DataCenterCovered(list[j], racksOf, hostsOf, disksOf, D, R, H, S)
    {
      D, R, H, S := FixDataCenterAt(list, i, root, dataCentersOf, racksOf, hostsOf, disksOf, racks, hosts, stores, D, R, H, S);
    }
  }
  /** The node sets of the tree below `root`: its data centers, their racks, their hosts and every disk. */
  ghost predicate Nodes(root: PhysicalRoot, dcs: set<PhysicalDataCenter>, racks: set<PhysicalRack>,
                        hosts: set<PhysicalHost>, stores: set<PhysicalStore>)
    reads root`dataCenters, dcs`racks, racks`cpus, racks`disks, hosts`disks
  {
    && dcs == root.dataCenters.Values
    && racks == RacksOfDataCenters(dcs)
    && hosts == HostsOfRacks(racks)
    && stores == DisksOfRacks(racks) + DisksOfHosts(hosts)
  }

  /** The rack table of a set of data centers: each one's racks. */
  ghost function RackTable(dcs: set<PhysicalDataCenter>): RacksOf
    reads dcs`racks
  {
    map dc: PhysicalDataCenter? | dc in dcs :: dc.racks.Values
  }

  /** The host table of a set of racks: each one's hosts. */
  ghost function HostTable(racks: set<PhysicalRack>): HostsOf
    reads racks`cpus
  {
    map r: PhysicalRack? | r in racks :: r.cpus.Values
  }

  /** The disk table of a set of racks and hosts: each owner's disks. */
  ghost function DiskTable(racks: set<PhysicalRack>, hosts: set<PhysicalHost>): DisksOf
    reads racks`disks, hosts`disks
  {
    var owners := (set r | r in racks :: OnRack(r)) + (set h | h in hosts :: OnHost(h));
    map o | o in owners :: if o.OnRack? then o.rack.disks.Values else o.host.disks.Values
  }

  /** The node sets are exactly the nodes the tables list, level by level. */
  ghost predicate Spans(dcs: set<PhysicalDataCenter>, racks: set<PhysicalRack>, hosts: set<PhysicalHost>, stores: set<PhysicalStore>,
                        racksOf: RacksOf, hostsOf: HostsOf, disksOf: DisksOf)
  {
    && racks == (set dc, r | dc in dcs && dc in racksOf && r in racksOf[dc] :: r)
    && hosts == (set r, h | r in racks && r in hostsOf && h in hostsOf[r] :: h)
    && stores == (set o, s | o in disksOf && s in disksOf[o] :: s)
  }

  /** A disk's parent holds it: a rack or host of the tree with the disk among its own. */
  ghost predicate StoreHeld(s: PhysicalStore, racks: set<PhysicalRack>, hosts: set<PhysicalHost>)
    reads s, racks, hosts
  {
    match s.parent
    case OnRack(r) => r in racks && s in r.disks.Values
    case OnHost(h) => h in hosts && s in h.disks.Values
    case Detached => false
  }

  /** Every node below the root has as parent one of the nodes of the tree that hold it. */
  ghost predicate ParentsHeld(root: PhysicalRoot, dcs: set<PhysicalDataCenter>, racks: set<PhysicalRack>,
                              hosts: set<PhysicalHost>, stores: set<PhysicalStore>)
    reads dcs, racks, hosts, stores
  {
    && (forall dc :: dc in dcs ==> dc.parent == root)
    && (forall r :: r in racks ==> r.parent != null && r.parent in dcs && r in r.parent.racks.Values)
    && (forall h :: h in hosts ==> h.parent != null && h.parent in racks && h in h.parent.cpus.Values)
    && (forall s :: s in stores ==> StoreHeld(s, racks, hosts))
  }

  /** Tables that describe the tree record, for every rack, exactly its hosts and disks. */
  lemma TablesExact(dcs: set<PhysicalDataCenter>, racks: set<PhysicalRack>, hosts: set<PhysicalHost>,
                    racksOf: RacksOf, hostsOf: HostsOf, disksOf: DisksOf)
    requires racks == RacksOfDataCenters(dcs) && hosts == HostsOfRacks(racks)
    requires TablesDescribe(dcs, racks, hosts, racksOf, hostsOf, disksOf)
    ensures forall dc, r :: dc in dcs && r in dc.racks.Values ==> RackExact(r, hostsOf, disksOf)
  {
    forall dc, r | dc in dcs && r in dc.racks.Values ensures RackExact(r, hostsOf, disksOf) {
      assert r in racks;
      forall h | h in r.cpus.Values ensures HostExact(h, disksOf) {
        assert h in hosts;
      }
    }
  }

  /** The tables of the tree name only nodes of the tree. */
  lemma TablesWithin(root: PhysicalRoot, dcs: set<PhysicalDataCenter>, racks: set<PhysicalRack>,
                     hosts: set<PhysicalHost>, stores: set<PhysicalStore>)
    requires Nodes(root, dcs, racks, hosts, stores)
    ensures forall o :: o in RackTable(dcs) ==> RackTable(dcs)[o] <= racks
    ensures forall o :: o in HostTable(racks) ==> HostTable(racks)[o] <= hosts
    ensures forall o :: o in DiskTable(racks, hosts) ==> DiskTable(racks, hosts)[o] <= stores
  {
  }

  /** Once every data center is covered, every rack is linked. */
  lemma CoveredRacks(dcs: set<PhysicalDataCenter>, racks: set<PhysicalRack>, racksOf: RacksOf, hostsOf: HostsOf, disksOf: DisksOf,
                     D: set<PhysicalDataCenter>, R: set<PhysicalRack>, H: set<PhysicalHost>, S: set<PhysicalStore>)
    requires racks == (set dc, r | dc in dcs && dc in racksOf && r in racksOf[dc] :: r)
    requires forall dc :: dc in dcs ==> DataCenterCovered(dc, racksOf, hostsOf, disksOf, D, R, H, S)
    ensures dcs <= D
    ensures forall r :: r in racks ==> RackCovered(r, hostsOf, disksOf, R, H, S)
  {
    forall r | r in racks ensures RackCovered(r, hostsOf, disksOf, R, H, S) {
      var dc :| dc in dcs && dc in racksOf && r in racksOf[dc];
    }
  }

  /** Once every rack is covered, every host is linked. */
  lemma CoveredHosts(racks: set<PhysicalRack>, hosts: set<PhysicalHost>, hostsOf: HostsOf, disksOf: DisksOf,
                     R: set<PhysicalRack>, H: set<PhysicalHost>, S: set<PhysicalStore>)
    requires hosts == (set r, h | r in racks && r in hostsOf && h in hostsOf[r] :: h)
    requires forall r :: r in racks ==> RackCovered(r, hostsOf, disksOf, R, H, S)
    ensures racks <= R
    ensures forall h :: h in hosts ==> HostCovered(h, disksOf, H, S)
  {
    forall h | h in hosts ensures HostCovered(h, disksOf, H, S) {
      var r :| r in racks && r in hostsOf && h in hostsOf[r];
    }
  }

  /** Once every rack and host is covered, every host and every disk is linked. */
  lemma CoveredStores(racks: set<PhysicalRack>, hosts: set<PhysicalHost>, stores: set<PhysicalStore>, hostsOf: HostsOf, disksOf: DisksOf,
                      R: set<PhysicalRack>, H: set<PhysicalHost>, S: set<PhysicalStore>)
    requires stores == (set o, s | o in disksOf && s in disksOf[o] :: s)
    requires forall o :: o in disksOf ==> (o.OnRack? && o.rack in racks) || (o.OnHost? && o.host in hosts)
    requires forall r :: r in racks ==> RackCovered(r, hostsOf, disksOf, R, H, S)
    requires forall h :: h in hosts ==> HostCovered(h, disksOf, H, S)
    ensures hosts <= H
    ensures stores <= S
  {
    forall s | s in stores ensures s in S {
      var o :| o in disksOf && s in disksOf[o];
    }
  }

  /** Linked nodes, under tables that describe the tree, have as parent a node that holds them. */
  lemma LinkedHeld(dcs: set<PhysicalDataCenter>, racks: set<PhysicalRack>, hosts: set<PhysicalHost>,
                   racksOf: RacksOf, hostsOf: HostsOf, disksOf: DisksOf,
                   R: set<PhysicalRack>, H: set<PhysicalHost>, S: set<PhysicalStore>)
    requires RacksLinked(R, racksOf) && HostsLinked(H, hostsOf) && StoresLinked(S, disksOf)
    requires TablesDescribe(dcs, racks, hosts, racksOf, hostsOf, disksOf)
    ensures forall r :: r in R ==> r.parent != null && r.parent in dcs && r in r.parent.racks.Values
    ensures forall h :: h in H ==> h.parent != null && h.parent in racks && h in h.parent.cpus.Values
    ensures forall s :: s in S ==> StoreHeld(s, racks, hosts)
  {
  }

  /** The tables taken from the tree describe it. */
  lemma TablesDescribeTree(dcs: set<PhysicalDataCenter>, racks: set<PhysicalRack>, hosts: set<PhysicalHost>)
    requires racks == RacksOfDataCenters(dcs) && hosts == HostsOfRacks(racks)
    ensures TablesDescribe(dcs, racks, hosts, RackTable(dcs), HostTable(racks), DiskTable(racks, hosts))
  {
    var disksOf := DiskTable(racks, hosts);
    forall r | r in racks ensures OnRack(r) in disksOf && disksOf[OnRack(r)] == r.disks.Values { }
    forall h | h in hosts ensures OnHost(h) in disksOf && disksOf[OnHost(h)] == h.disks.Values { }
  }

  /** The racks of the tree are the racks the rack table lists. */
  lemma RacksSpan(dcs: set<PhysicalDataCenter>, racks: set<PhysicalRack>)
    requires racks == RacksOfDataCenters(dcs)
    ensures var racksOf := RackTable(dcs); racks == (set dc, r | dc in dcs && dc in racksOf && r in racksOf[dc] :: r)
  {
    var racksOf := RackTable(dcs);
    forall r | r in racks ensures exists dc :: dc in dcs && dc in racksOf && r in racksOf[dc] {
      var dc :| dc in dcs && r in dc.racks.Values;
      assert dc in racksOf && r in racksOf[dc];
    }
  }

  /** The hosts of the tree are the hosts the host table lists. */
  lemma HostsSpan(racks: set<PhysicalRack>, hosts: set<PhysicalHost>)
    requires hosts == HostsOfRacks(racks)
    ensures var hostsOf := HostTable(racks); hosts == (set r, h | r in racks && r in hostsOf && h in hostsOf[r] :: h)
  {
    var hostsOf := HostTable(racks);
    forall h | h in hosts ensures exists r :: r in racks && r in hostsOf && h in hostsOf[r] {
      var r :| r in racks && h in r.cpus.Values;
      assert r in hostsOf && h in hostsOf[r];
    }
  }

  /** The disks of the tree are the disks the disk table lists. */
  lemma StoresSpan(racks: set<PhysicalRack>, hosts: set<PhysicalHost>, stores: set<PhysicalStore>)
    requires stores == DisksOfRacks(racks) + DisksOfHosts(hosts)
    ensures var disksOf := DiskTable(racks, hosts); stores == (set o, s | o in disksOf && s in disksOf[o] :: s)
  {
    var disksOf := DiskTable(racks, hosts);
    forall s | s in stores ensures exists o :: o in disksOf && s in disksOf[o] {
      if s in DisksOfRacks(racks) {
        var r :| r in racks && s in r.disks.Values;
        assert OnRack(r) in disksOf && s in disksOf[OnRack(r)];
      } else {
        var h :| h in hosts && s in h.disks.Values;
        assert OnHost(h) in disksOf && s in disksOf[OnHost(h)];
      }
    }
    forall o, s | o in disksOf && s in disksOf[o] ensures s in stores {
      if o.OnRack? {
        assert s in o.rack.disks.Values;
      } else {
        assert s in o.host.disks.Values;
      }
    }
  }

  /** The facts the walk over the tree starts from, for the tables of the tree as it is. */
  lemma Prepare(root: PhysicalRoot, dcs: set<PhysicalDataCenter>, racks: set<PhysicalRack>,
                hosts: set<PhysicalHost>, stores: set<PhysicalStore>)
    requires Nodes(root, dcs, racks, hosts, stores)
    ensures RootReady(root, map[root := dcs], RackTable(dcs), HostTable(racks), DiskTable(racks, hosts), dcs, racks, hosts, stores)
    ensures TablesDescribe(dcs, racks, hosts, RackTable(dcs), HostTable(racks), DiskTable(racks, hosts))
    ensures Spans(dcs, racks, hosts, stores, RackTable(dcs), HostTable(racks), DiskTable(racks, hosts))
  {
    TablesDescribeTree(dcs, racks, hosts);
    TablesExact(dcs, racks, hosts, RackTable(dcs), HostTable(racks), DiskTable(racks, hosts));
    TablesWithin(root, dcs, racks, hosts, stores);
    RacksSpan(dcs, racks);
    HostsSpan(racks, hosts);
    StoresSpan(racks, hosts, stores);
  }

  /** Once every node is linked and covered, every node's parent holds it. */
  lemma Conclude(root: PhysicalRoot, dcs: set<PhysicalDataCenter>, racks: set<PhysicalRack>, hosts: set<PhysicalHost>, stores: set<PhysicalStore>,
                 racksOf: RacksOf, hostsOf: HostsOf, disksOf: DisksOf,
                 D: set<PhysicalDataCenter>, R: set<PhysicalRack>, H: set<PhysicalHost>, S: set<PhysicalStore>)
    requires Spans(dcs, racks, hosts, stores, racksOf, hostsOf, disksOf)
    requires TablesDescribe(dcs, racks, hosts, racksOf, hostsOf, disksOf)
    requires Walked(root, map[root := dcs], racksOf, hostsOf, disksOf, D, R, H, S)
    ensures ParentsHeld(root, dcs, racks, hosts, stores)
  {
    CoveredRacks(dcs, racks, racksOf, hostsOf, disksOf, D, R, H, S);
    CoveredHosts(racks, hosts, hostsOf, disksOf, R, H, S);
    CoveredStores(racks, hosts, stores, hostsOf, disksOf, R, H, S);
    LinkedHeld(dcs, racks, hosts, racksOf, hostsOf, disksOf, R, H, S);
  }

}
