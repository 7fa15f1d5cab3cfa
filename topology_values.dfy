/**
 * The physical topology as a value: a root holds data centers, a data center
 * racks, a rack hosts and rack-level disks, a host its own disks. Every level
 * keys its children by their identifier. The structural merge of
 * PhysicalTopology is specified here on these values, first argument
 * winning; module TopologyMerge ties its merge methods to these functions
 * (the value of a merged host, and of a merged rack's disks, is the merge
 * computed here), so the lemmas below hold of them.
 */
module TopologyValues {
  import opened Wrappers
  import opened JavaLang

  datatype StoreV = StoreV(id: string, capacity: int64, used: int64)
  datatype HostV = HostV(id: string, cpuUsage: real, memUsage: real, disks: map<string, StoreV>)
  datatype RackV = RackV(id: string, hosts: map<string, HostV>, disks: map<string, StoreV>)
  datatype DataCenterV = DataCenterV(id: string, racks: map<string, RackV>)
  datatype RootV = RootV(id: string, dataCenters: map<string, DataCenterV>)

  // ---------------------------------------------------------------- lookup

  function Lookup<T>(m: map<string, T>, k: string): (r: Option<T>)
    ensures r.Some? <==> k in m
    ensures r.Some? ==> r.value == m[k]
  {
    if k in m then Some(m[k]) else None
  }

  function DataCenterAt(t: RootV, d: string): Option<DataCenterV>
  {
    Lookup(t.dataCenters, d)
  }

  function RackAt(t: RootV, d: string, r: string): Option<RackV>
  {
    match DataCenterAt(t, d)
    case None => None
    case Some(dc) => Lookup(dc.racks, r)
  }

  function HostAt(t: RootV, d: string, r: string, h: string): Option<HostV>
  {
    match RackAt(t, d, r)
    case None => None
    case Some(rack) => Lookup(rack.hosts, h)
  }

  function RackDiskAt(t: RootV, d: string, r: string, s: string): Option<StoreV>
  {
    match RackAt(t, d, r)
    case None => None
    case Some(rack) => Lookup(rack.disks, s)
  }

  function HostDiskAt(t: RootV, d: string, r: string, h: string, s: string): Option<StoreV>
  {
    match HostAt(t, d, r, h)
    case None => None
    case Some(host) => Lookup(host.disks, s)
  }

  // ---------------------------------------------------------------- merge

  /**
   * The children of `first`, each merged with the same-id child of `second`
   * when there is one, plus the children only `second` has.
   */
  function MergeMaps<T>(first: map<string, T>, second: map<string, T>, merge: (T, T) -> T): map<string, T>
  {
    map k | k in first.Keys + second.Keys ::
      if k in first && k in second then merge(first[k], second[k])
      else if k in first then first[k]
      else second[k]
  }

  /** A disk present on both sides is taken from the first. */
  function KeepFirst(one: StoreV, two: StoreV): StoreV
  {
    one
  }

  function MergeHost(one: HostV, two: HostV): HostV
  {
    one.(disks := MergeMaps(one.disks, two.disks, KeepFirst))
  }

  function MergeRack(one: RackV, two: RackV): RackV
  {
    one.(hosts := MergeMaps(one.hosts, two.hosts, MergeHost),
         disks := MergeMaps(one.disks, two.disks, KeepFirst))
  }

  function MergeDataCenter(one: DataCenterV, two: DataCenterV): DataCenterV
  {
    one.(racks := MergeMaps(one.racks, two.racks, MergeRack))
  }

  /** Roots with different identifiers do not merge: the first is kept. */
  function MergeRoot(one: RootV, two: RootV): RootV
  {
    if one.id != two.id then one
    else one.(dataCenters := MergeMaps(one.dataCenters, two.dataCenters, MergeDataCenter))
  }

  // ---------------------------------------------------------------- extension order

  /** `big` has every entry of `small`, unchanged. */
  ghost predicate SubMap<T>(small: map<string, T>, big: map<string, T>)
  {
    forall k :: k in small ==> k in big && big[k] == small[k]
  }

  /** `big` is `small` with possibly more disks. */
  ghost predicate ExtendsHost(big: HostV, small: HostV)
  {
    big.id == small.id && big.cpuUsage == small.cpuUsage && big.memUsage == small.memUsage
    && SubMap(small.disks, big.disks)
  }

  ghost predicate ExtendsRack(big: RackV, small: RackV)
  {
    big.id == small.id
    && (forall k :: k in small.hosts ==> k in big.hosts && ExtendsHost(big.hosts[k], small.hosts[k]))
    && SubMap(small.disks, big.disks)
  }

  ghost predicate ExtendsDataCenter(big: DataCenterV, small: DataCenterV)
  {
    big.id == small.id
    && (forall k :: k in small.racks ==> k in big.racks && ExtendsRack(big.racks[k], small.racks[k]))
  }

  /** Every node of `small` is in `big`, with the same scalar fields. */
  ghost predicate ExtendsRoot(big: RootV, small: RootV)
  {
    big.id == small.id
    && (forall k :: k in small.dataCenters ==>
          k in big.dataCenters && ExtendsDataCenter(big.dataCenters[k], small.dataCenters[k]))
  }

  // ---------------------------------------------------------------- lemmas on MergeMaps

  lemma MergeMapsSelf<T>(m: map<string, T>, merge: (T, T) -> T)
    requires forall k :: k in m ==> merge(m[k], m[k]) == m[k]
    ensures MergeMaps(m, m, merge) == m
  {
  }

  lemma MergeMapsAbsorbs<T>(big: map<string, T>, small: map<string, T>, merge: (T, T) -> T)
    requires forall k :: k in small ==> k in big && merge(big[k], small[k]) == big[k]
    ensures MergeMaps(big, small, merge) == big
  {
  }

  lemma MergeMapsAbsorbed<T>(small: map<string, T>, big: map<string, T>, merge: (T, T) -> T)
    requires forall k :: k in small ==> k in big && merge(small[k], big[k]) == big[k]
    ensures MergeMaps(small, big, merge) == big
  {
  }

  /** The entries of `m` under the keys of `keys`: the part of a map a loop has handled so far. */
  function Only<T>(m: map<string, T>, keys: set<string>): (r: map<string, T>)
    ensures r.Keys == m.Keys * keys && forall k :: k in r ==> r[k] == m[k]
  {
    map k | k in m && k in keys :: m[k]
  }

  /** Merging in nothing of the second map leaves the first. */
  lemma MergeMapsNone<T>(first: map<string, T>, second: map<string, T>, merge: (T, T) -> T)
    ensures MergeMaps(first, Only(second, {}), merge) == first
  {
  }

  /** Merging in every key of the second map is merging in the map. */
  lemma MergeMapsAll<T>(first: map<string, T>, second: map<string, T>, merge: (T, T) -> T)
    ensures MergeMaps(first, Only(second, second.Keys), merge) == MergeMaps(first, second, merge)
  {
    assert Only(second, second.Keys) == second;
  }

  /**
   * Merging in one more key of the second map changes the merge at that key
   * only: to the merge of both entries, or to the second's entry when the
   * first map lacks the key.
   */
  lemma {:induction false} MergeMapsStep<T>(first: map<string, T>, second: map<string, T>, seen: set<string>, key: string,
                                            merge: (T, T) -> T)
    requires key in second
    ensures MergeMaps(first, Only(second, seen + {key}), merge)
      == MergeMaps(first, Only(second, seen), merge)[key := if key in first then merge(first[key], second[key]) else second[key]]
  {
    var after, before := MergeMaps(first, Only(second, seen + {key}), merge), MergeMaps(first, Only(second, seen), merge);
    var next := before[key := if key in first then merge(first[key], second[key]) else second[key]];
    assert after.Keys == next.Keys;
    forall k | k in after ensures after[k] == next[k] {
    }
  }

  // ---------------------------------------------------------------- merge keeps the first tree

  lemma MergeHostExtends(one: HostV, two: HostV)
    ensures ExtendsHost(MergeHost(one, two), one)
  {
  }

  lemma MergeRackExtends(one: RackV, two: RackV)
    ensures ExtendsRack(MergeRack(one, two), one)
  {
    var m := MergeRack(one, two);
    forall k | k in one.hosts
      ensures k in m.hosts && ExtendsHost(m.hosts[k], one.hosts[k])
    {
      if k in two.hosts {
        MergeHostExtends(one.hosts[k], two.hosts[k]);
      }
    }
  }

  lemma MergeDataCenterExtends(one: DataCenterV, two: DataCenterV)
    ensures ExtendsDataCenter(MergeDataCenter(one, two), one)
  {
    var m := MergeDataCenter(one, two);
    forall k | k in one.racks
      ensures k in m.racks && ExtendsRack(m.racks[k], one.racks[k])
    {
      if k in two.racks {
        MergeRackExtends(one.racks[k], two.racks[k]);
      } else {
        ExtendsRackRefl(one.racks[k]);
      }
    }
  }

  /**
   * Every node of the first tree survives a merge, keeping the first tree's
   * cpu/mem usage and disk capacity/used.
   */
  lemma MergeRootExtends(one: RootV, two: RootV)
    ensures ExtendsRoot(MergeRoot(one, two), one)
  {
    var m := MergeRoot(one, two);
    forall k | k in one.dataCenters
      ensures k in m.dataCenters && ExtendsDataCenter(m.dataCenters[k], one.dataCenters[k])
    {
      if one.id == two.id && k in two.dataCenters {
        MergeDataCenterExtends(one.dataCenters[k], two.dataCenters[k]);
      } else {
        ExtendsDataCenterRefl(one.dataCenters[k]);
      }
    }
  }

  lemma ExtendsRackRefl(r: RackV)
    ensures ExtendsRack(r, r)
  {
  }

  lemma ExtendsDataCenterRefl(d: DataCenterV)
    ensures ExtendsDataCenter(d, d)
  {
    forall k | k in d.racks ensures ExtendsRack(d.racks[k], d.racks[k]) {
      ExtendsRackRefl(d.racks[k]);
    }
  }

  // ---------------------------------------------------------------- union of nodes

  /**
   * With equal root identifiers, the merged tree has a node at a path iff
   * one of the inputs has; a node only the second input has is taken from it
   * unchanged.
   */
  lemma MergeRootNodes(one: RootV, two: RootV, d: string, r: string, h: string, s: string)
    requires one.id == two.id
    ensures var m := MergeRoot(one, two);
      && (DataCenterAt(m, d).Some? <==> DataCenterAt(one, d).Some? || DataCenterAt(two, d).Some?)
      && (RackAt(m, d, r).Some? <==> RackAt(one, d, r).Some? || RackAt(two, d, r).Some?)
      && (HostAt(m, d, r, h).Some? <==> HostAt(one, d, r, h).Some? || HostAt(two, d, r, h).Some?)
      && (RackDiskAt(m, d, r, s).Some? <==> RackDiskAt(one, d, r, s).Some? || RackDiskAt(two, d, r, s).Some?)
      && (HostDiskAt(m, d, r, h, s).Some? <==> HostDiskAt(one, d, r, h, s).Some? || HostDiskAt(two, d, r, h, s).Some?)
    ensures var m := MergeRoot(one, two);
      && (DataCenterAt(one, d).None? ==> DataCenterAt(m, d) == DataCenterAt(two, d))
      && (RackAt(one, d, r).None? ==> RackAt(m, d, r) == RackAt(two, d, r))
      && (HostAt(one, d, r, h).None? ==> HostAt(m, d, r, h) == HostAt(two, d, r, h))
      && (RackDiskAt(one, d, r, s).None? ==> RackDiskAt(m, d, r, s) == RackDiskAt(two, d, r, s))
      && (HostDiskAt(one, d, r, h, s).None? ==> HostDiskAt(m, d, r, h, s) == HostDiskAt(two, d, r, h, s))
  {
  }

  // ---------------------------------------------------------------- absorption

  lemma MergeHostAbsorbs(big: HostV, small: HostV)
    requires ExtendsHost(big, small)
    ensures MergeHost(big, small) == big
    ensures MergeHost(small, big) == big
  {
    MergeMapsAbsorbs(big.disks, small.disks, KeepFirst);
    MergeMapsAbsorbed(small.disks, big.disks, KeepFirst);
  }

  lemma MergeRackAbsorbs(big: RackV, small: RackV)
    requires ExtendsRack(big, small)
    ensures MergeRack(big, small) == big
    ensures MergeRack(small, big) == big
  {
    forall k | k in small.hosts
      ensures MergeHost(big.hosts[k], small.hosts[k]) == big.hosts[k]
      ensures MergeHost(small.hosts[k], big.hosts[k]) == big.hosts[k]
    {
      MergeHostAbsorbs(big.hosts[k], small.hosts[k]);
    }
    MergeMapsAbsorbs(big.hosts, small.hosts, MergeHost);
    MergeMapsAbsorbed(small.hosts, big.hosts, MergeHost);
    MergeMapsAbsorbs(big.disks, small.disks, KeepFirst);
    MergeMapsAbsorbed(small.disks, big.disks, KeepFirst);
  }

  lemma MergeDataCenterAbsorbs(big: DataCenterV, small: DataCenterV)
    requires ExtendsDataCenter(big, small)
    ensures MergeDataCenter(big, small) == big
    ensures MergeDataCenter(small, big) == big
  {
    forall k | k in small.racks
      ensures MergeRack(big.racks[k], small.racks[k]) == big.racks[k]
      ensures MergeRack(small.racks[k], big.racks[k]) == big.racks[k]
    {
      MergeRackAbsorbs(big.racks[k], small.racks[k]);
    }
    MergeMapsAbsorbs(big.racks, small.racks, MergeRack);
    MergeMapsAbsorbed(small.racks, big.racks, MergeRack);
  }

  /**
   * Merging a tree that has nothing new changes nothing, in either order:
   * merging a subset into a superset (or the reverse) yields the superset,
   * and merging with a tree holding only the same root yields the other tree.
   */
  lemma MergeRootAbsorbs(big: RootV, small: RootV)
    requires ExtendsRoot(big, small)
    ensures MergeRoot(big, small) == big
    ensures MergeRoot(small, big) == big
  {
    forall k | k in small.dataCenters
      ensures MergeDataCenter(big.dataCenters[k], small.dataCenters[k]) == big.dataCenters[k]
      ensures MergeDataCenter(small.dataCenters[k], big.dataCenters[k]) == big.dataCenters[k]
    {
      MergeDataCenterAbsorbs(big.dataCenters[k], small.dataCenters[k]);
    }
    MergeMapsAbsorbs(big.dataCenters, small.dataCenters, MergeDataCenter);
    MergeMapsAbsorbed(small.dataCenters, big.dataCenters, MergeDataCenter);
  }

  /** A tree merged with itself is unchanged. */
  lemma MergeRootIdempotent(t: RootV)
    ensures MergeRoot(t, t) == t
  {
    forall k | k in t.dataCenters ensures ExtendsDataCenter(t.dataCenters[k], t.dataCenters[k]) {
      ExtendsDataCenterRefl(t.dataCenters[k]);
    }
    MergeRootAbsorbs(t, t);
  }

  /** A tree with only a root extends to any tree with the same root identifier. */
  lemma MergeWithEmpty(id: string, t: RootV)
    requires t.id == id
    ensures MergeRoot(RootV(id, map[]), t) == t
    ensures MergeRoot(t, RootV(id, map[])) == t
  {
    MergeRootAbsorbs(t, RootV(id, map[]));
  }
}
