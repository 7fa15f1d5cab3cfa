/**
 * The builders of the topology entities. Each collects an identifier (which
 * `build` requires), the entity's scalar fields and parent, and its children
 * keyed by identifier with the last put winning; `build` hands everything to
 * the entity's plain constructor and then resets the builder. The Java
 * inheritance chain (resource builder, resource-with-disks builder, concrete
 * builder) becomes composition: each concrete builder holds the builder of
 * the level above as a constant field.
 */
module TopologyBuilders {
  import opened Wrappers
  import opened JavaLang
  import opened ErrorChecker
  import opened Topology

  /** The name `withUuid` and `build` report the identifier under. */
  const UuidName := "uuid"

  // ---------------------------------------------------------------- lists with nulls

  /** The length of the longest prefix of `list` without a `null`. */
  function NonNullPrefix(list: seq<object?>): (n: nat)
    ensures n <= |list|
    ensures forall i :: 0 <= i < n ==> list[i] != null
    ensures n < |list| ==> list[n] == null
  {
    if list == [] then 0 else if list[0] == null then 0 else 1 + NonNullPrefix(list[1..])
  }

  /** The map after `m.put(key(x), x)` for each `x` of `xs`, in order. */
  ghost function PutEach<T>(m: map<string, T>, xs: seq<T>, key: T -> string): map<string, T>
  {
    if xs == [] then m else PutEach(m, xs[..|xs| - 1], key)[key(xs[|xs| - 1]) := xs[|xs| - 1]]
  }

  /**
   * Last write wins: the keys are those of `m` and of the put elements; a put
   * element that no later element overwrites sits under its key; an entry of
   * `m` that no element overwrites stays.
   */
  lemma {:induction false} PutEachLast<T>(m: map<string, T>, xs: seq<T>, key: T -> string)
    ensures forall k :: k in PutEach(m, xs, key) <==> k in m || exists i :: 0 <= i < |xs| && key(xs[i]) == k
    ensures forall i :: 0 <= i < |xs| && (forall j :: i < j < |xs| ==> key(xs[j]) != key(xs[i])) ==>
      PutEach(m, xs, key)[key(xs[i])] == xs[i]
    ensures forall k :: k in m && (forall i :: 0 <= i < |xs| ==> key(xs[i]) != k) ==> PutEach(m, xs, key)[k] == m[k]
  {
    if xs != [] {
      var n := |xs| - 1;
      PutEachLast(m, xs[..n], key);
      assert forall i :: 0 <= i < n ==> xs[..n][i] == xs[i];
    }
  }

  /** One more put at the end. */
  lemma PutEachSnoc<T>(m: map<string, T>, xs: seq<T>, x: T, key: T -> string)
    ensures PutEach(m, xs + [x], key) == PutEach(m, xs, key)[key(x) := x]
  {
    assert (xs + [x])[..|xs|] == xs;
  }

  function StoreKey(s: PhysicalStore): string { s.id }
  function HostKey(h: PhysicalHost): string { h.id }
  function RackKey(r: PhysicalRack): string { r.id }
  function DataCenterKey(dc: PhysicalDataCenter): string { dc.id }

  // ---------------------------------------------------------------- PhysicalResourceBuilder

  /** PhysicalResourceBuilder: the identifier every entity builder collects. */
  class ResourceBuilder {
    var uuid: Option<string>

    constructor ()
      ensures uuid == None
    {
      uuid := None;
    }

    /** `reset`: the identifier is unset. */
    method Reset()
      modifies this`uuid
      ensures uuid == None
    {
      uuid := None;
    }

    /** `withUuid`: a `null` identifier is refused and leaves the previous one in place. */
    method WithUuid(uuid: Option<string>) returns (r: Outcome<Error>)
      modifies this`uuid
      ensures r.Fail? <==> uuid.None?
      ensures r.Fail? ==> r.error == IllegalArgument(ArgumentMessage(UuidName)) && this.uuid == old(this.uuid)
      ensures r.Pass? ==> this.uuid == uuid
    {
      r := ThrowIfNullArgument(uuid, UuidName);
      if r.Fail? {
        return;
      }
      this.uuid := uuid;
    }

    /** `build`'s check that an identifier was set. */
    function CheckSet(): (r: Outcome<Error>)
      reads this
      ensures r.Fail? <==> uuid.None?
      ensures r.Fail? ==> r.error == IllegalState(StateMessage(UuidName))
    {
      ThrowIfNotSet(uuid, UuidName)
    }
  }

  // ---------------------------------------------------------------- PhysicalResourceWithDisksBuilder

  /** PhysicalResourceWithDisksBuilder: an identifier and a disk map. */
  class DisksBuilder {
    const ids: ResourceBuilder
    var disks: map<string, PhysicalStore>

    /** A blank builder (the Java subclasses call `reset` from their constructors). */
    constructor ()
      ensures fresh(ids) && ids.uuid == None && disks == map[]
    {
      ids := new ResourceBuilder();
      disks := map[];
    }

    /** `reset`: the identifier is unset and the disk map is a new empty one. */
    method Reset()
      modifies this`disks, ids`uuid
      ensures ids.uuid == None && disks == map[]
    {
      ids.Reset();
      disks := map[];
    }

    /** `withDisk`: a `null` disk is refused; otherwise it is put (itself, not a copy) under its identifier. */
    method WithDisk(disk: PhysicalStore?) returns (r: Outcome<Error>)
      modifies this`disks
      ensures r.Fail? <==> disk == null
      ensures r.Fail? ==> r.error == IllegalArgument(ArgumentMessage("disk")) && disks == old(disks)
      ensures r.Pass? ==> disk != null && disks == old(disks)[disk.id := disk]
    {
      r := ThrowIfNullArgument(Ref(disk), "disk");
      if r.Fail? {
        return;
      }
      disks := disks[disk.id := disk];
    }

    /**
     * `withDisks`: a `null` list is refused; otherwise `withDisk` for each
     * element in order, so a `null` element fails after the elements before
     * it were put.
     */
    method WithDisks(list: Option<seq<PhysicalStore?>>) returns (r: Outcome<Error>)
      modifies this`disks
      ensures list.None? ==> r == Fail(IllegalArgument(ArgumentMessage("disks"))) && disks == old(disks)
      ensures list.Some? ==> (r.Fail? <==> NonNullPrefix(list.value) < |list.value|)
      ensures list.Some? && r.Fail? ==> r.error == IllegalArgument(ArgumentMessage("disk"))
      ensures list.Some? ==> disks == PutEach<PhysicalStore>(old(disks), list.value[..NonNullPrefix(list.value)], StoreKey)
    {
      r := ThrowIfNullArgument(list, "disks");
      if r.Fail? {
        return;
      }
      var xs := list.value;
      ghost var n := NonNullPrefix(xs);
      for i := 0 to |xs|
        invariant i <= n && r == Pass
        invariant disks == PutEach<PhysicalStore>(old(disks), xs[..i], StoreKey)
      {
        r := WithDisk(xs[i]);
        if r.Fail? {
          assert i == n;
          return;
        }
        PutEachSnoc<PhysicalStore>(old(disks), xs[..i], xs[i], StoreKey);
        assert xs[..i + 1] == xs[..i] + [xs[i]];
      }
      assert xs[..|xs|] == xs;
    }
  }

  // ---------------------------------------------------------------- PhysicalRootBuilder

  /** PhysicalRootBuilder: an identifier and the data centers collected so far. */
  class RootBuilder {
    const ids: ResourceBuilder
    var dcs: map<string, PhysicalDataCenter>

    /** What `reset` leaves: no identifier, no data centers. */
    ghost predicate Blank()
      reads this, ids
    {
      ids.uuid == None && dcs == map[]
    }

    constructor ()
      ensures fresh(ids) && Blank()
    {
      ids := new ResourceBuilder();
      dcs := map[];
    }

    method Reset()
      modifies this`dcs, ids`uuid
      ensures Blank()
    {
      ids.Reset();
      dcs := map[];
    }

    /** `withDataCenter`: a `null` argument is refused; otherwise it is put (itself, not a copy) under its identifier. */
    method WithDataCenter(x: PhysicalDataCenter?) returns (r: Outcome<Error>)
      modifies this`dcs
      ensures r.Fail? <==> x == null
      ensures r.Fail? ==> r.error == IllegalArgument(ArgumentMessage("dc")) && dcs == old(dcs)
      ensures r.Pass? ==> x != null && dcs == old(dcs)[x.id := x]
    {
      r := ThrowIfNullArgument(Ref(x), "dc");
      if r.Fail? {
        return;
      }
      dcs := dcs[x.id := x];
    }

    /**
     * `withDataCenters`: a `null` list is refused; otherwise `withDataCenter` for each
     * element in order, so a `null` element fails after the elements before
     * it were put.
     */
    method WithDataCenters(list: Option<seq<PhysicalDataCenter?>>) returns (r: Outcome<Error>)
      modifies this`dcs
      ensures list.None? ==> r == Fail(IllegalArgument(ArgumentMessage("dcs"))) && dcs == old(dcs)
      ensures list.Some? ==> (r.Fail? <==> NonNullPrefix(list.value) < |list.value|)
      ensures list.Some? && r.Fail? ==> r.error == IllegalArgument(ArgumentMessage("dc"))
      ensures list.Some? ==> dcs == PutEach<PhysicalDataCenter>(old(dcs), list.value[..NonNullPrefix(list.value)], DataCenterKey)
    {
      r := ThrowIfNullArgument(list, "dcs");
      if r.Fail? {
        return;
      }
      var xs := list.value;
      ghost var n := NonNullPrefix(xs);
      for i := 0 to |xs|
        invariant i <= n && r == Pass
        invariant dcs == PutEach<PhysicalDataCenter>(old(dcs), xs[..i], DataCenterKey)
      {
        r := WithDataCenter(xs[i]);
        if r.Fail? {
          assert i == n;
          return;
        }
        PutEachSnoc<PhysicalDataCenter>(old(dcs), xs[..i], xs[i], DataCenterKey);
        assert xs[..i + 1] == xs[..i] + [xs[i]];
      }
      assert xs[..|xs|] == xs;
    }

    /**
     * `build`: refused with a state error while no identifier is set (nothing
     * changes then); otherwise a new root with the identifier and exactly the
     * collected data centers, after which the builder is blank again.
     */
    method Build() returns (r: Result<PhysicalRoot, Error>)
      modifies this`dcs, ids`uuid
      ensures r.Err? <==> old(ids.uuid).None?
      ensures r.Err? ==> r.error == IllegalState(StateMessage(UuidName)) && ids.uuid == old(ids.uuid) && dcs == old(dcs)
      ensures r.Ok? ==> fresh(r.value) && r.value.id == old(ids.uuid).value && r.value.dataCenters == old(dcs) && Blank()
    {
      var check := ids.CheckSet();
      if check.Fail? {
        return Err(check.error);
      }
      var res := new PhysicalRoot(ids.uuid.value, dcs);
      Reset();
      return Ok(res);
    }
  }

  // ---------------------------------------------------------------- PhysicalDataCenterBuilder

  /** PhysicalDataCenterBuilder: an identifier, a parent and the racks collected so far. */
  class DataCenterBuilder {
    const ids: ResourceBuilder
    var parent: PhysicalRoot?
    var racks: map<string, PhysicalRack>

    /** What `reset` leaves: no identifier, no parent, no racks. */
    ghost predicate Blank()
      reads this, ids
    {
      ids.uuid == None && parent == null && racks == map[]
    }

    constructor ()
      ensures fresh(ids) && Blank()
    {
      ids := new ResourceBuilder();
      parent, racks := null, map[];
    }

    method Reset()
      modifies this`parent, this`racks, ids`uuid
      ensures Blank()
    {
      ids.Reset();
      parent, racks := null, map[];
    }

    /** `withParent`: any parent, `null` included, is taken as it is. */
    method WithParent(p: PhysicalRoot?)
      modifies this`parent
      ensures parent == p
    {
      parent := p;
    }

    /** `withRack`: a `null` argument is refused; otherwise it is put (itself, not a copy) under its identifier. */
    method WithRack(x: PhysicalRack?) returns (r: Outcome<Error>)
      modifies this`racks
      ensures r.Fail? <==> x == null
      ensures r.Fail? ==> r.error == IllegalArgument(ArgumentMessage("rack")) && racks == old(racks)
      ensures r.Pass? ==> x != null && racks == old(racks)[x.id := x]
    {
      r := ThrowIfNullArgument(Ref(x), "rack");
      if r.Fail? {
        return;
      }
      racks := racks[x.id := x];
    }

    /**
     * `withRacks`: a `null` list is refused; otherwise `withRack` for each
     * element in order, so a `null` element fails after the elements before
     * it were put.
     */
    method WithRacks(list: Option<seq<PhysicalRack?>>) returns (r: Outcome<Error>)
      modifies this`racks
      ensures list.None? ==> r == Fail(IllegalArgument(ArgumentMessage("racks"))) && racks == old(racks)
      ensures list.Some? ==> (r.Fail? <==> NonNullPrefix(list.value) < |list.value|)
      ensures list.Some? && r.Fail? ==> r.error == IllegalArgument(ArgumentMessage("rack"))
      ensures list.Some? ==> racks == PutEach<PhysicalRack>(old(racks), list.value[..NonNullPrefix(list.value)], RackKey)
    {
      r := ThrowIfNullArgument(list, "racks");
      if r.Fail? {
        return;
      }
      var xs := list.value;
      ghost var n := NonNullPrefix(xs);
      for i := 0 to |xs|
        invariant i <= n && r == Pass
        invariant racks == PutEach<PhysicalRack>(old(racks), xs[..i], RackKey)
      {
        r := WithRack(xs[i]);
        if r.Fail? {
          assert i == n;
          return;
        }
        PutEachSnoc<PhysicalRack>(old(racks), xs[..i], xs[i], RackKey);
        assert xs[..i + 1] == xs[..i] + [xs[i]];
      }
      assert xs[..|xs|] == xs;
    }

    /**
     * `build`: refused with a state error while no identifier is set (nothing
     * changes then); otherwise a new data center with the identifier, the
     * parent and exactly the collected racks, after which the builder is
     * blank again.
     */
    method Build() returns (r: Result<PhysicalDataCenter, Error>)
      modifies this`parent, this`racks, ids`uuid
      ensures r.Err? <==> old(ids.uuid).None?
      ensures r.Err? ==> r.error == IllegalState(StateMessage(UuidName)) && ids.uuid == old(ids.uuid)
      ensures r.Err? ==> parent == old(parent) && racks == old(racks)
      ensures r.Ok? ==> fresh(r.value) && r.value.id == old(ids.uuid).value && Blank()
      ensures r.Ok? ==> r.value.parent == old(parent) && r.value.racks == old(racks)
    {
      var check := ids.CheckSet();
      if check.Fail? {
        return Err(check.error);
      }
      var res := new PhysicalDataCenter(ids.uuid.value, parent, racks);
      Reset();
      return Ok(res);
    }
  }

  // ---------------------------------------------------------------- PhysicalRackBuilder

  /** PhysicalRackBuilder: an identifier and disks (from the disk builder), a parent and the hosts collected so far. */
  class RackBuilder {
    const base: DisksBuilder
    var parent: PhysicalDataCenter?
    var cpus: map<string, PhysicalHost>

    /** What `reset` leaves: no identifier, no disks, no parent, no hosts. */
    ghost predicate Blank()
      reads this, base, base.ids
    {
      base.ids.uuid == None && base.disks == map[] && parent == null && cpus == map[]
    }

    constructor ()
      ensures fresh(base) && fresh(base.ids) && Blank()
    {
      base := new DisksBuilder();
      parent, cpus := null, map[];
    }

    method Reset()
      modifies this`parent, this`cpus, base`disks, base.ids`uuid
      ensures Blank()
    {
      base.Reset();
      parent, cpus := null, map[];
    }

    /** `withParent`: any parent, `null` included, is taken as it is. */
    method WithParent(p: PhysicalDataCenter?)
      modifies this`parent
      ensures parent == p
    {
      parent := p;
    }

    /** `withHost`: a `null` argument is refused; otherwise it is put (itself, not a copy) under its identifier. */
    method WithHost(x: PhysicalHost?) returns (r: Outcome<Error>)
      modifies this`cpus
      ensures r.Fail? <==> x == null
      ensures r.Fail? ==> r.error == IllegalArgument(ArgumentMessage("cpu")) && cpus == old(cpus)
      ensures r.Pass? ==> x != null && cpus == old(cpus)[x.id := x]
    {
      r := ThrowIfNullArgument(Ref(x), "cpu");
      if r.Fail? {
        return;
      }
      cpus := cpus[x.id := x];
    }

    /**
     * `withHosts`: a `null` list is refused; otherwise `withHost` for each
     * element in order, so a `null` element fails after the elements before
     * it were put.
     */
    method WithHosts(list: Option<seq<PhysicalHost?>>) returns (r: Outcome<Error>)
      modifies this`cpus
      ensures list.None? ==> r == Fail(IllegalArgument(ArgumentMessage("cpus"))) && cpus == old(cpus)
      ensures list.Some? ==> (r.Fail? <==> NonNullPrefix(list.value) < |list.value|)
      ensures list.Some? && r.Fail? ==> r.error == IllegalArgument(ArgumentMessage("cpu"))
      ensures list.Some? ==> cpus == PutEach<PhysicalHost>(old(cpus), list.value[..NonNullPrefix(list.value)], HostKey)
    {
      r := ThrowIfNullArgument(list, "cpus");
      if r.Fail? {
        return;
      }
      var xs := list.value;
      ghost var n := NonNullPrefix(xs);
      for i := 0 to |xs|
        invariant i <= n && r == Pass
        invariant cpus == PutEach<PhysicalHost>(old(cpus), xs[..i], HostKey)
      {
        r := WithHost(xs[i]);
        if r.Fail? {
          assert i == n;
          return;
        }
        PutEachSnoc<PhysicalHost>(old(cpus), xs[..i], xs[i], HostKey);
        assert xs[..i + 1] == xs[..i] + [xs[i]];
      }
      assert xs[..|xs|] == xs;
    }

    /**
     * `build`: refused with a state error while no identifier is set (nothing
     * changes then); otherwise a new rack with the identifier, the parent,
     * exactly the collected hosts and the collected disks, after which the
     * builder is blank again.
     */
    method Build() returns (r: Result<PhysicalRack, Error>)
      modifies this`parent, this`cpus, base`disks, base.ids`uuid
      ensures r.Err? <==> old(base.ids.uuid).None?
      ensures r.Err? ==> r.error == IllegalState(StateMessage(UuidName)) && base.ids.uuid == old(base.ids.uuid)
      ensures r.Err? ==> parent == old(parent) && cpus == old(cpus) && base.disks == old(base.disks)
      ensures r.Ok? ==> fresh(r.value) && r.value.id == old(base.ids.uuid).value && Blank()
      ensures r.Ok? ==> r.value.parent == old(parent) && r.value.cpus == old(cpus) && r.value.disks == old(base.disks)
    {
      var check := base.ids.CheckSet();
      if check.Fail? {
        return Err(check.error);
      }
      var res := new PhysicalRack(base.ids.uuid.value, parent, cpus, base.disks);
      Reset();
      return Ok(res);
    }
  }

  // ---------------------------------------------------------------- PhysicalHostBuilder

  /** PhysicalHostBuilder: an identifier and disks (from the disk builder), a parent and the usage figures. */
  class HostBuilder {
    const base: DisksBuilder
    var parent: PhysicalRack?
    var cpuUsage: real
    var memUsage: real

    /** What `reset` leaves: no identifier, no disks, no parent, zero usage. */
    ghost predicate Blank()
      reads this, base, base.ids
    {
      base.ids.uuid == None && base.disks == map[] && parent == null && cpuUsage == 0.0 && memUsage == 0.0
    }

    constructor ()
      ensures fresh(base) && fresh(base.ids) && Blank()
    {
      base := new DisksBuilder();
      parent, cpuUsage, memUsage := null, 0.0, 0.0;
    }

    method Reset()
      modifies this`parent, this`cpuUsage, this`memUsage, base`disks, base.ids`uuid
      ensures Blank()
    {
      base.Reset();
      parent, cpuUsage, memUsage := null, 0.0, 0.0;
    }

    /** `withParent`: any parent, `null` included, is taken as it is. */
    method WithParent(p: PhysicalRack?)
      modifies this`parent
      ensures parent == p
    {
      parent := p;
    }

    /** `withCpuUsage`: the figure is taken as it is, without a range check. */
    method WithCpuUsage(usage: real)
      modifies this`cpuUsage
      ensures cpuUsage == usage
    {
      cpuUsage := usage;
    }

    /** `withMemUsage`: the figure is taken as it is, without a range check. */
    method WithMemUsage(usage: real)
      modifies this`memUsage
      ensures memUsage == usage
    {
      memUsage := usage;
    }

    /**
     * `build`: refused with a state error while no identifier is set (nothing
     * changes then); otherwise a new host with the identifier, the parent,
     * the collected disks and the usage figures, after which the builder is
     * blank again.
     */
    method Build() returns (r: Result<PhysicalHost, Error>)
      modifies this`parent, this`cpuUsage, this`memUsage, base`disks, base.ids`uuid
      ensures r.Err? <==> old(base.ids.uuid).None?
      ensures r.Err? ==> r.error == IllegalState(StateMessage(UuidName)) && base.ids.uuid == old(base.ids.uuid)
      ensures r.Err? ==> parent == old(parent) && cpuUsage == old(cpuUsage) && memUsage == old(memUsage) && base.disks == old(base.disks)
      ensures r.Ok? ==> fresh(r.value) && r.value.id == old(base.ids.uuid).value && Blank()
      ensures r.Ok? ==> r.value.parent == old(parent) && r.value.disks == old(base.disks)
      ensures r.Ok? ==> r.value.cpuUsage == old(cpuUsage) && r.value.memUsage == old(memUsage)
    {
      var check := base.ids.CheckSet();
      if check.Fail? {
        return Err(check.error);
      }
      var res := new PhysicalHost(base.ids.uuid.value, parent, base.disks, cpuUsage, memUsage);
      Reset();
      return Ok(res);
    }
  }

  // ---------------------------------------------------------------- PhysicalStoreBuilder

  /** PhysicalStoreBuilder: an identifier, a parent and the capacity figures. */
  class StoreBuilder {
    const ids: ResourceBuilder
    var parent: StoreOwner
    var capacity: int64
    var used: int64

    /** What `reset` leaves: no identifier, no parent, zero capacity and usage. */
    ghost predicate Blank()
      reads this, ids
    {
      ids.uuid == None && parent == Detached && capacity == 0 && used == 0
    }

    constructor ()
      ensures fresh(ids) && Blank()
    {
      ids := new ResourceBuilder();
      parent, capacity, used := Detached, 0, 0;
    }

    method Reset()
      modifies this`parent, this`capacity, this`used, ids`uuid
      ensures Blank()
    {
      ids.Reset();
      parent, capacity, used := Detached, 0, 0;
    }

    /** `withParent`: only a rack is accepted (`null` leaves the disk without parent). */
    method WithParent(p: PhysicalRack?)
      modifies this`parent
      ensures p == null ==> parent == Detached
      ensures p != null ==> parent == OnRack(p)
    {
      parent := if p == null then Detached else OnRack(p);
    }

    /** `withCapacity`: the figure is taken as it is, without a range check. */
    method WithCapacity(c: int64)
      modifies this`capacity
      ensures capacity == c
    {
      capacity := c;
    }

    /** `withUsed`: the figure is taken as it is, without a range check. */
    method WithUsed(u: int64)
      modifies this`used
      ensures used == u
    {
      used := u;
    }

    /**
     * `build`: refused with a state error while no identifier is set (nothing
     * changes then); otherwise a new disk with the identifier, the parent and
     * the figures, after which the builder is blank again.
     */
    method Build() returns (r: Result<PhysicalStore, Error>)
      modifies this`parent, this`capacity, this`used, ids`uuid
      ensures r.Err? <==> old(ids.uuid).None?
      ensures r.Err? ==> r.error == IllegalState(StateMessage(UuidName)) && ids.uuid == old(ids.uuid)
      ensures r.Err? ==> parent == old(parent) && capacity == old(capacity) && used == old(used)
      ensures r.Ok? ==> fresh(r.value) && r.value.id == old(ids.uuid).value && Blank()
      ensures r.Ok? ==> r.value.parent == old(parent) && r.value.capacity == old(capacity) && r.value.used == old(used)
    {
      var check := ids.CheckSet();
      if check.Fail? {
        return Err(check.error);
      }
      var res := new PhysicalStore(ids.uuid.value, parent, capacity, used);
      Reset();
      return Ok(res);
    }
  }
}
