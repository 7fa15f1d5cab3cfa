/**
 * A virtual machine record and its builder. The record is mutable: setters,
 * `adoptFromOther`, `addStore` and `removeStores` change it in place. It is
 * equal to another record exactly when their identifiers are; a record
 * without identifier cannot be compared or hashed (Java throws a
 * NullPointerException).
 */
module VirtualMachines {
  import opened Wrappers
  import opened JavaLang
  import opened ErrorChecker

  datatype Status = On | Off | Launching | Unknown

  class VirtualMachine {
    var uuid: Option<string>
    var hostname: Option<string>
    var status: Status
    var host: Option<string>
    var stores: seq<string>

    constructor (uuid: Option<string>, hostname: Option<string>, status: Status, host: Option<string>, stores: seq<string>)
      ensures this.uuid == uuid && this.hostname == hostname && this.status == status
      ensures this.host == host && this.stores == stores
    {
      this.uuid, this.hostname, this.status, this.host, this.stores := uuid, hostname, status, host, stores;
    }

    /** `adoptFromOther`: every field takes `vm`'s value; the store list is a copy. */
    method AdoptFromOther(vm: VirtualMachine)
      modifies this
      ensures uuid == old(vm.uuid) && hostname == old(vm.hostname) && status == old(vm.status)
      ensures host == old(vm.host) && stores == old(vm.stores)
    {
      uuid, hostname, status, host, stores := vm.uuid, vm.hostname, vm.status, vm.host, vm.GetStores();
    }

    /** `isLaunching`: true exactly when the status is launching; a launching machine is not on. */
    function IsLaunching(): (r: bool)
      reads this
      ensures r <==> status == Launching
      ensures r ==> !IsOn()
    {
      status == Launching
    }

    /** `isOn`: true exactly when the status is on. */
    function IsOn(): (r: bool)
      reads this
      ensures r <==> status == On
    {
      status == On
    }

    /** `getStores`: a copy of the store list (a sequence value, which no caller can change). */
    function GetStores(): (list: seq<string>)
      reads this
      ensures list == stores
    {
      stores
    }

    method SetStatus(s: Status)
      modifies this`status
      ensures status == s
      ensures IsOn() <==> s == On
      ensures IsLaunching() <==> s == Launching
    {
      status := s;
    }

    method SetHostname(name: Option<string>)
      modifies this`hostname
      ensures hostname == name
    {
      hostname := name;
    }

    method SetHost(h: Option<string>)
      modifies this`host
      ensures host == h
    {
      host := h;
    }

    method SetUuid(id: Option<string>)
      modifies this`uuid
      ensures uuid == id
    {
      uuid := id;
    }

    /** `addStore`: appends at the end. */
    method AddStore(store: string)
      modifies this`stores
      ensures stores == old(stores) + [store]
    {
      stores := stores + [store];
    }

    /** `removeStores`: empties the list. */
    method RemoveStores()
      modifies this`stores
      ensures stores == []
    {
      stores := [];
    }

    /** `31 * 1 + uuid.hashCode()` in 32-bit arithmetic; a missing identifier throws. */
    function HashCode(): (r: Result<int32, Error>)
      reads this
      ensures r.Err? <==> uuid.None?
      ensures r.Err? ==> r.error == NullPointer
      ensures r.Ok? ==> r.value == Wrap(31 + HashPolynomial(uuid.value))
    {
      if uuid.None? then Err(NullPointer)
      else
        WrapCongruent(31 * 1 + StringHash(uuid.value) as int, 31 + HashPolynomial(uuid.value));
        Ok(Wrap(31 * 1 + StringHash(uuid.value) as int))
    }

    /**
     * `equals`: anything but a virtual machine is unequal; against a virtual
     * machine a missing identifier of this one throws, otherwise the two are
     * equal iff their identifiers are, and equal machines hash alike.
     */
    function Equals(that: object?): (r: Result<bool, Error>)
      reads this, that
      ensures !(that is VirtualMachine) ==> r == Ok(false)
      ensures that is VirtualMachine ==> (r.Err? <==> uuid.None?)
      ensures r == Ok(true) <==> that is VirtualMachine && uuid.Some? && (that as VirtualMachine).uuid == uuid
      ensures r == Ok(true) ==> HashCode() == (that as VirtualMachine).HashCode() && HashCode().Ok?
    {
      if !(that is VirtualMachine) then Ok(false)
      else if uuid.None? then Err(NullPointer)
      else Ok(Some(uuid.value) == (that as VirtualMachine).uuid)
    }
  }

  /** The values of `list` up to (not including) its first `None`. */
  function PresentPrefix<T>(list: seq<Option<T>>): (r: seq<T>)
    ensures |r| <= |list|
    ensures forall i :: 0 <= i < |r| ==> list[i] == Some(r[i])
    ensures |r| < |list| ==> list[|r|].None?
  {
    if list == [] || list[0].None? then [] else [list[0].value] + PresentPrefix(list[1..])
  }

  /** VirtualMachineBuilder: the fields of the machine to build, collected one call at a time. */
  class VirtualMachineBuilder {
    var uuid: Option<string>
    var hostname: Option<string>
    var status: Status
    var host: Option<string>
    var stores: seq<string>

    /** What `reset` leaves: nothing set, status unknown, no stores. */
    ghost predicate Blank()
      reads this
    {
      uuid == None && hostname == None && status == Unknown && host == None && stores == []
    }

    constructor ()
      ensures Blank()
    {
      uuid, hostname, status, host, stores := None, None, Unknown, None, [];
    }

    method Reset()
      modifies this
      ensures Blank()
    {
      uuid, hostname, status, host, stores := None, None, Unknown, None, [];
    }

    /** `withUuid`: a `null` identifier is refused and changes nothing. */
    method WithUuid(id: Option<string>) returns (r: Outcome<Error>)
      modifies this`uuid
      ensures r.Fail? <==> id.None?
      ensures r.Fail? ==> r.error == IllegalArgument(ArgumentMessage("uuid")) && uuid == old(uuid)
      ensures r.Pass? ==> uuid == id
    {
      r := ThrowIfNullArgument(id, "uuid");
      if r.Pass? {
        uuid := id;
      }
    }

    /** `withHostname`: a `null` name is refused and changes nothing. */
    method WithHostname(name: Option<string>) returns (r: Outcome<Error>)
      modifies this`hostname
      ensures r.Fail? <==> name.None?
      ensures r.Fail? ==> r.error == IllegalArgument(ArgumentMessage("hostname")) && hostname == old(hostname)
      ensures r.Pass? ==> hostname == name
    {
      r := ThrowIfNullArgument(name, "hostname");
      if r.Pass? {
        hostname := name;
      }
    }

    method WithStatus(s: Status)
      modifies this`status
      ensures status == s
    {
      status := s;
    }

    /** `withHost`: a `null` host is refused and changes nothing. */
    method WithHost(h: Option<string>) returns (r: Outcome<Error>)
      modifies this`host
      ensures r.Fail? <==> h.None?
      ensures r.Fail? ==> r.error == IllegalArgument(ArgumentMessage("host")) && host == old(host)
      ensures r.Pass? ==> host == h
    {
      r := ThrowIfNullArgument(h, "host");
      if r.Pass? {
        host := h;
      }
    }

    /** `withDisk`: a `null` disk is refused; otherwise it is appended (duplicates are kept). */
    method WithDisk(disk: Option<string>) returns (r: Outcome<Error>)
      modifies this`stores
      ensures r.Fail? <==> disk.None?
      ensures r.Fail? ==> r.error == IllegalArgument(ArgumentMessage("disk")) && stores == old(stores)
      ensures r.Pass? ==> stores == old(stores) + [disk.value]
    {
      r := ThrowIfNullArgument(disk, "disk");
      if r.Pass? {
        stores := stores + [disk.value];
      }
    }

    /**
     * `withDisks`: a `null` collection is refused; otherwise `withDisk` for
     * each element in order, so a `null` element fails after the elements
     * before it were appended.
     */
    method WithDisks(disks: Option<seq<Option<string>>>) returns (r: Outcome<Error>)
      modifies this`stores
      ensures disks.None? ==> r == Fail(IllegalArgument(ArgumentMessage("disks"))) && stores == old(stores)
      ensures disks.Some? ==> (r.Fail? <==> None in disks.value)
      ensures disks.Some? && r.Fail? ==> r.error == IllegalArgument(ArgumentMessage("disk"))
      ensures disks.Some? ==> stores == old(stores) + PresentPrefix(disks.value)
    {
      r := ThrowIfNullArgument(disks, "disks");
      if r.Fail? {
        return;
      }
      var xs := disks.value;
      ghost var done := PresentPrefix(xs);
      for i := 0 to |xs|
        invariant i <= |done| && r == Pass
        invariant stores == old(stores) + done[..i]
      {
        r := WithDisk(xs[i]);
        if r.Fail? {
          assert i == |done|;
          return;
        }
        assert done[..i + 1] == done[..i] + [done[i]];
      }
      assert done[..|xs|] == done;
      assert None !in xs;
    }

    /**
     * `build`: refused with a state error while no identifier is set (nothing
     * changes then); otherwise a new machine with the collected fields, after
     * which the builder is blank again.
     */
    method Build() returns (r: Result<VirtualMachine, Error>)
      modifies this
      ensures r.Err? <==> old(uuid).None?
      ensures r.Err? ==> r.error == IllegalState(StateMessage("uuid")) && unchanged(this)
      ensures r.Ok? ==> fresh(r.value) && Blank()
      ensures r.Ok? ==> r.value.uuid == old(uuid) && r.value.hostname == old(hostname) && r.value.status == old(status)
      ensures r.Ok? ==> r.value.host == old(host) && r.value.stores == old(stores)
    {
      var check := ThrowIfNotSet(uuid, "uuid");
      if check.Fail? {
        return Err(check.error);
      }
      var vm := new VirtualMachine(uuid, hostname, status, host, stores);
      Reset();
      return Ok(vm);
    }
  }
}
