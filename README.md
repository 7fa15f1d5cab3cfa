# nebu-common: physical topology, virtual machines, cache and configuration

This project models the shared library of the nebu cloud scheduler in Dafny.
It covers five parts of the library.

**Physical topology.** A tree of root → data centers → racks → hosts, with
disks (stores) hanging off racks and hosts.
- Every node is a class whose children sit in a map keyed by identifier.
- Each node has a `parent` reference back up the tree.
- The `PhysicalTopology` façade adds and removes nodes with null checks.
- It flattens the tree into lists, looks hosts up by identifier and merges two trees.
- Copying a tree re-links every parent (`fixme`).

**Builders.** Each topology entity has a builder. It collects an identifier,
scalar fields and children, and `build` refuses to run without an identifier.

**Virtual machines.** A mutable record and its builder. Equality and hashing
go through the identifier.

**Cache.** Entries expire after a time and are reloaded through a loader.

**Configuration.** XML configuration validation: ports, IP addresses,
credentials and the process-wide configuration instance.

## Modelling choices

**Errors and null.**
- Every Java exception becomes a value of `ErrorChecker.Error`, returned in
  `Result`/`Outcome` (module `Wrappers`). The error cases are part of each contract.
- A Java `null` is a nullable reference (`PhysicalRack?`) or an `Option` for strings.

**Topology objects.**
- The entity objects are Dafny classes with the same fields.
- The add, remove and `setParent` methods change them in place. Each declares
  a field-level `modifies` frame.
- A store's parent is a rack, a host or nothing. The datatype `StoreOwner`
  models this, because Java types that field as the common base class.
- The abstract bases (`PhysicalResource`, `PhysicalResourceWithDisks` and their
  builders) are not classes of their own:
  - The disk map and its operations are repeated in host and rack.
  - Each concrete builder holds the base builder as a field.

**Merging.** `TopologyValues` is a value image of the tree (`StoreV`, `HostV`,
`RackV`, `DataCenterV`, `RootV`) with a pure merge on it.
- The merge lemmas (idempotence, absorption, merge with an empty tree, where
  each node of the merge comes from) are proved there.
- On trees whose maps are all keyed by identifier, every object-level merge
  (`MergeHost`, `MergeRack`, `MergeDataCenter`, `MergeTree`) is proved to produce
  an object whose image is exactly that value merge of its inputs' images.
- Whatever the inputs, every node a merge places in its result is newly
  allocated, and every node below the merged root has its holder as parent, so
  neither input is changed or shared.
- The image of a host is its identifier, usage figures and the image of its disks.
  A rack, data center or root maps to its identifier and the images of its children.
- Likewise each copy constructor is proved, from a keyed source, to produce an object with the same
  image as its source, made of fresh nodes.

**Java library behaviour.** `JavaLang` states the parts of Java's own library
that the code relies on:
- 32-bit wrap-around;
- `String.hashCode`;
- `new ArrayList<>(map.values())`, as a listing of the values in an unspecified order;
- `HashMap.put` in sequence, where the last put wins;
- `List.indexOf`;
- flattening a list of lists.

**Configuration.**
- The XML child classes (`ClientConfiguration`, `ServerConfiguration`,
  `AuthenticationConfiguration`) are datatypes built by pure parse functions.
  Their setters are private and only called while parsing.
- `Configuration` and its static instance are classes, because parsing
  assigns the instance before any child is checked.

## Model

| member | source | states |
|---|---|---|
| ErrorChecker.Ref | src/main/java/nl/bitbrains/nebu/common/util/ErrorChecker.java:20-25 | a Java reference is absent exactly when it is null, and otherwise is that object |
| ErrorChecker.MessageMentions | src/main/java/nl/bitbrains/nebu/common/util/ErrorChecker.java:20-25 | the argument name inserted into the message template occurs in the message |
| ErrorChecker.ThrowIfNullArgument | src/main/java/nl/bitbrains/nebu/common/util/ErrorChecker.java:20-25 | fails exactly on a null argument, with an illegal-argument error whose message names the argument |
| ErrorChecker.ThrowIfNotSet | src/main/java/nl/bitbrains/nebu/common/util/ErrorChecker.java:36-40 | fails exactly on an unset value, with an illegal-state error whose message names the object |
| JavaLang.Wrap | src/main/java/nl/bitbrains/nebu/common/topology/PhysicalStore.java:92-94 | the 32-bit result is congruent to the exact integer modulo 2^32 |
| JavaLang.HashPolynomialAppend | src/main/java/nl/bitbrains/nebu/common/topology/PhysicalStore.java:92-94 | appending a character to a string multiplies the documented hash polynomial by 31 and adds the character |
| JavaLang.StringHash | src/main/java/nl/bitbrains/nebu/common/topology/PhysicalStore.java:92-94 | the hash computed character by character in 32-bit arithmetic is the documented polynomial s[0]*31^(n-1) + ... + s[n-1] reduced to 32 bits |
| JavaLang.ValuesOf | src/main/java/nl/bitbrains/nebu/common/topology/PhysicalRack.java:71-73 | the list holds every value of the map exactly once, along a duplicate-free listing of its keys |
| JavaLang.ListedValues | src/main/java/nl/bitbrains/nebu/common/topology/PhysicalRack.java:71-73 | each listed element is a value of the map, and every value of the map is listed |
| JavaLang.PutAllLast | src/main/java/nl/bitbrains/nebu/common/topology/PhysicalResourceWithDisks.java:33-41 | putting a list into a map by identifier keeps exactly the listed keys, and a key's value is its last put |
| JavaLang.ListedPutAll | src/main/java/nl/bitbrains/nebu/common/topology/PhysicalDataCenter.java:27-35 | putting a map's value listing back under the listed keys rebuilds the same map |
| JavaLang.IndexOf | src/main/java/nl/bitbrains/nebu/common/topology/PhysicalTopology.java:302-317 | -1 exactly when the element is absent; otherwise the position of its first occurrence |
| JavaLang.Enumerated | src/main/java/nl/bitbrains/nebu/common/topology/PhysicalTopology.java:83-85 | a value listing of a map enumerates the map: each listed element is a value, each value is listed |
| JavaLang.ConcatSnoc | src/main/java/nl/bitbrains/nebu/common/topology/PhysicalTopology.java:90-96 | appending one more part to a flattening appends its elements and adds its length |
| JavaLang.ConcatLength | src/main/java/nl/bitbrains/nebu/common/topology/PhysicalTopology.java:90-96 | the flattened list is as long as the parts together |
| JavaLang.ConcatMembers | src/main/java/nl/bitbrains/nebu/common/topology/PhysicalTopology.java:90-96 | an element is in the flattening exactly when it is in one of the parts |
| Topology.PhysicalStore.constructor | src/main/java/nl/bitbrains/nebu/common/topology/PhysicalStore.java:26-32 | a store with the given identifier, parent, capacity and usage |
| Topology.PhysicalStore.Copy | src/main/java/nl/bitbrains/nebu/common/topology/PhysicalStore.java:40-44 | a copy carries identifier, capacity and usage but no parent |
| Topology.PhysicalStore.SetParent | src/main/java/nl/bitbrains/nebu/common/topology/PhysicalStore.java:57-59 | only the parent changes, to the given one |
| Topology.PhysicalStore.SetCapacity | src/main/java/nl/bitbrains/nebu/common/topology/PhysicalStore.java:72-74 | only the capacity changes |
| Topology.PhysicalStore.SetUsed | src/main/java/nl/bitbrains/nebu/common/topology/PhysicalStore.java:87-89 | only the usage changes |
| Topology.PhysicalStore.Equals | src/main/java/nl/bitbrains/nebu/common/topology/PhysicalStore.java:97-103 | reflexive; equal exactly to a store with the same identifier, whatever its other fields; equal objects have the same hash code |
| Topology.PhysicalStore.HashCode | src/main/java/nl/bitbrains/nebu/common/topology/PhysicalStore.java:92-94 | the string hash of the identifier, as the documented polynomial reduced to 32 bits |
| Topology.CopyDisks | src/main/java/nl/bitbrains/nebu/common/topology/PhysicalResourceWithDisks.java:33-41 | the disk map built from a list: keyed by identifier, the listed identifiers as keys, fresh copies owned by the new node with the figures of the last listed disk per key |
| Topology.CopyDiskMap | src/main/java/nl/bitbrains/nebu/common/topology/PhysicalHost.java:44-48 | copying a keyed disk map keeps its keys and figures in fresh disks owned by the new node |
| Topology.PhysicalHost.constructor | src/main/java/nl/bitbrains/nebu/common/topology/PhysicalHost.java:30-36 | a host with the given identifier, parent, disk map and usage figures |
| Topology.PhysicalHost.Copy | src/main/java/nl/bitbrains/nebu/common/topology/PhysicalHost.java:44-48 | a copy has the identifier and usage, no parent, and fresh copies of the disks (same keys and figures) whose parent is the copy |
| Topology.PhysicalHost.SetParent | src/main/java/nl/bitbrains/nebu/common/topology/PhysicalHost.java:61-63 | only the parent changes |
| Topology.PhysicalHost.GetDisks | src/main/java/nl/bitbrains/nebu/common/topology/PhysicalResourceWithDisks.java:46-48 | a listing of exactly the disks in the map |
| Topology.PhysicalHost.AddDisk | src/main/java/nl/bitbrains/nebu/common/topology/PhysicalResourceWithDisks.java:54-58 | null changes nothing; otherwise the disk is put under its identifier and the map stays keyed |
| Topology.PhysicalHost.RemoveDisk | src/main/java/nl/bitbrains/nebu/common/topology/PhysicalResourceWithDisks.java:64-68 | null changes nothing; otherwise the disk's identifier is removed and the map stays keyed |
| Topology.PhysicalHost.Equals | src/main/java/nl/bitbrains/nebu/common/topology/PhysicalHost.java:85-91 | reflexive; equal exactly to a host with the same identifier, whatever its other fields; equal objects have the same hash code |
| Topology.PhysicalHost.HashCode | src/main/java/nl/bitbrains/nebu/common/topology/PhysicalHost.java:80-82 | the string hash of the identifier, as the documented polynomial reduced to 32 bits |
| Topology.CopyHosts | src/main/java/nl/bitbrains/nebu/common/topology/PhysicalRack.java:43-51 | the host map built from a list: keyed, the listed identifiers as keys, fresh hosts with fresh disks owned by the rack; from a listed host whose disks are keyed, the copy under its key has that host's value (identifier, usage, disk keys and figures) |
| Topology.CopyHostMap | src/main/java/nl/bitbrains/nebu/common/topology/PhysicalRack.java:43-51 | copying a keyed host map keeps its keys and usage figures in fresh hosts with fresh disks; from hosts whose disks are keyed, the copy has the same value as the source map |
| Topology.CopyHostOwnedBy | src/main/java/nl/bitbrains/nebu/common/topology/PhysicalRack.java:43-51 | one host of the copy loop: a fresh host with fresh disks, the identifier and usage of the source host, owned by the new rack |
| Topology.PutHostCopy | src/main/java/nl/bitbrains/nebu/common/topology/PhysicalRack.java:43-51 | one loop step puts a fresh copy of the listed host under its identifier, and the copies made so far stay copies of the last host listed per key |
| Topology.PhysicalRack.CopyHostsOf | src/main/java/nl/bitbrains/nebu/common/topology/PhysicalRack.java:43-51 | the rack's host map becomes a copy of the other rack's: same keys and usage, fresh hosts owned by this rack, and the same value when the source is keyed |
| Topology.PhysicalRack.constructor | src/main/java/nl/bitbrains/nebu/common/topology/PhysicalRack.java:30-35 | a rack with the given identifier, parent, hosts and disks |
| Topology.PhysicalRack.Copy | src/main/java/nl/bitbrains/nebu/common/topology/PhysicalRack.java:43-51 | a copy without parent whose hosts, host disks and rack disks are all fresh and owned along the copy; from a keyed rack, the copy has the same value: identifier, hosts with their usage and disks, rack disks with their figures |
| Topology.PhysicalRack.SetParent | src/main/java/nl/bitbrains/nebu/common/topology/PhysicalRack.java:64-66 | only the parent changes |
| Topology.PhysicalRack.GetCPUs | src/main/java/nl/bitbrains/nebu/common/topology/PhysicalRack.java:71-73 | a listing of exactly the hosts in the map |
| Topology.PhysicalRack.AddCPU | src/main/java/nl/bitbrains/nebu/common/topology/PhysicalRack.java:79-83 | null changes nothing; otherwise the host is put under its identifier and the map stays keyed |
| Topology.PhysicalRack.RemoveCPU | src/main/java/nl/bitbrains/nebu/common/topology/PhysicalRack.java:89-93 | null changes nothing; otherwise the host's identifier is removed and the map stays keyed |
| Topology.PhysicalRack.GetDisks | src/main/java/nl/bitbrains/nebu/common/topology/PhysicalResourceWithDisks.java:46-48 | a listing of exactly the disks in the map |
| Topology.PhysicalRack.AddDisk | src/main/java/nl/bitbrains/nebu/common/topology/PhysicalResourceWithDisks.java:54-58 | null changes nothing; otherwise the disk is put under its identifier and the map stays keyed |
| Topology.PhysicalRack.RemoveDisk | src/main/java/nl/bitbrains/nebu/common/topology/PhysicalResourceWithDisks.java:64-68 | null changes nothing; otherwise the disk's identifier is removed and the map stays keyed |
| Topology.PhysicalRack.Equals | src/main/java/nl/bitbrains/nebu/common/topology/PhysicalRack.java:101-107 | reflexive; equal exactly to a rack with the same identifier, whatever its other fields; equal objects have the same hash code |
| Topology.PhysicalRack.HashCode | src/main/java/nl/bitbrains/nebu/common/topology/PhysicalRack.java:96-98 | the string hash of the identifier, as the documented polynomial reduced to 32 bits |
| Topology.NewRacks | src/main/java/nl/bitbrains/nebu/common/topology/PhysicalDataCenter.java:27-35 | racks that are each new, with every host and disk below them new, make the whole node set below the map fresh |
| Topology.CopyRackOwnedBy | src/main/java/nl/bitbrains/nebu/common/topology/PhysicalDataCenter.java:27-35 | a fresh copy of a rack, all of whose hosts and disks are fresh, whose parent is the new data center; from a keyed rack it has the rack's value |
| Topology.PutRackCopy | src/main/java/nl/bitbrains/nebu/common/topology/PhysicalDataCenter.java:27-35 | one loop step puts a new copy of the listed rack under its identifier, and the copies made so far stay copies of the last rack listed per key |
| Topology.CopyRacks | src/main/java/nl/bitbrains/nebu/common/topology/PhysicalDataCenter.java:27-35 | the rack map built from a list: keyed, the listed identifiers as keys, fresh copies owned by the data center; each copy of a keyed rack has that rack's value |
| Topology.CopyRackMap | src/main/java/nl/bitbrains/nebu/common/topology/PhysicalDataCenter.java:27-35 | copying a keyed rack map keeps its keys in fresh racks owned by the new data center; from racks keyed all the way down, the copy has the same value as the source map |
| Topology.PhysicalDataCenter.CopyRacksOf | src/main/java/nl/bitbrains/nebu/common/topology/PhysicalDataCenter.java:27-35 | the data center's rack map becomes a copy of the other's: same keys, every node below fresh and owned along the copy, and the same value when the source is keyed |
| Topology.PhysicalDataCenter.constructor | src/main/java/nl/bitbrains/nebu/common/topology/PhysicalDataCenter.java:45-50 | a data center with the given identifier, parent and racks |
| Topology.PhysicalDataCenter.Copy | src/main/java/nl/bitbrains/nebu/common/topology/PhysicalDataCenter.java:27-35 | a copy without parent whose racks, hosts and disks are all fresh, each rack owned by the copy; from a keyed data center, the copy has the same value |
| Topology.PhysicalDataCenter.SetParent | src/main/java/nl/bitbrains/nebu/common/topology/PhysicalDataCenter.java:90-92 | only the parent changes |
| Topology.PhysicalDataCenter.GetRacks | src/main/java/nl/bitbrains/nebu/common/topology/PhysicalDataCenter.java:55-57 | a listing of exactly the racks in the map |
| Topology.PhysicalDataCenter.AddRack | src/main/java/nl/bitbrains/nebu/common/topology/PhysicalDataCenter.java:63-67 | null changes nothing; otherwise the rack is put under its identifier and the map stays keyed |
| Topology.PhysicalDataCenter.RemoveRack | src/main/java/nl/bitbrains/nebu/common/topology/PhysicalDataCenter.java:73-77 | null changes nothing; otherwise the rack's identifier is removed and the map stays keyed |
| Topology.PhysicalDataCenter.Equals | src/main/java/nl/bitbrains/nebu/common/topology/PhysicalDataCenter.java:100-106 | reflexive; equal exactly to a data center with the same identifier, whatever its other fields; equal objects have the same hash code |
| Topology.PhysicalDataCenter.HashCode | src/main/java/nl/bitbrains/nebu/common/topology/PhysicalDataCenter.java:95-97 | the string hash of the identifier, as the documented polynomial reduced to 32 bits |
| Topology.NewDataCenters | src/main/java/nl/bitbrains/nebu/common/topology/PhysicalRoot.java:25-33 | data centers that are each new, with every node below them new, make the whole node set below the map fresh |
| Topology.CopyDataCenterOwnedBy | src/main/java/nl/bitbrains/nebu/common/topology/PhysicalRoot.java:25-33 | a fresh copy of a data center, all of whose nodes below are fresh, whose parent is the new root; from a keyed data center it has the data center's value |
| Topology.PutDataCenterCopy | src/main/java/nl/bitbrains/nebu/common/topology/PhysicalRoot.java:25-33 | one loop step puts a new copy of the listed data center under its identifier, and the copies made so far stay copies of the last one listed per key |
| Topology.CopyDataCenters | src/main/java/nl/bitbrains/nebu/common/topology/PhysicalRoot.java:25-33 | the data-center map built from a list: keyed, the listed identifiers as keys, fresh copies owned by the root; each copy of a keyed data center has its value |
| Topology.CopyDataCenterMap | src/main/java/nl/bitbrains/nebu/common/topology/PhysicalRoot.java:25-33 | copying a keyed data-center map keeps its keys in fresh data centers owned by the new root; from data centers keyed all the way down, the copy has the same value as the source map |
| Topology.PhysicalRoot.CopyDataCentersOf | src/main/java/nl/bitbrains/nebu/common/topology/PhysicalRoot.java:25-33 | the root's data-center map becomes a copy of the other's: same keys, every node below fresh and owned along the copy, and the same value when the source is keyed |
| Topology.PhysicalRoot.constructor | src/main/java/nl/bitbrains/nebu/common/topology/PhysicalRoot.java:42-45 | a root with the given identifier and data centers |
| Topology.PhysicalRoot.Copy | src/main/java/nl/bitbrains/nebu/common/topology/PhysicalRoot.java:25-33 | a copy with the same identifier whose data centers and every node below are fresh, each data center owned by the copy; from a keyed tree, the copy has the same value as the whole tree |
| Topology.PhysicalRoot.GetDataCenters | src/main/java/nl/bitbrains/nebu/common/topology/PhysicalRoot.java:50-52 | a listing of exactly the data centers in the map |
| Topology.PhysicalRoot.AddDataCenter | src/main/java/nl/bitbrains/nebu/common/topology/PhysicalRoot.java:58-62 | null changes nothing; otherwise the data center is put under its identifier and the map stays keyed |
| Topology.PhysicalRoot.RemoveDataCenter | src/main/java/nl/bitbrains/nebu/common/topology/PhysicalRoot.java:68-72 | null changes nothing; otherwise its identifier is removed and the map stays keyed |
| Topology.PhysicalRoot.Equals | src/main/java/nl/bitbrains/nebu/common/topology/PhysicalRoot.java:80-86 | reflexive; equal exactly to a root with the same identifier, whatever its other fields; equal objects have the same hash code |
| Topology.PhysicalRoot.HashCode | src/main/java/nl/bitbrains/nebu/common/topology/PhysicalRoot.java:75-77 | the string hash of the identifier, as the documented polynomial reduced to 32 bits |
| TopologyValues.Lookup | src/main/java/nl/bitbrains/nebu/common/topology/PhysicalTopology.java:408-416 | a key is found exactly when it is in the map, with its value |
| TopologyValues.MergeMapsSelf | src/main/java/nl/bitbrains/nebu/common/topology/PhysicalTopology.java:269-291 | merging a map with itself under a merge that is idempotent on its values gives the map back |
| TopologyValues.MergeMapsAbsorbs | src/main/java/nl/bitbrains/nebu/common/topology/PhysicalTopology.java:302-317 | merging in a map whose entries the first already absorbs leaves the first unchanged |
| TopologyValues.MergeMapsAbsorbed | src/main/java/nl/bitbrains/nebu/common/topology/PhysicalTopology.java:302-317 | merging into a map that absorbs the first one's entries gives that map |
| TopologyValues.MergeMapsNone | src/main/java/nl/bitbrains/nebu/common/topology/PhysicalTopology.java:329 | merging in no entry of the second map gives the first map: where each merge loop starts |
| TopologyValues.MergeMapsAll | src/main/java/nl/bitbrains/nebu/common/topology/PhysicalTopology.java:330-340 | merging in every entry of the second map is the merge of the two maps: where each merge loop ends |
| TopologyValues.MergeMapsStep | src/main/java/nl/bitbrains/nebu/common/topology/PhysicalTopology.java:330-340 | merging in one more key of the second map updates that key with the merge of both entries, or the second map's entry when the first has none |
| TopologyValues.MergeHostExtends | src/main/java/nl/bitbrains/nebu/common/topology/PhysicalTopology.java:361-372 | a merged host extends the first host: same figures, every one of its disks kept as it was |
| TopologyValues.MergeRackExtends | src/main/java/nl/bitbrains/nebu/common/topology/PhysicalTopology.java:328-350 | a merged rack extends the first rack, host by host and disk by disk |
| TopologyValues.MergeDataCenterExtends | src/main/java/nl/bitbrains/nebu/common/topology/PhysicalTopology.java:302-317 | a merged data center extends the first one, rack by rack |
| TopologyValues.MergeRootExtends | src/main/java/nl/bitbrains/nebu/common/topology/PhysicalTopology.java:269-291 | a merged tree extends the first tree at every level |
| TopologyValues.ExtendsRackRefl | src/main/java/nl/bitbrains/nebu/common/topology/PhysicalTopology.java:328-350 | every rack extends itself |
| TopologyValues.ExtendsDataCenterRefl | src/main/java/nl/bitbrains/nebu/common/topology/PhysicalTopology.java:302-317 | every data center extends itself |
| TopologyValues.MergeRootNodes | src/main/java/nl/bitbrains/nebu/common/topology/PhysicalTopology.java:269-291 | in the merge of two trees with the same root, a node exists at a path exactly when it exists in either tree, and a node missing from the first is the second's |
| TopologyValues.MergeHostAbsorbs | src/main/java/nl/bitbrains/nebu/common/topology/PhysicalTopology.java:361-372 | merging a host with one it extends, in either order, gives the larger host |
| TopologyValues.MergeRackAbsorbs | src/main/java/nl/bitbrains/nebu/common/topology/PhysicalTopology.java:328-350 | merging a rack with one it extends, in either order, gives the larger rack |
| TopologyValues.MergeDataCenterAbsorbs | src/main/java/nl/bitbrains/nebu/common/topology/PhysicalTopology.java:302-317 | merging a data center with one it extends, in either order, gives the larger |
| TopologyValues.MergeRootAbsorbs | src/main/java/nl/bitbrains/nebu/common/topology/PhysicalTopology.java:269-291 | merging a tree with one it extends, in either order, gives the larger tree |
| TopologyValues.MergeRootIdempotent | src/main/java/nl/bitbrains/nebu/common/topology/PhysicalTopology.java:269-291 | merging a tree with itself gives the same tree |
| TopologyValues.MergeWithEmpty | src/main/java/nl/bitbrains/nebu/common/topology/PhysicalTopology.java:269-291 | merging with an empty tree of the same root, on either side, gives the other tree |
| ParentWalk.ListHosts | src/main/java/nl/bitbrains/nebu/common/topology/PhysicalTopology.java:60-66 | the host list of a rack holds exactly its hosts |
| ParentWalk.ListHostDisks | src/main/java/nl/bitbrains/nebu/common/topology/PhysicalTopology.java:62-64 | the disk list of a host holds exactly its disks |
| ParentWalk.ListRackDisks | src/main/java/nl/bitbrains/nebu/common/topology/PhysicalTopology.java:67-69 | the disk list of a rack holds exactly its disks |
| ParentWalk.ListDataCenters | src/main/java/nl/bitbrains/nebu/common/topology/PhysicalTopology.java:56-57 | the data-center list of the root holds exactly its data centers |
| ParentWalk.ListRacks | src/main/java/nl/bitbrains/nebu/common/topology/PhysicalTopology.java:58-59 | the rack list of a data center holds exactly its racks |
| ParentWalk.RackCoveredGrows | src/main/java/nl/bitbrains/nebu/common/topology/PhysicalTopology.java:58-70 | a rack whose subtree was re-linked stays so as the re-linked sets grow |
| ParentWalk.DataCenterCoveredGrows | src/main/java/nl/bitbrains/nebu/common/topology/PhysicalTopology.java:56-70 | a data center whose subtree was re-linked stays so as the re-linked sets grow |
| ParentWalk.FixHostDisks | src/main/java/nl/bitbrains/nebu/common/topology/PhysicalTopology.java:62-64 | every disk of the host now has the host as parent; earlier links are kept |
| ParentWalk.FixHost | src/main/java/nl/bitbrains/nebu/common/topology/PhysicalTopology.java:60-65 | the host points to its rack and its disks to the host; earlier links are kept |
| ParentWalk.FixHostAt | src/main/java/nl/bitbrains/nebu/common/topology/PhysicalTopology.java:60-65 | one more host of the listing is re-linked, and the hosts before it stay re-linked |
| ParentWalk.FixRackHosts | src/main/java/nl/bitbrains/nebu/common/topology/PhysicalTopology.java:60-66 | every host of the rack and each of its disks is re-linked |
| ParentWalk.FixRackDisks | src/main/java/nl/bitbrains/nebu/common/topology/PhysicalTopology.java:67-69 | every disk of the rack now has the rack as parent |
| ParentWalk.FixRack | src/main/java/nl/bitbrains/nebu/common/topology/PhysicalTopology.java:58-70 | the rack points to its data center and its whole subtree is re-linked |
| ParentWalk.FixRackAt | src/main/java/nl/bitbrains/nebu/common/topology/PhysicalTopology.java:58-70 | one more rack of the listing is re-linked, and the racks before it stay re-linked |
| ParentWalk.FixDataCenter | src/main/java/nl/bitbrains/nebu/common/topology/PhysicalTopology.java:58-70 | every rack of the data center and its subtree is re-linked |
| ParentWalk.FixDataCenterAt | src/main/java/nl/bitbrains/nebu/common/topology/PhysicalTopology.java:56-70 | one more data center is re-linked to the root with its subtree, earlier ones stay so |
| ParentWalk.FixRoot | src/main/java/nl/bitbrains/nebu/common/topology/PhysicalTopology.java:55-71 | every data center, rack, host and disk below the root points to its owner; no child map changes |
| ParentWalk.TablesExact | src/main/java/nl/bitbrains/nebu/common/topology/PhysicalTopology.java:55-71 | the owner tables taken from the tree describe each rack's hosts and disks exactly |
| ParentWalk.TablesWithin | src/main/java/nl/bitbrains/nebu/common/topology/PhysicalTopology.java:55-71 | every child in the owner tables is one of the tree's nodes |
| ParentWalk.CoveredRacks | src/main/java/nl/bitbrains/nebu/common/topology/PhysicalTopology.java:56-70 | once every data center is re-linked, every rack below them is re-linked |
| ParentWalk.CoveredHosts | src/main/java/nl/bitbrains/nebu/common/topology/PhysicalTopology.java:58-66 | once every rack is re-linked, every host below them is re-linked |
| ParentWalk.CoveredStores | src/main/java/nl/bitbrains/nebu/common/topology/PhysicalTopology.java:60-69 | once every rack and host is re-linked, every disk is |
| ParentWalk.LinkedHeld | src/main/java/nl/bitbrains/nebu/common/topology/PhysicalTopology.java:55-71 | a re-linked node's parent is a node of the tree that holds it as a child |
| ParentWalk.TablesDescribeTree | src/main/java/nl/bitbrains/nebu/common/topology/PhysicalTopology.java:55-71 | the owner tables built from the tree describe it |
| ParentWalk.RacksSpan | src/main/java/nl/bitbrains/nebu/common/topology/PhysicalTopology.java:56-58 | the racks of the tree are exactly the racks the table lists under the data centers |
| ParentWalk.HostsSpan | src/main/java/nl/bitbrains/nebu/common/topology/PhysicalTopology.java:58-60 | the hosts of the tree are exactly those the table lists under the racks |
| ParentWalk.StoresSpan | src/main/java/nl/bitbrains/nebu/common/topology/PhysicalTopology.java:60-69 | the disks of the tree are exactly those the table lists under racks and hosts |
| ParentWalk.Prepare | src/main/java/nl/bitbrains/nebu/common/topology/PhysicalTopology.java:55-71 | a tree with its node sets yields the owner tables the walk starts from |
| ParentWalk.Conclude | src/main/java/nl/bitbrains/nebu/common/topology/PhysicalTopology.java:55-71 | after the walk, every node below the root has as parent the node that holds it |
| TopologyFacade.HostFound | src/main/java/nl/bitbrains/nebu/common/topology/PhysicalTopology.java:393-401 | the index search over the flattened hosts finds a host exactly when some host of the tree has the identifier |
| TopologyFacade.RacksListed | src/main/java/nl/bitbrains/nebu/common/topology/PhysicalTopology.java:90-96 | the flattened rack lists of all data centers hold exactly the racks of the tree |
| TopologyFacade.HostsListed | src/main/java/nl/bitbrains/nebu/common/topology/PhysicalTopology.java:101-107 | the flattened host lists of all racks hold exactly the hosts of the tree |
| TopologyFacade.RackDisksListed | src/main/java/nl/bitbrains/nebu/common/topology/PhysicalTopology.java:112-122 | the flattened disk lists of all racks hold exactly the rack disks |
| TopologyFacade.HostDisksListed | src/main/java/nl/bitbrains/nebu/common/topology/PhysicalTopology.java:112-122 | the flattened disk lists of all hosts hold exactly the host disks |
| TopologyFacade.PhysicalTopology.constructor | src/main/java/nl/bitbrains/nebu/common/topology/PhysicalTopology.java:28-30 | a new topology has a fresh, empty root named "root" |
| TopologyFacade.PhysicalTopology.FromRoot | src/main/java/nl/bitbrains/nebu/common/topology/PhysicalTopology.java:36-39 | wrapping a root re-links every node below it to its owner |
| TopologyFacade.PhysicalTopology.Copy | src/main/java/nl/bitbrains/nebu/common/topology/PhysicalTopology.java:47-50 | a copy has a fresh root with the same identifier and data-center keys and consistent parents throughout; every data center, rack, host and store below the new root is freshly allocated, so the copy shares no node with the original; from a keyed tree, the copied tree has the same value as the original |
| TopologyFacade.PhysicalTopology.CopiedRoot | src/main/java/nl/bitbrains/nebu/common/topology/PhysicalTopology.java:47-50 | the copied root, re-linked, has the same identifier and keys and consistent parents; every node below it is freshly allocated; from a keyed tree it has the same value as the original |
| TopologyFacade.PhysicalTopology.NewCopy | src/main/java/nl/bitbrains/nebu/common/topology/PhysicalRoot.java:25-33 | a copy of the root whose node sets are all fresh; from a keyed tree it has the same value as the original |
| TopologyFacade.PhysicalTopology.FixmeKept | src/main/java/nl/bitbrains/nebu/common/topology/PhysicalTopology.java:55-71 | re-linking keeps the child maps, the value of the tree and its keyedness, and leaves the parents consistent |
| TopologyFacade.ValueKeptOverNodes | src/main/java/nl/bitbrains/nebu/common/topology/PhysicalTopology.java:55-71 | a walk that changes only parent links keeps the node sets, the value of the tree and its keyedness |
| TopologyFacade.PhysicalTopology.Fixme | src/main/java/nl/bitbrains/nebu/common/topology/PhysicalTopology.java:55-71 | after re-linking, every node below the root has as parent the node holding it |
| TopologyFacade.PhysicalTopology.GetDataCenters | src/main/java/nl/bitbrains/nebu/common/topology/PhysicalTopology.java:83-85 | a listing of exactly the root's data centers |
| TopologyFacade.PhysicalTopology.GetRacks | src/main/java/nl/bitbrains/nebu/common/topology/PhysicalTopology.java:90-96 | the concatenation of each data center's rack listing; holds exactly the racks of the tree |
| TopologyFacade.PhysicalTopology.AllRacks | src/main/java/nl/bitbrains/nebu/common/topology/PhysicalTopology.java:90-96 | the loop appends each data center's rack listing in turn |
| TopologyFacade.PhysicalTopology.GetCPUs | src/main/java/nl/bitbrains/nebu/common/topology/PhysicalTopology.java:101-107 | the concatenation of each rack's host listing; holds exactly the hosts of the tree |
| TopologyFacade.PhysicalTopology.AllHosts | src/main/java/nl/bitbrains/nebu/common/topology/PhysicalTopology.java:101-107 | the loop appends each rack's host listing in turn |
| TopologyFacade.PhysicalTopology.GetStores | src/main/java/nl/bitbrains/nebu/common/topology/PhysicalTopology.java:112-122 | the rack disks followed by the host disks; holds exactly the disks of the tree |
| TopologyFacade.PhysicalTopology.AllRackDisks | src/main/java/nl/bitbrains/nebu/common/topology/PhysicalTopology.java:112-122 | the loop appends each rack's disk listing in turn |
| TopologyFacade.PhysicalTopology.AllHostDisks | src/main/java/nl/bitbrains/nebu/common/topology/PhysicalTopology.java:112-122 | the loop appends each host's disk listing in turn |
| TopologyFacade.PhysicalTopology.AddDataCenter | src/main/java/nl/bitbrains/nebu/common/topology/PhysicalTopology.java:128-133 | fails on null with the "dataCenter" message and changes nothing; otherwise puts it under its identifier and makes the root its parent |
| TopologyFacade.PhysicalTopology.RemoveDataCenter | src/main/java/nl/bitbrains/nebu/common/topology/PhysicalTopology.java:139-144 | fails on null; otherwise removes its identifier and clears its parent |
| TopologyFacade.PhysicalTopology.AddRackToDataCenter | src/main/java/nl/bitbrains/nebu/common/topology/PhysicalTopology.java:152-158 | fails on a null rack or data center (rack checked first, each with its own message); otherwise puts the rack and links it to the data center |
| TopologyFacade.PhysicalTopology.RemoveRackFromDataCenter | src/main/java/nl/bitbrains/nebu/common/topology/PhysicalTopology.java:166-173 | fails on either null; otherwise removes the rack's identifier and clears its parent |
| TopologyFacade.PhysicalTopology.AddCPUToRack | src/main/java/nl/bitbrains/nebu/common/topology/PhysicalTopology.java:181-187 | fails on either null, both reported under "host"; otherwise puts the host and links it to the rack |
| TopologyFacade.PhysicalTopology.RemoveCPUFromRack | src/main/java/nl/bitbrains/nebu/common/topology/PhysicalTopology.java:195-201 | fails on either null; otherwise removes the host's identifier and clears its parent |
| TopologyFacade.PhysicalTopology.AddDiskToRack | src/main/java/nl/bitbrains/nebu/common/topology/PhysicalTopology.java:209-215 | fails on either null; otherwise puts the disk and makes the rack its parent |
| TopologyFacade.PhysicalTopology.RemoveDiskFromRack | src/main/java/nl/bitbrains/nebu/common/topology/PhysicalTopology.java:223-229 | fails on either null; otherwise removes the disk's identifier and detaches it |
| TopologyFacade.PhysicalTopology.AddDiskToHost | src/main/java/nl/bitbrains/nebu/common/topology/PhysicalTopology.java:237-243 | fails on either null, a null host reported under "rack"; otherwise puts the disk and makes the host its parent |
| TopologyFacade.PhysicalTopology.RemoveDiskFromHost | src/main/java/nl/bitbrains/nebu/common/topology/PhysicalTopology.java:251-257 | fails on either null, a null host reported under "rack"; otherwise removes the disk's identifier and detaches it |
| TopologyFacade.PhysicalTopology.HasCPUByID | src/main/java/nl/bitbrains/nebu/common/topology/PhysicalTopology.java:393-401 | true exactly when some host of the tree has the identifier |
| TopologyFacade.PhysicalTopology.GetCPUByID | src/main/java/nl/bitbrains/nebu/common/topology/PhysicalTopology.java:408-416 | a host of the tree with the identifier; a no-such-element error exactly when there is none |
| TopologyFacade.PhysicalTopology.HashCode | src/main/java/nl/bitbrains/nebu/common/topology/PhysicalTopology.java:375-377 | the root's hash: the string hash of the root identifier, as the documented polynomial reduced to 32 bits |
| TopologyFacade.PhysicalTopology.Equals | src/main/java/nl/bitbrains/nebu/common/topology/PhysicalTopology.java:380-386 | equal exactly to a topology whose root has the same identifier; equal topologies hash alike |
| TopologyMerge.MergedStoresValue | src/main/java/nl/bitbrains/nebu/common/topology/PhysicalTopology.java:361-372 | a disk map holding the union of two maps with the first one's figures is, as a value, the merge keeping the first disk |
| TopologyMerge.StoreIdsAreKeys | src/main/java/nl/bitbrains/nebu/common/topology/PhysicalTopology.java:364-370 | in a keyed map, the identifiers of a listing are its keys |
| TopologyMerge.AllSeen | src/main/java/nl/bitbrains/nebu/common/topology/PhysicalTopology.java:330-348 | a loop over a listing of a keyed map that saw every listed identifier saw every key |
| TopologyMerge.HostHasDisk | src/main/java/nl/bitbrains/nebu/common/topology/PhysicalTopology.java:365-366 | whether the host has a disk with the identifier |
| TopologyMerge.PutHostDiskCopy | src/main/java/nl/bitbrains/nebu/common/topology/PhysicalTopology.java:366-368 | a copy of the disk is put under its identifier, owned by the host |
| TopologyMerge.MergeHostDisk | src/main/java/nl/bitbrains/nebu/common/topology/PhysicalTopology.java:364-370 | one loop step: a disk of the second host that the first lacks is added as a copy, others change nothing |
| TopologyMerge.AddMissingHostDisks | src/main/java/nl/bitbrains/nebu/common/topology/PhysicalTopology.java:364-370 | the host's disks become the union of both hosts' disks, with the first host's figures where both have one |
| TopologyMerge.MergeHostDiskAt | src/main/java/nl/bitbrains/nebu/common/topology/PhysicalTopology.java:364-370 | the loop step for the next listed disk keeps the merge invariant and records the disk's key as seen |
| TopologyMerge.RackHasDisk | src/main/java/nl/bitbrains/nebu/common/topology/PhysicalTopology.java:342-343 | whether the rack has a disk with the identifier |
| TopologyMerge.PutRackDiskCopy | src/main/java/nl/bitbrains/nebu/common/topology/PhysicalTopology.java:344-346 | a copy of the disk is put under its identifier, owned by the rack |
| TopologyMerge.MergeRackDisk | src/main/java/nl/bitbrains/nebu/common/topology/PhysicalTopology.java:341-348 | one loop step over the second rack's disks |
| TopologyMerge.AddMissingRackDisks | src/main/java/nl/bitbrains/nebu/common/topology/PhysicalTopology.java:341-348 | the rack's disks become the union of both racks' disks, with the first rack's figures where both have one |
| TopologyMerge.MergeRackDiskAt | src/main/java/nl/bitbrains/nebu/common/topology/PhysicalTopology.java:341-348 | the loop step for the next listed disk keeps the merge invariant and records the disk's key as seen |
| TopologyMerge.MergeRackDisks | src/main/java/nl/bitbrains/nebu/common/topology/PhysicalTopology.java:341-348 | the rack disk loop: union of keys, first rack's figures, and as a value the merge keeping the first disk |
| TopologyMerge.MergeHost | src/main/java/nl/bitbrains/nebu/common/topology/PhysicalTopology.java:361-372 | a fresh host with the first host's identifier and usage, and the union of both hosts' disks; as a value, exactly the merge of the two host values |
| TopologyMerge.FindHost | src/main/java/nl/bitbrains/nebu/common/topology/PhysicalTopology.java:331-336 | the host of the first rack with the identifier, if any |
| TopologyMerge.HostClone | src/main/java/nl/bitbrains/nebu/common/topology/PhysicalTopology.java:333-334 | the host put in place: a fresh host with fresh, keyed disks and the identifier of the second rack's host; its value is the merge with the first rack's host of the same identifier, or the second host's own value when the first rack has none |
| TopologyMerge.PutRackHost | src/main/java/nl/bitbrains/nebu/common/topology/PhysicalTopology.java:338-339 | the host is put under its identifier and linked to the rack; its value is unchanged |
| TopologyMerge.MergeRackHost | src/main/java/nl/bitbrains/nebu/common/topology/PhysicalTopology.java:331-339 | one loop step: a host of both racks is replaced by the merge of the two, a host only in the second is copied in; the rack's hosts have as value the value merge of the first rack's hosts with the second's seen so far |
| TopologyMerge.HostPutValued | src/main/java/nl/bitbrains/nebu/common/topology/PhysicalTopology.java:331-339 | putting in place of a key a host whose value is the merge of the two racks' hosts under that key extends the value merge by that key |
| TopologyMerge.MergeRackHostAt | src/main/java/nl/bitbrains/nebu/common/topology/PhysicalTopology.java:330-340 | the loop step for the next listed host keeps the merge invariants and records the host's key as seen |
| TopologyMerge.AddMergedHosts | src/main/java/nl/bitbrains/nebu/common/topology/PhysicalTopology.java:330-340 | the rack's hosts become the union of both racks' hosts, with the first rack's usage figures where both have one; from keyed racks, their value is the value merge of both racks' hosts |
| TopologyMerge.RackCopy | src/main/java/nl/bitbrains/nebu/common/topology/PhysicalTopology.java:329 | the merge starts from a fresh copy of the first rack, whose hosts have the value of the first rack's hosts (the merge with no host of the second) |
| TopologyMerge.MergeRackHosts | src/main/java/nl/bitbrains/nebu/common/topology/PhysicalTopology.java:329-340 | copy then host loop: a fresh rack with the union of hosts, whose hosts have as value the value merge of both racks' hosts, ready for the disk loop |
| TopologyMerge.MergeRack | src/main/java/nl/bitbrains/nebu/common/topology/PhysicalTopology.java:328-350 | a fresh rack with the first rack's identifier and no parent; every host and disk below it is new and has its holder as parent; its hosts and disks are the unions of both racks', with the first rack's figures where both have one; from keyed racks its value is exactly the value merge of the two racks |
| TopologyMerge.RackValueOfMerge | src/main/java/nl/bitbrains/nebu/common/topology/PhysicalTopology.java:328-350 | a rack with the first rack's identifier, the merged hosts and the merged disks has as value the value merge of the two racks |
| TopologyMerge.FindRack | src/main/java/nl/bitbrains/nebu/common/topology/PhysicalTopology.java:306-309 | the rack of the first data center with the identifier, if any |
| TopologyMerge.RackClone | src/main/java/nl/bitbrains/nebu/common/topology/PhysicalTopology.java:306-311 | the rack put in place: a fresh rack with the identifier of the second data center's rack, every host and disk below it new and linked to its holder; its value is the merge with the first data center's rack of the same identifier, or the rack's own value when there is none |
| TopologyMerge.PutDataCenterRack | src/main/java/nl/bitbrains/nebu/common/topology/PhysicalTopology.java:313-314 | the rack is put under its identifier with the data center as parent; the data center's racks stay keyed and each stays linked with everything below it; the rack's value and the nodes below it are unchanged |
| TopologyMerge.PutRackKept | src/main/java/nl/bitbrains/nebu/common/topology/PhysicalTopology.java:313-314 | a put that changes only the data center and the rack put in (whose host and disk maps stay the same) leaves that rack and every rack held before linked to their holders |
| TopologyMerge.RackPutNodes | src/main/java/nl/bitbrains/nebu/common/topology/PhysicalTopology.java:313-314 | after a rack is put into a data center, every rack, host and disk below the data center was below it before or is below the rack put in |
| TopologyMerge.PutRackClone | src/main/java/nl/bitbrains/nebu/common/topology/PhysicalTopology.java:306-314 | the clone is put under its identifier into the data center, which stays keyed and linked; its value is the merge or the copy; every node it adds below the data center is new |
| TopologyMerge.MergeDataCenterRack | src/main/java/nl/bitbrains/nebu/common/topology/PhysicalTopology.java:305-314 | one loop step: a rack of both is replaced by their merge, a rack only in the second is copied in; the data center's racks have as value the value merge of the first one's racks with the second's seen so far; every node the step adds below the data center is new |
| TopologyMerge.RackPutValued | src/main/java/nl/bitbrains/nebu/common/topology/PhysicalTopology.java:305-314 | putting in place of a key a rack whose value is the merge of the two racks under that key extends the value merge by that key |
| TopologyMerge.MergeDataCenterRackAt | src/main/java/nl/bitbrains/nebu/common/topology/PhysicalTopology.java:304-315 | the loop step for the next listed rack keeps the merge invariants and records the rack's key as seen |
| TopologyMerge.AddMergedRacks | src/main/java/nl/bitbrains/nebu/common/topology/PhysicalTopology.java:304-315 | the data center's racks become the union of both data centers' racks, all linked to it; from keyed data centers, their value is the value merge of both; every rack, host and disk below it was there before the loop or is new |
| TopologyMerge.DataCenterCopy | src/main/java/nl/bitbrains/nebu/common/topology/PhysicalTopology.java:304 | the merge starts from a fresh copy of the first data center with every node below it new, whose racks have the value of the first one's racks |
| TopologyMerge.MergeRacksInto | src/main/java/nl/bitbrains/nebu/common/topology/PhysicalTopology.java:304-315 | copy then rack loop: a fresh data center with every node below it new, holding the union of both data centers' racks, linked; from keyed data centers, with the value merge of their racks |
| TopologyMerge.MergeDataCenter | src/main/java/nl/bitbrains/nebu/common/topology/PhysicalTopology.java:302-317 | a fresh data center with the first one's identifier and no parent; every rack, host and disk below it is new and has its holder as parent; its racks are the union of both; from keyed data centers its value is exactly the value merge of the two |
| TopologyMerge.DataCenterValueOfMerge | src/main/java/nl/bitbrains/nebu/common/topology/PhysicalTopology.java:302-317 | a data center with the first one's identifier and the merged racks has as value the value merge of the two data centers |
| TopologyMerge.AllDataCentersSeen | src/main/java/nl/bitbrains/nebu/common/topology/PhysicalTopology.java:277-288 | a loop over a listing of a keyed map that saw every listed identifier saw every key |
| TopologyMerge.FindDataCenter | src/main/java/nl/bitbrains/nebu/common/topology/PhysicalTopology.java:278-282 | the data center of the first tree with the identifier, if any |
| TopologyMerge.DataCenterClone | src/main/java/nl/bitbrains/nebu/common/topology/PhysicalTopology.java:278-284 | the data center put in place: a fresh data center with the identifier of the second tree's, every rack, host and disk below it new and linked to its holder; its value is the merge with the first tree's data center of the same identifier, or its own value when there is none |
| TopologyMerge.PutRootDataCenter | src/main/java/nl/bitbrains/nebu/common/topology/PhysicalTopology.java:286-287 | the data center is put under its identifier with the root as parent; the root stays keyed and linked, every data center with everything below it; the data center's value and the nodes below it are unchanged |
| TopologyMerge.PutRootKept | src/main/java/nl/bitbrains/nebu/common/topology/PhysicalTopology.java:286-287 | a put that changes only the root and the data center put in (whose rack map stays the same) leaves every data center held before linked to the root, with everything below it |
| TopologyMerge.DataCenterPutNodes | src/main/java/nl/bitbrains/nebu/common/topology/PhysicalTopology.java:286-287 | after a data center is put into the root, every data center, rack, host and disk below the root was below it before or is below the data center put in |
| TopologyMerge.PutDataCenterClone | src/main/java/nl/bitbrains/nebu/common/topology/PhysicalTopology.java:278-287 | the clone is put under its identifier into the root, which stays keyed and linked; its value is the merge or the copy; every node it adds below the root is new |
| TopologyMerge.MergeTreeDataCenter | src/main/java/nl/bitbrains/nebu/common/topology/PhysicalTopology.java:277-287 | one loop step: a data center of both is replaced by their merge, one only in the second is copied in; the root stays keyed and linked and its data centers have as value the value merge of the first tree's with the second's seen so far; every node the step adds is new |
| TopologyMerge.DataCenterPutValued | src/main/java/nl/bitbrains/nebu/common/topology/PhysicalTopology.java:277-287 | putting in place of a key a data center whose value is the merge of the two under that key extends the value merge by that key |
| TopologyMerge.MergeTreeDataCenterAt | src/main/java/nl/bitbrains/nebu/common/topology/PhysicalTopology.java:277-288 | the loop step for the next listed data center keeps the merge invariants and records its identifier as seen |
| TopologyMerge.AddMergedDataCenters | src/main/java/nl/bitbrains/nebu/common/topology/PhysicalTopology.java:277-288 | the root's data centers become the union of both roots' data centers, all linked to it; from keyed trees, their value is the value merge of both; every node below the root was there before the loop or is new |
| TopologyMerge.TreeCopy | src/main/java/nl/bitbrains/nebu/common/topology/PhysicalTopology.java:275 | the merge starts from a fresh copy of the first tree with every node below its root new, whose data centers have the value of the first tree's |
| TopologyMerge.RootValueOfMerge | src/main/java/nl/bitbrains/nebu/common/topology/PhysicalTopology.java:269-291 | a root with the shared identifier and the merged data centers has as value the value merge of the two trees |
| TopologyMerge.MergeDataCentersInto | src/main/java/nl/bitbrains/nebu/common/topology/PhysicalTopology.java:275-288 | copy then data-center loop: a fresh tree with every node below its root new, holding the union of both trees' data centers, linked; from keyed trees, with the value merge of their data centers |
| TopologyMerge.MergeTree | src/main/java/nl/bitbrains/nebu/common/topology/PhysicalTopology.java:269-291 | null arguments fail, first argument checked first; otherwise the result and every data center, rack, host and disk below its root are new, and every node below the root has its holder as parent; different roots give a copy of the first tree, with its value and keys; equal roots give the union of both trees' data centers; from keyed trees the result's value is exactly the value merge of the two |
| TopologyBuilders.NonNullPrefix | src/main/java/nl/bitbrains/nebu/common/topology/PhysicalResourceWithDisksBuilder.java:52-58 | the length of the prefix before the first null |
| TopologyBuilders.PutEachLast | src/main/java/nl/bitbrains/nebu/common/topology/PhysicalResourceWithDisksBuilder.java:52-58 | putting elements in order: keys are the old keys and the put ones, each un-overwritten put element sits under its key, untouched old entries stay |
| TopologyBuilders.PutEachSnoc | src/main/java/nl/bitbrains/nebu/common/topology/PhysicalResourceWithDisksBuilder.java:41-45 | putting one more element extends the map by that element |
| TopologyBuilders.ResourceBuilder.constructor | src/main/java/nl/bitbrains/nebu/common/topology/PhysicalResourceBuilder.java:24-26 | a new builder has no identifier |
| TopologyBuilders.ResourceBuilder.Reset | src/main/java/nl/bitbrains/nebu/common/topology/PhysicalResourceBuilder.java:24-26 | the identifier is unset |
| TopologyBuilders.ResourceBuilder.WithUuid | src/main/java/nl/bitbrains/nebu/common/topology/PhysicalResourceBuilder.java:33-37 | a null identifier is refused with the "uuid" message and keeps the old one; otherwise it is set |
| TopologyBuilders.ResourceBuilder.CheckSet | src/main/java/nl/bitbrains/nebu/common/topology/PhysicalResourceBuilder.java:44-46 | fails exactly while no identifier is set, with the state error for "uuid" |
| TopologyBuilders.DisksBuilder.constructor | src/main/java/nl/bitbrains/nebu/common/topology/PhysicalResourceWithDisksBuilder.java:31-34 | a new builder has no identifier and no disks |
| TopologyBuilders.DisksBuilder.Reset | src/main/java/nl/bitbrains/nebu/common/topology/PhysicalResourceWithDisksBuilder.java:31-34 | the identifier and disks are cleared |
| TopologyBuilders.DisksBuilder.WithDisk | src/main/java/nl/bitbrains/nebu/common/topology/PhysicalResourceWithDisksBuilder.java:41-45 | a null disk is refused and changes nothing; otherwise the disk is put under its identifier |
| TopologyBuilders.DisksBuilder.WithDisks | src/main/java/nl/bitbrains/nebu/common/topology/PhysicalResourceWithDisksBuilder.java:52-58 | a null list is refused; otherwise the disks before the first null are put in order, and it fails exactly when there is a null |
| TopologyBuilders.RootBuilder.constructor | src/main/java/nl/bitbrains/nebu/common/topology/PhysicalRootBuilder.java:29-32 | a new builder is blank |
| TopologyBuilders.RootBuilder.Reset | src/main/java/nl/bitbrains/nebu/common/topology/PhysicalRootBuilder.java:29-32 | the builder is blank |
| TopologyBuilders.RootBuilder.WithDataCenter | src/main/java/nl/bitbrains/nebu/common/topology/PhysicalRootBuilder.java:39-43 | a null data center is refused and changes nothing; otherwise it is put under its identifier |
| TopologyBuilders.RootBuilder.WithDataCenters | src/main/java/nl/bitbrains/nebu/common/topology/PhysicalRootBuilder.java:50-56 | a null list is refused; otherwise the data centers before the first null are put in order, failing exactly when there is a null |
| TopologyBuilders.RootBuilder.Build | src/main/java/nl/bitbrains/nebu/common/topology/PhysicalRootBuilder.java:61-66 | fails exactly without an identifier, changing nothing; otherwise a fresh root with the identifier and exactly the collected data centers, and the builder is blank |
| TopologyBuilders.DataCenterBuilder.constructor | src/main/java/nl/bitbrains/nebu/common/topology/PhysicalDataCenterBuilder.java:30-34 | a new builder is blank |
| TopologyBuilders.DataCenterBuilder.Reset | src/main/java/nl/bitbrains/nebu/common/topology/PhysicalDataCenterBuilder.java:30-34 | the builder is blank |
| TopologyBuilders.DataCenterBuilder.WithParent | src/main/java/nl/bitbrains/nebu/common/topology/PhysicalDataCenterBuilder.java:41-44 | the parent is set |
| TopologyBuilders.DataCenterBuilder.WithRack | src/main/java/nl/bitbrains/nebu/common/topology/PhysicalDataCenterBuilder.java:51-55 | a null rack is refused and changes nothing; otherwise it is put under its identifier |
| TopologyBuilders.DataCenterBuilder.WithRacks | src/main/java/nl/bitbrains/nebu/common/topology/PhysicalDataCenterBuilder.java:62-68 | a null list is refused; otherwise the racks before the first null are put in order, failing exactly when there is a null |
| TopologyBuilders.DataCenterBuilder.Build | src/main/java/nl/bitbrains/nebu/common/topology/PhysicalDataCenterBuilder.java:73-79 | fails exactly without an identifier; otherwise a fresh data center with the identifier, parent and racks, and the builder is blank |
| TopologyBuilders.RackBuilder.constructor | src/main/java/nl/bitbrains/nebu/common/topology/PhysicalRackBuilder.java:30-34 | a new builder is blank |
| TopologyBuilders.RackBuilder.Reset | src/main/java/nl/bitbrains/nebu/common/topology/PhysicalRackBuilder.java:30-34 | the builder is blank |
| TopologyBuilders.RackBuilder.WithParent | src/main/java/nl/bitbrains/nebu/common/topology/PhysicalRackBuilder.java:41-44 | the parent is set |
| TopologyBuilders.RackBuilder.WithHost | src/main/java/nl/bitbrains/nebu/common/topology/PhysicalRackBuilder.java:51-55 | a null host is refused and changes nothing; otherwise it is put under its identifier |
| TopologyBuilders.RackBuilder.WithHosts | src/main/java/nl/bitbrains/nebu/common/topology/PhysicalRackBuilder.java:62-68 | a null list is refused; otherwise the hosts before the first null are put in order, failing exactly when there is a null |
| TopologyBuilders.RackBuilder.Build | src/main/java/nl/bitbrains/nebu/common/topology/PhysicalRackBuilder.java:73-79 | fails exactly without an identifier; otherwise a fresh rack with the identifier, parent, hosts and disks, and the builder is blank |
| TopologyBuilders.HostBuilder.constructor | src/main/java/nl/bitbrains/nebu/common/topology/PhysicalHostBuilder.java:27-32 | a new builder is blank |
| TopologyBuilders.HostBuilder.Reset | src/main/java/nl/bitbrains/nebu/common/topology/PhysicalHostBuilder.java:27-32 | the builder is blank, usage figures zero |
| TopologyBuilders.HostBuilder.WithParent | src/main/java/nl/bitbrains/nebu/common/topology/PhysicalHostBuilder.java:39-42 | the parent is set |
| TopologyBuilders.HostBuilder.WithCpuUsage | src/main/java/nl/bitbrains/nebu/common/topology/PhysicalHostBuilder.java:49-52 | the processor usage is set |
| TopologyBuilders.HostBuilder.WithMemUsage | src/main/java/nl/bitbrains/nebu/common/topology/PhysicalHostBuilder.java:59-62 | the memory usage is set |
| TopologyBuilders.HostBuilder.Build | src/main/java/nl/bitbrains/nebu/common/topology/PhysicalHostBuilder.java:67-73 | fails exactly without an identifier; otherwise a fresh host with the identifier, parent, disks and usage, and the builder is blank |
| TopologyBuilders.StoreBuilder.constructor | src/main/java/nl/bitbrains/nebu/common/topology/PhysicalStoreBuilder.java:24-29 | a new builder is blank |
| TopologyBuilders.StoreBuilder.Reset | src/main/java/nl/bitbrains/nebu/common/topology/PhysicalStoreBuilder.java:24-29 | the builder is blank, capacity and usage zero |
| TopologyBuilders.StoreBuilder.WithParent | src/main/java/nl/bitbrains/nebu/common/topology/PhysicalStoreBuilder.java:36-39 | the parent is set; null detaches |
| TopologyBuilders.StoreBuilder.WithCapacity | src/main/java/nl/bitbrains/nebu/common/topology/PhysicalStoreBuilder.java:46-49 | the capacity is set |
| TopologyBuilders.StoreBuilder.WithUsed | src/main/java/nl/bitbrains/nebu/common/topology/PhysicalStoreBuilder.java:56-59 | the usage is set |
| TopologyBuilders.StoreBuilder.Build | src/main/java/nl/bitbrains/nebu/common/topology/PhysicalStoreBuilder.java:64-70 | fails exactly without an identifier; otherwise a fresh store with the identifier, parent, capacity and usage, and the builder is blank |
| VirtualMachines.VirtualMachine.constructor | src/main/java/nl/bitbrains/nebu/common/VirtualMachine.java:46-53 | a machine with the given fields |
| VirtualMachines.VirtualMachine.AdoptFromOther | src/main/java/nl/bitbrains/nebu/common/VirtualMachine.java:61-67 | every field takes the other machine's value |
| VirtualMachines.VirtualMachine.IsLaunching | src/main/java/nl/bitbrains/nebu/common/VirtualMachine.java:72-74 | true exactly when the status is launching; a launching machine is not on |
| VirtualMachines.VirtualMachine.IsOn | src/main/java/nl/bitbrains/nebu/common/VirtualMachine.java:79-81 | true exactly when the status is on |
| VirtualMachines.VirtualMachine.GetStores | src/main/java/nl/bitbrains/nebu/common/VirtualMachine.java:130-132 | the store list, as a copy |
| VirtualMachines.VirtualMachine.SetStatus | src/main/java/nl/bitbrains/nebu/common/VirtualMachine.java:94-96 | only the status changes; afterwards the machine is on, or launching, exactly when the new status says so |
| VirtualMachines.VirtualMachine.SetHostname | src/main/java/nl/bitbrains/nebu/common/VirtualMachine.java:116-118 | only the host name changes |
| VirtualMachines.VirtualMachine.SetHost | src/main/java/nl/bitbrains/nebu/common/VirtualMachine.java:153-155 | only the host changes |
| VirtualMachines.VirtualMachine.SetUuid | src/main/java/nl/bitbrains/nebu/common/VirtualMachine.java:178-180 | only the identifier changes |
| VirtualMachines.VirtualMachine.AddStore | src/main/java/nl/bitbrains/nebu/common/VirtualMachine.java:138-140 | the store is appended |
| VirtualMachines.VirtualMachine.RemoveStores | src/main/java/nl/bitbrains/nebu/common/VirtualMachine.java:145-147 | the store list becomes empty |
| VirtualMachines.VirtualMachine.HashCode | src/main/java/nl/bitbrains/nebu/common/VirtualMachine.java:158-163 | a null-pointer error exactly when no identifier is set; otherwise 31 plus the documented string hash polynomial of the identifier, reduced to 32 bits |
| VirtualMachines.VirtualMachine.Equals | src/main/java/nl/bitbrains/nebu/common/VirtualMachine.java:166-172 | a non-machine is unequal; against a machine it fails exactly without an identifier, and is true exactly for the same identifier; equal machines hash alike |
| VirtualMachines.PresentPrefix | src/main/java/nl/bitbrains/nebu/common/VirtualMachineBuilder.java:103-109 | the values before the first absent element, in order |
| VirtualMachines.VirtualMachineBuilder.constructor | src/main/java/nl/bitbrains/nebu/common/VirtualMachineBuilder.java:29-31 | a new builder is blank |
| VirtualMachines.VirtualMachineBuilder.Reset | src/main/java/nl/bitbrains/nebu/common/VirtualMachineBuilder.java:36-42 | nothing set, status unknown, no stores |
| VirtualMachines.VirtualMachineBuilder.WithUuid | src/main/java/nl/bitbrains/nebu/common/VirtualMachineBuilder.java:49-53 | a null identifier is refused with the "uuid" message and keeps the old one; otherwise it is set |
| VirtualMachines.VirtualMachineBuilder.WithHostname | src/main/java/nl/bitbrains/nebu/common/VirtualMachineBuilder.java:60-64 | a null host name is refused and keeps the old one; otherwise it is set |
| VirtualMachines.VirtualMachineBuilder.WithStatus | src/main/java/nl/bitbrains/nebu/common/VirtualMachineBuilder.java:71-74 | the status is set |
| VirtualMachines.VirtualMachineBuilder.WithHost | src/main/java/nl/bitbrains/nebu/common/VirtualMachineBuilder.java:81-85 | a null host is refused and keeps the old one; otherwise it is set |
| VirtualMachines.VirtualMachineBuilder.WithDisk | src/main/java/nl/bitbrains/nebu/common/VirtualMachineBuilder.java:92-96 | a null disk is refused; otherwise it is appended |
| VirtualMachines.VirtualMachineBuilder.WithDisks | src/main/java/nl/bitbrains/nebu/common/VirtualMachineBuilder.java:103-109 | a null list is refused; otherwise the disks before the first null are appended in order, and it fails exactly when there is a null |
| VirtualMachines.VirtualMachineBuilder.Build | src/main/java/nl/bitbrains/nebu/common/VirtualMachineBuilder.java:114-120 | fails exactly without an identifier, changing nothing; otherwise a fresh machine with the collected fields, and the builder is blank |
| Cache.CacheEntry.constructor | src/main/java/nl/bitbrains/nebu/common/cache/CacheEntry.java:34-40 | an entry with the value, load time, loader and expiration |
| Cache.CacheEntry.IsValid | src/main/java/nl/bitbrains/nebu/common/cache/CacheEntry.java:81-89 | an entry without loader is always valid; one with a loader is valid exactly while its age is below the expiration time (in seconds, the clock in milliseconds) |
| Cache.CacheEntry.GetValue | src/main/java/nl/bitbrains/nebu/common/cache/CacheEntry.java:49-54 | a valid entry answers its value unchanged; an expired one asks the loader and either passes its failure on, unchanged, or takes the new value with load time now; a successful read with positive expiration leaves the entry valid |
| Cache.CacheEntry.GetNonRefreshedValue | src/main/java/nl/bitbrains/nebu/common/cache/CacheEntry.java:61-63 | the stored value, whatever its age |
| Cache.CacheManager.constructor | src/main/java/nl/bitbrains/nebu/common/cache/CacheManager.java:13 | the cache starts empty |
| Cache.CacheManager.Get | src/main/java/nl/bitbrains/nebu/common/cache/CacheManager.java:29-34 | a missing key is an argument error; otherwise the entry is read as by its getValue |
| Cache.CacheManager.Put | src/main/java/nl/bitbrains/nebu/common/cache/CacheManager.java:44-48 | a fresh entry without loader replaces the key's entry, valid at all times; other keys keep theirs |
| Cache.CacheManager.GetNoRefresh | src/main/java/nl/bitbrains/nebu/common/cache/CacheManager.java:60-65 | an argument error exactly when the key is missing; otherwise the stored value |
| Cache.CacheManager.GetWithLoaderAndExpiration | src/main/java/nl/bitbrains/nebu/common/cache/CacheManager.java:100-117 | a present key is read, whatever the loader; a missing key with a null loader is a null-pointer failure that changes nothing; otherwise the loader is asked: a failure changes nothing, a value is stored in a fresh entry at now and read back, asking the loader again when the expiration is not positive |
| Cache.CacheManager.GetWithLoader | src/main/java/nl/bitbrains/nebu/common/cache/CacheManager.java:79-83 | the same with 120 seconds: a null loader fails on a missing key; a loaded value is stored, answered and valid, so the loader is asked once |
| Cache.CacheManager.ResetCache | src/main/java/nl/bitbrains/nebu/common/cache/CacheManager.java:122-124 | the cache is empty |
| Cache.CacheManager.ClearCacheEntry | src/main/java/nl/bitbrains/nebu/common/cache/CacheManager.java:132-136 | only the key is removed |
| Configurations.ParseInt | src/main/java/nl/bitbrains/nebu/common/config/Configuration.java:150-157 | accepts exactly an optional sign followed by decimal digits whose value fits in 32 bits, and gives that value |
| Configurations.Digits | src/main/java/nl/bitbrains/nebu/common/config/Configuration.java:150-157 | the decimal digits of a natural number are non-empty and all digits |
| Configurations.DigitsValueOf | src/main/java/nl/bitbrains/nebu/common/config/Configuration.java:150-157 | reading back the decimal digits of a number gives the number |
| Configurations.ParseIntDecimal | src/main/java/nl/bitbrains/nebu/common/config/Configuration.java:150-157 | every 32-bit integer written in decimal parses back to itself |
| Configurations.ThrowInvalidConfigIfNull | src/main/java/nl/bitbrains/nebu/common/config/Configuration.java:135-140 | fails exactly on null, with "<name> was null" and an undefined property |
| Configurations.ThrowInvalidConfigIfNonInteger | src/main/java/nl/bitbrains/nebu/common/config/Configuration.java:150-157 | fails exactly when the text does not parse, with "<name> was not a number" under that property |
| Configurations.CheckPort | src/main/java/nl/bitbrains/nebu/common/config/ClientConfiguration.java:58-64 | passes exactly for 0 to 65535, otherwise "Port is out of range" under "port" |
| Configurations.ParsePort | src/main/java/nl/bitbrains/nebu/common/config/ClientConfiguration.java:47-50 | succeeds exactly when the text is a number from 0 to 65535, with that number |
| Configurations.PortOfDecimal | src/main/java/nl/bitbrains/nebu/common/config/ServerConfiguration.java:40-46 | every 32-bit integer written in decimal is set as the port exactly when it lies in 0 to 65535; any other is refused with "Port is out of range" |
| Configurations.AuthenticationConfiguration.GetUsername | src/main/java/nl/bitbrains/nebu/common/config/AuthenticationConfiguration.java:34-39 | the user name, or a configuration error exactly when it is missing |
| Configurations.AuthenticationConfiguration.GetPassword | src/main/java/nl/bitbrains/nebu/common/config/AuthenticationConfiguration.java:54-59 | the password, or a configuration error exactly when it is missing |
| Configurations.AuthenticationConfiguration.GetKeyFileLocation | src/main/java/nl/bitbrains/nebu/common/config/AuthenticationConfiguration.java:74-79 | the key file, or a configuration error exactly when it is missing |
| Configurations.ParseAuthentication | src/main/java/nl/bitbrains/nebu/common/config/AuthenticationConfiguration.java:99-110 | each getter succeeds exactly when its element is present, with that text |
| Configurations.ParseServer | src/main/java/nl/bitbrains/nebu/common/config/ServerConfiguration.java:65-71 | succeeds exactly for a valid port, which it carries; errors name the port property |
| Configurations.CheckIpAddress | src/main/java/nl/bitbrains/nebu/common/config/ClientConfiguration.java:33-39 | passes exactly for a present, non-empty address, otherwise "Ip was empty or missing" under "ip" |
| Configurations.ParseClient | src/main/java/nl/bitbrains/nebu/common/config/ClientConfiguration.java:90-100 | succeeds exactly for a valid address and port; the address is checked first; the result carries both and the parsed credentials exactly when present |
| Configurations.ParsedClients | src/main/java/nl/bitbrains/nebu/common/config/Configuration.java:77-85 | the number of leading client elements that parse; the next one, if any, fails |
| Configurations.TypesSnoc | src/main/java/nl/bitbrains/nebu/common/config/Configuration.java:77-85 | the types of a list are those of its prefix plus the last one |
| Configurations.ClientMapKeys | src/main/java/nl/bitbrains/nebu/common/config/Configuration.java:77-85 | the client map is keyed by exactly the types of the parsed clients |
| Configurations.ClientMapLast | src/main/java/nl/bitbrains/nebu/common/config/Configuration.java:77-85 | a client whose type no later client repeats is the one stored under that type |
| Configurations.Configuration.constructor | src/main/java/nl/bitbrains/nebu/common/config/Configuration.java:31-33 | a new configuration has no clients and no server |
| Configurations.Configuration.GetClientConfig | src/main/java/nl/bitbrains/nebu/common/config/Configuration.java:109-111 | the client configuration of a type, present exactly when the type is in the map |
| Configurations.ConfigurationRegistry.constructor | src/main/java/nl/bitbrains/nebu/common/config/Configuration.java:24 | no instance yet |
| Configurations.ConfigurationRegistry.Get | src/main/java/nl/bitbrains/nebu/common/config/Configuration.java:123-125 | the current instance |
| Configurations.ConfigurationRegistry.ParseXMLRootElement | src/main/java/nl/bitbrains/nebu/common/config/Configuration.java:70-93 | a missing root fails and changes nothing; otherwise a fresh instance is installed first and holds the clients parsed before the first failure (last type wins), then the server; the result is the first error or the instance |

## Left out

- The `UUIDGenerator`, the XML reader, writer and converters, and the factories
  that turn XML into entities are not part of this model. Neither is
  `Configuration.parseConfigurationFile`, which reads a file through a SAX parser.
  The configuration parsers take the already-extracted element texts (`AuthElement`,
  `ClientElement`, `ServerElement`, `RootElement`). Trimming of element text
  (`getChildTextTrim`) is therefore not modelled.
- Configurations.ParseInt: accepts ASCII digits only; Java's `Integer.parseInt` also
  accepts other Unicode decimal digits.
- Cache: the system clock is the parameter `now`, read once per call. What the
  loader answers is a parameter; `GetWithLoader` loads once, since an entry
  loaded at `now` with 120 seconds to live is still valid when read back. The loader's own code and `CacheException` message wrapping are not modelled.
- The cause chaining of `InvalidConfigurationException` is not modelled; an error
  keeps its message and property only.
- Floating-point usage figures of hosts are Dafny `real` values that are only
  copied, never computed with.
- HashMap iteration order is unspecified in the model. Every listing is some
  enumeration of the map's values, so results that depend on the order, such as
  the order of `getRacks`, are stated only up to that enumeration.
- TopologyFacade.PhysicalTopology.HasCPUByID: takes a non-null identifier; a null
  identifier (which Java compares with `equals` and never finds) is not modelled.
- TopologyFacade.PhysicalTopology.GetCPUByID: takes a non-null identifier, as above.
- VirtualMachines.VirtualMachine.AddStore: takes a non-null store name; Java accepts
  null and stores it.
- VirtualMachines.VirtualMachine.constructor: the store list is a sequence value, so
  the aliasing of the caller's list that the Java constructor keeps is not modelled.
- JavaLang.StringHash: a string is a sequence of Dafny characters (Unicode scalar
  values); Java hashes UTF-16 code units, so the two differ for characters outside
  the Basic Multilingual Plane, which Java counts as two units.
- VirtualMachines.VirtualMachine.SetStatus: the status is a non-null `Status`; Java
  accepts `null` here (VirtualMachine.java:94-96), which the model does not represent.
- VirtualMachines.VirtualMachineBuilder.WithStatus: likewise takes a non-null status,
  where Java accepts `null` (VirtualMachineBuilder.java:71-74).
- The Java messages are kept as written, including the `addCPUToRack` null rack
  reported under "host" and the `addDiskToHost` and `removeDiskFromHost` null host
  reported under "rack".
