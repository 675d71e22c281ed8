/** Memory-type selection for a buffer allocation (`find_memory_type`).

    The rule is the one in the "Device Memory" section of the Memory
    Allocation chapter of the Vulkan 1.3 Specification: a memory type `i`
    may back a resource when bit `i` of the resource's `memoryTypeBits` is
    set, and it serves the request when its property flags contain every
    requested flag. The renderer takes the lowest such index. */
module MemorySelection {
  import opened Wrappers
  import opened Vulkan

  /** VK_MAX_MEMORY_TYPES: the fixed length of the memory-type array. */
  const MAX_MEMORY_TYPES := 32

  datatype MemoryType = MemoryType(propertyFlags: bv32, heapIndex: nat)

  /** VkPhysicalDeviceMemoryProperties (heaps omitted): a fixed array of
      which the first `memoryTypeCount` entries are meaningful. */
  datatype MemoryProperties = MemoryProperties(memoryTypeCount: nat, memoryTypes: seq<MemoryType>)

  /** What every driver reports: at most VK_MAX_MEMORY_TYPES types. */
  predicate WellFormed(p: MemoryProperties)
  {
    |p.memoryTypes| == MAX_MEMORY_TYPES && p.memoryTypeCount <= MAX_MEMORY_TYPES
  }

  /** Type `i` is allowed by the filter and has every requested property. */
  predicate Suitable(p: MemoryProperties, typeFilter: bv32, properties: bv32, i: nat)
    requires WellFormed(p) && i < p.memoryTypeCount
  {
    typeFilter & (1 << i) != 0 && Contains(p.memoryTypes[i].propertyFlags, properties)
  }

  /** No memory type below `memoryTypeCount` serves the request. */
  predicate NoneSuitable(p: MemoryProperties, typeFilter: bv32, properties: bv32)
    requires WellFormed(p)
  {
    forall j :: 0 <= j < p.memoryTypeCount ==> !Suitable(p, typeFilter, properties, j)
  }

  /** The first suitable memory type below `memoryTypeCount`, if any. */
  method FindMemoryType(p: MemoryProperties, typeFilter: bv32, properties: bv32) returns (r: Option<nat>)
    requires WellFormed(p)
    ensures r.Some? ==> r.value < p.memoryTypeCount && Suitable(p, typeFilter, properties, r.value)
    ensures r.Some? ==> forall j :: 0 <= j < r.value ==> !Suitable(p, typeFilter, properties, j)
    ensures r.None? <==> NoneSuitable(p, typeFilter, properties)
  {
    for i := 0 to p.memoryTypeCount
      invariant forall j :: 0 <= j < i ==> !Suitable(p, typeFilter, properties, j)
    {
      if typeFilter & (1 << i) != 0 && p.memoryTypes[i].propertyFlags & properties == properties {
        assert Suitable(p, typeFilter, properties, i);
        return Some(i);
      }
    }
    return None;
  }

  /** The contract of FindMemoryType pins its answer down: two answers that
      both meet it are equal, so the choice is a function of the three inputs. */
  lemma MemoryTypeChoiceIsUnique(p: MemoryProperties, typeFilter: bv32, properties: bv32, a: nat, b: nat)
    requires WellFormed(p) && a < p.memoryTypeCount && b < p.memoryTypeCount
    requires Suitable(p, typeFilter, properties, a) && forall j :: 0 <= j < a ==> !Suitable(p, typeFilter, properties, j)
    requires Suitable(p, typeFilter, properties, b) && forall j :: 0 <= j < b ==> !Suitable(p, typeFilter, properties, j)
    ensures a == b
  {
  }
}
