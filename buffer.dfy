/** A host-visible GPU buffer together with the device memory behind it.

    The memory mapped for the buffer's payload is modelled as an array of
    elements; `New` copies the payload into it through a mapping and
    `SetBuffer` overwrites a prefix of it the same way. */
module GpuBuffer {
  import opened Wrappers
  import opened Vulkan
  import MemorySelection

  /** No Rust slice spans more than `isize::MAX` bytes. */
  const SLICE_BYTES_LIMIT: int := 0x8000_0000_0000_0000

  /** What the driver reports for a freshly created buffer. */
  datatype MemoryRequirements = MemoryRequirements(size: nat, memoryTypeBits: bv32)

  datatype BufferError = NoSuitableMemoryType

  /** `memory` with its first `|data|` elements replaced by `data`. */
  function Overwritten<T>(memory: seq<T>, data: seq<T>): (r: seq<T>)
    requires |data| <= |memory|
    ensures |r| == |memory|
    ensures forall i :: 0 <= i < |data| ==> r[i] == data[i]
    ensures forall i :: |data| <= i < |memory| ==> r[i] == memory[i]
  {
    data + memory[|data|..]
  }

  /** Copy `src` element by element to the start of `dst`. */
  method CopyInto<T>(dst: array<T>, src: seq<T>)
    requires |src| <= dst.Length
    modifies dst
    ensures dst[..] == Overwritten(old(dst[..]), src)
  {
    var i := 0;
    while i < |src|
      invariant 0 <= i <= |src|
      invariant forall k :: 0 <= k < i ==> dst[k] == src[k]
      invariant forall k :: i <= k < dst.Length ==> dst[k] == old(dst[k])
    {
      dst[i] := src[i];
      i := i + 1;
    }
    var expected := Overwritten(old(dst[..]), src);
    assert forall k :: 0 <= k < dst.Length ==> dst[..][k] == expected[k];
  }

  /** The calls `New` makes when it succeeds, in order. */
  function CreationCalls(buffer: Handle, memory: Handle, size: nat, usage: bv32,
                         allocationSize: nat, memoryTypeIndex: nat): seq<Call>
  {
    [CreateBuffer(buffer, size, usage),
     AllocateMemory(memory, allocationSize, memoryTypeIndex),
     BindBufferMemory(buffer, memory),
     MapMemory(memory, size),
     UnmapMemory(memory)]
  }

  class Buffer<T(0)> {
    const handle: Handle
    const memory: Handle
    /** Payload size in bytes: element count times element size. */
    const size: nat
    /** The element count as the engine stores it, a `u32`. */
    const count: nat
    const elementSize: nat
    const device: Device
    /** The mapped range, one entry per payload element. */
    const mapped: array<T>
    ghost const memoryTypeIndex: nat
    ghost var alive: bool

    ghost predicate Valid()
      reads this
    {
      && size == mapped.Length * elementSize
      && count == mapped.Length % U32_LIMIT
      && handle != memory
    }

    function Contents(): (c: seq<T>)
      reads mapped
      ensures |c| == mapped.Length
    {
      mapped[..]
    }

    constructor Init(handle: Handle, memory: Handle, elementSize: nat, device: Device,
                     mapped: array<T>, ghost memoryTypeIndex: nat)
      requires handle != memory
      ensures Valid() && alive
      ensures this.handle == handle && this.memory == memory && this.elementSize == elementSize
      ensures this.device == device && this.mapped == mapped && this.memoryTypeIndex == memoryTypeIndex
    {
      this.handle := handle;
      this.memory := memory;
      this.size := mapped.Length * elementSize;
      this.count := mapped.Length % U32_LIMIT;
      this.elementSize := elementSize;
      this.device := device;
      this.mapped := mapped;
      this.memoryTypeIndex := memoryTypeIndex;
      alive := true;
    }

    /** Create the buffer, allocate and bind memory of the first suitable type,
        then map the payload range and copy `data` into it. Without a suitable
        memory type the engine panics right after creating the buffer. */
    static method New(data: seq<T>, elementSize: nat, usage: bv32, device: Device,
                      properties: MemorySelection.MemoryProperties,
                      requirements: MemoryRequirements, flags: bv32)
      returns (r: Result<Buffer<T>, BufferError>)
      requires MemorySelection.WellFormed(properties)
      requires |data| * elementSize < SLICE_BYTES_LIMIT
      requires requirements.size >= |data| * elementSize
      modifies device
      ensures device.nextHandle >= old(device.nextHandle) + 1
      ensures r.Failure? <==> MemorySelection.NoneSuitable(properties, requirements.memoryTypeBits, flags)
      ensures r.Failure? ==>
                device.trace == old(device.trace) + [CreateBuffer(old(device.nextHandle), |data| * elementSize, usage)]
      ensures r.Success? ==> fresh(r.value) && fresh(r.value.mapped)
      ensures r.Success? ==> r.value.Valid() && r.value.alive && r.value.device == device
      ensures r.Success? ==> r.value.Contents() == data && r.value.elementSize == elementSize
      ensures r.Success? ==> r.value.size == |data| * elementSize && r.value.count == |data| % U32_LIMIT
      ensures r.Success? ==> r.value.handle == old(device.nextHandle) && r.value.memory == old(device.nextHandle) + 1
      ensures r.Success? ==>
                var i := r.value.memoryTypeIndex;
                && i < properties.memoryTypeCount
                && MemorySelection.Suitable(properties, requirements.memoryTypeBits, flags, i)
                && (forall j :: 0 <= j < i ==> !MemorySelection.Suitable(properties, requirements.memoryTypeBits, flags, j))
      ensures r.Success? ==>
                device.trace == old(device.trace) +
                  CreationCalls(r.value.handle, r.value.memory, r.value.size, usage,
                                requirements.size, r.value.memoryTypeIndex)
    {
      var size := |data| * elementSize;
      var buffer := device.Fresh();
      device.Record(CreateBuffer(buffer, size, usage));
      var typeIndex := MemorySelection.FindMemoryType(properties, requirements.memoryTypeBits, flags);
      if typeIndex.None? {
        return Failure(NoSuitableMemoryType);
      }
      var memory := device.Fresh();
      device.Record(AllocateMemory(memory, requirements.size, typeIndex.value));
      device.Record(BindBufferMemory(buffer, memory));
      device.Record(MapMemory(memory, size));
      var mapped := new T[|data|];
      CopyInto(mapped, data);
      device.Record(UnmapMemory(memory));
      var b := new Buffer.Init(buffer, memory, elementSize, device, mapped, typeIndex.value);
      return Success(b);
    }

    /** Map the whole payload range and copy `data` over its start; elements
        past `|data|` keep their values. */
    method SetBuffer(data: seq<T>)
      requires Valid() && alive
      requires |data| <= mapped.Length
      modifies mapped, device
      ensures Contents() == Overwritten(old(Contents()), data)
      ensures device.trace == old(device.trace) + [MapMemory(memory, size), UnmapMemory(memory)]
      ensures device.nextHandle == old(device.nextHandle)
    {
      device.Record(MapMemory(memory, size));
      CopyInto(mapped, data);
      device.Record(UnmapMemory(memory));
    }

    /** Destroy the buffer, then free its memory. */
    method Drop()
      requires alive
      modifies this, device
      ensures !alive
      ensures device.trace == old(device.trace) + [DestroyBuffer(handle), FreeMemory(memory)]
      ensures device.nextHandle == old(device.nextHandle)
    {
      device.Record(DestroyBuffer(handle));
      device.Record(FreeMemory(memory));
      alive := false;
    }
  }

  /** A write covering the whole range leaves nothing of the old contents. */
  lemma FullOverwriteForgetsOld<T>(m1: seq<T>, m2: seq<T>, data: seq<T>)
    requires |data| == |m1| == |m2|
    ensures Overwritten(m1, data) == data
    ensures Overwritten(m1, data) == Overwritten(m2, data)
  {
    assert m1[|data|..] == [];
    assert m2[|data|..] == [];
  }

  /** Writing the same data twice is the same as writing it once. */
  lemma OverwriteIdempotent<T>(memory: seq<T>, data: seq<T>)
    requires |data| <= |memory|
    ensures Overwritten(Overwritten(memory, data), data) == Overwritten(memory, data)
  {
    var once := Overwritten(memory, data);
    assert once[|data|..] == memory[|data|..];
  }

  /** A later write shadows an earlier one wherever it reaches. */
  lemma OverwriteShadows<T>(memory: seq<T>, first: seq<T>, second: seq<T>)
    requires |first| <= |second| <= |memory|
    ensures Overwritten(Overwritten(memory, first), second) == Overwritten(memory, second)
  {
    var once := Overwritten(memory, first);
    assert once[|second|..] == memory[|second|..];
  }
}
