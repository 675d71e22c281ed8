/** Per-tile descriptor sets: a builder that accumulates layout bindings and
    one uniform buffer, the set it builds, and the write that points the
    set's binding 0 at that buffer. */
module Descriptor {
  import opened Wrappers
  import opened Vulkan

  // VkShaderStageFlagBits
  const SHADER_STAGE_VERTEX: bv32 := 0x1
  const SHADER_STAGE_FRAGMENT: bv32 := 0x10

  /** VkDescriptorSetLayoutBinding without immutable samplers. */
  datatype LayoutBinding = LayoutBinding(
    binding: nat,
    descriptorType: DescriptorType,
    descriptorCount: nat,
    stageFlags: bv32)

  /** A built set: its pool, the set handle, and the buffer range it publishes. */
  datatype DescriptorSet = DescriptorSet(descriptorPool: Handle, descriptorSet: Handle, bufferInfo: BufferInfo)

  /** `build` unwraps the uniform buffer and size, and panics without them. */
  datatype BuildError = MissingUniform

  /** One pool size per binding, in order, with the binding's type and room
      for one descriptor (whatever count the binding declares). */
  function PoolSizes(bindings: seq<LayoutBinding>): (r: seq<PoolSize>)
    ensures |r| == |bindings|
    ensures forall i :: 0 <= i < |bindings| ==> r[i] == PoolSize(bindings[i].descriptorType, 1)
  {
    if bindings == [] then []
    else [PoolSize(bindings[0].descriptorType, 1)] + PoolSizes(bindings[1..])
  }

  /** Pool sizes of a longer binding list extend those of the shorter one. */
  lemma {:induction false} PoolSizesAppend(bindings: seq<LayoutBinding>, b: LayoutBinding)
    ensures PoolSizes(bindings + [b]) == PoolSizes(bindings) + [PoolSize(b.descriptorType, 1)]
  {
    if bindings != [] {
      assert (bindings + [b])[1..] == bindings[1..] + [b];
      PoolSizesAppend(bindings[1..], b);
    }
  }

  class DescriptorBuilder {
    var bindings: seq<LayoutBinding>
    var uniform: Option<Handle>
    var uniformSize: Option<nat>

    /** The buffer and its size are only ever set together. */
    ghost predicate Valid()
      reads this
    {
      uniform.Some? <==> uniformSize.Some?
    }

    /** `DescriptorSet::builder()`: no bindings, no uniform. */
    constructor ()
      ensures Valid()
      ensures bindings == [] && uniform == None && uniformSize == None
    {
      bindings := [];
      uniform := None;
      uniformSize := None;
    }

    method AddBinding(binding: LayoutBinding)
      requires Valid()
      modifies this
      ensures Valid()
      ensures bindings == old(bindings) + [binding]
      ensures uniform == old(uniform) && uniformSize == old(uniformSize)
    {
      bindings := bindings + [binding];
    }

    /** Set (or replace) the uniform buffer and its range size. */
    method Uniform(buffer: Handle, size: nat)
      requires Valid()
      modifies this
      ensures Valid()
      ensures uniform == Some(buffer) && uniformSize == Some(size)
      ensures bindings == old(bindings)
    {
      uniform := Some(buffer);
      uniformSize := Some(size);
    }

    /** Create a pool sized from the bindings, for one set; allocate one set
        with the engine's layout `layout`; then describe the uniform range
        from offset 0. The pool and set exist before a missing uniform is
        noticed. */
    method Build(device: Device, layout: Handle) returns (r: Result<DescriptorSet, BuildError>)
      requires Valid()
      modifies device
      ensures device.nextHandle == old(device.nextHandle) + 2
      ensures device.trace == old(device.trace) +
                [CreateDescriptorPool(old(device.nextHandle), PoolSizes(bindings), 1),
                 AllocateDescriptorSet(old(device.nextHandle), layout, old(device.nextHandle) + 1)]
      ensures r.Failure? <==> uniform.None?
      ensures r.Failure? ==> r.error == MissingUniform
      ensures r.Success? ==>
                r.value == DescriptorSet(old(device.nextHandle), old(device.nextHandle) + 1,
                                         BufferInfo(uniform.value, 0, uniformSize.value))
    {
      var pool := device.Fresh();
      device.Record(CreateDescriptorPool(pool, PoolSizes(bindings), 1));
      var descriptorSet := device.Fresh();
      device.Record(AllocateDescriptorSet(pool, layout, descriptorSet));
      if uniform.None? {
        return Failure(MissingUniform);
      }
      return Success(DescriptorSet(pool, descriptorSet, BufferInfo(uniform.value, 0, uniformSize.value)));
    }
  }

  /** Point binding 0, element 0 of the set at its uniform buffer range. */
  method WriteDescriptorSet(ds: DescriptorSet, device: Device)
    modifies device
    ensures device.trace == old(device.trace) + [Publish(ds)]
    ensures device.nextHandle == old(device.nextHandle)
  {
    device.Record(Publish(ds));
  }

  /** The call `WriteDescriptorSet` makes for `ds`. */
  function Publish(ds: DescriptorSet): Call
  {
    UpdateDescriptorSet(DescriptorWrite(ds.descriptorSet, 0, 0, UniformBuffer, ds.bufferInfo))
  }

  /** After publishing, binding 0 of the set holds the set's buffer range and
      every other binding of every set is as before. */
  lemma PublishBinds(t: seq<Call>, ds: DescriptorSet)
    ensures Bindings(t + [Publish(ds)]) == Bindings(t)[(ds.descriptorSet, 0) := ds.bufferInfo]
  {
    assert (t + [Publish(ds)])[..|t|] == t;
  }

  /** Publishing twice in a row binds what publishing once does. */
  lemma PublishIdempotent(t: seq<Call>, ds: DescriptorSet)
    ensures Bindings(t + [Publish(ds), Publish(ds)]) == Bindings(t + [Publish(ds)])
  {
    PublishBinds(t, ds);
    assert t + [Publish(ds), Publish(ds)] == (t + [Publish(ds)]) + [Publish(ds)];
    PublishBinds(t + [Publish(ds)], ds);
  }

  /** Calls other than descriptor updates leave every binding alone. */
  lemma {:induction false} BindingsIgnoreOtherCalls(t: seq<Call>, u: seq<Call>)
    requires forall i :: 0 <= i < |u| ==> !u[i].UpdateDescriptorSet?
    ensures Bindings(t + u) == Bindings(t)
  {
    if u != [] {
      var v := u[..|u| - 1];
      assert (t + u)[..|t + u| - 1] == t + v;
      assert (t + u)[|t + u| - 1] == u[|u| - 1];
      BindingsIgnoreOtherCalls(t, v);
      assert Bindings(t + u) == Bindings(t + v);
    } else {
      assert t + u == t;
    }
  }
}
