/** The slice of the Vulkan API that the renderer drives.

    Handles are opaque numbers. A `Device` stands for the logical device
    together with the queue and swapchain extensions: it hands out fresh
    handles and records, in order, every call the renderer makes on it.
    What the GPU then does with those calls is not modelled here; the
    `Sync` module replays a recorded trace against the synchronisation
    rules instead. */
module Vulkan {
  import opened Wrappers

  /** An opaque Vulkan handle; 0 plays the part of VK_NULL_HANDLE. */
  type Handle = nat

  /** 2^32: the number of values of a `u32`. */
  const U32_LIMIT: int := 0x1_0000_0000

  // VkMemoryPropertyFlagBits
  const MEMORY_PROPERTY_DEVICE_LOCAL: bv32 := 0x1
  const MEMORY_PROPERTY_HOST_VISIBLE: bv32 := 0x2
  const MEMORY_PROPERTY_HOST_COHERENT: bv32 := 0x4

  // VkQueueFlagBits
  const QUEUE_GRAPHICS: bv32 := 0x1
  const QUEUE_COMPUTE: bv32 := 0x2
  const QUEUE_TRANSFER: bv32 := 0x4

  // VkBufferUsageFlagBits
  const BUFFER_USAGE_UNIFORM_BUFFER: bv32 := 0x10
  const BUFFER_USAGE_VERTEX_BUFFER: bv32 := 0x80

  // VkPipelineStageFlagBits
  const PIPELINE_STAGE_COLOR_ATTACHMENT_OUTPUT: bv32 := 0x400

  /** `flags.contains(wanted)` on a Vulkan bit mask. */
  predicate Contains(flags: bv32, wanted: bv32)
  {
    flags & wanted == wanted
  }

  datatype Extent = Extent(width: nat, height: nat)

  datatype DescriptorType =
    | Sampler
    | CombinedImageSampler
    | SampledImage
    | StorageImage
    | UniformBuffer
    | StorageBuffer

  datatype PoolSize = PoolSize(ty: DescriptorType, descriptorCount: nat)

  /** VkDescriptorBufferInfo. */
  datatype BufferInfo = BufferInfo(buffer: Handle, offset: nat, range: nat)

  /** VkWriteDescriptorSet restricted to one buffer descriptor. */
  datatype DescriptorWrite = DescriptorWrite(
    dstSet: Handle,
    dstBinding: nat,
    dstArrayElement: nat,
    descriptorType: DescriptorType,
    bufferInfo: BufferInfo)

  /** A semaphore a submission waits on, with the stage mask it waits at. */
  datatype SemaphoreWait = SemaphoreWait(semaphore: Handle, stage: bv32)

  /** One API call, with the arguments the model keeps. */
  datatype Call =
    // buffers and memory
    | CreateBuffer(buffer: Handle, size: nat, usage: bv32)
    | AllocateMemory(memory: Handle, allocationSize: nat, memoryTypeIndex: nat)
    | BindBufferMemory(buffer: Handle, memory: Handle)
    | MapMemory(memory: Handle, size: nat)
    | UnmapMemory(memory: Handle)
    | DestroyBuffer(buffer: Handle)
    | FreeMemory(memory: Handle)
    // descriptors
    | CreateDescriptorPool(pool: Handle, poolSizes: seq<PoolSize>, maxSets: nat)
    | AllocateDescriptorSet(pool: Handle, layout: Handle, descriptorSet: Handle)
    | UpdateDescriptorSet(write: DescriptorWrite)
    // synchronisation and presentation
    | WaitForFence(fence: Handle)
    | ResetFence(fence: Handle)
    | AcquireNextImage(signalSemaphore: Handle, imageIndex: nat)
    | QueueSubmit(queue: Handle, commandBuffer: Handle, waits: seq<SemaphoreWait>,
                  signals: seq<Handle>, signalFence: Option<Handle>)
    | QueuePresent(queue: Handle, waitSemaphore: Handle, imageIndex: nat)
    | QueueWaitIdle(queue: Handle)
    // command buffers
    | AllocateCommandBuffer(commandPool: Handle, commandBuffer: Handle)
    | FreeCommandBuffer(commandPool: Handle, commandBuffer: Handle)
    | BeginCommandBuffer(commandBuffer: Handle, oneTimeSubmit: bool)
    | EndCommandBuffer(commandBuffer: Handle)
    // recorded commands
    | CmdBeginRenderPass(commandBuffer: Handle, renderPass: Handle, framebuffer: Handle, renderArea: Extent)
    | CmdBindPipeline(commandBuffer: Handle, pipeline: Handle)
    | CmdSetViewport(commandBuffer: Handle, viewport: Extent)
    | CmdSetScissor(commandBuffer: Handle, scissor: Extent)
    | CmdBindDescriptorSet(commandBuffer: Handle, pipelineLayout: Handle, firstSet: nat, descriptorSet: Handle)
    | CmdBindVertexBuffer(commandBuffer: Handle, firstBinding: nat, buffer: Handle, offset: nat)
    | CmdDraw(commandBuffer: Handle, vertexCount: nat, instanceCount: nat, firstVertex: nat, firstInstance: nat)
    | CmdEndRenderPass(commandBuffer: Handle)

  /** The device: a recorder of calls and a source of fresh handles. */
  class Device {
    var trace: seq<Call>
    var nextHandle: Handle

    constructor ()
      ensures trace == [] && nextHandle == 1
    {
      trace := [];
      nextHandle := 1;
    }

    /** A handle that the device has not handed out before. */
    method Fresh() returns (h: Handle)
      modifies this
      ensures h == old(nextHandle) && nextHandle == h + 1
      ensures trace == old(trace)
    {
      h := nextHandle;
      nextHandle := nextHandle + 1;
    }

    method Record(c: Call)
      modifies this
      ensures trace == old(trace) + [c] && nextHandle == old(nextHandle)
    {
      trace := trace + [c];
    }
  }

  /** What the device's descriptor sets point at after a trace: binding
      (set, slot) holds the buffer range of the last write to it. */
  function Bindings(t: seq<Call>): map<(Handle, nat), BufferInfo>
  {
    if t == [] then map[]
    else
      var before := Bindings(t[..|t| - 1]);
      match t[|t| - 1]
      case UpdateDescriptorSet(w) => before[(w.dstSet, w.dstBinding) := w.bufferInfo]
      case _ => before
  }
}
