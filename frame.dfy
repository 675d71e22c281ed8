/** The engine's frame controller: `begin_draw`, `end_draw` and the one-shot
    command helpers, over the objects that setup created.

    The controller is a phase machine (Idle between frames, Recording inside
    one) with a ghost view of the in-flight fence. Each method appends to the
    device trace exactly the calls that the `Sync` module's call-sequence
    functions name, so the protocol lemmas there apply to what it does. */
module Frame {
  import opened Wrappers
  import opened Vulkan
  import opened Sync
  import MemorySelection

  datatype Phase = Idle | Recording

  class Engine {
    const device: Device
    const memoryProperties: MemorySelection.MemoryProperties
    const deviceQueue: Handle
    const framebuffers: seq<Handle>
    const extent: Extent
    const renderPass: Handle
    const pipelineLayout: Handle
    const graphicsPipeline: Handle
    const commandPool: Handle
    const descriptorSetLayout: Handle
    const drawCommandBuffer: Handle
    const imageAvailableSemaphore: Handle
    const renderFinishedSemaphore: Handle
    const inFlightFence: Handle
    var imageIndex: nat
    /** Where the device's trace stood when setup handed the objects over. */
    ghost const traceStart: nat
    /** The synchronisation state reached by replaying everything recorded since. */
    ghost var sync: SyncState
    ghost var phase: Phase

    /** The objects the frame protocol is stated over. */
    function Objects(): (o: FrameObjects)
    {
      FrameObjects(deviceQueue, drawCommandBuffer, renderPass, graphicsPipeline, framebuffers,
                   extent, imageAvailableSemaphore, renderFinishedSemaphore, inFlightFence)
    }

    /** Everything recorded since setup keeps the synchronisation rules and
        leads to `sync`. Between frames the fence is signalled or will be and
        no frame semaphore is outstanding; while recording the fence has been
        reset, the acquired image's semaphore is signalled and the frame's
        command buffer is not in flight. Only the frame's command buffer can
        be left in flight, and the device has already handed it out. */
    ghost predicate Valid()
      reads this, device
    {
      && imageAvailableSemaphore != renderFinishedSemaphore
      && MemorySelection.WellFormed(memoryProperties)
      && drawCommandBuffer < device.nextHandle
      && traceStart <= |device.trace|
      && Replay(Initial, device.trace[traceStart..], inFlightFence) == Some(sync)
      && sync.inFlight <= {drawCommandBuffer}
      && (phase == Idle ==> BetweenFrames(Objects(), sync))
      && (phase == Recording ==>
            && sync.fence == Unsignalled
            && imageAvailableSemaphore in sync.signalled
            && renderFinishedSemaphore !in sync.signalled
            && drawCommandBuffer !in sync.inFlight
            && imageIndex < |framebuffers|)
    }

    /** The end of setup: the objects, all made by `device`, are handed over,
        the fence is created signalled so that the first frame's wait returns,
        image index 0. */
    constructor (device: Device, memoryProperties: MemorySelection.MemoryProperties, deviceQueue: Handle,
                 framebuffers: seq<Handle>, extent: Extent, renderPass: Handle, pipelineLayout: Handle,
                 graphicsPipeline: Handle, commandPool: Handle, descriptorSetLayout: Handle,
                 drawCommandBuffer: Handle, imageAvailableSemaphore: Handle, renderFinishedSemaphore: Handle,
                 inFlightFence: Handle)
      requires imageAvailableSemaphore != renderFinishedSemaphore
      requires MemorySelection.WellFormed(memoryProperties)
      requires forall i :: 0 <= i < |framebuffers| ==> framebuffers[i] < device.nextHandle
      requires deviceQueue < device.nextHandle && renderPass < device.nextHandle
      requires pipelineLayout < device.nextHandle && graphicsPipeline < device.nextHandle
      requires commandPool < device.nextHandle && descriptorSetLayout < device.nextHandle
      requires drawCommandBuffer < device.nextHandle && imageAvailableSemaphore < device.nextHandle
      requires renderFinishedSemaphore < device.nextHandle && inFlightFence < device.nextHandle
      ensures Valid() && phase == Idle && sync == Initial && imageIndex == 0
      ensures traceStart == |device.trace|
      ensures this.device == device && this.memoryProperties == memoryProperties
      ensures this.deviceQueue == deviceQueue && this.framebuffers == framebuffers && this.extent == extent
      ensures this.renderPass == renderPass && this.pipelineLayout == pipelineLayout
      ensures this.graphicsPipeline == graphicsPipeline && this.commandPool == commandPool
      ensures this.descriptorSetLayout == descriptorSetLayout && this.drawCommandBuffer == drawCommandBuffer
      ensures this.imageAvailableSemaphore == imageAvailableSemaphore
      ensures this.renderFinishedSemaphore == renderFinishedSemaphore && this.inFlightFence == inFlightFence
    {
      this.device := device;
      this.memoryProperties := memoryProperties;
      this.deviceQueue := deviceQueue;
      this.framebuffers := framebuffers;
      this.extent := extent;
      this.renderPass := renderPass;
      this.pipelineLayout := pipelineLayout;
      this.graphicsPipeline := graphicsPipeline;
      this.commandPool := commandPool;
      this.descriptorSetLayout := descriptorSetLayout;
      this.drawCommandBuffer := drawCommandBuffer;
      this.imageAvailableSemaphore := imageAvailableSemaphore;
      this.renderFinishedSemaphore := renderFinishedSemaphore;
      this.inFlightFence := inFlightFence;
      traceStart := |device.trace|;
      imageIndex := 0;
      sync := Initial;
      phase := Idle;
      new;
      assert device.trace[traceStart..] == [];
    }

    /** Wait for the previous frame, acquire image `acquired` (the index the
        presentation engine hands over), reset the fence, then begin recording:
        render pass on that image's framebuffer over the full extent, pipeline,
        viewport, scissor. The fenced work of the previous frame is retired. */
    method BeginDraw(acquired: nat)
      requires Valid() && phase == Idle
      requires acquired < |framebuffers|
      modifies this, device
      ensures Valid() && phase == Recording && imageIndex == acquired
      ensures sync == SyncState(Unsignalled, old(sync).signalled + {imageAvailableSemaphore},
                                old(sync).inFlight - old(sync).fenced, {})
      ensures device.trace == old(device.trace) + BeginDrawCalls(Objects(), acquired)
      ensures device.nextHandle == old(device.nextHandle)
    {
      ghost var before := device.trace;
      device.Record(WaitForFence(inFlightFence));
      imageIndex := acquired;
      device.Record(AcquireNextImage(imageAvailableSemaphore, imageIndex));
      device.Record(ResetFence(inFlightFence));
      device.Record(BeginCommandBuffer(drawCommandBuffer, false));
      device.Record(CmdBeginRenderPass(drawCommandBuffer, renderPass, framebuffers[imageIndex], extent));
      device.Record(CmdBindPipeline(drawCommandBuffer, graphicsPipeline));
      device.Record(CmdSetViewport(drawCommandBuffer, extent));
      device.Record(CmdSetScissor(drawCommandBuffer, extent));
      assert device.trace == before + BeginDrawCalls(Objects(), acquired);
      BeginDrawReplay(Objects(), sync, acquired);
      ReplayExtended(before, traceStart, BeginDrawCalls(Objects(), acquired), inFlightFence, sync);
      sync := SyncState(Unsignalled, sync.signalled + {imageAvailableSemaphore}, sync.inFlight - sync.fenced, {});
      phase := Recording;
    }

    /** End the render pass and the recording, submit (waiting on image
        acquisition at colour-attachment output, signalling render-finished and
        the fence), then present the acquired image once rendering finished.
        The frame's command buffer is left in flight under the fence. */
    method EndDraw()
      requires Valid() && phase == Recording
      modifies this, device
      ensures Valid() && phase == Idle && imageIndex == old(imageIndex)
      ensures sync == SyncState(Pending, old(sync).signalled - {imageAvailableSemaphore},
                                old(sync).inFlight + {drawCommandBuffer}, old(sync).fenced + {drawCommandBuffer})
      ensures device.trace == old(device.trace) + EndDrawCalls(Objects(), imageIndex)
      ensures device.nextHandle == old(device.nextHandle)
    {
      ghost var before := device.trace;
      device.Record(CmdEndRenderPass(drawCommandBuffer));
      device.Record(EndCommandBuffer(drawCommandBuffer));
      device.Record(QueueSubmit(deviceQueue, drawCommandBuffer,
                                [SemaphoreWait(imageAvailableSemaphore, PIPELINE_STAGE_COLOR_ATTACHMENT_OUTPUT)],
                                [renderFinishedSemaphore], Some(inFlightFence)));
      device.Record(QueuePresent(deviceQueue, renderFinishedSemaphore, imageIndex));
      assert device.trace == before + EndDrawCalls(Objects(), imageIndex);
      EndDrawReplay(Objects(), sync, imageIndex);
      ReplayExtended(before, traceStart, EndDrawCalls(Objects(), imageIndex), inFlightFence, sync);
      sync := SyncState(Pending, sync.signalled - {imageAvailableSemaphore},
                        sync.inFlight + {drawCommandBuffer}, sync.fenced + {drawCommandBuffer});
      phase := Idle;
    }

    /** Allocate one primary command buffer from the shared pool and begin
        recording it for a single submission. */
    method BeginSingleExecCommand() returns (commandBuffer: Handle)
      requires Valid()
      modifies device
      ensures Valid()
      ensures commandBuffer == old(device.nextHandle) && device.nextHandle == commandBuffer + 1
      ensures commandBuffer != drawCommandBuffer && commandBuffer !in sync.inFlight
      ensures device.trace == old(device.trace) + SingleExecBeginCalls(commandPool, commandBuffer)
    {
      ghost var before := device.trace;
      commandBuffer := device.Fresh();
      device.Record(AllocateCommandBuffer(commandPool, commandBuffer));
      device.Record(BeginCommandBuffer(commandBuffer, true));
      assert device.trace == before + SingleExecBeginCalls(commandPool, commandBuffer);
      SingleExecBeginReplay(sync, commandPool, commandBuffer, inFlightFence);
      ReplayExtended(before, traceStart, SingleExecBeginCalls(commandPool, commandBuffer), inFlightFence, sync);
    }

    /** Finish recording, submit with no semaphores and no fence, wait until
        the queue is idle, then free the command buffer. Waiting for the queue
        retires all submitted work, the frame's included. */
    method EndSingleExecCommand(commandBuffer: Handle)
      requires Valid() && commandBuffer != drawCommandBuffer
      modifies this, device
      ensures Valid() && phase == old(phase) && imageIndex == old(imageIndex)
      ensures sync == old(sync).(fence := if old(sync).fence == Pending then Signalled else old(sync).fence,
                                 inFlight := {}, fenced := {})
      ensures device.trace == old(device.trace) + SingleExecEndCalls(deviceQueue, commandPool, commandBuffer)
      ensures device.nextHandle == old(device.nextHandle)
    {
      ghost var before := device.trace;
      device.Record(EndCommandBuffer(commandBuffer));
      device.Record(QueueSubmit(deviceQueue, commandBuffer, [], [], None));
      device.Record(QueueWaitIdle(deviceQueue));
      device.Record(FreeCommandBuffer(commandPool, commandBuffer));
      assert device.trace == before + SingleExecEndCalls(deviceQueue, commandPool, commandBuffer);
      SingleExecEndReplay(sync, deviceQueue, commandPool, commandBuffer, inFlightFence);
      ReplayExtended(before, traceStart, SingleExecEndCalls(deviceQueue, commandPool, commandBuffer),
                     inFlightFence, sync);
      sync := sync.(fence := if sync.fence == Pending then Signalled else sync.fence, inFlight := {}, fenced := {});
    }
  }

  /** Replaying a longer trace from the same start continues from where the
      shorter one ended. */
  lemma ReplayExtended(t: seq<Call>, start: nat, c: seq<Call>, fence: Handle, s: SyncState)
    requires start <= |t| && Replay(Initial, t[start..], fence) == Some(s)
    ensures Replay(Initial, (t + c)[start..], fence) == Replay(s, c, fence)
  {
    assert (t + c)[start..] == t[start..] + c;
    ReplayAppend(Initial, t[start..], c, fence);
  }

  /** Calls that other components record on the engine's device (buffer
      creation and mapping, descriptor updates, a tile's draw commands) keep
      the controller valid, in either phase. */
  twostate lemma NeutralCallsKeepValid(e: Engine, t: seq<Call>)
    requires old(e.Valid()) && unchanged(e)
    requires e.device.trace == old(e.device.trace) + t
    requires e.device.nextHandle >= old(e.device.nextHandle)
    requires forall i :: 0 <= i < |t| ==> Neutral(t[i])
    ensures e.Valid()
  {
    ReplayExtended(old(e.device.trace), e.traceStart, t, e.inFlightFence, e.sync);
    ReplayNeutral(e.sync, t, e.inFlightFence);
  }
}
