/** The synchronisation rules the frame loop must respect, as a replay of a
    recorded call trace.

    A trace is replayed call by call against a `SyncState`; a call that
    breaks a rule (waiting on a fence nothing will signal, beginning a
    command buffer the GPU may still execute, waiting on a semaphore no one
    signalled, ...) makes the replay fail. The lemmas show that the call
    sequences of the frame controller never fail, whatever the game records
    in between, and that the fence is signalled once per submitted frame. */
module Sync {
  import opened Wrappers
  import opened Vulkan

  /** The in-flight fence: signalled, unsignalled with nothing pending that
      would signal it, or pending (a submission will signal it). */
  datatype FenceState = Signalled | Unsignalled | Pending

  datatype SyncState = SyncState(
    fence: FenceState,
    signalled: set<Handle>,  // binary semaphores signalled (or to be) and not yet waited on
    inFlight: set<Handle>,   // submitted command buffers the GPU may still execute
    fenced: set<Handle>)     // those of them whose completion the fence reports

  const Initial := SyncState(Signalled, {}, {}, {})

  function WaitedOn(waits: seq<SemaphoreWait>): set<Handle>
  {
    set w | w in waits :: w.semaphore
  }

  /** The effect of one call; None when the call breaks a rule. A semaphore
      counts as consumed as soon as a submission that waits on it is made, so
      re-signalling it before that submission has run is not ruled out; the
      frame sequence never does this, because the fence wait comes first. */
  function Step(s: SyncState, c: Call, fence: Handle): Option<SyncState>
  {
    match c
    case WaitForFence(f) =>
      if f != fence then Some(s)
      else if s.fence == Unsignalled then None
      else Some(s.(fence := Signalled, inFlight := s.inFlight - s.fenced, fenced := {}))
    case ResetFence(f) =>
      if f != fence then Some(s)
      else if s.fence == Pending then None
      else Some(s.(fence := Unsignalled))
    case AcquireNextImage(semaphore, _) =>
      if semaphore in s.signalled then None
      else Some(s.(signalled := s.signalled + {semaphore}))
    case QueueSubmit(_, cb, waits, signals, signalFence) =>
      var afterWait := s.signalled - WaitedOn(waits);
      var signalSet := set h | h in signals;
      if cb in s.inFlight || !(WaitedOn(waits) <= s.signalled) || signalSet * afterWait != {} then None
      else if signalFence == Some(fence) then
        if s.fence != Unsignalled then None
        else Some(SyncState(Pending, afterWait + signalSet, s.inFlight + {cb}, s.fenced + {cb}))
      else Some(s.(signalled := afterWait + signalSet, inFlight := s.inFlight + {cb}))
    case QueuePresent(_, semaphore, _) =>
      if semaphore !in s.signalled then None
      else Some(s.(signalled := s.signalled - {semaphore}))
    case QueueWaitIdle(_) =>
      Some(s.(fence := if s.fence == Pending then Signalled else s.fence, inFlight := {}, fenced := {}))
    case BeginCommandBuffer(cb, _) =>
      if cb in s.inFlight then None else Some(s)
    case FreeCommandBuffer(_, cb) =>
      if cb in s.inFlight then None else Some(s)
    case _ => Some(s)
  }

  function Replay(s: SyncState, t: seq<Call>, fence: Handle): Option<SyncState>
    decreases |t|
  {
    if t == [] then Some(s)
    else match Step(s, t[0], fence)
      case None => None
      case Some(next) => Replay(next, t[1..], fence)
  }

  /** Replaying a concatenation is replaying its halves in turn. */
  lemma {:induction false} ReplayAppend(s: SyncState, a: seq<Call>, b: seq<Call>, fence: Handle)
    ensures Replay(s, a + b, fence) ==
            match Replay(s, a, fence)
            case None => None
            case Some(mid) => Replay(mid, b, fence)
    decreases |a|
  {
    if a == [] {
      assert a + b == b;
    } else {
      assert (a + b)[0] == a[0] && (a + b)[1..] == a[1..] + b;
      match Step(s, a[0], fence)
      case None =>
      case Some(next) => ReplayAppend(next, a[1..], b, fence);
    }
  }

  /** One step of a replay taken at position `i` of a trace. */
  lemma ReplayAt(s: SyncState, t: seq<Call>, i: nat, fence: Handle, next: SyncState)
    requires i < |t| && Step(s, t[i], fence) == Some(next)
    ensures Replay(s, t[i..], fence) == Replay(next, t[i + 1..], fence)
  {
    assert t[i..][0] == t[i];
    assert t[i..][1..] == t[i + 1..];
  }

  /** Calls that the synchronisation rules do not look at: the commands a
      drawable records, descriptor updates, buffer mapping. */
  predicate Neutral(c: Call)
  {
    !(c.WaitForFence? || c.ResetFence? || c.AcquireNextImage? || c.QueueSubmit? ||
      c.QueuePresent? || c.QueueWaitIdle? || c.BeginCommandBuffer? || c.FreeCommandBuffer?)
  }

  lemma {:induction false} ReplayNeutral(s: SyncState, t: seq<Call>, fence: Handle)
    requires forall i :: 0 <= i < |t| ==> Neutral(t[i])
    ensures Replay(s, t, fence) == Some(s)
    decreases |t|
  {
    if t != [] {
      assert Neutral(t[0]);
      ReplayNeutral(s, t[1..], fence);
    }
  }

  // ---- the frame controller's call sequences ---------------------------------

  /** The objects the frame controller synchronises with. */
  datatype FrameObjects = FrameObjects(
    queue: Handle,
    commandBuffer: Handle,
    renderPass: Handle,
    pipeline: Handle,
    framebuffers: seq<Handle>,
    extent: Extent,
    imageAvailable: Handle,
    renderFinished: Handle,
    fence: Handle)

  /** What `begin_draw` asks of the device for acquired image `imageIndex`. */
  function BeginDrawCalls(o: FrameObjects, imageIndex: nat): seq<Call>
    requires imageIndex < |o.framebuffers|
  {
    [ WaitForFence(o.fence),
      AcquireNextImage(o.imageAvailable, imageIndex),
      ResetFence(o.fence),
      BeginCommandBuffer(o.commandBuffer, false),
      CmdBeginRenderPass(o.commandBuffer, o.renderPass, o.framebuffers[imageIndex], o.extent),
      CmdBindPipeline(o.commandBuffer, o.pipeline),
      CmdSetViewport(o.commandBuffer, o.extent),
      CmdSetScissor(o.commandBuffer, o.extent) ]
  }

  /** What `end_draw` asks of the device for acquired image `imageIndex`. */
  function EndDrawCalls(o: FrameObjects, imageIndex: nat): seq<Call>
  {
    [ CmdEndRenderPass(o.commandBuffer),
      EndCommandBuffer(o.commandBuffer),
      QueueSubmit(o.queue, o.commandBuffer,
                  [SemaphoreWait(o.imageAvailable, PIPELINE_STAGE_COLOR_ATTACHMENT_OUTPUT)],
                  [o.renderFinished], Some(o.fence)),
      QueuePresent(o.queue, o.renderFinished, imageIndex) ]
  }

  /** One frame: begin, whatever was recorded in between, end. */
  function FrameCalls(o: FrameObjects, imageIndex: nat, recorded: seq<Call>): seq<Call>
    requires imageIndex < |o.framebuffers|
  {
    BeginDrawCalls(o, imageIndex) + recorded + EndDrawCalls(o, imageIndex)
  }

  /** Between frames: the fence will be or is signalled, neither frame
      semaphore is outstanding, and the frame command buffer, if the GPU may
      still execute it, is covered by the fence. */
  predicate BetweenFrames(o: FrameObjects, s: SyncState)
  {
    && s.fence != Unsignalled
    && o.imageAvailable !in s.signalled
    && o.renderFinished !in s.signalled
    && (o.commandBuffer in s.inFlight ==> o.commandBuffer in s.fenced)
  }

  lemma BeginDrawReplay(o: FrameObjects, s: SyncState, imageIndex: nat)
    requires imageIndex < |o.framebuffers|
    requires BetweenFrames(o, s)
    ensures Replay(s, BeginDrawCalls(o, imageIndex), o.fence) ==
            Some(SyncState(Unsignalled, s.signalled + {o.imageAvailable}, s.inFlight - s.fenced, {}))
  {
    var calls := BeginDrawCalls(o, imageIndex);
    var s3 := SyncState(Unsignalled, s.signalled + {o.imageAvailable}, s.inFlight - s.fenced, {});
    BeginDrawSyncSteps(o, s, imageIndex);
    var recording := calls[4..];
    assert recording == [calls[4], calls[5], calls[6], calls[7]];
    ReplayNeutral(s3, recording, o.fence);
  }

  /** The wait, acquire, reset and begin at the head of `begin_draw`. */
  lemma BeginDrawSyncSteps(o: FrameObjects, s: SyncState, imageIndex: nat)
    requires imageIndex < |o.framebuffers|
    requires BetweenFrames(o, s)
    ensures var calls := BeginDrawCalls(o, imageIndex);
            Replay(s, calls, o.fence) ==
            Replay(SyncState(Unsignalled, s.signalled + {o.imageAvailable}, s.inFlight - s.fenced, {}),
                   calls[4..], o.fence)
  {
    var calls := BeginDrawCalls(o, imageIndex);
    var s1 := s.(fence := Signalled, inFlight := s.inFlight - s.fenced, fenced := {});
    var s2 := s1.(signalled := s1.signalled + {o.imageAvailable});
    var s3 := s2.(fence := Unsignalled);
    ReplayAt(s, calls, 0, o.fence, s1);
    ReplayAt(s1, calls, 1, o.fence, s2);
    ReplayAt(s2, calls, 2, o.fence, s3);
    ReplayAt(s3, calls, 3, o.fence, s3);
    assert calls[0..] == calls;
  }

  lemma EndDrawReplay(o: FrameObjects, s: SyncState, imageIndex: nat)
    requires o.imageAvailable != o.renderFinished
    requires s.fence == Unsignalled && o.imageAvailable in s.signalled && o.renderFinished !in s.signalled
    requires o.commandBuffer !in s.inFlight
    ensures Replay(s, EndDrawCalls(o, imageIndex), o.fence) ==
            Some(SyncState(Pending, s.signalled - {o.imageAvailable}, s.inFlight + {o.commandBuffer},
                           s.fenced + {o.commandBuffer}))
  {
    var calls := EndDrawCalls(o, imageIndex);
    var s3 := SyncState(Pending, s.signalled - {o.imageAvailable} + {o.renderFinished},
                        s.inFlight + {o.commandBuffer}, s.fenced + {o.commandBuffer});
    var s4 := s3.(signalled := s3.signalled - {o.renderFinished});
    FrameSubmitStep(o, s);
    ReplayAt(s, calls, 2, o.fence, s3);
    ReplayAt(s3, calls, 3, o.fence, s4);
    assert calls[4..] == [];
    assert s4.signalled == s.signalled - {o.imageAvailable};
    ReplayNeutral(s, calls[..2], o.fence);
    assert calls == calls[..2] + calls[2..];
    ReplayAppend(s, calls[..2], calls[2..], o.fence);
  }

  /** The frame's submission: consume image-available, signal render-finished
      and the fence, and put the frame's command buffer in flight under it. */
  lemma FrameSubmitStep(o: FrameObjects, s: SyncState)
    requires o.imageAvailable != o.renderFinished
    requires s.fence == Unsignalled && o.imageAvailable in s.signalled && o.renderFinished !in s.signalled
    requires o.commandBuffer !in s.inFlight
    ensures Step(s, QueueSubmit(o.queue, o.commandBuffer,
                                [SemaphoreWait(o.imageAvailable, PIPELINE_STAGE_COLOR_ATTACHMENT_OUTPUT)],
                                [o.renderFinished], Some(o.fence)), o.fence) ==
            Some(SyncState(Pending, s.signalled - {o.imageAvailable} + {o.renderFinished},
                           s.inFlight + {o.commandBuffer}, s.fenced + {o.commandBuffer}))
  {
    var waits := [SemaphoreWait(o.imageAvailable, PIPELINE_STAGE_COLOR_ATTACHMENT_OUTPUT)];
    assert WaitedOn(waits) == {o.imageAvailable} by {
      assert waits[0] in waits;
    }
    assert (set h | h in [o.renderFinished]) == {o.renderFinished};
    assert (set h | h in [o.renderFinished]) * (s.signalled - WaitedOn(waits)) == {};
    var c := QueueSubmit(o.queue, o.commandBuffer, waits, [o.renderFinished], Some(o.fence));
    assert Step(s, c, o.fence).Some?;
    assert Step(s, c, o.fence).value.signalled == s.signalled - {o.imageAvailable} + {o.renderFinished};
  }

  /** One whole frame keeps the protocol, whatever neutral commands were
      recorded inside it, and leaves the frame's work pending on the fence. */
  lemma FrameReplay(o: FrameObjects, s: SyncState, imageIndex: nat, recorded: seq<Call>)
    requires imageIndex < |o.framebuffers|
    requires o.imageAvailable != o.renderFinished
    requires BetweenFrames(o, s)
    requires forall i :: 0 <= i < |recorded| ==> Neutral(recorded[i])
    ensures Replay(s, FrameCalls(o, imageIndex, recorded), o.fence) ==
            Some(SyncState(Pending, s.signalled, (s.inFlight - s.fenced) + {o.commandBuffer}, {o.commandBuffer}))
  {
    var begin := BeginDrawCalls(o, imageIndex);
    var end := EndDrawCalls(o, imageIndex);
    var mid := SyncState(Unsignalled, s.signalled + {o.imageAvailable}, s.inFlight - s.fenced, {});
    BeginDrawReplay(o, s, imageIndex);
    ReplayNeutral(mid, recorded, o.fence);
    EndDrawReplay(o, mid, imageIndex);
    ReplayAppend(s, begin, recorded, o.fence);
    ReplayAppend(s, begin + recorded, end, o.fence);
    assert (s.signalled + {o.imageAvailable}) - {o.imageAvailable} == s.signalled;
    assert mid.fenced + {o.commandBuffer} == {o.commandBuffer};
  }

  /** Frames back to back: one acquired index and one recording per frame. */
  function Frames(o: FrameObjects, indices: seq<nat>, recordings: seq<seq<Call>>): seq<Call>
    requires |indices| == |recordings|
    requires forall k :: 0 <= k < |indices| ==> indices[k] < |o.framebuffers|
  {
    if indices == [] then []
    else Frames(o, indices[..|indices| - 1], recordings[..|indices| - 1]) +
         FrameCalls(o, indices[|indices| - 1], recordings[|indices| - 1])
  }

  /** Starting from the engine's state after setup (fence created signalled,
      nothing submitted), any number of frames keeps the protocol: no fence
      wait ever blocks forever, the command buffer is never re-begun while the
      GPU may still run it, every semaphore wait has its signal. */
  lemma {:induction false} FrameLoopKeepsProtocol(o: FrameObjects, indices: seq<nat>, recordings: seq<seq<Call>>)
    requires o.imageAvailable != o.renderFinished
    requires |indices| == |recordings|
    requires forall k :: 0 <= k < |indices| ==> indices[k] < |o.framebuffers|
    requires forall k, i :: 0 <= k < |recordings| && 0 <= i < |recordings[k]| ==> Neutral(recordings[k][i])
    ensures Replay(Initial, Frames(o, indices, recordings), o.fence) ==
            Some(if indices == [] then Initial else SyncState(Pending, {}, {o.commandBuffer}, {o.commandBuffer}))
  {
    if indices != [] {
      var n := |indices| - 1;
      FrameLoopKeepsProtocol(o, indices[..n], recordings[..n]);
      var before := if n == 0 then Initial else SyncState(Pending, {}, {o.commandBuffer}, {o.commandBuffer});
      assert indices[..n] == [] <==> n == 0;
      forall i | 0 <= i < |recordings[n]| ensures Neutral(recordings[n][i]) { }
      FrameReplay(o, before, indices[n], recordings[n]);
      assert (before.inFlight - before.fenced) + {o.commandBuffer} == {o.commandBuffer};
      ReplayAppend(Initial, Frames(o, indices[..n], recordings[..n]), FrameCalls(o, indices[n], recordings[n]), o.fence);
      assert Frames(o, indices, recordings) ==
             Frames(o, indices[..n], recordings[..n]) + FrameCalls(o, indices[n], recordings[n]);
    }
  }

  /** The number of submissions in a trace that signal `fence`. */
  function FenceSignals(t: seq<Call>, fence: Handle): nat
  {
    if t == [] then 0
    else FenceSignals(t[..|t| - 1], fence) +
         (if t[|t| - 1].QueueSubmit? && t[|t| - 1].signalFence == Some(fence) then 1 else 0)
  }

  lemma {:induction false} FenceSignalsAppend(a: seq<Call>, b: seq<Call>, fence: Handle)
    ensures FenceSignals(a + b, fence) == FenceSignals(a, fence) + FenceSignals(b, fence)
    decreases |b|
  {
    if b == [] {
      assert a + b == a;
    } else {
      var n := |b| - 1;
      assert (a + b)[..|a + b| - 1] == a + b[..n];
      FenceSignalsAppend(a, b[..n], fence);
    }
  }

  /** The fence is signalled exactly once per submitted frame, provided the
      recorded commands submit nothing themselves. */
  lemma {:induction false} OneFenceSignalPerFrame(o: FrameObjects, indices: seq<nat>, recordings: seq<seq<Call>>)
    requires |indices| == |recordings|
    requires forall k :: 0 <= k < |indices| ==> indices[k] < |o.framebuffers|
    requires forall k, i :: 0 <= k < |recordings| && 0 <= i < |recordings[k]| ==> Neutral(recordings[k][i])
    ensures FenceSignals(Frames(o, indices, recordings), o.fence) == |indices|
  {
    if indices != [] {
      var n := |indices| - 1;
      OneFenceSignalPerFrame(o, indices[..n], recordings[..n]);
      FrameSignalsFenceOnce(o, indices[n], recordings[n]);
      FenceSignalsAppend(Frames(o, indices[..n], recordings[..n]), FrameCalls(o, indices[n], recordings[n]), o.fence);
    }
  }

  lemma FrameSignalsFenceOnce(o: FrameObjects, imageIndex: nat, recorded: seq<Call>)
    requires imageIndex < |o.framebuffers|
    requires forall i :: 0 <= i < |recorded| ==> Neutral(recorded[i])
    ensures FenceSignals(FrameCalls(o, imageIndex, recorded), o.fence) == 1
  {
    var begin := BeginDrawCalls(o, imageIndex);
    var end := EndDrawCalls(o, imageIndex);
    NoSubmitNoSignal(begin, o.fence);
    NoSubmitNoSignal(recorded, o.fence);
    NoSubmitNoSignal(end[..2], o.fence);
    assert end[..3][..2] == end[..2];
    assert end[..4][..3] == end[..3];
    assert end[..4] == end;
    FenceSignalsAppend(begin, recorded, o.fence);
    FenceSignalsAppend(begin + recorded, end, o.fence);
  }

  lemma {:induction false} NoSubmitNoSignal(t: seq<Call>, fence: Handle)
    requires forall i :: 0 <= i < |t| ==> !t[i].QueueSubmit?
    ensures FenceSignals(t, fence) == 0
    decreases |t|
  {
    if t != [] {
      NoSubmitNoSignal(t[..|t| - 1], fence);
    }
  }

  // ---- one-shot command buffers ----------------------------------------------

  /** What `begin_single_exec_command` asks of the device. */
  function SingleExecBeginCalls(commandPool: Handle, cb: Handle): seq<Call>
  {
    [AllocateCommandBuffer(commandPool, cb), BeginCommandBuffer(cb, true)]
  }

  /** What `end_single_exec_command` asks of the device. */
  function SingleExecEndCalls(queue: Handle, commandPool: Handle, cb: Handle): seq<Call>
  {
    [EndCommandBuffer(cb), QueueSubmit(queue, cb, [], [], None), QueueWaitIdle(queue), FreeCommandBuffer(commandPool, cb)]
  }

  /** A one-shot command keeps the protocol for a freshly allocated buffer
      and is synchronous: afterwards the GPU has no outstanding work and a
      pending fence has been signalled. */
  lemma SingleExecIsSynchronous(s: SyncState, queue: Handle, commandPool: Handle, cb: Handle,
                                recorded: seq<Call>, fence: Handle)
    requires cb !in s.inFlight
    requires forall i :: 0 <= i < |recorded| ==> Neutral(recorded[i])
    ensures Replay(s, SingleExecBeginCalls(commandPool, cb) + recorded + SingleExecEndCalls(queue, commandPool, cb), fence) ==
            Some(s.(fence := if s.fence == Pending then Signalled else s.fence, inFlight := {}, fenced := {}))
  {
    var begin := SingleExecBeginCalls(commandPool, cb);
    SingleExecBeginReplay(s, commandPool, cb, fence);
    ReplayNeutral(s, recorded, fence);
    SingleExecEndReplay(s, queue, commandPool, cb, fence);
    ReplayAppend(s, begin, recorded, fence);
    ReplayAppend(s, begin + recorded, SingleExecEndCalls(queue, commandPool, cb), fence);
  }

  /** Allocating and beginning a command buffer the GPU is not running
      keeps the protocol and changes nothing it tracks. */
  lemma SingleExecBeginReplay(s: SyncState, commandPool: Handle, cb: Handle, fence: Handle)
    requires cb !in s.inFlight
    ensures Replay(s, SingleExecBeginCalls(commandPool, cb), fence) == Some(s)
  {
    var begin := SingleExecBeginCalls(commandPool, cb);
    ReplayAt(s, begin, 0, fence, s);
    ReplayAt(s, begin, 1, fence, s);
    assert begin[2..] == [] && begin[0..] == begin;
  }

  lemma SingleExecEndReplay(s: SyncState, queue: Handle, commandPool: Handle, cb: Handle, fence: Handle)
    requires cb !in s.inFlight
    ensures Replay(s, SingleExecEndCalls(queue, commandPool, cb), fence) ==
            Some(s.(fence := if s.fence == Pending then Signalled else s.fence, inFlight := {}, fenced := {}))
  {
    var end := SingleExecEndCalls(queue, commandPool, cb);
    var s1 := s.(inFlight := s.inFlight + {cb});
    var s2 := s.(fence := if s.fence == Pending then Signalled else s.fence, inFlight := {}, fenced := {});
    ReplayAt(s, end, 0, fence, s);
    BareSubmitStep(s, queue, cb, fence);
    ReplayAt(s, end, 1, fence, s1);
    ReplayAt(s1, end, 2, fence, s2);
    ReplayAt(s2, end, 3, fence, s2);
    assert end[4..] == [] && end[0..] == end;
  }

  /** A submission with no semaphores and no fence only marks the buffer in flight. */
  lemma BareSubmitStep(s: SyncState, queue: Handle, cb: Handle, fence: Handle)
    requires cb !in s.inFlight
    ensures Step(s, QueueSubmit(queue, cb, [], [], None), fence) == Some(s.(inFlight := s.inFlight + {cb}))
  {
    assert WaitedOn([]) == {};
    assert (set h: Handle | h in []) == {};
    assert (s.signalled - {}) + {} == s.signalled;
  }
}
