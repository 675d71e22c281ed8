# snake-vulkan-rs, modelled in Dafny

snake-vulkan-rs is a snake game on a 10 x 10 board, drawn with Vulkan. Each
board cell is a tile: a six-vertex quad in a host-visible vertex buffer, plus
a one-entry uniform buffer holding the tile's colour. A per-tile descriptor
set publishes that uniform buffer to the fragment shader. Every frame, the
engine does four things in order:
- waits for the previous frame;
- acquires a swapchain image;
- records one draw per tile between `begin_draw` and `end_draw`;
- submits and presents.

The game advances one tick at a time. Each tick:
- the head moves one cell in the current direction;
- on an apple, the snake grows and a new apple appears at random;
- otherwise the tail follows along a queue of pending turns;
- running into the border or into the snake ends the game.

This project models:
- the game rules, as a `Game` class over a map from cells to tile states;
- the engine pieces the game relies on: memory-type selection, the setup
  selection rules, buffers with mapped memory, the descriptor builder, the
  tile renderer, and the frame controller.

The rules are proved against value-level specifications.

Modules:
- `Wrappers`: `Option`, `Result` and `Outcome`.
- `Vulkan`: handles, flag constants and the API calls the renderer makes.
  A `Device` hands out fresh handles and records every call in order. `Bindings` replays a
  trace to say what each descriptor binding points at.
- `MemorySelection`: `find_memory_type`, the memory-type selection rule of
  the "Device Memory" section of the Memory Allocation chapter of the
  Vulkan 1.3 Specification.
- `Selection`: the rules `Engine::new` applies once. It picks the first
  discrete or integrated GPU and the first queue family with graphics and
  transfer. It picks the preferred surface format, falling back to the first
  format, and the IMMEDIATE present mode. It clamps the framebuffer size into
  the surface's extent range and asks for one image more than the minimum.
- `Sync`: the synchronisation rules the frame loop must respect, as a
  replay of a call trace. A fence wait needs something that signals the fence. A command buffer must
  not be begun or freed while the GPU may still run it. A semaphore is waited
  on only after it is signalled. The lemmas show that the frame controller's
  call sequences never break a rule, over any number of frames, and that
  the fence is signalled once per frame.
- `Frame`: the engine's frame controller (`begin_draw`, `end_draw`, the
  one-shot command helpers). It is a class with a ghost phase (Idle or
  Recording) and a ghost synchronisation state. Its invariant says that
  everything recorded on the device since setup replays under the `Sync`
  rules to that state. Every method appends exactly the calls `Sync` reasons
  about and advances the state by them.
- `GpuBuffer`: a buffer and its memory, with the mapped payload as an
  array. Creation copies the payload in, `SetBuffer` overwrites a prefix,
  and `Drop` destroys the buffer before freeing the memory.
- `Descriptor`: the accumulate-then-build descriptor builder and the
  descriptor write.
- `Tiles`: tile states, the colour map, the quad in integer pixel space,
  tile creation and a tile's draw command sequence.
- `SnakeGame`: the board (`Board` as a value, `TickSpec` as the rule for one
  tick) and the `Game` class that updates its fields the way the game
  does.

## Model

| member | source | states |
|---|---|---|
| MemorySelection.FindMemoryType | src/engine/mod.rs:752-764 | If it returns an index, that index is below `memory_type_count`, its filter bit is set and its flags contain every requested flag. Every lower index fails one of those tests. It returns None exactly when no index below the count qualifies. |
| MemorySelection.MemoryTypeChoiceIsUnique | src/engine/mod.rs:752-764 | Two indices that both meet FindMemoryType's contract are equal. So the chosen memory type is a function of the properties, the filter and the flags. |
| Selection.FirstMatch | src/engine/mod.rs:128-139 | The first index whose element matches, or None exactly when no element matches (the `filter(..).nth(0)` and `find` iterator searches). |
| Selection.SelectGpu | src/engine/mod.rs:128-139 | The chosen GPU is discrete or integrated and every earlier GPU is neither. Selection fails exactly when no GPU is discrete or integrated. |
| Selection.SelectQueueFamily | src/engine/mod.rs:150-158 | The chosen queue family's flags contain both GRAPHICS and TRANSFER and no earlier family's do. Selection fails exactly when none does. |
| Selection.SelectSurfaceFormat | src/engine/mod.rs:211-217 | If some format is B8G8R8A8_SRGB with SRGB_NONLINEAR, the result is the first such format. Otherwise the result is the first format. Selection fails exactly on an empty list. |
| Selection.SelectPresentMode | src/engine/mod.rs:219-221 | The result is IMMEDIATE, and selection succeeds exactly when the surface offers IMMEDIATE. |
| Selection.AsU32 | src/engine/mod.rs:225-226 | `i32 as u32`: a non-negative value is kept and a negative one wraps by 2^32. |
| Selection.Clamp | src/engine/mod.rs:225-226 | `u32::clamp`: a value in range is kept, below the range gives the minimum, above it gives the maximum. It fails (the standard library panics) exactly when min > max. |
| Selection.ChooseExtent | src/engine/mod.rs:223-227 | Each axis is the framebuffer size, read as `u32` (a negative `i32` wraps), clamped into the surface range: the wrapped value is kept when in range, the minimum below it, the maximum above it. It fails exactly when a range is empty. |
| Selection.ChooseSwapchain | src/engine/mod.rs:211-231 | Checks run in order: format, then present mode, then extent. On success the settings are exactly the preferred-first surface format, IMMEDIATE, the clamped extent, and the surface minimum image count + 1. |
| Sync.BeginDrawCalls | src/engine/mod.rs:587-621 | The calls `begin_draw` makes, in order. It is the definition that `Engine.BeginDraw` is stated against and that `BeginDrawReplay` gives meaning to. |
| Sync.EndDrawCalls | src/engine/mod.rs:623-650 | The calls `end_draw` makes, in order. It is the definition that `Engine.EndDraw` is stated against and that `EndDrawReplay` gives meaning to. |
| Sync.FrameCalls | src/engine/mod.rs:587-650 | One frame: the `begin_draw` calls, what was recorded in between, and the `end_draw` calls. It is the definition the frame lemmas are stated over. |
| Sync.SingleExecBeginCalls | src/engine/mod.rs:652-671 | The calls `begin_single_exec_command` makes. It is the definition that `Engine.BeginSingleExecCommand` is stated against. |
| Sync.SingleExecEndCalls | src/engine/mod.rs:673-691 | The calls `end_single_exec_command` makes. It is the definition that `Engine.EndSingleExecCommand` is stated against. |
| Sync.BeginDrawReplay | src/engine/mod.rs:587-621 | From any between-frames state, `begin_draw`'s calls keep the rules. They leave the fence unsignalled and the image-available semaphore signalled. The frame command buffer is no longer in flight. |
| Sync.BeginDrawSyncSteps | src/engine/mod.rs:589-594 | The wait, the acquire, the reset and the begin succeed in that order. The wait passes because the fence is signalled or pending. The begin passes because the wait retired the fenced command buffer. |
| Sync.EndDrawReplay | src/engine/mod.rs:623-650 | `end_draw`'s calls keep the rules. The submission consumes image-available and the present consumes render-finished. The fence is left pending over the frame's command buffer. |
| Sync.FrameSubmitStep | src/engine/mod.rs:628-639 | The frame submission: waits on image-available, signals render-finished, and arms the fence over the draw command buffer. |
| Sync.FrameReplay | src/engine/mod.rs:587-650 | One frame, with any rule-neutral commands recorded inside it, keeps the rules. It ends with the frame's work pending on the fence and no semaphore outstanding. |
| Sync.FrameLoopKeepsProtocol | src/engine/mod.rs:543-549 | Starting from the fence created signalled, any number of frames back to back keeps the rules. This includes the first frame's fence wait. |
| Sync.OneFenceSignalPerFrame | src/engine/mod.rs:628-639 | Over any number of frames, the fence is armed by exactly one submission per frame. |
| Sync.FrameSignalsFenceOnce | src/engine/mod.rs:587-650 | A single frame signals the fence exactly once. |
| Sync.SingleExecIsSynchronous | src/engine/mod.rs:652-691 | A one-shot command on a fresh command buffer keeps the rules. Afterwards no work is in flight, and a pending fence is signalled. |
| Sync.SingleExecEndReplay | src/engine/mod.rs:673-691 | End, submit with no semaphores or fence, wait idle, free: this keeps the rules and retires all in-flight work. |
| Sync.SingleExecBeginReplay | src/engine/mod.rs:652-671 | Allocating and beginning a command buffer that is not in flight keeps the rules and changes no tracked state. |
| Sync.BareSubmitStep | src/engine/mod.rs:677-685 | A submission with no semaphores and no fence only marks its command buffer in flight. |
| Frame.Engine.constructor | src/engine/mod.rs:543-582 | The controller starts idle, with the synchronisation state of a fence created signalled, nothing submitted and image index 0. It keeps the objects setup created, all made by the same device. |
| Frame.Engine.BeginDraw | src/engine/mod.rs:587-621 | Appends, in order: wait on the fence, acquire into image-available, reset the fence, begin recording, begin the render pass on the acquired framebuffer over the full extent, bind the pipeline, set viewport and scissor. Everything recorded since setup still replays under the synchronisation rules. The state advances to: fence reset, image-available signalled, the previous frame retired. The controller is left recording the acquired index. |
| Frame.Engine.EndDraw | src/engine/mod.rs:623-650 | Appends, in order: end the render pass, end recording, submit (waiting on image-available at colour-attachment output, signalling render-finished and the fence), present the stored image index waiting on render-finished. The trace still replays under the rules, and the state advances to the frame pending on the fence. |
| Frame.Engine.BeginSingleExecCommand | src/engine/mod.rs:652-671 | Allocates one fresh command buffer from the shared pool and begins it for one-time submission. The buffer differs from the frame's and is not in flight, and the trace still replays under the rules. |
| Frame.Engine.EndSingleExecCommand | src/engine/mod.rs:673-691 | Appends, in order: end recording, submit with no semaphores and no fence, wait for the queue to go idle, free the command buffer. The trace still replays under the rules, and the state advances to nothing in flight with a pending fence signalled. |
| Frame.NeutralCallsKeepValid | src/game/tile.rs:71-106 | Calls the rules ignore, such as the ones a tile records between `begin_draw` and `end_draw`, keep the controller valid in either phase. |
| GpuBuffer.Overwritten | src/engine/buffer.rs:71-77 | The first `\|data\|` elements are replaced by `data`, later elements are kept, and the length is unchanged. |
| GpuBuffer.CopyInto | src/engine/buffer.rs:50 | The element-by-element copy into mapped memory leaves the array equal to `Overwritten` of its old contents. |
| GpuBuffer.CreationCalls | src/engine/buffer.rs:24-51 | The calls a successful `Buffer::new` makes, in order. It is the definition that `Buffer.New` and `Tile.New` are stated against. |
| GpuBuffer.Buffer.Init | src/engine/buffer.rs:53-59 | Records size = length * element size and count = length mod 2^32, with buffer and memory handles distinct. |
| GpuBuffer.Buffer.New | src/engine/buffer.rs:16-61 | Creates the buffer at len * sizeof(T) bytes. It fails exactly when no memory type is suitable, having created only the buffer. On success, the calls are: allocate memory of the first suitable type, bind, map, copy, unmap. Read back, the mapped contents equal the payload, and size and count are recorded. |
| GpuBuffer.Buffer.SetBuffer | src/engine/buffer.rs:71-77 | Maps the whole range, overwrites the prefix with `data` (later elements unchanged), unmaps. Handle, memory, size and count are unchanged. |
| GpuBuffer.Buffer.Drop | src/engine/buffer.rs:80-87 | Destroys the buffer, then frees its memory, each exactly once, and marks the buffer dead. |
| GpuBuffer.FullOverwriteForgetsOld | src/engine/buffer.rs:73-74 | A full-length write leaves exactly the new data, whatever was there before. |
| GpuBuffer.OverwriteIdempotent | src/engine/buffer.rs:73-74 | Writing the same data twice equals writing it once. |
| GpuBuffer.OverwriteShadows | src/engine/buffer.rs:73-74 | A longer later write hides an earlier one completely. |
| Descriptor.PoolSizes | src/engine/descriptor.rs:37-45 | One pool size per binding, in order, with that binding's descriptor type and count 1. |
| Descriptor.PoolSizesAppend | src/engine/descriptor.rs:37-45 | Adding a binding appends exactly one pool size and keeps the earlier ones. |
| Descriptor.DescriptorBuilder.constructor | src/engine/descriptor.rs:80-86 | The builder starts with no bindings, no uniform buffer and no size. |
| Descriptor.DescriptorBuilder.AddBinding | src/engine/descriptor.rs:23-26 | Appends the binding at the end, keeping the earlier bindings in order and the uniform untouched. |
| Descriptor.DescriptorBuilder.Uniform | src/engine/descriptor.rs:28-32 | Sets buffer and size together, overwriting any earlier pair. Bindings are untouched. |
| Descriptor.DescriptorBuilder.Build | src/engine/descriptor.rs:34-76 | Creates a pool with the bindings' pool sizes and max_sets 1, then allocates one set with the engine's layout. It fails exactly when no uniform was given. Otherwise the buffer info is {uniform, offset 0, range uniform size}. |
| Descriptor.WriteDescriptorSet | src/engine/descriptor.rs:88-100 | Records one descriptor update: binding 0, element 0, UNIFORM_BUFFER, the stored buffer info. |
| Descriptor.Publish | src/engine/descriptor.rs:90-96 | The descriptor update the set makes. It is the definition that `PublishBinds` and `PublishIdempotent` give meaning to, over `Bindings`. |
| Descriptor.PublishBinds | src/engine/descriptor.rs:88-100 | After the write, binding 0 of the set holds the buffer info, and every other binding is as before. |
| Descriptor.PublishIdempotent | src/engine/descriptor.rs:88-100 | Writing the descriptor twice binds what writing it once does. |
| Descriptor.BindingsIgnoreOtherCalls | src/engine/descriptor.rs:88-100 | Calls other than descriptor updates never change what a binding holds. |
| Tiles.ColorOf | src/game/tile.rs:38-42 | The colour map: Empty black, Snake blue, Apple red. It is used by both `Tile.New` and `Tile.Draw`, and `ColorRoundTrip` proves it injective. |
| Tiles.StateOf | src/game/tile.rs:38-42 | A colour decodes only to a state whose colour it is: the inverse of `ColorOf`. |
| Tiles.ColorRoundTrip | src/game/tile.rs:38-42 | Each state's colour decodes back to that state, so Empty, Snake and Apple are drawn in distinct colours. |
| Tiles.Quad | src/game/tile.rs:19-28 | Six vertices, forming the triangles (a, b, c) and (a, c, d). Every vertex lies in the cell's square inset by 4 pixels. |
| Tiles.QuadInsideCell | src/game/tile.rs:21-27 | Every point of the inset square lies strictly inside the cell's 80-pixel square, with the origin x*80, y*80. |
| Tiles.CellsDisjoint | src/game/mod.rs:34-35 | No point lies inside two different cells' squares, so the quads of different tiles never overlap. |
| Tiles.TileDrawCalls | src/game/tile.rs:71-106 | The calls of one tile draw, in order. It is the definition that `Tile.Draw` is stated against and that `TileDrawPublishesUniform` and `TileDrawIsNeutral` give meaning to. |
| Tiles.TileDrawPublishesUniform | src/game/tile.rs:82-104 | After a tile's draw, binding 0 of its set holds its own uniform range, whatever was bound there before. |
| Tiles.TileDrawIsNeutral | src/game/tile.rs:71-106 | No call of a tile draw is one the synchronisation rules look at, so tiles can draw inside a frame. |
| Tiles.Tile.New | src/game/tile.rs:14-69 | Creates the vertex buffer holding the quad and the uniform buffer holding one UBO with the state's colour, both host-visible and coherent. It then builds a descriptor with the single binding (slot 0, UNIFORM_BUFFER, count 1, FRAGMENT) over the tile's own uniform buffer, range 12 bytes. It fails exactly when either buffer finds no memory type. On success and on failure, the handle counter only grows, the old trace is kept as a prefix, and every appended call is one the synchronisation rules ignore, so a frame controller that was valid before stays valid. |
| Tiles.KeepEngineValid | src/game/tile.rs:14-69 | When a trace grows only by calls the synchronisation rules ignore, as tile creation's do, the frame controller's replay state over the longer trace is unchanged. |
| Tiles.Tile.Draw | src/game/tile.rs:71-106 | In order: overwrite the uniform with the current state's colour, publish the descriptor, bind set 0, bind the vertex buffer at binding 0 and offset 0, draw 6 vertices and 1 instance from 0. The vertex buffer is unchanged. |
| SnakeGame.Forward | src/game/mod.rs:82-87 | Each direction moves exactly one unit along exactly one axis. |
| SnakeGame.Opposite | src/game/mod.rs:58-63 | The reverse direction is different and steps the opposite way. |
| SnakeGame.ForwardInjective | src/game/mod.rs:82-87 | Different directions step to different cells. |
| SnakeGame.CountUpdate | src/game/mod.rs:106 | Setting one cell moves it from its old state's count to its new state's count. |
| SnakeGame.InitialBoard | src/game/mod.rs:29-55 | The starting board. It is the definition that `Game.constructor` is stated against and that `InitialBoardCounts` gives meaning to. |
| SnakeGame.InitialBoardCounts | src/game/mod.rs:29-55 | The initial board has exactly the 100 cells, an empty turn queue, three snake cells and one apple. |
| SnakeGame.Adopt | src/game/mod.rs:58-66 | A request that reverses the current direction is ignored, and any other request is adopted. The result is never the reverse of the current direction. |
| SnakeGame.InputSpec | src/game/mod.rs:57-77 | Steering as a rule on boards. It is the definition that `Game.Input` is stated against. |
| SnakeGame.InputKeepsWellFormed | src/game/mod.rs:57-77 | Steering keeps the board, head and tail. The new direction is never the reverse of the old one. The queue only grows, by the adopted direction, and keeps no two equal turns adjacent. |
| SnakeGame.FirstEmpty | src/game/mod.rs:154-163 | The first drawn cell that is empty, before which no drawn cell is empty. |
| SnakeGame.FindEmptyDraw | src/game/mod.rs:155-163 | The retry loop stops at the first empty drawn cell. |
| SnakeGame.TickSpec | src/game/mod.rs:79-165 | One tick as a rule on boards, with the source's checks in the source's order. It is the definition that `Game.Tick` is stated against and that the `Tick*` lemmas give meaning to. |
| SnakeGame.TickCollisions | src/game/mod.rs:91-109 | A tick fails at the border exactly when the next cell is off the board. It fails on the snake exactly when the next cell is snake, including a tail cell about to be vacated. |
| SnakeGame.TickMovesHead | src/game/mod.rs:82-87 | A successful tick moves the head exactly one cell in the current direction onto the board, keeps the board's cells and keeps the invariant. |
| SnakeGame.TickConsumesQueueFront | src/game/mod.rs:127-136 | A tick removes at most the front of the turn queue and never alters the other entries. |
| SnakeGame.TickTailTurn | src/game/mod.rs:113-137 | Without eating, the tail turns exactly when the cell ahead of it (after the head moved) is off-board, empty or apple. It then takes and removes the first queued turn. A tick with an empty queue at that point is not a success. |
| SnakeGame.TickEating | src/game/mod.rs:97-98 | Eating keeps the tail and the queue, makes the new head cell snake, and grows the snake by one. One apple appears on a cell that was empty after the head moved, so the apple count is unchanged. |
| SnakeGame.TickMoving | src/game/mod.rs:120-152 | Without eating, from a snake tail cell: the head cell becomes snake, the old tail cell empty, and the tail advances one cell in its possibly new direction. Snake and apple counts are unchanged. |
| SnakeGame.TailCursorCanLeaveBody | src/game/mod.rs:68-76 | From the start, steering north, ticking, steering east, ticking, steering south and ticking leaves the tail cursor on the head while (4, 6) is still snake. So the cursor is not always on the snake's last cell. |
| SnakeGame.DrawPos | src/game/mod.rs:167-173 | Every drawing position is on the board. |
| SnakeGame.DrawOrderIsXMajor | src/game/mod.rs:168-169 | Drawing goes column by column, each from y = 0 upward. |
| SnakeGame.DrawVisitsEveryCell | src/game/mod.rs:168-170 | Every cell (x, y) is drawn, as the (10x + y)-th tile. |
| SnakeGame.Game.constructor | src/game/mod.rs:29-55 | Exactly the 100 cells; snake at (2,5), (3,5), (4,5); apple at (7,5); all else empty. Head (4,5), tail (2,5) heading east, direction east, no queued turns. |
| SnakeGame.Game.Input | src/game/mod.rs:57-77 | The new state is `InputSpec` of the old one. The direction becomes the adopted one, never the reverse of the old one. The queue gains the adopted direction exactly when it differs from the tail's heading and from the last queued turn. Existing entries and the board are untouched, and no two adjacent turns are equal. |
| SnakeGame.Game.Tick | src/game/mod.rs:79-165 | Succeeds exactly when the tick rule does, and then holds its result and keeps the invariant. Otherwise it reports the rule's crash: border, snake, empty turn queue, or tail off the board. |
| SnakeGame.Game.Draw | src/game/mod.rs:167-173 | Visits all 100 cells once each in x-major order, each with its current state. |

## Left out

- Vulkan object creation in `Engine::new` is not modelled, apart from the
  selection rules and the objects the frame controller uses. This covers the
  instance, surface, swapchain, image views, shaders, pipeline state,
  framebuffers, the command pool and the semaphores. Their creation calls
  are not part of the call trace; the objects become handles passed to the
  `Frame.Engine` constructor.
- What the GPU does with the calls is not modelled. Fences, semaphores and
  queues are not executed, and blocking waits are not modelled; `Sync`
  checks the call order instead. The acquired image index is a parameter
  below the framebuffer count, as the presentation engine guarantees.
- The render pass clear colour (opaque black, src/engine/mod.rs:605-609) is
  floating point and is not kept in the recorded `CmdBeginRenderPass`.
- `px_to_screen` and the viewport use floating point. Tile geometry is
  modelled in integer pixel space, and the viewport as the extent. The
  uniform's colour channels are `f32` in the source and 0 or 1 as `int` in
  `Tiles.ColorOf`.
- The debug messenger and its callback, and all printing, are left out.
- The `main.rs` window loop, key polling and tick timing are left out.
  `vertex.rs` holds only constant Vulkan layout descriptions.
- Driver queries become parameters:
  - buffer memory requirements (`get_buffer_memory_requirements`);
  - the device types, queue families, formats, present modes and surface
    capabilities the selection rules choose from;
  - the engine's memory properties.
- The engine accessors (`device`, `memory_properties`, `draw_command_buffer`,
  `descriptor_set_layout`, `pipeline_layout`) are const fields of
  `Frame.Engine`. `Buffer::handle` and `Buffer::count` are the fields
  `handle` and `count`. `DescriptorSet::descriptor_set` is the
  `descriptorSet` field of the `DescriptorSet` datatype.
- A panic becomes an error result: `Crash`, `SetupError`, `BufferError` or
  `BuildError`. What the program's state would be after the unwind is not
  modelled.
- Tiles.Tile.New: on failure, the device trace is stated only as the old
  trace followed by calls the synchronisation rules ignore, not call by call. Unwinding would also drop a vertex buffer that was already
  created, and that is not modelled.
- `#[derive(Clone)]` on `Buffer` and `Tile` together with `Drop` would
  free handles twice on a clone. The model has single ownership and never
  clones.
- `rand::thread_rng` becomes the parameter `draws`, the stream of cells the
  generator yields. The retry loop never ends on a full board; the
  `DrawsFindRoom` precondition rules that case out.
- The game's `Tile` GPU objects are not part of `SnakeGame`. The board maps
  each cell to its `TileState`, and `Game.Draw` returns the cells in drawing
  order with their states. The per-tile draw itself is `Tiles.Tile.Draw`.
- The `i8` coordinates stay within -1..10 and are modelled as `int`.
- Selection.ChooseSwapchain: `min_image_count + 1` is unbounded. When the
  surface reports `u32::MAX`, the `u32` addition panics in debug builds and
  wraps to 0 in release builds; neither is modelled.
- GpuBuffer.Buffer.SetBuffer: it requires `|data|` to be at most the buffer's
  element count. The source only needs `|data| * sizeof(T)` to be at most
  the byte size, which allows more for a zero-sized `T`. It also uses the
  element type fixed at creation, where `set_buffer` is generic.
- SnakeGame.TickMoving: it assumes the old tail cell is snake. That the tail
  cursor stays on the snake's body is not proved, and it does not hold in
  general: this is a defect of the game itself (src/game/mod.rs:68-76 and
  113-137), not of the model. `TailCursorCanLeaveBody` gives a three-tick run after which the
  cursor sits on the head while an older body cell is still snake. The
  model keeps the cursor exactly as the game moves it. That behaviour is
  also why `TickSpec` has the `EmptyTurnQueue` and `TailOffBoard` outcomes.
- Frame.Engine.EndSingleExecCommand: it requires a command buffer other
  than the frame's own, which is what Vulkan demands of a buffer that may
  be in flight. Nothing in the source calls `begin_single_exec_command` or
  `end_single_exec_command` (src/engine/mod.rs:652 and :673), so no caller
  is constrained by it.
- Other components recording on the engine's device keep the controller's
  invariant only through `Frame.NeutralCallsKeepValid`, that is, when none of
  their calls is one the synchronisation rules look at. Buffer creation,
  descriptor writes and tile draws are such calls; `Tiles.Tile.New` carries
  the invariant through tile creation itself.
- Descriptor pools and layouts are never destroyed by the source, and the
  model does not destroy them either.
