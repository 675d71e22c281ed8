/** One board cell as the renderer sees it: its state, a six-vertex quad in
    pixel space, a one-entry uniform buffer holding its colour, and a
    descriptor set publishing that buffer to the fragment shader. */
module Tiles {
  import opened Wrappers
  import opened Vulkan
  import opened GpuBuffer
  import opened Descriptor
  import MemorySelection
  import Frame
  import Sync

  datatype TileState = Empty | Snake | Apple

  /** An RGB colour whose channels are each 0.0 or 1.0, kept as 0 or 1. */
  datatype Color = Color(r: int, g: int, b: int)

  /** The uniform block: one colour (three `f32`s). */
  datatype Ubo = Ubo(color: Color)

  /** A vertex position in window pixels, before conversion to clip space. */
  datatype Vertex = Vertex(x: int, y: int)

  const UBO_SIZE: nat := 12
  const VERTEX_SIZE: nat := 8
  const CELL_PIXELS: int := 80
  const INSET: int := 4

  /** Empty is black, Snake blue, Apple red. */
  function ColorOf(state: TileState): (c: Color)
  {
    match state
    case Empty => Color(0, 0, 0)
    case Snake => Color(0, 0, 1)
    case Apple => Color(1, 0, 0)
  }

  /** The state a colour stands for, if any. */
  function StateOf(c: Color): (r: Option<TileState>)
    ensures r.Some? ==> ColorOf(r.value) == c
  {
    if c == Color(0, 0, 0) then Some(Empty)
    else if c == Color(0, 0, 1) then Some(Snake)
    else if c == Color(1, 0, 0) then Some(Apple)
    else None
  }

  /** The colour determines the state: distinct states are drawn differently. */
  lemma ColorRoundTrip(state: TileState)
    ensures StateOf(ColorOf(state)) == Some(state)
  {
  }

  /** The pixel origin of board cell (x, y). */
  function CellOrigin(cell: (int, int)): (p: (int, int))
  {
    (cell.0 * CELL_PIXELS, cell.1 * CELL_PIXELS)
  }

  /** Point (x, y) lies strictly inside the 80-pixel square of `cell`. */
  predicate InsideCell(x: int, y: int, cell: (int, int))
  {
    cell.0 * CELL_PIXELS < x < cell.0 * CELL_PIXELS + CELL_PIXELS &&
    cell.1 * CELL_PIXELS < y < cell.1 * CELL_PIXELS + CELL_PIXELS
  }

  /** Two triangles, (a, b, c) and (a, c, d), covering the square inset by 4
      pixels from the cell whose top-left pixel is `origin`. */
  function Quad(origin: (int, int)): (vs: seq<Vertex>)
    ensures |vs| == 6
    ensures forall i :: 0 <= i < 6 ==>
              origin.0 + INSET <= vs[i].x <= origin.0 + CELL_PIXELS - INSET &&
              origin.1 + INSET <= vs[i].y <= origin.1 + CELL_PIXELS - INSET
    ensures vs[0] == vs[3] && vs[2] == vs[4]
  {
    var (px, py) := origin;
    [Vertex(px + 4, py + 4), Vertex(px + 4, py + 76), Vertex(px + 76, py + 76),
     Vertex(px + 4, py + 4), Vertex(px + 76, py + 76), Vertex(px + 76, py + 4)]
  }

  /** Every point of a cell's quad, corners included and so the whole convex
      area, lies strictly inside that cell's square. */
  lemma QuadInsideCell(cell: (int, int), x: int, y: int)
    requires CellOrigin(cell).0 + INSET <= x <= CellOrigin(cell).0 + CELL_PIXELS - INSET
    requires CellOrigin(cell).1 + INSET <= y <= CellOrigin(cell).1 + CELL_PIXELS - INSET
    ensures InsideCell(x, y, cell)
  {
  }

  /** No point lies inside the squares of two different cells, so the quads
      of different tiles never overlap. */
  lemma CellsDisjoint(a: (int, int), b: (int, int), x: int, y: int)
    requires InsideCell(x, y, a) && InsideCell(x, y, b)
    ensures a == b
  {
  }

  /** The only binding of a tile's descriptor layout. */
  const UBO_BINDING := LayoutBinding(0, UniformBuffer, 1, SHADER_STAGE_FRAGMENT)

  const HOST_MEMORY: bv32 := MEMORY_PROPERTY_HOST_VISIBLE | MEMORY_PROPERTY_HOST_COHERENT

  /** The calls one tile's draw makes, in order: rewrite the colour through a
      mapping, publish the descriptor, bind set 0 and vertex buffer 0, draw. */
  function TileDrawCalls(uniformMemory: Handle, uniformBytes: nat, ds: DescriptorSet,
                         commandBuffer: Handle, pipelineLayout: Handle,
                         vertexBuffer: Handle, vertexCount: nat): seq<Call>
  {
    [MapMemory(uniformMemory, uniformBytes),
     UnmapMemory(uniformMemory),
     Publish(ds),
     CmdBindDescriptorSet(commandBuffer, pipelineLayout, 0, ds.descriptorSet),
     CmdBindVertexBuffer(commandBuffer, 0, vertexBuffer, 0),
     CmdDraw(commandBuffer, vertexCount, 1, 0, 0)]
  }

  /** A tile's draw calls are ones the synchronisation rules ignore, so
      drawing tiles between `BeginDraw` and `EndDraw` keeps the frame
      controller valid (`Frame.NeutralCallsKeepValid`). */
  lemma TileDrawIsNeutral(uniformMemory: Handle, uniformBytes: nat, ds: DescriptorSet, commandBuffer: Handle,
                          pipelineLayout: Handle, vertexBuffer: Handle, vertexCount: nat)
    ensures var t := TileDrawCalls(uniformMemory, uniformBytes, ds, commandBuffer, pipelineLayout,
                                   vertexBuffer, vertexCount);
            forall i :: 0 <= i < |t| ==> Sync.Neutral(t[i])
  {
  }

  /** When a tile's draw is done, binding 0 of its set holds its descriptor's
      buffer range, whatever was bound there before. */
  lemma {:induction false} TileDrawPublishesUniform(t: seq<Call>, uniformMemory: Handle, uniformBytes: nat,
                                                    ds: DescriptorSet, commandBuffer: Handle,
                                                    pipelineLayout: Handle, vertexBuffer: Handle, vertexCount: nat)
    ensures var after := Bindings(t + TileDrawCalls(uniformMemory, uniformBytes, ds, commandBuffer, pipelineLayout,
                                                    vertexBuffer, vertexCount));
            (ds.descriptorSet, 0) in after && after[(ds.descriptorSet, 0)] == ds.bufferInfo
  {
    var calls := TileDrawCalls(uniformMemory, uniformBytes, ds, commandBuffer, pipelineLayout, vertexBuffer, vertexCount);
    var pre := t + calls[..2];
    BindingsIgnoreOtherCalls(t, calls[..2]);
    PublishBinds(pre, ds);
    BindingsIgnoreOtherCalls(pre + [Publish(ds)], calls[3..]);
    assert t + calls == (pre + [Publish(ds)]) + calls[3..];
  }

  class Tile {
    var tileState: TileState
    const vertexBuffer: GpuBuffer.Buffer<Vertex>
    const uniformBuffer: GpuBuffer.Buffer<Ubo>
    const descriptorSet: DescriptorSet

    /** Six vertices; one colour entry; the descriptor publishes exactly the
        tile's own uniform buffer; everything lives on one device. */
    ghost predicate Valid()
      reads this, vertexBuffer, uniformBuffer
    {
      && vertexBuffer.Valid() && vertexBuffer.alive && vertexBuffer.mapped.Length == 6
      && uniformBuffer.Valid() && uniformBuffer.alive && uniformBuffer.mapped.Length == 1
      && uniformBuffer.device == vertexBuffer.device
      && descriptorSet.bufferInfo == BufferInfo(uniformBuffer.handle, 0, UBO_SIZE)
    }

    constructor Init(tileState: TileState, vertexBuffer: GpuBuffer.Buffer<Vertex>,
                     uniformBuffer: GpuBuffer.Buffer<Ubo>, descriptorSet: DescriptorSet)
      ensures this.tileState == tileState && this.vertexBuffer == vertexBuffer
      ensures this.uniformBuffer == uniformBuffer && this.descriptorSet == descriptorSet
    {
      this.tileState := tileState;
      this.vertexBuffer := vertexBuffer;
      this.uniformBuffer := uniformBuffer;
      this.descriptorSet := descriptorSet;
    }

    /** Create the tile whose cell has top-left pixel `origin`: the quad's
        vertex buffer, then the colour's uniform buffer (both host-visible and
        coherent), then a descriptor set with the single uniform binding over
        the engine's layout. Fails where a buffer finds no memory type. */
    static method New(origin: (int, int), tileState: TileState, engine: Frame.Engine,
                      vertexRequirements: MemoryRequirements, uniformRequirements: MemoryRequirements)
      returns (r: Result<Tile, BufferError>)
      requires MemorySelection.WellFormed(engine.memoryProperties)
      requires vertexRequirements.size >= 6 * VERTEX_SIZE && uniformRequirements.size >= UBO_SIZE
      modifies engine.device
      ensures engine.device.nextHandle >= old(engine.device.nextHandle)
      ensures |old(engine.device.trace)| <= |engine.device.trace|
      ensures engine.device.trace[..|old(engine.device.trace)|] == old(engine.device.trace)
      ensures forall i :: |old(engine.device.trace)| <= i < |engine.device.trace| ==> Sync.Neutral(engine.device.trace[i])
      ensures old(engine.Valid()) ==> engine.Valid()
      ensures r.Failure? <==>
                MemorySelection.NoneSuitable(engine.memoryProperties, vertexRequirements.memoryTypeBits, HOST_MEMORY) ||
                MemorySelection.NoneSuitable(engine.memoryProperties, uniformRequirements.memoryTypeBits, HOST_MEMORY)
      ensures r.Success? ==> fresh(r.value) && fresh(r.value.vertexBuffer) && fresh(r.value.uniformBuffer)
      ensures r.Success? ==> r.value.Valid() && r.value.tileState == tileState
      ensures r.Success? ==> r.value.vertexBuffer.device == engine.device
      ensures r.Success? ==> r.value.vertexBuffer.Contents() == Quad(origin)
      ensures r.Success? ==> r.value.uniformBuffer.Contents() == [Ubo(ColorOf(tileState))]
      ensures r.Success? ==>
                var vb := r.value.vertexBuffer;
                var ub := r.value.uniformBuffer;
                var ds := r.value.descriptorSet;
                engine.device.trace == old(engine.device.trace) +
                  CreationCalls(vb.handle, vb.memory, vb.size, BUFFER_USAGE_VERTEX_BUFFER,
                                vertexRequirements.size, vb.memoryTypeIndex) +
                  CreationCalls(ub.handle, ub.memory, ub.size, BUFFER_USAGE_UNIFORM_BUFFER,
                                uniformRequirements.size, ub.memoryTypeIndex) +
                  [CreateDescriptorPool(ds.descriptorPool, [PoolSize(UniformBuffer, 1)], 1),
                   AllocateDescriptorSet(ds.descriptorPool, engine.descriptorSetLayout, ds.descriptorSet)]
    {
      var device := engine.device;
      ghost var before := device.trace;
      ghost var wasValid := engine.Valid();
      var vb := GpuBuffer.Buffer<Vertex>.New(Quad(origin), VERTEX_SIZE, BUFFER_USAGE_VERTEX_BUFFER, device,
                                             engine.memoryProperties, vertexRequirements, HOST_MEMORY);
      if vb.Failure? {
        KeepEngineValid(engine, before, wasValid);
        return Failure(vb.error);
      }
      ghost var afterVertex := device.trace;
      var ub := GpuBuffer.Buffer<Ubo>.New([Ubo(ColorOf(tileState))], UBO_SIZE, BUFFER_USAGE_UNIFORM_BUFFER, device,
                                          engine.memoryProperties, uniformRequirements, HOST_MEMORY);
      if ub.Failure? {
        KeepEngineValid(engine, before, wasValid);
        return Failure(ub.error);
      }
      ghost var afterUniform := device.trace;
      var builder := new DescriptorBuilder();
      builder.AddBinding(UBO_BINDING);
      builder.Uniform(ub.value.handle, UBO_SIZE);
      assert builder.bindings == [UBO_BINDING];
      assert PoolSizes([UBO_BINDING]) == [PoolSize(UniformBuffer, 1)];
      var ds := builder.Build(device, engine.descriptorSetLayout);
      assert device.trace == afterUniform + [CreateDescriptorPool(ds.value.descriptorPool, [PoolSize(UniformBuffer, 1)], 1),
                                             AllocateDescriptorSet(ds.value.descriptorPool, engine.descriptorSetLayout,
                                                                   ds.value.descriptorSet)];
      KeepEngineValid(engine, before, wasValid);
      var tile := new Tile.Init(tileState, vb.value, ub.value, ds.value);
      return Success(tile);
    }

    /** Rewrite the colour for the current state, publish the descriptor,
        then record: bind set 0 with `pipelineLayout`, bind the vertex buffer
        at binding 0 and offset 0, draw its six vertices once. */
    method Draw(commandBuffer: Handle, device: Device, pipelineLayout: Handle)
      requires Valid() && device == uniformBuffer.device
      modifies uniformBuffer.mapped, device
      ensures Valid()
      ensures uniformBuffer.Contents() == [Ubo(ColorOf(tileState))]
      ensures vertexBuffer.Contents() == old(vertexBuffer.Contents())
      ensures device.trace == old(device.trace) +
                TileDrawCalls(uniformBuffer.memory, uniformBuffer.size, descriptorSet, commandBuffer,
                              pipelineLayout, vertexBuffer.handle, 6)
      ensures device.nextHandle == old(device.nextHandle)
    {
      uniformBuffer.SetBuffer([Ubo(ColorOf(tileState))]);
      WriteDescriptorSet(descriptorSet, device);
      device.Record(CmdBindDescriptorSet(commandBuffer, pipelineLayout, 0, descriptorSet.descriptorSet));
      device.Record(CmdBindVertexBuffer(commandBuffer, 0, vertexBuffer.handle, 0));
      device.Record(CmdDraw(commandBuffer, vertexBuffer.count, 1, 0, 0));
    }
  }

  /** Tile creation appends only calls the synchronisation rules ignore, so
      an engine that was valid before it stays valid: its replay state over
      the longer trace is the same. */
  lemma KeepEngineValid(engine: Frame.Engine, before: seq<Call>, wasValid: bool)
    requires wasValid ==> engine.traceStart <= |before| &&
                          Sync.Replay(Sync.Initial, before[engine.traceStart..], engine.inFlightFence) == Some(engine.sync)
    requires |before| <= |engine.device.trace| && engine.device.trace[..|before|] == before
    requires forall i :: |before| <= i < |engine.device.trace| ==> Sync.Neutral(engine.device.trace[i])
    ensures wasValid ==>
              Sync.Replay(Sync.Initial, engine.device.trace[engine.traceStart..], engine.inFlightFence) == Some(engine.sync)
  {
    var t := engine.device.trace[|before|..];
    assert engine.device.trace == before + t;
    if wasValid {
      Frame.ReplayExtended(before, engine.traceStart, t, engine.inFlightFence, engine.sync);
      Sync.ReplayNeutral(engine.sync, t, engine.inFlightFence);
    }
  }
}
