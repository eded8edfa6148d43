/**
 * Sample2D's world-space `SpriteBatch2`: `Begin` records the viewport's
 * centre and size for the shader, `Draw` queues an instance holding the
 * normalized source rectangle, the world position and size and the
 * rotation, and `End` submits the queue.
 */
module WorldSpriteBatch {
  import opened Vectors
  import opened SpriteQueues

  /** `SpriteBatch2::SpriteInstance`. */
  datatype WorldInstance = WorldInstance(source: RectF, destPosition: Vector2, size: Vector2, rotation: real, zIndex: nat)

  /** `_inBatch`, the viewport half of `_constants`, and the queue. */
  datatype WorldBatch = WorldBatch(inBatch: bool, viewportCenter: Vector2, viewportSize: Vector2, queue: Queue<WorldInstance>)

  /** The arguments of the five-argument `Draw`. */
  datatype WorldCall = WorldCall(texture: SizedTexture, source: SourceArg, position: Vector2, size: Vector2, rotation: real)

  /** The constructor: `_constants` zeroed, outside a batch, nothing queued. */
  function NewBatch(): (b: WorldBatch)
    ensures !b.inBatch && b.viewportCenter == Zero && b.viewportSize == Zero
    ensures ValidQueue(b.queue) && b.queue.counter == 0
    ensures forall t :: InstancesOf(b.queue.groups, t) == []
  {
    WorldBatch(false, Zero, Zero, EmptyQueue())
  }

  /**
   * `Begin`: record the viewport and open the batch. Unlike the pixel
   * batch it needs nothing of the viewport, and it leaves the queue and
   * the counter as they are.
   */
  function Begin(b: WorldBatch, center: Vector2, size: Vector2): (r: WorldBatch)
    ensures r.inBatch && r.viewportCenter == center && r.viewportSize == size
    ensures r.queue == b.queue
  {
    b.(inBatch := true, viewportCenter := center, viewportSize := size)
  }

  /** The instance `Draw` builds for a call when the counter reads `z`. */
  function MakeInstance(call: WorldCall, z: nat): WorldInstance
  {
    WorldInstance(NormalizedSource(call.texture, call.source), call.position, call.size, call.rotation, z)
  }

  function TextureOf(call: WorldCall): TextureId
  {
    call.texture.id
  }

  /**
   * The five-argument `Draw`: throws outside `Begin`/`End`; otherwise the
   * call's instance, numbered by the counter, goes to the end of its
   * texture's list, the counter advances, and nothing else changes.
   */
  function Draw(b: WorldBatch, call: WorldCall): (r: DrawResult<WorldBatch>)
    requires ValidQueue(b.queue)
    ensures r.Thrown? <==> !b.inBatch
    ensures r.Recorded? ==>
      && r.batch == b.(queue := r.batch.queue)
      && ValidQueue(r.batch.queue)
      && r.batch.queue.counter == (b.queue.counter + 1) % CounterRange
      && InstancesOf(r.batch.queue.groups, call.texture.id)
         == InstancesOf(b.queue.groups, call.texture.id) + [MakeInstance(call, b.queue.counter)]
      && (forall u :: u != call.texture.id ==> InstancesOf(r.batch.queue.groups, u) == InstancesOf(b.queue.groups, u))
  {
    if !b.inBatch then Thrown
    else Recorded(b.(queue := Push(b.queue, TextureOf(call), MakeInstance(call, b.queue.counter))))
  }

  /** The texture's size in texels as a vector. */
  function TexelSize(texture: Texture): Vector2
  {
    Vector2(texture.width as real, texture.height as real)
  }

  /** `Draw(texture, position)`: the whole texture at its texel size, unrotated. */
  function DrawAt(texture: SizedTexture, position: Vector2): (call: WorldCall)
    ensures call.texture == texture && call.position == position
  {
    WorldCall(texture, WholeTexture, position, TexelSize(texture), 0.0)
  }

  /** `Draw(texture, position, rotation)`: the whole texture at its texel size, rotated. */
  function DrawRotated(texture: SizedTexture, position: Vector2, rotation: real): (call: WorldCall)
    ensures call.texture == texture && call.position == position
  {
    WorldCall(texture, WholeTexture, position, TexelSize(texture), rotation)
  }

  /**
   * `Draw(texture, position)` samples the whole texture, (0, 0) to (1, 1),
   * at the texture's size in texels, unrotated; the rotating overload
   * builds the same instance with the given rotation.
   */
  lemma ShortDrawsAreWholeTexture(texture: SizedTexture, position: Vector2, rotation: real, z: nat)
    ensures var i := MakeInstance(DrawAt(texture, position), z);
      && i.source == RectF(0.0, 0.0, 1.0, 1.0)
      && i.size.x == texture.width as real && i.size.y == texture.height as real
      && i.destPosition == position && i.rotation == 0.0 && i.zIndex == z
    ensures MakeInstance(DrawRotated(texture, position, rotation), z)
         == MakeInstance(DrawAt(texture, position), z).(rotation := rotation)
  {
    WholeSourceIsUnit(texture);
  }

  /**
   * With a source rectangle the instance's source, scaled back by the
   * texture's size, is that rectangle in texels; position, size and
   * rotation pass through unchanged.
   */
  lemma PartSourceRoundTrip(call: WorldCall, z: nat)
    requires call.source.Part?
    ensures var i := MakeInstance(call, z);
      && i.source.left * call.texture.width as real == call.source.rect.left as real
      && i.source.top * call.texture.height as real == call.source.rect.top as real
      && i.source.right * call.texture.width as real == call.source.rect.right as real
      && i.source.bottom * call.texture.height as real == call.source.rect.bottom as real
      && i.destPosition == call.position && i.size == call.size && i.rotation == call.rotation
  {
  }

  /** A sequence of `Draw` calls: stops at the first that throws. */
  function DrawAll(b: WorldBatch, calls: seq<WorldCall>): (r: DrawResult<WorldBatch>)
    requires ValidQueue(b.queue)
    ensures r.Recorded? ==> ValidQueue(r.batch.queue)
    decreases |calls|
  {
    if |calls| == 0 then Recorded(b)
    else
      match Draw(b, calls[0])
      case Thrown => Thrown
      case Recorded(b1) => DrawAll(b1, calls[1..])
  }

  /** Inside a batch every call records, and the queue is the fold of the calls' instances. */
  lemma {:induction false} DrawAllQueues(b: WorldBatch, calls: seq<WorldCall>)
    requires ValidQueue(b.queue) && b.inBatch
    ensures DrawAll(b, calls) == Recorded(b.(queue := QueueAll(b.queue, calls, TextureOf, MakeInstance)))
    decreases |calls|
  {
    if |calls| > 0 {
      var b1 := b.(queue := Push(b.queue, TextureOf(calls[0]), MakeInstance(calls[0], b.queue.counter)));
      assert Draw(b, calls[0]) == Recorded(b1);
      DrawAllQueues(b1, calls[1..]);
    }
  }

  /** Outside a batch the first call throws. */
  lemma {:induction false} DrawAllOutsideThrows(b: WorldBatch, calls: seq<WorldCall>)
    requires ValidQueue(b.queue) && !b.inBatch && |calls| > 0
    ensures DrawAll(b, calls) == Thrown
  {
  }

  /**
   * A run of draws inside a batch: each texture's list grows by the
   * instances of the calls naming it, in call order.
   */
  lemma {:induction false} DrawAllInCallOrder(b: WorldBatch, calls: seq<WorldCall>, t: TextureId)
    requires ValidQueue(b.queue) && b.inBatch
    ensures DrawAll(b, calls).Recorded?
    ensures InstancesOf(DrawAll(b, calls).batch.queue.groups, t)
         == InstancesOf(b.queue.groups, t) + Select(TexturesOf(calls, TextureOf), Stamped(calls, MakeInstance, b.queue.counter), t)
  {
    DrawAllQueues(b, calls);
    calc {
      InstancesOf(DrawAll(b, calls).batch.queue.groups, t);
      InstancesOf(QueueAll(b.queue, calls, TextureOf, MakeInstance).groups, t);
      { QueueAllInCallOrder(b.queue, calls, TextureOf, MakeInstance, t); }
      InstancesOf(b.queue.groups, t) + Select(TexturesOf(calls, TextureOf), Stamped(calls, MakeInstance, b.queue.counter), t);
    }
  }

  /** The k-th call of a run is numbered by the starting counter plus k, modulo 2^32. */
  lemma CallsNumberedInOrder(calls: seq<WorldCall>, c: nat)
    ensures forall k :: 0 <= k < |calls| ==> Stamped(calls, MakeInstance, c)[k].zIndex == (c + k) % CounterRange
  {
  }

  /**
   * A run of draws inside a batch keeps the batch open and advances the
   * counter once per call (`Advance`, which wraps modulo 2^32).
   */
  lemma {:induction false} DrawAllAdvances(b: WorldBatch, calls: seq<WorldCall>)
    requires ValidQueue(b.queue) && b.inBatch
    ensures DrawAll(b, calls).Recorded?
    ensures DrawAll(b, calls).batch.inBatch
    ensures DrawAll(b, calls).batch.queue.counter == Advance(b.queue.counter, |calls|)
    decreases |calls|
  {
    if |calls| > 0 {
      DrawAllAdvances(Draw(b, calls[0]).batch, calls[1..]);
    }
  }

  /** A run of draws inside a batch adds to what `End` submits exactly the instances the calls made. */
  lemma {:induction false} DrawAllQueuesEveryCall(b: WorldBatch, calls: seq<WorldCall>)
    requires ValidQueue(b.queue) && b.inBatch
    ensures DrawAll(b, calls).Recorded?
    ensures multiset(Flatten(DrawAll(b, calls).batch.queue.groups))
         == multiset(Flatten(b.queue.groups)) + multiset(Stamped(calls, MakeInstance, b.queue.counter))
  {
    var q := QueueAll(b.queue, calls, TextureOf, MakeInstance);
    assert DrawAll(b, calls) == Recorded(b.(queue := q)) by { DrawAllQueues(b, calls); }
    calc {
      multiset(Flatten(DrawAll(b, calls).batch.queue.groups));
      multiset(Flatten(q.groups));
      { QueueAllFlatten(b.queue, calls, TextureOf, MakeInstance); }
      multiset(Flatten(b.queue.groups)) + multiset(Stamped(calls, MakeInstance, b.queue.counter));
    }
  }

  /**
   * `End` with the corrected chunk loop: upload the constants (the event
   * records the counter; the viewport half is not modelled as an event),
   * submit every texture's list, then clear the lists, reset the counter
   * and close the batch. The viewport stays recorded in the batch. While
   * every list fits the instance buffer, the events are the ones the code
   * as written submits.
   */
  function End(b: WorldBatch): (r: (WorldBatch, seq<Event<WorldInstance>>))
    requires ValidQueue(b.queue)
    ensures !r.0.inBatch && r.0.viewportCenter == b.viewportCenter && r.0.viewportSize == b.viewportSize
    ensures r.0.queue == EmptyQueue()
    ensures |r.1| > 0 && r.1[0] == SetInstanceCount(b.queue.counter)
    ensures Uploads(r.1) == Flatten(b.queue.groups)
    ensures Drawn(r.1) == |Flatten(b.queue.groups)|
    ensures Bound(r.1) == TextureOrder(b.queue.groups)
    ensures ListsFitBuffer(b.queue.groups) ==> r.1 == [SetInstanceCount(b.queue.counter)] + SubmitGroupsAsWritten(b.queue.groups)
  {
    var (q, events) := Flush(b.queue);
    (b.(inBatch := false, queue := q), events)
  }

  /**
   * One frame from an empty queue: `Begin`, a run of draws, `End`. The
   * constant buffer carries the number of draws modulo 2^32, `End` (with
   * the corrected chunk loop) submits exactly the instances the draws made,
   * and the batch is left closed and empty for the next frame.
   */
  lemma {:induction false} FrameSubmitsEveryDraw(b: WorldBatch, center: Vector2, size: Vector2, calls: seq<WorldCall>)
    requires b.queue == EmptyQueue()
    ensures var open := Begin(b, center, size);
      var drawn := DrawAll(open, calls);
      drawn.Recorded? &&
      var (closed, events) := End(drawn.batch);
      && events[0] == SetInstanceCount(|calls| % CounterRange)
      && multiset(Uploads(events)) == multiset(Stamped(calls, MakeInstance, 0))
      && Drawn(events) == |calls|
      && !closed.inBatch && closed.queue == EmptyQueue()
  {
    var open := Begin(b, center, size);
    DrawAllAdvances(open, calls);
    AdvanceWraps(0, |calls|);
    DrawAllQueuesEveryCall(open, calls);
    var drawn := DrawAll(open, calls);
    var made := Stamped(calls, MakeInstance, 0);
    assert Flatten(open.queue.groups) == [];
    assert |multiset(Flatten(drawn.batch.queue.groups))| == |multiset(made)|;
  }
}
