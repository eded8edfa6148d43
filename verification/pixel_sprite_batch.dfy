/**
 * Sample2D's pixel-space `SpriteBatch`: `Begin` reads the viewport size,
 * `Draw` turns a texel source rectangle and a pixel destination rectangle
 * into an instance in normalized coordinates and queues it under its
 * texture, and `End` submits the queue.
 */
module PixelSpriteBatch {
  import opened SpriteQueues

  /** The first viewport's size in pixels, as `RSGetViewports` reports it. */
  datatype Viewport = Viewport(width: real, height: real)

  /** `SpriteBatch::SpriteInstance`. */
  datatype PixelInstance = PixelInstance(source: RectF, dest: RectF, rotation: real, zIndex: nat)

  /** `_inBatch`, `_invWidth`, `_invHeight`, and the queue. */
  datatype PixelBatch = PixelBatch(inBatch: bool, invWidth: real, invHeight: real, queue: Queue<PixelInstance>)

  /** The arguments of the four-argument `Draw`. */
  datatype PixelCall = PixelCall(texture: SizedTexture, source: SourceArg, dest: Rect, angle: real)

  /** The constructor: outside a batch, reciprocals 0, nothing queued. */
  function NewBatch(): (b: PixelBatch)
    ensures !b.inBatch && b.invWidth == 0.0 && b.invHeight == 0.0
    ensures ValidQueue(b.queue) && b.queue.counter == 0
    ensures forall t :: InstancesOf(b.queue.groups, t) == []
  {
    PixelBatch(false, 0.0, 0.0, EmptyQueue())
  }

  /**
   * `Begin`: keep the reciprocals of the viewport's size and open the batch.
   * The queue is left as it is.
   */
  function Begin(b: PixelBatch, viewport: Viewport): (r: PixelBatch)
    requires viewport.width != 0.0 && viewport.height != 0.0
    ensures r.inBatch
    ensures r.invWidth * viewport.width == 1.0 && r.invHeight * viewport.height == 1.0
    ensures r.queue == b.queue
  {
    b.(inBatch := true, invWidth := 1.0 / viewport.width, invHeight := 1.0 / viewport.height)
  }

  /** The instance `Draw` builds for a call when the counter reads `z`. */
  function MakeInstance(invWidth: real, invHeight: real, call: PixelCall, z: nat): PixelInstance
  {
    PixelInstance(
      NormalizedSource(call.texture, call.source),
      RectF(call.dest.left as real * invWidth, call.dest.top as real * invHeight,
            call.dest.right as real * invWidth, call.dest.bottom as real * invHeight),
      call.angle,
      z)
  }

  function TextureOf(call: PixelCall): TextureId
  {
    call.texture.id
  }

  /** `MakeInstance` with the batch's reciprocals fixed, as the per-call builder the queue fold takes. */
  function Maker(b: PixelBatch): (PixelCall, nat) -> PixelInstance
  {
    (call: PixelCall, z: nat) => MakeInstance(b.invWidth, b.invHeight, call, z)
  }

  /**
   * The four-argument `Draw`: throws outside `Begin`/`End`; otherwise the
   * call's instance, numbered by the counter, goes to the end of its
   * texture's list, the counter advances, and nothing else changes.
   */
  function Draw(b: PixelBatch, call: PixelCall): (r: DrawResult<PixelBatch>)
    requires ValidQueue(b.queue)
    ensures r.Thrown? <==> !b.inBatch
    ensures r.Recorded? ==>
      && r.batch == b.(queue := r.batch.queue)
      && ValidQueue(r.batch.queue)
      && r.batch.queue.counter == (b.queue.counter + 1) % CounterRange
      && InstancesOf(r.batch.queue.groups, call.texture.id)
         == InstancesOf(b.queue.groups, call.texture.id) + [MakeInstance(b.invWidth, b.invHeight, call, b.queue.counter)]
      && (forall u :: u != call.texture.id ==> InstancesOf(r.batch.queue.groups, u) == InstancesOf(b.queue.groups, u))
  {
    if !b.inBatch then Thrown
    else Recorded(b.(queue := Push(b.queue, TextureOf(call), Maker(b)(call, b.queue.counter))))
  }

  /** `Draw(texture, x, y)`: the whole texture at its own size with its top-left corner at (x, y), unrotated. */
  function DrawAt(texture: SizedTexture, x: int, y: int): (call: PixelCall)
    ensures call.dest.right - call.dest.left == texture.width && call.dest.bottom - call.dest.top == texture.height
    ensures call.dest.left == x && call.dest.top == y
    ensures call.source == WholeTexture && call.angle == 0.0
  {
    PixelCall(texture, WholeTexture, Rect(x, y, x + texture.width, y + texture.height), 0.0)
  }

  /** `Draw(texture, dest)`: the whole texture stretched over dest, unrotated. */
  function DrawInto(texture: SizedTexture, dest: Rect): (call: PixelCall)
    ensures call.dest == dest && call.source == WholeTexture && call.angle == 0.0
  {
    PixelCall(texture, WholeTexture, dest, 0.0)
  }

  /** x times a reciprocal, scaled back by what it is the reciprocal of, is x. */
  lemma ScaleBack(x: real, inv: real, size: real)
    requires inv * size == 1.0
    ensures x * inv * size == x
  {
    calc {
      x * inv * size;
      x * (inv * size);
      x;
    }
  }

  /**
   * Inside a batch begun on a viewport, an instance's destination scaled
   * back by the viewport's size is the pixel rectangle the call gave.
   */
  lemma DestRoundTrip(b: PixelBatch, viewport: Viewport, call: PixelCall, z: nat)
    requires viewport.width != 0.0 && viewport.height != 0.0
    ensures var i := MakeInstance(Begin(b, viewport).invWidth, Begin(b, viewport).invHeight, call, z);
      && i.dest.left * viewport.width == call.dest.left as real
      && i.dest.top * viewport.height == call.dest.top as real
      && i.dest.right * viewport.width == call.dest.right as real
      && i.dest.bottom * viewport.height == call.dest.bottom as real
  {
    var bb := Begin(b, viewport);
    ScaleBack(call.dest.left as real, bb.invWidth, viewport.width);
    ScaleBack(call.dest.top as real, bb.invHeight, viewport.height);
    ScaleBack(call.dest.right as real, bb.invWidth, viewport.width);
    ScaleBack(call.dest.bottom as real, bb.invHeight, viewport.height);
  }

  /**
   * `Draw(texture, x, y)` draws the whole texture, unrotated, one texel per
   * pixel: the instance samples (0, 0) to (1, 1) and covers the texture's
   * size in pixels from (x, y).
   */
  lemma DrawAtIsTexelForPixel(b: PixelBatch, viewport: Viewport, texture: SizedTexture, x: int, y: int, z: nat)
    requires viewport.width != 0.0 && viewport.height != 0.0
    ensures var i := MakeInstance(Begin(b, viewport).invWidth, Begin(b, viewport).invHeight, DrawAt(texture, x, y), z);
      && i.source == RectF(0.0, 0.0, 1.0, 1.0)
      && i.rotation == 0.0
      && i.dest.left * viewport.width == x as real
      && i.dest.top * viewport.height == y as real
      && (i.dest.right - i.dest.left) * viewport.width == texture.width as real
      && (i.dest.bottom - i.dest.top) * viewport.height == texture.height as real
  {
    var call := DrawAt(texture, x, y);
    var i := MakeInstance(Begin(b, viewport).invWidth, Begin(b, viewport).invHeight, call, z);
    WholeSourceIsUnit(texture);
    DestRoundTrip(b, viewport, call, z);
    calc {
      (i.dest.right - i.dest.left) * viewport.width;
      i.dest.right * viewport.width - i.dest.left * viewport.width;
      (x + texture.width) as real - x as real;
    }
    calc {
      (i.dest.bottom - i.dest.top) * viewport.height;
      i.dest.bottom * viewport.height - i.dest.top * viewport.height;
      (y + texture.height) as real - y as real;
    }
  }

  /** A sequence of `Draw` calls: stops at the first that throws. */
  function DrawAll(b: PixelBatch, calls: seq<PixelCall>): (r: DrawResult<PixelBatch>)
    requires ValidQueue(b.queue)
    ensures r.Recorded? ==> ValidQueue(r.batch.queue)
    decreases |calls|
  {
    if |calls| == 0 then Recorded(b)
    else
      match Draw(b, calls[0])
      case Thrown => Thrown
      case Recorded(b1) => DrawAll(b1, calls[1..])
  }

  /** Inside a batch every call records, and the queue is the fold of the calls' instances. */
  lemma {:induction false} DrawAllQueues(b: PixelBatch, calls: seq<PixelCall>)
    requires ValidQueue(b.queue) && b.inBatch
    ensures DrawAll(b, calls) == Recorded(b.(queue := QueueAll(b.queue, calls, TextureOf, Maker(b))))
    decreases |calls|
  {
    if |calls| > 0 {
      var b1 := b.(queue := Push(b.queue, TextureOf(calls[0]), Maker(b)(calls[0], b.queue.counter)));
      assert Draw(b, calls[0]) == Recorded(b1);
      assert Maker(b1) == Maker(b);
      DrawAllQueues(b1, calls[1..]);
    }
  }

  /** Outside a batch the first call throws. */
  lemma {:induction false} DrawAllOutsideThrows(b: PixelBatch, calls: seq<PixelCall>)
    requires ValidQueue(b.queue) && !b.inBatch && |calls| > 0
    ensures DrawAll(b, calls) == Thrown
  {
  }

  /**
   * A run of draws inside a batch: each texture's list grows by the
   * instances of the calls naming it, in call order.
   */
  lemma {:induction false} DrawAllInCallOrder(b: PixelBatch, calls: seq<PixelCall>, t: TextureId)
    requires ValidQueue(b.queue) && b.inBatch
    ensures DrawAll(b, calls).Recorded?
    ensures InstancesOf(DrawAll(b, calls).batch.queue.groups, t)
         == InstancesOf(b.queue.groups, t) + Select(TexturesOf(calls, TextureOf), Stamped(calls, Maker(b), b.queue.counter), t)
  {
    DrawAllQueues(b, calls);
    calc {
      InstancesOf(DrawAll(b, calls).batch.queue.groups, t);
      InstancesOf(QueueAll(b.queue, calls, TextureOf, Maker(b)).groups, t);
      { QueueAllInCallOrder(b.queue, calls, TextureOf, Maker(b), t); }
      InstancesOf(b.queue.groups, t) + Select(TexturesOf(calls, TextureOf), Stamped(calls, Maker(b), b.queue.counter), t);
    }
  }

  /** The k-th call of a run is numbered by the starting counter plus k, modulo 2^32. */
  lemma CallsNumberedInOrder(b: PixelBatch, calls: seq<PixelCall>, c: nat)
    ensures forall k :: 0 <= k < |calls| ==> Stamped(calls, Maker(b), c)[k].zIndex == (c + k) % CounterRange
  {
  }

  /**
   * A run of draws inside a batch keeps the batch open and advances the
   * counter once per call (`Advance`, which wraps modulo 2^32).
   */
  lemma {:induction false} DrawAllAdvances(b: PixelBatch, calls: seq<PixelCall>)
    requires ValidQueue(b.queue) && b.inBatch
    ensures DrawAll(b, calls).Recorded?
    ensures DrawAll(b, calls).batch.inBatch
    ensures DrawAll(b, calls).batch.queue.counter == Advance(b.queue.counter, |calls|)
    decreases |calls|
  {
    if |calls| > 0 {
      DrawAllAdvances(Draw(b, calls[0]).batch, calls[1..]);
    }
  }

  /** A run of draws inside a batch adds to what `End` submits exactly the instances the calls made. */
  lemma {:induction false} DrawAllQueuesEveryCall(b: PixelBatch, calls: seq<PixelCall>)
    requires ValidQueue(b.queue) && b.inBatch
    ensures DrawAll(b, calls).Recorded?
    ensures multiset(Flatten(DrawAll(b, calls).batch.queue.groups))
         == multiset(Flatten(b.queue.groups)) + multiset(Stamped(calls, Maker(b), b.queue.counter))
  {
    var q := QueueAll(b.queue, calls, TextureOf, Maker(b));
    assert DrawAll(b, calls) == Recorded(b.(queue := q)) by { DrawAllQueues(b, calls); }
    calc {
      multiset(Flatten(DrawAll(b, calls).batch.queue.groups));
      multiset(Flatten(q.groups));
      { QueueAllFlatten(b.queue, calls, TextureOf, Maker(b)); }
      multiset(Flatten(b.queue.groups)) + multiset(Stamped(calls, Maker(b), b.queue.counter));
    }
  }

  /**
   * `End` with the corrected chunk loop: upload the counter, submit every
   * texture's list, then clear the lists, reset the counter and close the
   * batch. Nothing is checked: `End` outside a batch submits whatever is
   * queued. While every list fits the instance buffer, the events are the
   * ones the code as written submits.
   */
  function End(b: PixelBatch): (r: (PixelBatch, seq<Event<PixelInstance>>))
    requires ValidQueue(b.queue)
    ensures !r.0.inBatch && r.0.invWidth == b.invWidth && r.0.invHeight == b.invHeight
    ensures r.0.queue == EmptyQueue()
    ensures |r.1| > 0 && r.1[0] == SetInstanceCount(b.queue.counter)
    ensures Uploads(r.1) == Flatten(b.queue.groups)
    ensures Drawn(r.1) == |Flatten(b.queue.groups)|
    ensures Bound(r.1) == TextureOrder(b.queue.groups)
    ensures ListsFitBuffer(b.queue.groups) ==> r.1 == [SetInstanceCount(b.queue.counter)] + SubmitGroupsAsWritten(b.queue.groups)
  {
    var (q, events) := Flush(b.queue);
    (b.(inBatch := false, queue := q), events)
  }

  /**
   * One frame from an empty queue: `Begin`, a run of draws, `End`. The
   * constant buffer carries the number of draws modulo 2^32, `End` (with
   * the corrected chunk loop) submits exactly the instances the draws made,
   * and the batch is left closed and empty for the next frame.
   */
  lemma {:induction false} FrameSubmitsEveryDraw(b: PixelBatch, viewport: Viewport, calls: seq<PixelCall>)
    requires viewport.width != 0.0 && viewport.height != 0.0
    requires b.queue == EmptyQueue()
    ensures var open := Begin(b, viewport);
      var drawn := DrawAll(open, calls);
      drawn.Recorded? &&
      var (closed, events) := End(drawn.batch);
      && events[0] == SetInstanceCount(|calls| % CounterRange)
      && multiset(Uploads(events)) == multiset(Stamped(calls, Maker(open), 0))
      && Drawn(events) == |calls|
      && !closed.inBatch && closed.queue == EmptyQueue()
  {
    var open := Begin(b, viewport);
    DrawAllAdvances(open, calls);
    AdvanceWraps(0, |calls|);
    DrawAllQueuesEveryCall(open, calls);
    var drawn := DrawAll(open, calls);
    var made := Stamped(calls, Maker(open), 0);
    assert Flatten(open.queue.groups) == [];
    assert |multiset(Flatten(drawn.batch.queue.groups))| == |multiset(made)|;
  }
}
