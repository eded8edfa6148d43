/**
 * What Sample2D's two sprite batches have in common: the instance counter,
 * the per-texture instance lists (a `std::map` from texture to vector,
 * iterated in texture order), and the chunked submission `End` performs.
 * The Direct3D calls `End` makes become a list of events.
 */
module SpriteQueues {
  /** A texture, named by its address, with its size in texels. */
  type TextureId = nat

  datatype Texture = Texture(id: TextureId, width: int, height: int)

  /** `MaxInstancesPerTexture`: the instance buffer holds this many instances. */
  const MaxInstancesPerTexture: nat := 65536

  /** `_numInstances` is a `uint32_t`. */
  const CounterRange: nat := 0x1_0000_0000

  /** `_numInstances++` on a `uint32_t`. */
  function NextCount(c: nat): (r: nat)
    requires c < CounterRange
    ensures r < CounterRange
    ensures r == (c + 1) % CounterRange
  {
    if c + 1 == CounterRange then 0 else c + 1
  }

  /** The instances queued for one texture. */
  datatype Group<I> = Group(texture: TextureId, instances: seq<I>)

  /** The map's invariant: textures ascending, each list non-empty (a list is created only to receive an instance). */
  predicate Ordered<I>(gs: seq<Group<I>>)
  {
    && (forall i, j :: 0 <= i < j < |gs| ==> gs[i].texture < gs[j].texture)
    && (forall i :: 0 <= i < |gs| ==> |gs[i].instances| > 0)
  }

  function Textures<I>(gs: seq<Group<I>>): set<TextureId>
  {
    set i | 0 <= i < |gs| :: gs[i].texture
  }

  /** `_instances[texture]` as a reader sees it: the list, or nothing for a texture not yet drawn. */
  function InstancesOf<I>(gs: seq<Group<I>>, t: TextureId): (r: seq<I>)
    requires Ordered(gs)
    ensures |r| > 0 <==> t in Textures(gs)
  {
    if |gs| == 0 then []
    else if gs[0].texture == t then gs[0].instances
    else
      assert Textures(gs) == {gs[0].texture} + Textures(gs[1..]) by {
        forall u | u in Textures(gs) ensures u in {gs[0].texture} + Textures(gs[1..]) {
          var i :| 0 <= i < |gs| && gs[i].texture == u;
          if i > 0 { assert gs[1..][i - 1].texture == u; }
        }
        forall u | u in Textures(gs[1..]) ensures u in Textures(gs) {
          var i :| 0 <= i < |gs[1..]| && gs[1..][i].texture == u;
          assert gs[i + 1].texture == u;
        }
      }
      InstancesOf(gs[1..], t)
  }

  /** Reading a map whose first list is g. */
  lemma InstancesOfCons<I>(g: Group<I>, gs: seq<Group<I>>)
    requires Ordered([g] + gs)
    ensures Ordered(gs)
    ensures forall u :: InstancesOf([g] + gs, u) == if g.texture == u then g.instances else InstancesOf(gs, u)
  {
    var r := [g] + gs;
    assert r[1..] == gs;
    forall i, j | 0 <= i < j < |gs| ensures gs[i].texture < gs[j].texture {
      assert gs[i] == r[i + 1] && gs[j] == r[j + 1];
    }
    forall i | 0 <= i < |gs| ensures |gs[i].instances| > 0 {
      assert gs[i] == r[i + 1];
    }
  }

  /** A non-empty list below every texture of an ordered map can go in front of it. */
  lemma OrderedCons<I>(g: Group<I>, gs: seq<Group<I>>)
    requires Ordered(gs) && |g.instances| > 0
    requires forall j :: 0 <= j < |gs| ==> g.texture < gs[j].texture
    ensures Ordered([g] + gs)
  {
    var r := [g] + gs;
    forall i, j | 0 <= i < j < |r| ensures r[i].texture < r[j].texture {
      if i > 0 {
        assert r[i] == gs[i - 1];
      }
      assert r[j] == gs[j - 1];
    }
  }

  /** After appending t to the tail of a map, every texture of the tail still lies above the head's texture when t does. */
  lemma {:induction false} TailStaysAbove<I>(gs: seq<Group<I>>, t: TextureId, rest: seq<Group<I>>)
    requires Ordered(gs) && |gs| > 0 && gs[0].texture < t && Ordered(rest)
    requires forall u :: u != t ==> InstancesOf(rest, u) == InstancesOf(gs[1..], u)
    ensures forall j :: 0 <= j < |rest| ==> gs[0].texture < rest[j].texture
  {
    forall j | 0 <= j < |rest|
      ensures gs[0].texture < rest[j].texture
    {
      if rest[j].texture != t {
        assert |InstancesOf(rest, rest[j].texture)| > 0 by { TexturesHas(rest, j); }
        TexturesAbove(gs, rest[j].texture);
      }
    }
  }

  /**
   * `_instances[texture].push_back(instance)`, creating the texture's list
   * first when it has none. Only that texture's list changes.
   */
  function Append<I>(gs: seq<Group<I>>, t: TextureId, inst: I): (r: seq<Group<I>>)
    requires Ordered(gs)
    ensures Ordered(r)
    ensures InstancesOf(r, t) == InstancesOf(gs, t) + [inst]
    ensures forall u :: u != t ==> InstancesOf(r, u) == InstancesOf(gs, u)
  {
    if |gs| == 0 then
      var r := [Group(t, [inst])];
      assert r == [Group(t, [inst])] + [];
      InstancesOfCons(Group(t, [inst]), []);
      r
    else if gs[0].texture == t then
      assert gs == [gs[0]] + gs[1..];
      InstancesOfCons(gs[0], gs[1..]);
      OrderedCons(Group(t, gs[0].instances + [inst]), gs[1..]);
      InstancesOfCons(Group(t, gs[0].instances + [inst]), gs[1..]);
      [Group(t, gs[0].instances + [inst])] + gs[1..]
    else if t < gs[0].texture then
      OrderedCons(Group(t, [inst]), gs);
      InstancesOfCons(Group(t, [inst]), gs);
      [Group(t, [inst])] + gs
    else
      assert gs == [gs[0]] + gs[1..];
      InstancesOfCons(gs[0], gs[1..]);
      var rest := Append(gs[1..], t, inst);
      TailStaysAbove(gs, t, rest);
      OrderedCons(gs[0], rest);
      InstancesOfCons(gs[0], rest);
      [gs[0]] + rest
  }

  lemma TexturesHas<I>(gs: seq<Group<I>>, j: nat)
    requires j < |gs|
    ensures gs[j].texture in Textures(gs)
  {
  }

  /** A texture with instances in the tail of the map lies above the first texture. */
  lemma {:induction false} TexturesAbove<I>(gs: seq<Group<I>>, u: TextureId)
    requires Ordered(gs) && |gs| > 0 && |InstancesOf(gs[1..], u)| > 0
    ensures gs[0].texture < u
  {
    var i :| 0 <= i < |gs[1..]| && gs[1..][i].texture == u;
    assert gs[i + 1].texture == u;
  }

  // ---------------------------------------------------------------------------
  // Source rectangles
  // ---------------------------------------------------------------------------

  /** A Windows `RECT`. */
  datatype Rect = Rect(left: int, top: int, right: int, bottom: int)

  /** A rectangle in normalized coordinates. */
  datatype RectF = RectF(left: real, top: real, right: real, bottom: real)

  /** The `source` pointer of `Draw`: null for the whole texture, or a texel rectangle. */
  datatype SourceArg = WholeTexture | Part(rect: Rect)

  /** `Draw` divides by the texture's size, so a texture it draws has a non-zero width and height. */
  type SizedTexture = t: Texture | t.width != 0 && t.height != 0 witness Texture(0, 1, 1)

  /** `src`: the given rectangle, or `{ 0, 0, width, height }`. */
  function SourceTexels(tex: Texture, source: SourceArg): Rect
  {
    match source
    case WholeTexture => Rect(0, 0, tex.width, tex.height)
    case Part(rect) => rect
  }

  /** The source rectangle in texture coordinates: scaling it back by the texture's size gives the texel rectangle. */
  function NormalizedSource(tex: SizedTexture, source: SourceArg): (r: RectF)
    ensures var s := SourceTexels(tex, source);
      && r.left * tex.width as real == s.left as real
      && r.top * tex.height as real == s.top as real
      && r.right * tex.width as real == s.right as real
      && r.bottom * tex.height as real == s.bottom as real
  {
    var s := SourceTexels(tex, source);
    RectF(s.left as real / tex.width as real, s.top as real / tex.height as real,
          s.right as real / tex.width as real, s.bottom as real / tex.height as real)
  }

  /** Without a source rectangle the sprite samples the whole texture, (0, 0) to (1, 1). */
  lemma WholeSourceIsUnit(tex: SizedTexture)
    ensures NormalizedSource(tex, WholeTexture) == RectF(0.0, 0.0, 1.0, 1.0)
  {
  }

  /** All queued instances, texture by texture in map order. */
  function Flatten<I>(gs: seq<Group<I>>): seq<I>
  {
    if |gs| == 0 then [] else gs[0].instances + Flatten(gs[1..])
  }

  // ---------------------------------------------------------------------------
  // Submission
  // ---------------------------------------------------------------------------

  /** The Direct3D calls `End` makes, in order. */
  datatype Event<I> =
    | SetInstanceCount(count: nat)        // the constant buffer upload
    | BindTexture(texture: TextureId)     // `PSSetShaderResources`
    | UploadInstances(data: seq<I>)       // `UpdateSubresource` of the instance buffer
    | DrawInstances(count: nat)           // `DrawInstanced(6, count, 0, 0)`

  function Min(a: nat, b: nat): nat
  {
    if a < b then a else b
  }

  /**
   * The `while` loop of `End` for one list from `done` on, as the code
   * uploads it: every chunk is copied from `data()`, the start of the list.
   */
  function ChunkEventsAsWritten<I>(data: seq<I>, done: nat): seq<Event<I>>
    requires done <= |data|
    decreases |data| - done
  {
    if done == |data| then []
    else
      var n := Min(|data| - done, MaxInstancesPerTexture);
      [UploadInstances(data[..n]), DrawInstances(n)] + ChunkEventsAsWritten(data, done + n)
  }

  /** The same loop uploading each chunk from the current offset, `data() + done`. */
  function ChunkEvents<I>(data: seq<I>, done: nat): seq<Event<I>>
    requires done <= |data|
    decreases |data| - done
  {
    if done == |data| then []
    else
      var n := Min(|data| - done, MaxInstancesPerTexture);
      [UploadInstances(data[done..done + n]), DrawInstances(n)] + ChunkEvents(data, done + n)
  }

  /** The instance data the events upload, in order. */
  function Uploads<I>(es: seq<Event<I>>): seq<I>
  {
    if |es| == 0 then []
    else (if es[0].UploadInstances? then es[0].data else []) + Uploads(es[1..])
  }

  /** The instances the events draw, summed. */
  function Drawn<I>(es: seq<Event<I>>): nat
  {
    if |es| == 0 then 0
    else (if es[0].DrawInstances? then es[0].count else 0) + Drawn(es[1..])
  }

  /** Every chunk is an upload of at most `MaxInstancesPerTexture` instances followed by a draw of exactly those. */
  predicate WellChunked<I>(es: seq<Event<I>>)
  {
    && |es| % 2 == 0
    && forall k :: 0 <= k < |es| / 2 ==>
         && es[2 * k].UploadInstances? && es[2 * k + 1].DrawInstances?
         && 0 < es[2 * k + 1].count <= MaxInstancesPerTexture
         && |es[2 * k].data| == es[2 * k + 1].count
  }

  lemma {:induction false} UploadsAppend<I>(a: seq<Event<I>>, b: seq<Event<I>>)
    ensures Uploads(a + b) == Uploads(a) + Uploads(b)
    ensures Drawn(a + b) == Drawn(a) + Drawn(b)
  {
    if |a| > 0 {
      assert (a + b)[1..] == a[1..] + b;
      UploadsAppend(a[1..], b);
    } else {
      assert a + b == b;
    }
  }

  lemma WellChunkedCons<I>(d: seq<I>, n: nat, es: seq<Event<I>>)
    requires 0 < n <= MaxInstancesPerTexture && |d| == n && WellChunked(es)
    ensures WellChunked([UploadInstances(d), DrawInstances(n)] + es)
  {
    var r := [UploadInstances(d), DrawInstances(n)] + es;
    forall k | 0 <= k < |r| / 2
      ensures r[2 * k].UploadInstances? && r[2 * k + 1].DrawInstances?
      ensures 0 < r[2 * k + 1].count <= MaxInstancesPerTexture && |r[2 * k].data| == r[2 * k + 1].count
    {
      if k > 0 {
        assert r[2 * k] == es[2 * (k - 1)] && r[2 * k + 1] == es[2 * (k - 1) + 1];
      }
    }
  }

  /** The first chunk of a list, as both of its events read. */
  lemma ChunkHead<I>(d: seq<I>, n: nat)
    ensures Uploads([UploadInstances(d), DrawInstances(n)]) == d
    ensures Drawn([UploadInstances(d), DrawInstances(n)]) == n
  {
    var head: seq<Event<I>> := [UploadInstances(d), DrawInstances(n)];
    var tail: seq<Event<I>> := [DrawInstances(n)];
    assert head[1..] == tail && tail[1..] == [];
    assert Uploads(tail) == [] && Drawn(tail) == n;
  }

  /**
   * Chunking uploads every instance of the list from `done` on exactly
   * once, in order, in chunks of at most `MaxInstancesPerTexture` whose
   * draws add up to the rest of the list.
   */
  lemma {:induction false} ChunksCoverList<I>(data: seq<I>, done: nat)
    requires done <= |data|
    ensures Uploads(ChunkEvents(data, done)) == data[done..]
    ensures Drawn(ChunkEvents(data, done)) == |data| - done
    ensures WellChunked(ChunkEvents(data, done))
  {
    ChunksUploadRest(data, done);
    ChunksDrawRest(data, done);
    ChunksWellChunked(data, done);
  }

  lemma {:induction false} ChunksUploadRest<I>(data: seq<I>, done: nat)
    requires done <= |data|
    ensures Uploads(ChunkEvents(data, done)) == data[done..]
    decreases |data| - done
  {
    if done < |data| {
      var n := Min(|data| - done, MaxInstancesPerTexture);
      var head: seq<Event<I>> := [UploadInstances(data[done..done + n]), DrawInstances(n)];
      calc {
        Uploads(ChunkEvents(data, done));
        Uploads(head + ChunkEvents(data, done + n));
        { UploadsAppend(head, ChunkEvents(data, done + n)); }
        Uploads(head) + Uploads(ChunkEvents(data, done + n));
        { ChunkHead(data[done..done + n], n); ChunksUploadRest(data, done + n); }
        data[done..done + n] + data[done + n..];
        data[done..];
      }
    }
  }

  lemma {:induction false} ChunksDrawRest<I>(data: seq<I>, done: nat)
    requires done <= |data|
    ensures Drawn(ChunkEvents(data, done)) == |data| - done
    decreases |data| - done
  {
    if done < |data| {
      var n := Min(|data| - done, MaxInstancesPerTexture);
      var head: seq<Event<I>> := [UploadInstances(data[done..done + n]), DrawInstances(n)];
      calc {
        Drawn(ChunkEvents(data, done));
        Drawn(head + ChunkEvents(data, done + n));
        { UploadsAppend(head, ChunkEvents(data, done + n)); }
        Drawn(head) + Drawn(ChunkEvents(data, done + n));
        { ChunkHead(data[done..done + n], n); ChunksDrawRest(data, done + n); }
        n + (|data| - (done + n));
      }
    }
  }

  lemma {:induction false} ChunksWellChunked<I>(data: seq<I>, done: nat)
    requires done <= |data|
    ensures WellChunked(ChunkEvents(data, done))
    decreases |data| - done
  {
    if done < |data| {
      var n := Min(|data| - done, MaxInstancesPerTexture);
      ChunksWellChunked(data, done + n);
      WellChunkedCons(data[done..done + n], n, ChunkEvents(data, done + n));
    }
  }

  /** A list that fits the buffer is uploaded in one chunk, the same way by both loops. */
  lemma ShortListsAgree<I>(data: seq<I>)
    requires 0 < |data| <= MaxInstancesPerTexture
    ensures ChunkEventsAsWritten(data, 0) == ChunkEvents(data, 0) == [UploadInstances(data), DrawInstances(|data|)]
  {
    assert data[0..|data|] == data[..|data|] == data;
  }

  /**
   * The loop as written: with one instance more than the buffer holds, the
   * second chunk uploads the list's first instance again, and the last
   * instance is never uploaded.
   */
  lemma AsWrittenRepeatsFirstChunk()
    ensures var data := seq(MaxInstancesPerTexture + 1, i => i);
      && Uploads(ChunkEventsAsWritten(data, 0)) == data[..MaxInstancesPerTexture] + [0]
      && Uploads(ChunkEventsAsWritten(data, 0)) != data
  {
    var data := seq(MaxInstancesPerTexture + 1, i => i);
    var tail := ChunkEventsAsWritten(data, MaxInstancesPerTexture);
    assert tail == [UploadInstances(data[..1]), DrawInstances(1)] + ChunkEventsAsWritten(data, MaxInstancesPerTexture + 1);
    assert ChunkEventsAsWritten(data, MaxInstancesPerTexture + 1) == [];
    var first: seq<Event<int>> := [UploadInstances(data[..MaxInstancesPerTexture]), DrawInstances(MaxInstancesPerTexture)];
    assert ChunkEventsAsWritten(data, 0) == first + tail;
    UploadsAppend(first, tail);
    assert Uploads(first) == data[..MaxInstancesPerTexture] by {
      assert first[1..][1..] == [];
    }
    assert Uploads(tail) == [0] by {
      assert tail[1..][1..] == [];
      assert data[..1] == [0];
    }
    assert Uploads(ChunkEventsAsWritten(data, 0))[MaxInstancesPerTexture] == 0 != data[MaxInstancesPerTexture];
  }

  /**
   * `End`'s loop over the map with the corrected chunk loop: bind each
   * texture, then submit its list in chunks read from the current offset.
   */
  function SubmitGroups<I>(gs: seq<Group<I>>): seq<Event<I>>
  {
    if |gs| == 0 then []
    else [BindTexture(gs[0].texture)] + ChunkEvents(gs[0].instances, 0) + SubmitGroups(gs[1..])
  }

  /** `End`'s loop over the map as the code writes it, every chunk read from the start of its list. */
  function SubmitGroupsAsWritten<I>(gs: seq<Group<I>>): seq<Event<I>>
  {
    if |gs| == 0 then []
    else [BindTexture(gs[0].texture)] + ChunkEventsAsWritten(gs[0].instances, 0) + SubmitGroupsAsWritten(gs[1..])
  }

  /** Every list fits the instance buffer. */
  predicate ListsFitBuffer<I>(gs: seq<Group<I>>)
  {
    forall k :: 0 <= k < |gs| ==> |gs[k].instances| <= MaxInstancesPerTexture
  }

  /** While every list fits the instance buffer, both loops over the map submit the same events. */
  lemma {:induction false} ShortGroupsAgree<I>(gs: seq<Group<I>>)
    requires ListsFitBuffer(gs)
    ensures SubmitGroupsAsWritten(gs) == SubmitGroups(gs)
  {
    if |gs| > 0 {
      if |gs[0].instances| > 0 {
        ShortListsAgree(gs[0].instances);
      }
      ShortGroupsAgree(gs[1..]);
    }
  }

  /** The textures the events bind, in order. */
  function Bound<I>(es: seq<Event<I>>): seq<TextureId>
  {
    if |es| == 0 then []
    else (if es[0].BindTexture? then [es[0].texture] else []) + Bound(es[1..])
  }

  lemma {:induction false} BoundAppend<I>(a: seq<Event<I>>, b: seq<Event<I>>)
    ensures Bound(a + b) == Bound(a) + Bound(b)
  {
    if |a| > 0 {
      assert (a + b)[1..] == a[1..] + b;
      BoundAppend(a[1..], b);
    } else {
      assert a + b == b;
    }
  }

  /** The chunks of one list bind nothing. */
  lemma {:induction false} ChunksBindNothing<I>(data: seq<I>, done: nat)
    requires done <= |data|
    ensures Bound(ChunkEvents(data, done)) == []
    decreases |data| - done
  {
    if done < |data| {
      var n := Min(|data| - done, MaxInstancesPerTexture);
      var head: seq<Event<I>> := [UploadInstances(data[done..done + n]), DrawInstances(n)];
      ChunksBindNothing(data, done + n);
      BoundAppend(head, ChunkEvents(data, done + n));
      assert head[1..][1..] == [];
    }
  }

  function TextureOrder<I>(gs: seq<Group<I>>): seq<TextureId>
  {
    if |gs| == 0 then [] else [gs[0].texture] + TextureOrder(gs[1..])
  }

  /** What the bind event of one list contributes. */
  lemma BindHead<I>(t: TextureId)
    ensures Uploads<I>([BindTexture(t)]) == [] && Drawn<I>([BindTexture(t)]) == 0 && Bound<I>([BindTexture(t)]) == [t]
  {
    var bind: seq<Event<I>> := [BindTexture(t)];
    assert bind[1..] == [];
  }

  /**
   * Submitting the map uploads every queued instance exactly once, texture
   * by texture in map order, and binds each texture once, in that order.
   */
  lemma {:induction false} SubmitGroupsCovers<I>(gs: seq<Group<I>>)
    ensures Uploads(SubmitGroups(gs)) == Flatten(gs)
    ensures Drawn(SubmitGroups(gs)) == |Flatten(gs)|
    ensures Bound(SubmitGroups(gs)) == TextureOrder(gs)
  {
    SubmitGroupsUploads(gs);
    SubmitGroupsDraws(gs);
    SubmitGroupsBinds(gs);
  }

  lemma {:induction false} SubmitGroupsUploads<I>(gs: seq<Group<I>>)
    ensures Uploads(SubmitGroups(gs)) == Flatten(gs)
  {
    if |gs| > 0 {
      var bind: seq<Event<I>> := [BindTexture(gs[0].texture)];
      var chunks := ChunkEvents(gs[0].instances, 0);
      var rest := SubmitGroups(gs[1..]);
      calc {
        Uploads(SubmitGroups(gs));
        Uploads(bind + chunks + rest);
        { UploadsAppend(bind + chunks, rest); UploadsAppend(bind, chunks); }
        Uploads(bind) + Uploads(chunks) + Uploads(rest);
        { BindHead<I>(gs[0].texture); ChunksUploadRest(gs[0].instances, 0); SubmitGroupsUploads(gs[1..]); }
        [] + gs[0].instances[0..] + Flatten(gs[1..]);
        { assert gs[0].instances[0..] == gs[0].instances; }
        Flatten(gs);
      }
    }
  }

  lemma {:induction false} SubmitGroupsDraws<I>(gs: seq<Group<I>>)
    ensures Drawn(SubmitGroups(gs)) == |Flatten(gs)|
  {
    if |gs| > 0 {
      var bind: seq<Event<I>> := [BindTexture(gs[0].texture)];
      var chunks := ChunkEvents(gs[0].instances, 0);
      var rest := SubmitGroups(gs[1..]);
      calc {
        Drawn(SubmitGroups(gs));
        Drawn(bind + chunks + rest);
        { UploadsAppend(bind + chunks, rest); UploadsAppend(bind, chunks); }
        Drawn(bind) + Drawn(chunks) + Drawn(rest);
        { BindHead<I>(gs[0].texture); ChunksDrawRest(gs[0].instances, 0); SubmitGroupsDraws(gs[1..]); }
        |gs[0].instances| + |Flatten(gs[1..])|;
        |Flatten(gs)|;
      }
    }
  }

  lemma {:induction false} SubmitGroupsBinds<I>(gs: seq<Group<I>>)
    ensures Bound(SubmitGroups(gs)) == TextureOrder(gs)
  {
    if |gs| > 0 {
      var bind: seq<Event<I>> := [BindTexture(gs[0].texture)];
      var chunks := ChunkEvents(gs[0].instances, 0);
      var rest := SubmitGroups(gs[1..]);
      calc {
        Bound(SubmitGroups(gs));
        Bound(bind + chunks + rest);
        { BoundAppend(bind + chunks, rest); BoundAppend(bind, chunks); }
        Bound(bind) + Bound(chunks) + Bound(rest);
        { BindHead<I>(gs[0].texture); ChunksBindNothing(gs[0].instances, 0); SubmitGroupsBinds(gs[1..]); }
        [gs[0].texture] + [] + TextureOrder(gs[1..]);
        TextureOrder(gs);
      }
    }
  }

  // ---------------------------------------------------------------------------
  // The queue both batches keep
  // ---------------------------------------------------------------------------

  /** `_constants._numInstances` and `_instances`. */
  datatype Queue<I> = Queue(counter: nat, groups: seq<Group<I>>)

  predicate ValidQueue<I>(q: Queue<I>)
  {
    q.counter < CounterRange && Ordered(q.groups)
  }

  /** The queue the constructor and `End` leave: counter 0, no lists. */
  function EmptyQueue<I>(): (q: Queue<I>)
    ensures ValidQueue(q) && q.counter == 0
    ensures forall t :: InstancesOf(q.groups, t) == []
  {
    Queue(0, [])
  }

  /** The tail of `Draw`: the instance (carrying the old counter) goes to its texture's list and the counter advances. */
  function Push<I>(q: Queue<I>, t: TextureId, inst: I): (r: Queue<I>)
    requires ValidQueue(q)
    ensures ValidQueue(r)
    ensures r.counter == (q.counter + 1) % CounterRange
    ensures InstancesOf(r.groups, t) == InstancesOf(q.groups, t) + [inst]
    ensures forall u :: u != t ==> InstancesOf(r.groups, u) == InstancesOf(q.groups, u)
  {
    Queue(NextCount(q.counter), Append(q.groups, t, inst))
  }

  /**
   * The body of `End` after the pipeline setup, with the corrected chunk
   * loop: upload the counter, submit every list, and empty the queue. While
   * every list fits the instance buffer, the events are the ones the code
   * as written submits.
   */
  function Flush<I>(q: Queue<I>): (r: (Queue<I>, seq<Event<I>>))
    requires ValidQueue(q)
    ensures r.0 == EmptyQueue()
    ensures |r.1| > 0 && r.1[0] == SetInstanceCount(q.counter)
    ensures Uploads(r.1) == Flatten(q.groups)
    ensures Drawn(r.1) == |Flatten(q.groups)|
    ensures Bound(r.1) == TextureOrder(q.groups)
    ensures ListsFitBuffer(q.groups) ==> r.1 == [SetInstanceCount(q.counter)] + SubmitGroupsAsWritten(q.groups)
  {
    var es: seq<Event<I>> := [SetInstanceCount(q.counter)] + SubmitGroups(q.groups);
    SubmitGroupsCovers(q.groups);
    assert ListsFitBuffer(q.groups) ==> SubmitGroupsAsWritten(q.groups) == SubmitGroups(q.groups) by {
      if ListsFitBuffer(q.groups) {
        ShortGroupsAgree(q.groups);
      }
    }
    UploadsAppend([SetInstanceCount(q.counter)], SubmitGroups(q.groups));
    BoundAppend([SetInstanceCount(q.counter)], SubmitGroups(q.groups));
    (EmptyQueue(), es)
  }

  /** What a `Draw` call does to the caller: records, or throws outside `Begin`/`End` and records nothing. */
  datatype DrawResult<B> = Recorded(batch: B) | Thrown

  /** Pushes, in order, instance k to texture ts[k]. */
  function PushAll<I>(q: Queue<I>, ts: seq<TextureId>, insts: seq<I>): (r: Queue<I>)
    requires ValidQueue(q) && |ts| == |insts|
    ensures ValidQueue(r)
    decreases |ts|
  {
    if |ts| == 0 then q else PushAll(Push(q, ts[0], insts[0]), ts[1..], insts[1..])
  }

  /** The instances among insts whose texture is t, in order: a reference for the per-texture lists. */
  function Select<I>(ts: seq<TextureId>, insts: seq<I>, t: TextureId): seq<I>
    requires |ts| == |insts|
    decreases |ts|
  {
    if |ts| == 0 then [] else (if ts[0] == t then [insts[0]] else []) + Select(ts[1..], insts[1..], t)
  }

  /** The counter after n increments. */
  function Advance(c: nat, n: nat): (r: nat)
    requires c < CounterRange
    ensures r < CounterRange
    decreases n
  {
    if n == 0 then c else Advance(NextCount(c), n - 1)
  }

  /** n increments of the 32-bit counter add n modulo 2^32. */
  lemma {:induction false} AdvanceWraps(c: nat, n: nat)
    requires c < CounterRange
    ensures Advance(c, n) == (c + n) % CounterRange
    decreases n
  {
    if n > 0 {
      AdvanceWraps(NextCount(c), n - 1);
      var c1 := NextCount(c);
      assert c1 == (c + 1) % CounterRange;
      assert (c1 + (n - 1)) % CounterRange == (c + n) % CounterRange by {
        if c + 1 == CounterRange {
          assert c1 == 0;
        } else {
          assert c1 == c + 1;
        }
      }
    }
  }

  /** Each texture's list grows by exactly the instances pushed to it, in push order. */
  lemma {:induction false} PushAllSelects<I>(q: Queue<I>, ts: seq<TextureId>, insts: seq<I>, t: TextureId)
    requires ValidQueue(q) && |ts| == |insts|
    ensures InstancesOf(PushAll(q, ts, insts).groups, t) == InstancesOf(q.groups, t) + Select(ts, insts, t)
    decreases |ts|
  {
    if |ts| > 0 {
      var p := Push(q, ts[0], insts[0]);
      var here: seq<I> := if ts[0] == t then [insts[0]] else [];
      var sel := Select(ts[1..], insts[1..], t);
      calc {
        InstancesOf(PushAll(q, ts, insts).groups, t);
        InstancesOf(PushAll(p, ts[1..], insts[1..]).groups, t);
        { PushAllSelects(p, ts[1..], insts[1..], t); }
        InstancesOf(p.groups, t) + sel;
        (InstancesOf(q.groups, t) + here) + sel;
        InstancesOf(q.groups, t) + (here + sel);
        InstancesOf(q.groups, t) + Select(ts, insts, t);
      }
    } else {
      assert InstancesOf(q.groups, t) + [] == InstancesOf(q.groups, t);
    }
  }

  /** The counter advances once per push, modulo 2^32. */
  lemma {:induction false} PushAllCounts<I>(q: Queue<I>, ts: seq<TextureId>, insts: seq<I>)
    requires ValidQueue(q) && |ts| == |insts|
    ensures PushAll(q, ts, insts).counter == (q.counter + |ts|) % CounterRange
  {
    calc {
      PushAll(q, ts, insts).counter;
      { PushAllAdvances(q, ts, insts); }
      Advance(q.counter, |ts|);
      { AdvanceWraps(q.counter, |ts|); }
      (q.counter + |ts|) % CounterRange;
    }
  }

  lemma {:induction false} PushAllAdvances<I>(q: Queue<I>, ts: seq<TextureId>, insts: seq<I>)
    requires ValidQueue(q) && |ts| == |insts|
    ensures PushAll(q, ts, insts).counter == Advance(q.counter, |ts|)
    decreases |ts|
  {
    if |ts| > 0 {
      PushAllAdvances(Push(q, ts[0], insts[0]), ts[1..], insts[1..]);
    }
  }

  /** ((c + 1) mod 2^32 + k) mod 2^32 is (c + 1 + k) mod 2^32. */
  lemma ModShift(c: nat, k: nat)
    requires c < CounterRange
    ensures (NextCount(c) + k) % CounterRange == (c + 1 + k) % CounterRange
  {
    if c + 1 == CounterRange {
      assert NextCount(c) == 0;
      assert c + 1 + k == k + CounterRange;
    }
  }

  /** The instance each call makes, the k-th call's carrying counter c + k modulo 2^32. */
  function Stamped<C, I>(calls: seq<C>, make: (C, nat) -> I, c: nat): (r: seq<I>)
    ensures |r| == |calls|
    ensures forall k :: 0 <= k < |calls| ==> r[k] == make(calls[k], (c + k) % CounterRange)
  {
    seq(|calls|, k requires 0 <= k < |calls| => make(calls[k], (c + k) % CounterRange))
  }

  function TexturesOf<C>(calls: seq<C>, texOf: C -> TextureId): (r: seq<TextureId>)
    ensures |r| == |calls|
    ensures forall k :: 0 <= k < |calls| ==> r[k] == texOf(calls[k])
  {
    seq(|calls|, k requires 0 <= k < |calls| => texOf(calls[k]))
  }

  /** A run of `Draw` calls inside a batch: each call's instance carries the counter at the time and goes to its texture's list. */
  function QueueAll<C, I>(q: Queue<I>, calls: seq<C>, texOf: C -> TextureId, make: (C, nat) -> I): (r: Queue<I>)
    requires ValidQueue(q)
    ensures ValidQueue(r)
    decreases |calls|
  {
    if |calls| == 0 then q
    else QueueAll(Push(q, texOf(calls[0]), make(calls[0], q.counter)), calls[1..], texOf, make)
  }

  /** Dropping the first call restamps the rest from the next counter. */
  lemma StampedTail<C, I>(calls: seq<C>, make: (C, nat) -> I, c: nat)
    requires c < CounterRange && |calls| > 0
    ensures Stamped(calls, make, c)[1..] == Stamped(calls[1..], make, NextCount(c))
    ensures Stamped(calls, make, c)[0] == make(calls[0], c)
  {
    forall k | 0 <= k < |calls| - 1
      ensures Stamped(calls, make, c)[1..][k] == Stamped(calls[1..], make, NextCount(c))[k]
    {
      ModShift(c, k);
    }
  }

  lemma {:induction false} QueueAllPushes<C, I>(q: Queue<I>, calls: seq<C>, texOf: C -> TextureId, make: (C, nat) -> I)
    requires ValidQueue(q)
    ensures QueueAll(q, calls, texOf, make) == PushAll(q, TexturesOf(calls, texOf), Stamped(calls, make, q.counter))
    decreases |calls|
  {
    if |calls| > 0 {
      var ts := TexturesOf(calls, texOf);
      var st := Stamped(calls, make, q.counter);
      var p := Push(q, texOf(calls[0]), make(calls[0], q.counter));
      StampedTail(calls, make, q.counter);
      assert ts[1..] == TexturesOf(calls[1..], texOf);
      calc {
        QueueAll(q, calls, texOf, make);
        QueueAll(p, calls[1..], texOf, make);
        { QueueAllPushes(p, calls[1..], texOf, make); }
        PushAll(p, TexturesOf(calls[1..], texOf), Stamped(calls[1..], make, p.counter));
        PushAll(Push(q, ts[0], st[0]), ts[1..], st[1..]);
        PushAll(q, ts, st);
      }
    }
  }

  /**
   * A run of draws inside a batch: each texture's list grows by exactly the
   * instances of the calls that name it, in call order, the k-th call's
   * instance carrying the starting counter plus k modulo 2^32.
   */
  lemma {:induction false} QueueAllInCallOrder<C, I>(q: Queue<I>, calls: seq<C>, texOf: C -> TextureId, make: (C, nat) -> I, t: TextureId)
    requires ValidQueue(q)
    ensures InstancesOf(QueueAll(q, calls, texOf, make).groups, t)
         == InstancesOf(q.groups, t) + Select(TexturesOf(calls, texOf), Stamped(calls, make, q.counter), t)
  {
    var ts, st := TexturesOf(calls, texOf), Stamped(calls, make, q.counter);
    QueueAllPushes(q, calls, texOf, make);
    PushAllSelects(q, ts, st, t);
  }

  lemma {:induction false} QueueAllAdvances<C, I>(q: Queue<I>, calls: seq<C>, texOf: C -> TextureId, make: (C, nat) -> I)
    requires ValidQueue(q)
    ensures QueueAll(q, calls, texOf, make).counter == Advance(q.counter, |calls|)
    decreases |calls|
  {
    if |calls| > 0 {
      QueueAllAdvances(Push(q, texOf(calls[0]), make(calls[0], q.counter)), calls[1..], texOf, make);
    }
  }

  /** A run of draws advances the counter by the number of calls, modulo 2^32. */
  lemma {:induction false} QueueAllCounts<C, I>(q: Queue<I>, calls: seq<C>, texOf: C -> TextureId, make: (C, nat) -> I)
    requires ValidQueue(q)
    ensures QueueAll(q, calls, texOf, make).counter == (q.counter + |calls|) % CounterRange
  {
    calc {
      QueueAll(q, calls, texOf, make).counter;
      { QueueAllAdvances(q, calls, texOf, make); }
      Advance(q.counter, |calls|);
      { AdvanceWraps(q.counter, |calls|); }
      (q.counter + |calls|) % CounterRange;
    }
  }

  // ---------------------------------------------------------------------------
  // What End submits
  // ---------------------------------------------------------------------------

  lemma FlattenCons<I>(g: Group<I>, gs: seq<Group<I>>)
    ensures Flatten([g] + gs) == g.instances + Flatten(gs)
  {
    assert ([g] + gs)[1..] == gs;
  }

  /** Appending an instance adds exactly it to the instances `End` would submit. */
  lemma {:induction false} AppendFlatten<I>(gs: seq<Group<I>>, t: TextureId, inst: I)
    requires Ordered(gs)
    ensures multiset(Flatten(Append(gs, t, inst))) == multiset(Flatten(gs)) + multiset{inst}
  {
    if |gs| == 0 {
      assert Flatten([Group(t, [inst])]) == [inst] by { FlattenCons(Group(t, [inst]), []); }
    } else if gs[0].texture == t {
      FlattenCons(Group(t, gs[0].instances + [inst]), gs[1..]);
    } else if t < gs[0].texture {
      FlattenCons(Group(t, [inst]), gs);
    } else {
      AppendFlatten(gs[1..], t, inst);
      FlattenCons(gs[0], Append(gs[1..], t, inst));
    }
  }

  /**
   * A run of draws adds to what `End` submits exactly the instances the
   * calls made.
   */
  lemma {:induction false} QueueAllFlatten<C, I>(q: Queue<I>, calls: seq<C>, texOf: C -> TextureId, make: (C, nat) -> I)
    requires ValidQueue(q)
    ensures multiset(Flatten(QueueAll(q, calls, texOf, make).groups))
         == multiset(Flatten(q.groups)) + multiset(Stamped(calls, make, q.counter))
    decreases |calls|
  {
    if |calls| > 0 {
      var inst := make(calls[0], q.counter);
      var p := Push(q, texOf(calls[0]), inst);
      var st := Stamped(calls, make, q.counter);
      calc {
        multiset(Flatten(QueueAll(q, calls, texOf, make).groups));
        multiset(Flatten(QueueAll(p, calls[1..], texOf, make).groups));
        { QueueAllFlatten(p, calls[1..], texOf, make); }
        multiset(Flatten(p.groups)) + multiset(Stamped(calls[1..], make, p.counter));
        { StampedTail(calls, make, q.counter); }
        multiset(Flatten(p.groups)) + multiset(st[1..]);
        { AppendFlatten(q.groups, texOf(calls[0]), inst); }
        multiset(Flatten(q.groups)) + multiset{inst} + multiset(st[1..]);
        { StampedTail(calls, make, q.counter); assert st == [inst] + st[1..]; }
        multiset(Flatten(q.groups)) + multiset(st);
      }
    } else {
      assert Stamped(calls, make, q.counter) == [];
    }
  }
}
