/** What the viewer asks of the display backend, recorded as an
    append-only log of events, and the trace of that log: the ordered
    marks left by each `local_model` transform set, each indexed draw and
    each commit. */
module Backend {
  import opened Matrix

  /** The two shader programs built in setup. */
  datatype Program = TextureProgram | ColorProgram

  /** The uniform names the viewer sets. */
  datatype UniformName = LocalModel | InBaseColor | InOffset | InScale | InRotation

  datatype UniformValue =
    | Vec1(x: real)
    | Vec2(x: real, y: real)
    | Vec4(x: real, y: real, z: real, w: real)
    | Mat4(m: Mat)

  /** An entry of the bufferView-to-GPU-buffer cache. `NullBuffer` is the
      `nullptr` that `operator[]` stores for a missing key. */
  datatype BufferRef = NullBuffer | GlBuffer(view: int)

  /** Messages the viewer prints to its console. */
  datatype Diagnostic =
    | NoBuffer
    | MultipleBuffers
    | TargetZero
    | SparseAccessor
    | TextureLoadFailed
    | SetupFailed
    | UnsupportedAttribute(name: string)
    | NonElementIndexBuffer

  datatype Event =
    | Log(diagnostic: Diagnostic)
    | CreatePool(size: nat)
    | CreateProgram(program: Program)
    | CreateBuffer(view: int, byteOffset: int, byteLength: int, target: int)
    | LoadTexture(texture: nat, source: int)
    | AckConfigure(serial: int)
    | NewUnit
    | BindTexture(texture: nat)
    | SetUniform(name: UniformName, value: UniformValue)
    | BindProgram(program: Program)
    | VertexAttrib(location: nat, size: nat, componentType: int, normalized: bool,
                   byteStride: int, byteOffset: int, buffer: BufferRef)
    | BindVertexArray
    | DrawElements(mode: int, count: int, componentType: int, byteOffset: int,
                   buffer: BufferRef)
    | Commit

  /** What the scene walk leaves visible in the log: each `local_model`
      transform set, each indexed draw and each commit, in order. */
  datatype Mark = Placed(world: Mat) | Drawn | Committed

  /** The marks of one event. */
  function Marks(e: Event): seq<Mark> {
    if e.SetUniform? && e.name == LocalModel && e.value.Mat4? then [Placed(e.value.m)]
    else if e.DrawElements? then [Drawn]
    else if e.Commit? then [Committed]
    else []
  }

  /** The marks of a log, oldest first. */
  function Trace(log: seq<Event>): seq<Mark>
    decreases |log|
  {
    if log == [] then [] else Trace(log[..|log| - 1]) + Marks(log[|log| - 1])
  }

  lemma {:induction false} TraceAppend(s: seq<Event>, t: seq<Event>)
    ensures Trace(s + t) == Trace(s) + Trace(t)
    decreases |t|
  {
    if t == [] {
      assert s + t == s;
    } else {
      var init := t[..|t| - 1];
      assert (s + t)[..|s + t| - 1] == s + init;
      assert (s + t)[|s + t| - 1] == t[|t| - 1];
      TraceAppend(s, init);
    }
  }

  /** Events that neither set `local_model`, draw nor commit. */
  predicate Quiet(e: Event) {
    !(e.SetUniform? && e.name == LocalModel && e.value.Mat4?) && !e.DrawElements? && !e.Commit?
  }

  lemma {:induction false} QuietTrace(s: seq<Event>)
    requires forall k :: 0 <= k < |s| ==> Quiet(s[k])
    ensures Trace(s) == []
    decreases |s|
  {
    if s != [] {
      QuietTrace(s[..|s| - 1]);
    }
  }

  lemma QuietAppend(log: seq<Event>, q: seq<Event>)
    requires forall k :: 0 <= k < |q| ==> Quiet(q[k])
    ensures Trace(log + q) == Trace(log)
  {
    TraceAppend(log, q);
    QuietTrace(q);
  }

  /** The end of a completed primitive: quiet events, the `local_model`
      uniform, the draw. */
  lemma DrawTail(log: seq<Event>, q: seq<Event>, world: Mat, d: Event)
    requires forall k :: 0 <= k < |q| ==> Quiet(q[k])
    requires d.DrawElements?
    ensures Trace(log + q + [SetUniform(LocalModel, Mat4(world)), d]) == Trace(log) + [Placed(world), Drawn]
  {
    var u := SetUniform(LocalModel, Mat4(world));
    QuietAppend(log, q);
    assert log + q + [u, d] == (log + q + [u]) + [d];
    assert (log + q + [u])[..|log + q|] == log + q;
  }
}
