/** Reference semantics of drawing: what each step of the scene walk does
    to the backend-visible state (the event log, the bufferView cache, and
    whether a failed assertion has ended the process). The methods of the
    viewer are proved to have exactly these effects. */
module Render {
  import opened Matrix
  import opened Gltf
  import opened Backend

  /** `halted` records that an `assert` of the source failed: the process
      is gone and nothing further happens. */
  datatype St = St(log: seq<Event>, buffers: map<int, BufferRef>, halted: bool)

  function Emit(st: St, es: seq<Event>): St { st.(log := st.log + es) }

  function Halt(st: St): St { st.(halted := true) }

  /** Every texture a material can name has its image source cached. */
  predicate TexturesCached(a: Asset, tex: map<int, nat>) {
    forall t :: 0 <= t < |a.textures| ==> a.textures[t].source in tex
  }

  /** `operator[]` on the bufferView cache: a missing key is inserted with a
      null entry, which is returned. */
  function Subscript(buffers: map<int, BufferRef>, view: int): (r: (BufferRef, map<int, BufferRef>))
    ensures view in r.1
    ensures r.0 == r.1[view]
    ensures forall k :: k in buffers ==> k in r.1 && r.1[k] == buffers[k]
    ensures r.1.Keys == buffers.Keys + {view}
    ensures view !in buffers ==> r.0 == NullBuffer
  {
    if view in buffers then (buffers[view], buffers) else (NullBuffer, buffers[view := NullBuffer])
  }

  /** The three texture-transform uniforms, each defaulting when the
      extension object lacks the member. */
  function TransformUniforms(t: TextureTransform): (r: seq<Event>)
    ensures |r| == 3
    ensures r[0] == SetUniform(InOffset, if t.offset.Some? then Vec2(t.offset.value.0, t.offset.value.1) else Vec2(0.0, 0.0))
    ensures r[1] == SetUniform(InScale, if t.scale.Some? then Vec2(t.scale.value.0, t.scale.value.1) else Vec2(1.0, 1.0))
    ensures r[2] == SetUniform(InRotation, Vec1(if t.rotation.Some? then t.rotation.value else 0.0))
  {
    var offset := if t.offset.Some? then t.offset.value else (0.0, 0.0);
    var scale := if t.scale.Some? then t.scale.value else (1.0, 1.0);
    var rotation := if t.rotation.Some? then t.rotation.value else 0.0;
    [SetUniform(InOffset, Vec2(offset.0, offset.1)),
     SetUniform(InScale, Vec2(scale.0, scale.1)),
     SetUniform(InRotation, Vec1(rotation))]
  }

  predicate SetsBaseColor(e: Event) {
    e.SetUniform? && e.name == InBaseColor
  }

  /** Material dispatch; None where the source asserts. */
  function MaterialEvents(a: Asset, tex: map<int, nat>, m: Material): (r: Option<seq<Event>>)
    requires MaterialRefs(a, m) && TexturesCached(a, tex)
    // a base-color texture selects the texture program and never the base color
    ensures m.baseColorTexture >= 0 ==>
      && r.Some? && |r.value| >= 2
      && r.value[0] == BindTexture(tex[a.textures[m.baseColorTexture].source])
      && r.value[|r.value| - 1] == BindProgram(TextureProgram)
      && (forall k :: 0 <= k < |r.value| ==> !SetsBaseColor(r.value[k]) && r.value[k] != BindProgram(ColorProgram))
      && (m.textureTransform.None? <==> |r.value| == 2)
      && (m.textureTransform.Some? ==> r.value[1..|r.value| - 1] == TransformUniforms(m.textureTransform.value))
    // otherwise the color program, fed exactly four base-color components
    ensures m.baseColorTexture < 0 ==> (r.Some? <==> |m.baseColorFactor| == 4)
    ensures m.baseColorTexture < 0 && r.Some? ==>
      var c := m.baseColorFactor;
      r.value == [SetUniform(InBaseColor, Vec4(c[0], c[1], c[2], c[3])), BindProgram(ColorProgram)]
  {
    if m.baseColorTexture >= 0 then
      var texture := a.textures[m.baseColorTexture];
      var transform := if m.textureTransform.Some? then TransformUniforms(m.textureTransform.value) else [];
      Some([BindTexture(tex[texture.source])] + transform + [BindProgram(TextureProgram)])
    else if |m.baseColorFactor| != 4 then None
    else
      var c := m.baseColorFactor;
      Some([SetUniform(InBaseColor, Vec4(c[0], c[1], c[2], c[3])), BindProgram(ColorProgram)])
  }

  /** One entry of the attribute loop. */
  function AttributeStep(a: Asset, st: St, attr: (string, int)): (r: St)
    requires !st.halted
    requires AttributeRefs(a, attr)
    ensures r.buffers == st.buffers && |r.log| == |st.log| + (if r.halted then 0 else 1)
    ensures r.log[..|st.log|] == st.log
    // the element type is checked before the name
    ensures !r.halted ==> attr.1 >= 0 && ComponentCount(a.accessors[attr.1].accessorType).Some?
    ensures !r.halted && AttributeLocation(attr.0).None? ==>
      r.log[|st.log|] == Log(UnsupportedAttribute(attr.0))
    // a bound attribute has a known stride and an uploaded buffer
    ensures !r.halted && AttributeLocation(attr.0).Some? ==>
      var acc := a.accessors[attr.1];
      && acc.byteStride != -1 && acc.bufferView in st.buffers
      && r.log[|st.log|] == VertexAttrib(AttributeLocation(attr.0).value,
           ComponentCount(acc.accessorType).value, acc.componentType, acc.normalized,
           acc.byteStride, acc.byteOffset, st.buffers[acc.bufferView])
    ensures r.halted <==>
      || attr.1 < 0
      || ComponentCount(a.accessors[attr.1].accessorType).None?
      || (AttributeLocation(attr.0).Some? &&
          (a.accessors[attr.1].byteStride == -1 || a.accessors[attr.1].bufferView !in st.buffers))
  {
    var (name, index) := attr;
    if index < 0 then Halt(st)
    else
      var acc := a.accessors[index];
      match ComponentCount(acc.accessorType)
      case None => Halt(st)
      case Some(size) =>
        match AttributeLocation(name)
        case None => Emit(st, [Log(UnsupportedAttribute(name))])
        case Some(location) =>
          if acc.byteStride == -1 || acc.bufferView !in st.buffers then Halt(st)
          else Emit(st, [VertexAttrib(location, size, acc.componentType, acc.normalized,
                                      acc.byteStride, acc.byteOffset, st.buffers[acc.bufferView])])
  }

  predicate AttributesUsable(a: Asset, attrs: seq<(string, int)>) {
    forall k :: 0 <= k < |attrs| ==> AttributeRefs(a, attrs[k])
  }

  lemma UsableTail(a: Asset, attrs: seq<(string, int)>)
    requires AttributesUsable(a, attrs) && attrs != []
    ensures AttributesUsable(a, attrs[1..])
  {
    forall k | 0 <= k < |attrs[1..]|
      ensures AttributeRefs(a, attrs[1..][k])
    {
      assert attrs[1..][k] == attrs[k + 1];
    }
  }

  /** The attribute loop from the current entry on. */
  function Attributes(a: Asset, st: St, attrs: seq<(string, int)>): (r: St)
    requires AttributesUsable(a, attrs)
    ensures r.buffers == st.buffers
    ensures |st.log| <= |r.log| && r.log[..|st.log|] == st.log
    ensures st.halted ==> r == st
    decreases |attrs|
  {
    if st.halted || attrs == [] then st
    else Attributes(a, AttributeStep(a, st, attrs[0]), attrs[1..])
  }

  /** One step of the attribute loop: the first attribute, then the rest. */
  lemma AttributesUnfold(a: Asset, st: St, attrs: seq<(string, int)>)
    requires AttributesUsable(a, attrs) && attrs != [] && !st.halted
    ensures AttributeRefs(a, attrs[0]) && AttributesUsable(a, attrs[1..])
    ensures Attributes(a, st, attrs) == Attributes(a, AttributeStep(a, st, attrs[0]), attrs[1..])
  {
    UsableTail(a, attrs);
  }

  predicate PrimitiveReady(a: Asset, tex: map<int, nat>, p: Primitive) {
    PrimitiveRefs(a, p) && TexturesCached(a, tex)
  }

  /** The end of a primitive, from the vertex-array bind to the draw. */
  function DrawPhase(a: Asset, world: Mat, st: St, p: Primitive): (r: St)
    requires !st.halted && IndicesRefs(a, p)
    ensures |st.log| <= |r.log| && r.log[..|st.log|] == st.log
    ensures forall k :: k in st.buffers ==> k in r.buffers && r.buffers[k] == st.buffers[k]
    ensures r.buffers.Keys <= st.buffers.Keys + (if p.indices >= 0 then {a.accessors[p.indices].bufferView} else {})
    // one draw, with the index accessor's fields, always preceded by local_model;
    // the index buffer entry is the cached one, or null when none is cached
    ensures !r.halted ==>
      && p.indices >= 0 && GlMode(p.mode).Some?
      && var ia := a.accessors[p.indices];
      && |r.log| >= |st.log| + 3
      && ia.bufferView in r.buffers
      && r.log[|r.log| - 2] == SetUniform(LocalModel, Mat4(world))
      && r.log[|r.log| - 1] == DrawElements(GlMode(p.mode).value, ia.count, ia.componentType,
           ia.byteOffset, r.buffers[ia.bufferView])
      && (ia.bufferView in st.buffers ==> r.buffers[ia.bufferView] == st.buffers[ia.bufferView])
      && (ia.bufferView !in st.buffers ==> r.buffers[ia.bufferView] == NullBuffer)
    ensures r.halted <==> p.indices < 0 || GlMode(p.mode).None?
  {
    var st1 := Emit(st, [BindVertexArray]);
    if p.indices < 0 then Halt(st1)
    else
      var ia := a.accessors[p.indices];
      match GlMode(p.mode)
      case None => Halt(st1)
      case Some(mode) =>
        // the index buffer's target is only reported, never enforced
        var note := if a.bufferViews[ia.bufferView].target != GL_ELEMENT_ARRAY_BUFFER
          then [Log(NonElementIndexBuffer)] else [];
        var (buffer, buffers) := Subscript(st1.buffers, ia.bufferView);
        St(st1.log + note + [SetUniform(LocalModel, Mat4(world)),
                             DrawElements(mode, ia.count, ia.componentType, ia.byteOffset, buffer)],
           buffers, false)
  }

  /** The vertex array is bound before either assert of the draw phase, and
      a wrong index target is reported, and only then; the draw still
      follows. */
  lemma DrawPhaseReports(a: Asset, world: Mat, st: St, p: Primitive)
    requires !st.halted && IndicesRefs(a, p)
    ensures var r := DrawPhase(a, world, st, p);
      && |r.log| > |st.log| && r.log[|st.log|] == BindVertexArray
      && (r.halted ==> r.log == st.log + [BindVertexArray])
      && (!r.halted ==>
            (Log(NonElementIndexBuffer) in r.log[|st.log|..] <==>
               a.bufferViews[a.accessors[p.indices].bufferView].target != GL_ELEMENT_ARRAY_BUFFER))
  {
    var r := DrawPhase(a, world, st, p);
    if !r.halted {
      var ia := a.accessors[p.indices];
      var note := if a.bufferViews[ia.bufferView].target != GL_ELEMENT_ARRAY_BUFFER
        then [Log(NonElementIndexBuffer)] else [];
      var tail := [BindVertexArray] + note + [SetUniform(LocalModel, Mat4(world)),
        DrawElements(GlMode(p.mode).value, ia.count, ia.componentType, ia.byteOffset,
                     Subscript(st.buffers, ia.bufferView).0)];
      assert r.log == st.log + tail;
      assert r.log[|st.log|..] == tail;
      assert Log(NonElementIndexBuffer) in tail <==> note != [];
    }
  }

  /** One primitive: rendering unit, material, attributes, then the draw. */
  function PrimitiveStep(a: Asset, tex: map<int, nat>, world: Mat, st: St, p: Primitive): (r: St)
    requires !st.halted && PrimitiveReady(a, tex, p)
    ensures |st.log| <= |r.log| && r.log[..|st.log|] == st.log
    ensures forall k :: k in st.buffers ==> k in r.buffers && r.buffers[k] == st.buffers[k]
  {
    var st1 := Emit(st, [NewUnit]);
    match MaterialEvents(a, tex, a.materials[p.material])
    case None => Halt(st1)
    case Some(es) =>
      var st2 := Attributes(a, Emit(st1, es), p.attributes);
      if st2.halted then st2 else DrawPhase(a, world, st2, p)
  }

  predicate MeshReady(a: Asset, tex: map<int, nat>, mesh: Mesh) {
    forall k :: 0 <= k < |mesh.primitives| ==> PrimitiveReady(a, tex, mesh.primitives[k])
  }

  /** The primitive loop from the current primitive on. */
  function Primitives(a: Asset, tex: map<int, nat>, world: Mat, st: St, ps: seq<Primitive>): (r: St)
    requires forall k :: 0 <= k < |ps| ==> PrimitiveReady(a, tex, ps[k])
    ensures st.halted ==> r == st
    decreases |ps|
  {
    if st.halted || ps == [] then st
    else Primitives(a, tex, world, PrimitiveStep(a, tex, world, st, ps[0]), ps[1..])
  }

  /** One step of the primitive loop: the first primitive, then the rest. */
  lemma PrimitivesStep(a: Asset, tex: map<int, nat>, world: Mat, st: St, ps: seq<Primitive>)
    requires forall k :: 0 <= k < |ps| ==> PrimitiveReady(a, tex, ps[k])
    requires !st.halted && ps != []
    ensures PrimitiveReady(a, tex, ps[0])
    ensures forall k :: 0 <= k < |ps[1..]| ==> PrimitiveReady(a, tex, ps[1..][k])
    ensures Primitives(a, tex, world, st, ps) == Primitives(a, tex, world, PrimitiveStep(a, tex, world, st, ps[0]), ps[1..])
  {
  }

  /** A mesh: all its primitives, then one commit. */
  function MeshSpec(a: Asset, tex: map<int, nat>, world: Mat, st: St, mesh: Mesh): St
    requires MeshReady(a, tex, mesh)
  {
    var r := Primitives(a, tex, world, st, mesh.primitives);
    if r.halted then r else Emit(r, [Commit])
  }

  /** The asset can be rendered with the texture cache `tex`. */
  predicate Renderable(a: Asset, tex: map<int, nat>, rank: seq<nat>) {
    RenderRefs(a, rank) && TexturesCached(a, tex)
  }

  /** The subtree at node `n` can be rendered with the texture cache `tex`. */
  predicate Walkable(a: Asset, tex: map<int, nat>, rank: seq<nat>, n: int) {
    Ranked(a, rank) && 0 <= n < |a.nodes| && SubtreeRefs(a, rank, n) && TexturesCached(a, tex)
  }

  lemma ReadyFromRefs(a: Asset, tex: map<int, nat>, rank: seq<nat>, n: int)
    requires Walkable(a, tex, rank, n) && 0 <= a.nodes[n].mesh < |a.meshes|
    ensures MeshReady(a, tex, a.meshes[a.nodes[n].mesh])
  {
    assert NodeRefs(a, n);
  }

  /** A child below the asserted bound is itself walkable. */
  lemma ChildWalkable(a: Asset, tex: map<int, nat>, rank: seq<nat>, n: int, i: nat)
    requires Walkable(a, tex, rank, n) && i < |a.nodes[n].children| && a.nodes[n].children[i] < |a.nodes|
    ensures 0 <= a.nodes[n].children[i] && Walkable(a, tex, rank, a.nodes[n].children[i])
  {
    assert NodeRefs(a, n);
  }

  /** A root of the displayed scene is walkable. */
  lemma RootWalkable(a: Asset, tex: map<int, nat>, rank: seq<nat>, i: nat)
    requires Renderable(a, tex, rank) && |a.scenes| > 0 && i < |a.scenes[SceneToDisplay(a)].nodes|
    ensures Walkable(a, tex, rank, a.scenes[SceneToDisplay(a)].nodes[i])
  {
  }

  /** A node visit with the matrix stack `stack` on entry: push the local
      transform, draw the mesh with the product of the stack, visit the
      children in order; the pop leaves no event. */
  function NodeSpec(a: Asset, tex: map<int, nat>, rank: seq<nat>, st: St, stack: seq<Mat>, n: int): St
    requires Walkable(a, tex, rank, n)
    decreases rank[n], |a.nodes[n].children| + 1
  {
    if st.halted then st
    else
      var node := a.nodes[n];
      var inner := stack + [LocalTransform(node)];
      var st1 :=
        if node.mesh <= -1 then st
        else if node.mesh >= |a.meshes| then Halt(st)
        else (ReadyFromRefs(a, tex, rank, n); MeshSpec(a, tex, Product(inner), st, a.meshes[node.mesh]));
      ChildrenFrom(a, tex, rank, st1, inner, n, 0)
  }

  /** The child loop of node `n` from child `i` on, with `inner` the stack
      after the node's own push. */
  function ChildrenFrom(a: Asset, tex: map<int, nat>, rank: seq<nat>, st: St, inner: seq<Mat>, n: int, i: nat): St
    requires Walkable(a, tex, rank, n) && i <= |a.nodes[n].children|
    decreases rank[n], |a.nodes[n].children| - i
  {
    var children := a.nodes[n].children;
    if st.halted || i == |children| then st
    else if children[i] >= |a.nodes| then Halt(st)
    else
      ChildWalkable(a, tex, rank, n, i);
      ChildrenFrom(a, tex, rank, NodeSpec(a, tex, rank, st, inner, children[i]), inner, n, i + 1)
  }

  /** One step of the child loop: an existing child is visited, then the
      loop goes on. */
  lemma ChildrenFromStep(a: Asset, tex: map<int, nat>, rank: seq<nat>, st: St, inner: seq<Mat>, n: int, i: nat)
    requires Walkable(a, tex, rank, n) && i < |a.nodes[n].children| && !st.halted
    requires a.nodes[n].children[i] < |a.nodes|
    ensures 0 <= a.nodes[n].children[i] && Walkable(a, tex, rank, a.nodes[n].children[i])
    ensures ChildrenFrom(a, tex, rank, st, inner, n, i)
         == ChildrenFrom(a, tex, rank, NodeSpec(a, tex, rank, st, inner, a.nodes[n].children[i]), inner, n, i + 1)
  {
    ChildWalkable(a, tex, rank, n, i);
  }

  /** The child loop's invariant survives the visit of child `i`. */
  lemma ChildrenAdvance(a: Asset, tex: map<int, nat>, rank: seq<nat>, st: St, st1: St, inner: seq<Mat>, n: int, i: nat, goal: St)
    requires Walkable(a, tex, rank, n) && i < |a.nodes[n].children| && !st.halted
    requires 0 <= a.nodes[n].children[i] < |a.nodes|
    requires ChildrenFrom(a, tex, rank, st, inner, n, i) == goal
    requires Walkable(a, tex, rank, a.nodes[n].children[i])
    requires st1 == NodeSpec(a, tex, rank, st, inner, a.nodes[n].children[i])
    ensures ChildrenFrom(a, tex, rank, st1, inner, n, i + 1) == goal
  {
    ChildrenFromStep(a, tex, rank, st, inner, n, i);
  }

  /** A child index past the node array fails the assert: the loop halts. */
  lemma ChildrenFromMissing(a: Asset, tex: map<int, nat>, rank: seq<nat>, st: St, inner: seq<Mat>, n: int, i: nat)
    requires Walkable(a, tex, rank, n) && i < |a.nodes[n].children| && !st.halted
    requires a.nodes[n].children[i] >= |a.nodes|
    ensures ChildrenFrom(a, tex, rank, st, inner, n, i) == Halt(st)
    ensures ChildrenFrom(a, tex, rank, Halt(st), inner, n, i + 1) == Halt(st)
  {
  }

  function Roots(a: Asset): seq<int>
    requires SceneRefs(a) && |a.scenes| > 0
  {
    a.scenes[SceneToDisplay(a)].nodes
  }

  /** The root loop of the displayed scene from root `i` on. */
  function RootsFrom(a: Asset, tex: map<int, nat>, rank: seq<nat>, st: St, stack: seq<Mat>, i: nat): St
    requires Renderable(a, tex, rank) && |a.scenes| > 0 && i <= |Roots(a)|
    decreases |Roots(a)| - i
  {
    if st.halted || i == |Roots(a)| then st
    else
      RootWalkable(a, tex, rank, i);
      RootsFrom(a, tex, rank, NodeSpec(a, tex, rank, st, stack, Roots(a)[i]), stack, i + 1)
  }

  /** One step of the root loop: root `i` is visited, then the loop goes on. */
  lemma RootsFromStep(a: Asset, tex: map<int, nat>, rank: seq<nat>, st: St, stack: seq<Mat>, i: nat)
    requires Renderable(a, tex, rank) && |a.scenes| > 0 && i < |Roots(a)| && !st.halted
    ensures Walkable(a, tex, rank, Roots(a)[i])
    ensures RootsFrom(a, tex, rank, st, stack, i)
         == RootsFrom(a, tex, rank, NodeSpec(a, tex, rank, st, stack, Roots(a)[i]), stack, i + 1)
  {
    RootWalkable(a, tex, rank, i);
  }

  /** The root loop's invariant survives the visit of root `i`. */
  lemma RootsAdvance(a: Asset, tex: map<int, nat>, rank: seq<nat>, st: St, st1: St, stack: seq<Mat>, i: nat, goal: St)
    requires Renderable(a, tex, rank) && |a.scenes| > 0 && i < |Roots(a)| && !st.halted
    requires RootsFrom(a, tex, rank, st, stack, i) == goal
    requires Walkable(a, tex, rank, Roots(a)[i]) && st1 == NodeSpec(a, tex, rank, st, stack, Roots(a)[i])
    ensures RootsFrom(a, tex, rank, st1, stack, i + 1) == goal
  {
    RootsFromStep(a, tex, rank, st, stack, i);
  }

  /** The whole scene: the source asserts that there is one. */
  function SceneSpec(a: Asset, tex: map<int, nat>, rank: seq<nat>, st: St, stack: seq<Mat>): St
    requires Renderable(a, tex, rank)
  {
    if st.halted then st
    else if |a.scenes| == 0 then Halt(st)
    else RootsFrom(a, tex, rank, st, stack, 0)
  }
}
