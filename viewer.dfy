/** The viewer object. Its bufferView cache, texture cache and matrix stack
    are fields that setup and the scene walk update in place, and every
    request made to the display backend is appended to `log`. Each method
    is proved to have exactly the effect that the reference semantics of
    the Upload and Render modules gives it. */
module Viewer {
  import opened Matrix
  import opened Gltf
  import opened Backend
  import opened Upload
  import opened Render
  import opened Traversal

  class Viewer {
    /** The loaded glTF model; the viewer never changes it. */
    const asset: Asset
    var log: seq<Event>
    /** `gl_vertex_buffer_map_`: bufferView index to GPU buffer. */
    var vertexBuffers: map<int, BufferRef>
    /** `texture_map_`: image source to the texture loaded for it. */
    var textureMap: map<int, nat>
    /** `matrix_stack_`, bottom first. */
    var matrixStack: seq<Mat>
    /** A failed `assert` has ended the process. */
    var aborted: bool

    /** The backend-visible state, as the reference semantics sees it. */
    function Snapshot(): St
      reads this
    {
      St(log, vertexBuffers, aborted)
    }

    constructor (model: Asset)
      ensures asset == model
      ensures log == [] && vertexBuffers == map[] && textureMap == map[]
      ensures matrixStack == [] && !aborted
    {
      asset := model;
      log := [];
      vertexBuffers := map[];
      textureMap := map[];
      matrixStack := [];
      aborted := false;
    }

    /** The product of the whole stack, left to right from the identity. */
    method CalculateLocalModel() returns (value: Mat)
      ensures value == Product(matrixStack)
    {
      value := Identity();
      var i := 0;
      while i < |matrixStack|
        invariant 0 <= i <= |matrixStack|
        invariant value == Product(matrixStack[..i])
      {
        assert matrixStack[..i + 1][..i] == matrixStack[..i];
        value := Mul(value, matrixStack[i]);
        i := i + 1;
      }
      assert matrixStack[..i] == matrixStack;
    }

    /** The scan for a sparse accessor of bufferView `view`: the first one,
        or -1 when there is none. */
    method FindSparseAccessor(view: int) returns (found: int)
      ensures -1 <= found < |asset.accessors|
      ensures found == -1 <==> !HasSparse(asset, view)
      ensures found >= 0 ==>
        && asset.accessors[found].bufferView == view && asset.accessors[found].isSparse
        && forall j :: 0 <= j < found ==> !(asset.accessors[j].bufferView == view && asset.accessors[j].isSparse)
    {
      found := -1;
      var j := 0;
      while j < |asset.accessors|
        invariant 0 <= j <= |asset.accessors|
        invariant forall k :: 0 <= k < j ==> !(asset.accessors[k].bufferView == view && asset.accessors[k].isSparse)
      {
        var accessor := asset.accessors[j];
        if accessor.bufferView == view && accessor.isSparse {
          found := j;
          return;
        }
        j := j + 1;
      }
    }

    /** One-time resource setup. Backend initialisations are taken to
        succeed; `loads` says which image URIs decode. */
    method Setup(loads: string -> bool) returns (ok: bool)
      requires SetupRefs(asset, loads)
      modifies this
      ensures ok == SetupSucceeds(asset, loads)
      ensures log == old(log) + SetupLog(asset, loads)
      ensures vertexBuffers == if |asset.buffers| == 1 then old(vertexBuffers) + UploadedViews(asset) else old(vertexBuffers)
      ensures textureMap == if |asset.buffers| == 1
        then Emplaced(old(textureMap), asset.textures[..LoadedPrefix(asset, loads)])
        else old(textureMap)
      ensures matrixStack == old(matrixStack) && aborted == old(aborted)
    {
      if |asset.buffers| == 0 {
        log := log + [Log(NoBuffer)];
        return false;
      }
      if |asset.buffers| > 1 {
        log := log + [Log(MultipleBuffers)];
        return false;
      }
      log := log + [CreatePool(asset.buffers[0].byteLength), CreateProgram(TextureProgram), CreateProgram(ColorProgram)];
      UploadBufferViews();
      ok := LoadTextures(loads);
    }

    /** The bufferView loop of setup. */
    method UploadBufferViews()
      modifies this
      ensures log == old(log) + ViewsLog(asset, |asset.bufferViews|)
      ensures vertexBuffers == old(vertexBuffers) + UploadedViews(asset)
      ensures textureMap == old(textureMap) && matrixStack == old(matrixStack) && aborted == old(aborted)
    {
      var i := 0;
      while i < |asset.bufferViews|
        invariant 0 <= i <= |asset.bufferViews|
        invariant log == old(log) + ViewsLog(asset, i)
        invariant vertexBuffers == Uploads(old(vertexBuffers), asset, i)
        invariant textureMap == old(textureMap) && matrixStack == old(matrixStack) && aborted == old(aborted)
      {
        var view := asset.bufferViews[i];
        if view.target == 0 {
          log := log + [Log(TargetZero)];
        } else {
          var sparse := FindSparseAccessor(i);
          if sparse >= 0 {
            log := log + [Log(SparseAccessor), Log(SparseAccessor)];
          } else {
            log := log + [CreateBuffer(i, view.byteOffset, view.byteLength, view.target)];
            vertexBuffers := vertexBuffers[i := GlBuffer(i)];
          }
        }
        i := i + 1;
      }
      UploadsPrefix(old(vertexBuffers), asset, i);
    }

    /** The texture loop of setup: stops at the first image that does not
        load; each source is cached under the first texture naming it. */
    method LoadTextures(loads: string -> bool) returns (ok: bool)
      requires SourcesFrom(asset, loads, 0)
      modifies this
      ensures ok == (LoadedPrefix(asset, loads) == |asset.textures|)
      ensures log == old(log) + TexturesLog(asset, LoadedPrefix(asset, loads))
        + (if ok then [] else [Log(TextureLoadFailed)])
      ensures textureMap == Emplaced(old(textureMap), asset.textures[..LoadedPrefix(asset, loads)])
      ensures vertexBuffers == old(vertexBuffers) && matrixStack == old(matrixStack) && aborted == old(aborted)
    {
      var t := 0;
      while t < |asset.textures|
        invariant 0 <= t <= |asset.textures|
        invariant forall u :: 0 <= u < t ==> TextureLoads(asset, loads, u)
        invariant SourcesFrom(asset, loads, t)
        invariant log == old(log) + TexturesLog(asset, t)
        invariant textureMap == Emplaced(old(textureMap), asset.textures[..t])
        invariant vertexBuffers == old(vertexBuffers) && matrixStack == old(matrixStack) && aborted == old(aborted)
      {
        var texture := asset.textures[t];
        var image := asset.images[texture.source];
        if !loads(image.uri) {
          log := log + [Log(TextureLoadFailed)];
          LoadedPrefixStopsAt(asset, loads, t);
          return false;
        }
        log := log + [LoadTexture(t, texture.source)];
        assert asset.textures[..t + 1][..t] == asset.textures[..t];
        if texture.source !in textureMap {
          textureMap := textureMap[texture.source := t];
        }
        t := t + 1;
      }
      LoadedPrefixStopsAt(asset, loads, t);
      return true;
    }

    /** The attribute loop of one primitive. */
    method BindAttributes(attrs: seq<(string, int)>)
      requires !aborted && AttributesUsable(asset, attrs)
      modifies this
      ensures textureMap == old(textureMap) && matrixStack == old(matrixStack)
      ensures Snapshot() == Attributes(asset, old(Snapshot()), attrs)
    {
      var k := 0;
      while k < |attrs| && !aborted
        invariant 0 <= k <= |attrs|
        invariant AttributesUsable(asset, attrs[k..])
        invariant Attributes(asset, Snapshot(), attrs[k..]) == Attributes(asset, old(Snapshot()), attrs)
        invariant textureMap == old(textureMap) && matrixStack == old(matrixStack)
      {
        AttributesUnfold(asset, Snapshot(), attrs[k..]);
        assert attrs[k..][0] == attrs[k] && attrs[k..][1..] == attrs[k + 1..];
        BindAttribute(attrs[k]);
        k := k + 1;
      }
    }

    /** One entry of the attribute loop: the type assert, the name filter,
        the stride and buffer asserts, the bind. */
    method BindAttribute(attr: (string, int))
      requires !aborted && AttributeRefs(asset, attr)
      modifies this
      ensures textureMap == old(textureMap) && matrixStack == old(matrixStack)
      ensures Snapshot() == AttributeStep(asset, old(Snapshot()), attr)
    {
      var name, index := attr.0, attr.1;
      if index < 0 {
        aborted := true;
        return;
      }
      var accessor := asset.accessors[index];
      var size := ComponentCount(accessor.accessorType);
      if size.None? {
        aborted := true;
        return;
      }
      var location := AttributeLocation(name);
      if location.None? {
        log := log + [Log(UnsupportedAttribute(name))];
      } else if accessor.byteStride == -1 || accessor.bufferView !in vertexBuffers {
        aborted := true;
      } else {
        log := log + [VertexAttrib(location.value, size.value, accessor.componentType,
                                   accessor.normalized, accessor.byteStride, accessor.byteOffset,
                                   vertexBuffers[accessor.bufferView])];
      }
    }

    /** The end of one primitive: vertex array bind, mode table, the
        `local_model` uniform and the indexed draw. */
    method DrawIndexed(p: Primitive)
      requires !aborted && IndicesRefs(asset, p)
      modifies this
      ensures textureMap == old(textureMap) && matrixStack == old(matrixStack)
      ensures Snapshot() == DrawPhase(asset, Product(matrixStack), old(Snapshot()), p)
    {
      log := log + [BindVertexArray];
      if p.indices < 0 {
        aborted := true;
        return;
      }
      var indexAccessor := asset.accessors[p.indices];
      var mode := GlMode(p.mode);
      if mode.None? {
        aborted := true;
        return;
      }
      if asset.bufferViews[indexAccessor.bufferView].target != GL_ELEMENT_ARRAY_BUFFER {
        log := log + [Log(NonElementIndexBuffer)];
      }
      var localModel := CalculateLocalModel();
      log := log + [SetUniform(LocalModel, Mat4(localModel))];
      if indexAccessor.bufferView !in vertexBuffers {
        vertexBuffers := vertexBuffers[indexAccessor.bufferView := NullBuffer];
      }
      log := log + [DrawElements(mode.value, indexAccessor.count, indexAccessor.componentType,
                                 indexAccessor.byteOffset, vertexBuffers[indexAccessor.bufferView])];
    }

    /** The `KHR_texture_transform` uniforms, each member defaulting when
        the extension lacks it. */
    method SetTransformUniforms(transform: TextureTransform)
      modifies this
      ensures log == old(log) + TransformUniforms(transform)
      ensures textureMap == old(textureMap) && matrixStack == old(matrixStack)
      ensures vertexBuffers == old(vertexBuffers) && aborted == old(aborted)
    {
      var offset := if transform.offset.Some? then transform.offset.value else (0.0, 0.0);
      log := log + [SetUniform(InOffset, Vec2(offset.0, offset.1))];
      var scale := if transform.scale.Some? then transform.scale.value else (1.0, 1.0);
      log := log + [SetUniform(InScale, Vec2(scale.0, scale.1))];
      var rotation := if transform.rotation.Some? then transform.rotation.value else 0.0;
      log := log + [SetUniform(InRotation, Vec1(rotation))];
    }

    /** The material part of one primitive: texture or color program. */
    method ApplyMaterial(material: Material)
      requires !aborted && MaterialRefs(asset, material) && TexturesCached(asset, textureMap)
      modifies this
      ensures textureMap == old(textureMap) && matrixStack == old(matrixStack)
      ensures Snapshot() == match MaterialEvents(asset, textureMap, material)
        case None => Halt(old(Snapshot()))
        case Some(es) => Emit(old(Snapshot()), es)
    {
      if material.baseColorTexture >= 0 {
        var texture := asset.textures[material.baseColorTexture];
        log := log + [BindTexture(textureMap[texture.source])];
        if material.textureTransform.Some? {
          SetTransformUniforms(material.textureTransform.value);
        }
        log := log + [BindProgram(TextureProgram)];
      } else {
        if |material.baseColorFactor| != 4 {
          aborted := true;
          return;
        }
        var baseColor := material.baseColorFactor;
        log := log + [SetUniform(InBaseColor, Vec4(baseColor[0], baseColor[1], baseColor[2], baseColor[3]))];
        log := log + [BindProgram(ColorProgram)];
      }
    }

    /** One primitive of a mesh: a new rendering unit, the material, the
        vertex attributes, then the draw. */
    method RenderPrimitive(p: Primitive)
      requires !aborted && PrimitiveReady(asset, textureMap, p)
      modifies this
      ensures textureMap == old(textureMap) && matrixStack == old(matrixStack)
      ensures Snapshot() == PrimitiveStep(asset, textureMap, Product(matrixStack), old(Snapshot()), p)
    {
      log := log + [NewUnit];
      ApplyMaterial(asset.materials[p.material]);
      if aborted {
        return;
      }
      BindAttributes(p.attributes);
      if aborted {
        return;
      }
      DrawIndexed(p);
    }

    /** All primitives of a mesh, then the commit. */
    method RenderMesh(mesh: Mesh)
      requires !aborted && MeshReady(asset, textureMap, mesh)
      modifies this
      ensures textureMap == old(textureMap) && matrixStack == old(matrixStack)
      ensures Snapshot() == MeshSpec(asset, textureMap, Product(matrixStack), old(Snapshot()), mesh)
    {
      ghost var world := Product(matrixStack);
      var i := 0;
      while i < |mesh.primitives| && !aborted
        invariant 0 <= i <= |mesh.primitives|
        invariant textureMap == old(textureMap) && matrixStack == old(matrixStack)
        invariant MeshReady(asset, textureMap, Mesh(mesh.primitives[i..]))
        invariant Primitives(asset, textureMap, world, Snapshot(), mesh.primitives[i..])
               == Primitives(asset, textureMap, world, old(Snapshot()), mesh.primitives)
      {
        RenderPrimitive(mesh.primitives[i]);
        assert mesh.primitives[i..][1..] == mesh.primitives[i + 1..];
        i := i + 1;
      }
      if !aborted {
        log := log + [Commit];
      }
    }

    /** The transform a node pushes: its matrix, or Identity * T * R * S
        with each present factor multiplied in. */
    method NodeLocal(node: Node) returns (local: Mat)
      ensures local == LocalTransform(node)
    {
      if |node.matrix| == 16 {
        local := Of(FromArray16(node.matrix));
      } else {
        local := Identity();
        if |node.translation| == 3 {
          local := Mul(local, Of(Translate(node.translation[0], node.translation[1], node.translation[2])));
        }
        if |node.rotation| == 4 {
          local := Mul(local, Of(Rotate(node.rotation[3], node.rotation[0], node.rotation[1], node.rotation[2])));
        }
        if |node.scale| == 3 {
          local := Mul(local, Of(Scale(node.scale[0], node.scale[1], node.scale[2])));
        }
      }
    }

    /** A node: push its local transform, draw its mesh, visit its children
        in order, pop. */
    method RenderNode(n: int, ghost rank: seq<nat>)
      requires !aborted && Walkable(asset, textureMap, rank, n)
      modifies this
      ensures textureMap == old(textureMap)
      ensures Snapshot() == NodeSpec(asset, textureMap, rank, old(Snapshot()), old(matrixStack), n)
      // balanced: the push is undone by the pop
      ensures !aborted ==> matrixStack == old(matrixStack)
      decreases rank[n], 1
    {
      var node := asset.nodes[n];
      var local := NodeLocal(node);
      matrixStack := matrixStack + [local];
      if node.mesh > -1 {
        if node.mesh >= |asset.meshes| {
          aborted := true;
          return;
        }
        ReadyFromRefs(asset, textureMap, rank, n);
        RenderMesh(asset.meshes[node.mesh]);
      }
      if !aborted {
        RenderChildren(n, rank);
        if !aborted {
          matrixStack := matrixStack[..|matrixStack| - 1];
        }
      }
    }

    /** The child loop of node `n`, under the stack after the node's push. */
    method RenderChildren(n: int, ghost rank: seq<nat>)
      requires !aborted && Walkable(asset, textureMap, rank, n)
      modifies this
      ensures textureMap == old(textureMap)
      ensures Snapshot() == ChildrenFrom(asset, textureMap, rank, old(Snapshot()), old(matrixStack), n, 0)
      ensures !aborted ==> matrixStack == old(matrixStack)
      decreases rank[n], 0
    {
      var node := asset.nodes[n];
      ghost var inner := matrixStack;
      ghost var goal := ChildrenFrom(asset, textureMap, rank, Snapshot(), inner, n, 0);
      var i := 0;
      while i < |node.children| && !aborted
        invariant 0 <= i <= |node.children|
        invariant textureMap == old(textureMap)
        invariant !aborted ==> matrixStack == inner
        invariant ChildrenFrom(asset, textureMap, rank, Snapshot(), inner, n, i) == goal
      {
        var child := node.children[i];
        if child >= |asset.nodes| {
          ChildrenFromMissing(asset, textureMap, rank, Snapshot(), inner, n, i);
          aborted := true;
        } else {
          ghost var before := Snapshot();
          ChildWalkable(asset, textureMap, rank, n, i);
          RenderNode(child, rank);
          ChildrenAdvance(asset, textureMap, rank, before, Snapshot(), inner, n, i, goal);
        }
        i := i + 1;
      }
    }

    /** The roots of the displayed scene, in order. */
    method RenderScene(ghost rank: seq<nat>)
      requires !aborted && Renderable(asset, textureMap, rank)
      modifies this
      ensures textureMap == old(textureMap)
      ensures Snapshot() == SceneSpec(asset, textureMap, rank, old(Snapshot()), old(matrixStack))
      ensures !aborted ==> matrixStack == old(matrixStack)
    {
      if |asset.scenes| == 0 {
        aborted := true;
        return;
      }
      var sceneToDisplay := if asset.defaultScene > -1 then asset.defaultScene else 0;
      var scene := asset.scenes[sceneToDisplay];
      assert scene.nodes == Roots(asset);
      ghost var goal := SceneSpec(asset, textureMap, rank, Snapshot(), matrixStack);
      var i := 0;
      while i < |scene.nodes| && !aborted
        invariant 0 <= i <= |scene.nodes|
        invariant textureMap == old(textureMap)
        invariant !aborted ==> matrixStack == old(matrixStack)
        invariant RootsFrom(asset, textureMap, rank, Snapshot(), old(matrixStack), i) == goal
      {
        ghost var before := Snapshot();
        RootWalkable(asset, textureMap, rank, i);
        RenderNode(scene.nodes[i], rank);
        RootsAdvance(asset, textureMap, rank, before, Snapshot(), old(matrixStack), i, goal);
        i := i + 1;
      }
    }

    /** The configure event: setup, acknowledgement, the identity seed, the
        scene walk. */
    method Configure(serial: int, loads: string -> bool, ghost rank: seq<nat>)
      requires !aborted && SetupRefs(asset, loads)
      // the walk's reads happen only after a successful setup
      requires SetupSucceeds(asset, loads) ==> RenderRefs(asset, rank)
      modifies this
      ensures !SetupSucceeds(asset, loads) ==>
        && log == old(log) + SetupLog(asset, loads) + [Log(SetupFailed)]
        && vertexBuffers == (if |asset.buffers| == 1 then old(vertexBuffers) + UploadedViews(asset) else old(vertexBuffers))
        && textureMap == (if |asset.buffers| == 1
             then Emplaced(old(textureMap), asset.textures[..LoadedPrefix(asset, loads)])
             else old(textureMap))
        && !aborted && matrixStack == old(matrixStack)
      ensures SetupSucceeds(asset, loads) ==>
        && textureMap == Emplaced(old(textureMap), asset.textures)
        && TexturesCached(asset, textureMap)
        && Snapshot() == SceneSpec(asset, textureMap, rank,
             St(old(log) + SetupLog(asset, loads) + [AckConfigure(serial)], old(vertexBuffers) + UploadedViews(asset), false),
             old(matrixStack) + [Identity()])
        && (!aborted ==> matrixStack == old(matrixStack) + [Identity()])
      // a walk that completes draws every visited mesh node, in pre-order,
      // under its world transform
      ensures SetupSucceeds(asset, loads) && !aborted ==>
        Trace(log) == Trace(old(log)) + Expected(asset, RootVisits(asset, rank, Product(old(matrixStack)), 0))
    {
      var ok := Setup(loads);
      if !ok {
        log := log + [Log(SetupFailed)];
        return;
      }
      log := log + [AckConfigure(serial)];
      ghost var start := Snapshot();
      assert asset.textures[..|asset.textures|] == asset.textures;
      EmplacedCoversAll(old(textureMap), asset.textures);
      assert Trace(log) == Trace(old(log)) by {
        SetupQuiet(asset, loads);
        TraceAppend(old(log), SetupLog(asset, loads));
        QuietAppend(old(log) + SetupLog(asset, loads), [AckConfigure(serial)]);
      }
      assert Product(matrixStack + [Identity()]) == Product(matrixStack) by {
        assert (matrixStack + [Identity()])[..|matrixStack|] == matrixStack;
        IdentityIsUnit(Product(matrixStack));
      }
      matrixStack := matrixStack + [Identity()];
      RenderScene(rank);
      SceneTrace(asset, textureMap, rank, start, old(matrixStack) + [Identity()]);
    }
  }
}
