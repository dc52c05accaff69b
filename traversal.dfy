/** The scene walk against an independent definition: a pre-order list of
    the visited nodes, each with its world transform defined recursively as
    parent world * local transform. A walk that does not stop on a failed
    assertion sets, for the visited mesh nodes in that order, one
    `local_model` per primitive equal to that node's world transform, issues
    one indexed draw per primitive and one commit per mesh. */
module Traversal {
  import opened Matrix
  import opened Gltf
  import opened Backend
  import opened Render

  datatype Visit = Visit(node: int, world: Mat)

  /** Pre-order depth-first visits of the subtree at `n`, children in array
      order, below a node whose world transform is `parent`. */
  function PreOrder(a: Asset, rank: seq<nat>, parent: Mat, n: int): seq<Visit>
    requires Ranked(a, rank) && 0 <= n < |a.nodes|
    decreases rank[n], |a.nodes[n].children| + 1
  {
    var world := Mul(parent, LocalTransform(a.nodes[n]));
    [Visit(n, world)] + ChildVisits(a, rank, world, n, 0)
  }

  function ChildVisits(a: Asset, rank: seq<nat>, world: Mat, n: int, i: nat): seq<Visit>
    requires Ranked(a, rank) && 0 <= n < |a.nodes| && i <= |a.nodes[n].children|
    decreases rank[n], |a.nodes[n].children| - i
  {
    var children := a.nodes[n].children;
    if i == |children| then []
    else
      (if 0 <= children[i] < |a.nodes| then PreOrder(a, rank, world, children[i]) else [])
      + ChildVisits(a, rank, world, n, i + 1)
  }

  /** The visits of the displayed scene's roots from root `i` on. */
  function RootVisits(a: Asset, rank: seq<nat>, world: Mat, i: nat): seq<Visit>
    requires SceneRefs(a) && Ranked(a, rank) && |a.scenes| > 0 && i <= |Roots(a)|
    decreases |Roots(a)| - i
  {
    if i == |Roots(a)| then [] else PreOrder(a, rank, world, Roots(a)[i]) + RootVisits(a, rank, world, i + 1)
  }

  /** The marks of `k` primitives drawn with the transform `world`. */
  function Drawing(world: Mat, k: nat): seq<Mark> {
    if k == 0 then [] else [Placed(world), Drawn] + Drawing(world, k - 1)
  }

  /** One primitive's marks, then those of `k` more. */
  lemma DrawCompose(world: Mat, t0: seq<Mark>, t1: seq<Mark>, t2: seq<Mark>, k: nat)
    requires t1 == t0 + [Placed(world), Drawn] && t2 == t1 + Drawing(world, k)
    ensures t2 == t0 + Drawing(world, k + 1)
  {
  }

  /** What a visit should leave in the trace: for a node with a mesh, its
      world transform and a draw per primitive, then one commit. */
  function VisitMarks(a: Asset, v: Visit): seq<Mark> {
    if 0 <= v.node < |a.nodes| && 0 <= a.nodes[v.node].mesh < |a.meshes| then
      Drawing(v.world, |a.meshes[a.nodes[v.node].mesh].primitives|) + [Committed]
    else []
  }

  function Expected(a: Asset, vs: seq<Visit>): seq<Mark>
    decreases |vs|
  {
    if vs == [] then [] else VisitMarks(a, vs[0]) + Expected(a, vs[1..])
  }

  /** Two trace extensions in a row. */
  lemma Chain(t0: seq<Mark>, t1: seq<Mark>, t2: seq<Mark>, x: seq<Mark>, y: seq<Mark>)
    requires t1 == t0 + x && t2 == t1 + y
    ensures t2 == t0 + (x + y)
  {
  }

  lemma {:induction false} ExpectedAppend(a: Asset, vs: seq<Visit>, ws: seq<Visit>)
    ensures Expected(a, vs + ws) == Expected(a, vs) + Expected(a, ws)
    decreases |vs|
  {
    if vs == [] {
      assert vs + ws == ws;
    } else {
      assert (vs + ws)[0] == vs[0];
      assert (vs + ws)[1..] == vs[1..] + ws;
      ExpectedAppend(a, vs[1..], ws);
    }
  }

  /** Two trace extensions in a row by the marks of two runs of visits. */
  lemma Compose(a: Asset, t0: seq<Mark>, t1: seq<Mark>, t2: seq<Mark>, vs: seq<Visit>, ws: seq<Visit>)
    requires t1 == t0 + Expected(a, vs) && t2 == t1 + Expected(a, ws)
    ensures t2 == t0 + Expected(a, vs + ws)
  {
    ExpectedAppend(a, vs, ws);
  }

  /** Material events neither set `local_model`, draw nor commit. */
  lemma MaterialQuiet(a: Asset, tex: map<int, nat>, m: Material)
    requires MaterialRefs(a, m) && TexturesCached(a, tex)
    ensures MaterialEvents(a, tex, m).Some? ==>
      forall k :: 0 <= k < |MaterialEvents(a, tex, m).value| ==> Quiet(MaterialEvents(a, tex, m).value[k])
  {
    var r := MaterialEvents(a, tex, m);
    if r.Some? {
      forall k | 0 <= k < |r.value| ensures Quiet(r.value[k]) {
        if m.baseColorTexture >= 0 && m.textureTransform.Some? {
          var t := TransformUniforms(m.textureTransform.value);
          assert r.value == [r.value[0]] + t + [BindProgram(TextureProgram)];
          assert k == 0 || k == 4 || r.value[k] == t[k - 1];
        }
      }
    }
  }

  /** The attribute loop neither sets `local_model`, draws nor commits. */
  lemma {:induction false} AttributesQuiet(a: Asset, st: St, attrs: seq<(string, int)>)
    requires AttributesUsable(a, attrs)
    ensures Trace(Attributes(a, st, attrs).log) == Trace(st.log)
    decreases |attrs|
  {
    if !st.halted && attrs != [] {
      var st1 := AttributeStep(a, st, attrs[0]);
      if !st1.halted {
        var e := st1.log[|st.log|];
        assert st1.log == st.log + [e];
        QuietAppend(st.log, [e]);
      }
      UsableTail(a, attrs);
      AttributesQuiet(a, st1, attrs[1..]);
    }
  }

  lemma DrawPhaseTrace(a: Asset, world: Mat, st: St, p: Primitive)
    requires !st.halted && IndicesRefs(a, p)
    ensures var r := DrawPhase(a, world, st, p);
      !r.halted ==> Trace(r.log) == Trace(st.log) + [Placed(world), Drawn]
  {
    var r := DrawPhase(a, world, st, p);
    if !r.halted {
      var ia := a.accessors[p.indices];
      var quiet := [BindVertexArray] +
        (if a.bufferViews[ia.bufferView].target != GL_ELEMENT_ARRAY_BUFFER then [Log(NonElementIndexBuffer)] else []);
      var d := DrawElements(GlMode(p.mode).value, ia.count, ia.componentType, ia.byteOffset,
                            Subscript(st.buffers, ia.bufferView).0);
      assert r.log == st.log + quiet + [SetUniform(LocalModel, Mat4(world)), d];
      DrawTail(st.log, quiet, world, d);
    }
  }

  /** Starting a rendering unit and applying the material leave no mark. */
  lemma UnitQuiet(a: Asset, tex: map<int, nat>, st: St, m: Material)
    requires MaterialRefs(a, m) && TexturesCached(a, tex) && MaterialEvents(a, tex, m).Some?
    ensures Trace(Emit(Emit(st, [NewUnit]), MaterialEvents(a, tex, m).value).log) == Trace(st.log)
  {
    var es := MaterialEvents(a, tex, m).value;
    assert Trace(st.log + [NewUnit]) == Trace(st.log) by {
      QuietAppend(st.log, [NewUnit]);
    }
    assert Trace(st.log + [NewUnit] + es) == Trace(st.log + [NewUnit]) by {
      MaterialQuiet(a, tex, m);
      QuietAppend(st.log + [NewUnit], es);
    }
  }

  /** A primitive that completes sets its world transform, then draws. */
  lemma PrimitiveTrace(a: Asset, tex: map<int, nat>, world: Mat, st: St, p: Primitive)
    requires !st.halted && PrimitiveReady(a, tex, p)
    ensures var r := PrimitiveStep(a, tex, world, st, p);
      !r.halted ==> Trace(r.log) == Trace(st.log) + [Placed(world), Drawn]
  {
    var r := PrimitiveStep(a, tex, world, st, p);
    if !r.halted {
      var m := a.materials[p.material];
      var mo := MaterialEvents(a, tex, m);
      assert mo.Some?;
      var st1 := Emit(Emit(st, [NewUnit]), mo.value);
      var st2 := Attributes(a, st1, p.attributes);
      assert !st2.halted && r == DrawPhase(a, world, st2, p);
      assert Trace(st1.log) == Trace(st.log) by {
        UnitQuiet(a, tex, st, m);
      }
      assert Trace(st2.log) == Trace(st1.log) by {
        AttributesQuiet(a, st1, p.attributes);
      }
      assert Trace(r.log) == Trace(st2.log) + [Placed(world), Drawn] by {
        DrawPhaseTrace(a, world, st2, p);
      }
    }
  }

  lemma {:induction false} PrimitivesTrace(a: Asset, tex: map<int, nat>, world: Mat, st: St, ps: seq<Primitive>)
    requires forall k :: 0 <= k < |ps| ==> PrimitiveReady(a, tex, ps[k])
    ensures var r := Primitives(a, tex, world, st, ps);
      !r.halted ==> Trace(r.log) == Trace(st.log) + Drawing(world, |ps|)
    decreases |ps|
  {
    var r := Primitives(a, tex, world, st, ps);
    if !r.halted && ps != [] {
      PrimitivesStep(a, tex, world, st, ps);
      var st1 := PrimitiveStep(a, tex, world, st, ps[0]);
      var rest := ps[1..];
      assert !st1.halted;
      PrimitiveTrace(a, tex, world, st, ps[0]);
      PrimitivesTrace(a, tex, world, st1, rest);
      DrawCompose(world, Trace(st.log), Trace(st1.log), Trace(r.log), |rest|);
      assert |ps| == |rest| + 1;
    }
  }

  /** A mesh that completes sets its world transform and draws once per
      primitive, then commits exactly once. */
  lemma MeshTrace(a: Asset, tex: map<int, nat>, world: Mat, st: St, mesh: Mesh)
    requires MeshReady(a, tex, mesh)
    ensures var r := MeshSpec(a, tex, world, st, mesh);
      !r.halted ==> Trace(r.log) == Trace(st.log) + Drawing(world, |mesh.primitives|) + [Committed]
  {
    var r1 := Primitives(a, tex, world, st, mesh.primitives);
    if !r1.halted {
      PrimitivesTrace(a, tex, world, st, mesh.primitives);
      TraceAppend(r1.log, [Commit]);
      assert [Commit][..0] == [];
    }
  }

  /** The stack discipline computes world transforms: the mesh of every
      visited node is drawn with parent world * local transform, in pre-order. */
  lemma {:induction false} NodeTrace(a: Asset, tex: map<int, nat>, rank: seq<nat>, st: St, stack: seq<Mat>, n: int)
    requires Walkable(a, tex, rank, n)
    ensures var r := NodeSpec(a, tex, rank, st, stack, n);
      !r.halted ==> Trace(r.log) == Trace(st.log) + Expected(a, PreOrder(a, rank, Product(stack), n))
    decreases rank[n], |a.nodes[n].children| + 1, 0
  {
    var r := NodeSpec(a, tex, rank, st, stack, n);
    if !r.halted {
      var node := a.nodes[n];
      var inner := stack + [LocalTransform(node)];
      var world := Product(inner);
      assert world == Mul(Product(stack), LocalTransform(node)) by {
        assert inner[..|inner| - 1] == stack;
      }
      var st1 :=
        if node.mesh <= -1 then st
        else if node.mesh >= |a.meshes| then Halt(st)
        else MeshSpec(a, tex, world, st, a.meshes[node.mesh]);
      assert r == ChildrenFrom(a, tex, rank, st1, inner, n, 0);
      assert !st1.halted;
      var v := Visit(n, world);
      var rest := ChildVisits(a, rank, world, n, 0);
      assert PreOrder(a, rank, Product(stack), n) == [v] + rest;
      assert Trace(st1.log) == Trace(st.log) + VisitMarks(a, v) by {
        if node.mesh > -1 {
          ReadyFromRefs(a, tex, rank, n);
          MeshTrace(a, tex, world, st, a.meshes[node.mesh]);
        }
      }
      assert Trace(r.log) == Trace(st1.log) + Expected(a, rest) by {
        ChildrenTrace(a, tex, rank, st1, inner, n, 0);
      }
      assert Expected(a, [v] + rest) == VisitMarks(a, v) + Expected(a, rest) by {
        ExpectedAppend(a, [v], rest);
        assert [v][1..] == [];
      }
      Chain(Trace(st.log), Trace(st1.log), Trace(r.log), VisitMarks(a, v), Expected(a, rest));
    }
  }

  lemma {:induction false} ChildrenTrace(a: Asset, tex: map<int, nat>, rank: seq<nat>, st: St, inner: seq<Mat>, n: int, i: nat)
    requires Walkable(a, tex, rank, n) && i <= |a.nodes[n].children|
    ensures var r := ChildrenFrom(a, tex, rank, st, inner, n, i);
      !r.halted ==> Trace(r.log) == Trace(st.log) + Expected(a, ChildVisits(a, rank, Product(inner), n, i))
    decreases rank[n], |a.nodes[n].children| - i, 1
  {
    if i < |a.nodes[n].children| {
      ChildTrace(a, tex, rank, st, inner, n, i);
    }
  }

  /** Child `i`'s subtree, then the children after it. */
  lemma {:induction false} ChildTrace(a: Asset, tex: map<int, nat>, rank: seq<nat>, st: St, inner: seq<Mat>, n: int, i: nat)
    requires Walkable(a, tex, rank, n) && i < |a.nodes[n].children|
    ensures var r := ChildrenFrom(a, tex, rank, st, inner, n, i);
      !r.halted ==> Trace(r.log) == Trace(st.log) + Expected(a, ChildVisits(a, rank, Product(inner), n, i))
    decreases rank[n], |a.nodes[n].children| - i, 0
  {
    var r := ChildrenFrom(a, tex, rank, st, inner, n, i);
    if !r.halted {
      var c := a.nodes[n].children[i];
      assert c < |a.nodes|;
      ChildrenFromStep(a, tex, rank, st, inner, n, i);
      var st1 := NodeSpec(a, tex, rank, st, inner, c);
      var here := PreOrder(a, rank, Product(inner), c);
      var rest := ChildVisits(a, rank, Product(inner), n, i + 1);
      assert ChildVisits(a, rank, Product(inner), n, i) == here + rest;
      NodeTrace(a, tex, rank, st, inner, c);
      ChildrenTrace(a, tex, rank, st1, inner, n, i + 1);
      Compose(a, Trace(st.log), Trace(st1.log), Trace(r.log), here, rest);
    }
  }

  lemma {:induction false} RootsTrace(a: Asset, tex: map<int, nat>, rank: seq<nat>, st: St, stack: seq<Mat>, i: nat)
    requires Renderable(a, tex, rank) && |a.scenes| > 0 && i <= |Roots(a)|
    ensures var r := RootsFrom(a, tex, rank, st, stack, i);
      !r.halted ==> Trace(r.log) == Trace(st.log) + Expected(a, RootVisits(a, rank, Product(stack), i))
    decreases |Roots(a)| - i, 1
  {
    if i < |Roots(a)| {
      RootTrace(a, tex, rank, st, stack, i);
    }
  }

  /** Root `i`'s subtree, then the roots after it. */
  lemma {:induction false} RootTrace(a: Asset, tex: map<int, nat>, rank: seq<nat>, st: St, stack: seq<Mat>, i: nat)
    requires Renderable(a, tex, rank) && |a.scenes| > 0 && i < |Roots(a)|
    ensures var r := RootsFrom(a, tex, rank, st, stack, i);
      !r.halted ==> Trace(r.log) == Trace(st.log) + Expected(a, RootVisits(a, rank, Product(stack), i))
    decreases |Roots(a)| - i, 0
  {
    var r := RootsFrom(a, tex, rank, st, stack, i);
    if !r.halted {
      var root := Roots(a)[i];
      RootsFromStep(a, tex, rank, st, stack, i);
      var st1 := NodeSpec(a, tex, rank, st, stack, root);
      var here := PreOrder(a, rank, Product(stack), root);
      var rest := RootVisits(a, rank, Product(stack), i + 1);
      assert RootVisits(a, rank, Product(stack), i) == here + rest;
      NodeTrace(a, tex, rank, st, stack, root);
      RootsTrace(a, tex, rank, st1, stack, i + 1);
      Compose(a, Trace(st.log), Trace(st1.log), Trace(r.log), here, rest);
    }
  }

  /** The displayed scene's roots are walked in order below the product
      of the stack on entry. */
  lemma SceneTrace(a: Asset, tex: map<int, nat>, rank: seq<nat>, st: St, stack: seq<Mat>)
    requires Renderable(a, tex, rank)
    ensures var r := SceneSpec(a, tex, rank, st, stack);
      !r.halted ==>
        && |a.scenes| > 0
        && Trace(r.log) == Trace(st.log) + Expected(a, RootVisits(a, rank, Product(stack), 0))
  {
    var r := SceneSpec(a, tex, rank, st, stack);
    if !r.halted {
      RootsTrace(a, tex, rank, st, stack, 0);
    }
  }
}
