/** The parsed glTF asset as the viewer reads it (the parts tinygltf
    hands over that the scene-to-draw translation looks at), the numeric
    constants of tinygltf and OpenGL it compares against, and the pure
    lookup tables of the viewer. */
module Gltf {
  import opened Matrix

  datatype Option<T> = None | Some(value: T)

  // Accessor element types, as numbered by tinygltf.
  const TYPE_VEC2: int := 2
  const TYPE_VEC3: int := 3
  const TYPE_VEC4: int := 4
  const TYPE_SCALAR: int := 65

  // Primitive topologies, numbered as the `mesh.primitive.mode` property
  // of the glTF 2.0 specification (section 5.24.4).
  const MODE_POINTS: int := 0
  const MODE_LINE: int := 1
  const MODE_LINE_LOOP: int := 2
  const MODE_LINE_STRIP: int := 3
  const MODE_TRIANGLES: int := 4
  const MODE_TRIANGLE_STRIP: int := 5
  const MODE_TRIANGLE_FAN: int := 6

  // OpenGL enumerants.
  const GL_POINTS: int := 0x0000
  const GL_LINES: int := 0x0001
  const GL_LINE_LOOP: int := 0x0002
  const GL_TRIANGLES: int := 0x0004
  const GL_TRIANGLE_STRIP: int := 0x0005
  const GL_TRIANGLE_FAN: int := 0x0006
  const GL_ELEMENT_ARRAY_BUFFER: int := 0x8893

  /** Only the size of the payload matters to the model. */
  datatype Buffer = Buffer(byteLength: nat)

  /** `target` 0 means no GPU usage was declared. */
  datatype BufferView = BufferView(byteOffset: int, byteLength: int, target: int)

  /** `byteStride` is what tinygltf's `Accessor::ByteStride` returns for
      this accessor and its bufferView: -1 when it cannot be determined. */
  datatype Accessor = Accessor(
    bufferView: int,
    byteOffset: int,
    componentType: int,
    count: int,
    normalized: bool,
    accessorType: int,
    isSparse: bool,
    byteStride: int)

  /** The `KHR_texture_transform` extension object of a texture reference;
      each field is absent when the object has no such member. */
  datatype TextureTransform = TextureTransform(
    offset: Option<(real, real)>,
    scale: Option<(real, real)>,
    rotation: Option<real>)

  /** `baseColorTexture` is the texture index of the base-color texture
      reference (-1 when absent). */
  datatype Material = Material(
    baseColorTexture: int,
    textureTransform: Option<TextureTransform>,
    baseColorFactor: seq<real>)

  /** `attributes` in the order the source's `std::map` iterates them. */
  datatype Primitive = Primitive(
    attributes: seq<(string, int)>,
    indices: int,
    material: int,
    mode: int)

  datatype Mesh = Mesh(primitives: seq<Primitive>)

  /** Each of `matrix`, `translation`, `rotation`, `scale` is empty when the
      node does not give it; `mesh` is -1 when the node carries none. */
  datatype Node = Node(
    matrix: seq<real>,
    translation: seq<real>,
    rotation: seq<real>,
    scale: seq<real>,
    mesh: int,
    children: seq<int>)

  datatype Texture = Texture(source: int)

  datatype Image = Image(uri: string)

  datatype Scene = Scene(nodes: seq<int>)

  datatype Asset = Asset(
    buffers: seq<Buffer>,
    bufferViews: seq<BufferView>,
    accessors: seq<Accessor>,
    nodes: seq<Node>,
    meshes: seq<Mesh>,
    materials: seq<Material>,
    textures: seq<Texture>,
    images: seq<Image>,
    scenes: seq<Scene>,
    defaultScene: int)

  // ---------------------------------------------------------------------
  // Index validity. Reading a `std::vector` out of range is undefined
  // behaviour in the source (no check guards these reads), so the model
  // demands these of its callers instead.

  /** An attribute's accessor exists. Its bufferView is read (to compute
      the stride) only for an attribute of a known element type that the
      viewer binds: a skipped name never reads it. A negative index is not
      excluded: the source asserts on it. */
  predicate AttributeRefs(a: Asset, attr: (string, int)) {
    attr.1 >= 0 ==>
      && attr.1 < |a.accessors|
      && (ComponentCount(a.accessors[attr.1].accessorType).Some? && AttributeLocation(attr.0).Some? ==>
            0 <= a.accessors[attr.1].bufferView < |a.bufferViews|)
  }

  /** The index accessor exists; its bufferView is read only once the
      primitive's mode has passed the mode table. */
  predicate IndicesRefs(a: Asset, p: Primitive) {
    p.indices >= 0 ==>
      && p.indices < |a.accessors|
      && (GlMode(p.mode).Some? ==> 0 <= a.accessors[p.indices].bufferView < |a.bufferViews|)
  }

  /** A base-color texture index names an existing texture. */
  predicate MaterialRefs(a: Asset, m: Material) {
    m.baseColorTexture >= 0 ==> m.baseColorTexture < |a.textures|
  }

  /** What drawing one primitive reads: its material, that material's
      texture, its attributes' accessors and its index accessor. */
  predicate PrimitiveRefs(a: Asset, p: Primitive) {
    && 0 <= p.material < |a.materials|
    && MaterialRefs(a, a.materials[p.material])
    && (forall k :: 0 <= k < |p.attributes| ==> AttributeRefs(a, p.attributes[k]))
    && IndicesRefs(a, p)
  }

  /** The scene shown: the declared default scene, or scene 0. */
  function SceneToDisplay(a: Asset): int {
    if a.defaultScene > -1 then a.defaultScene else 0
  }

  /** When there is a scene, the one shown exists and its roots are nodes. */
  predicate SceneRefs(a: Asset) {
    |a.scenes| > 0 ==>
      && SceneToDisplay(a) < |a.scenes|
      && forall r :: 0 <= r < |a.scenes[SceneToDisplay(a)].nodes| ==>
           0 <= a.scenes[SceneToDisplay(a)].nodes[r] < |a.nodes|
  }

  /** A rank that strictly decreases from a node to each of its children:
      the node graph is acyclic. The source does not check this. */
  predicate Ranked(a: Asset, rank: seq<nat>) {
    && |rank| == |a.nodes|
    && forall n, j ::
         (0 <= n < |a.nodes| && 0 <= j < |a.nodes[n].children| &&
          0 <= a.nodes[n].children[j] < |a.nodes|) ==>
         rank[a.nodes[n].children[j]] < rank[n]
  }

  /** What visiting node `n` itself reads: the primitives of its mesh,
      once the mesh index has passed the bound assert, and its child
      indices, which the source bounds only from above. */
  predicate NodeRefs(a: Asset, n: int)
    requires 0 <= n < |a.nodes|
  {
    var node := a.nodes[n];
    && (0 <= node.mesh < |a.meshes| ==>
          forall k :: 0 <= k < |a.meshes[node.mesh].primitives| ==> PrimitiveRefs(a, a.meshes[node.mesh].primitives[k]))
    && (forall j :: 0 <= j < |node.children| ==> node.children[j] >= 0)
  }

  /** Every node the walk reaches from `n` reads only what exists. */
  predicate SubtreeRefs(a: Asset, rank: seq<nat>, n: int)
    requires Ranked(a, rank) && 0 <= n < |a.nodes|
    decreases rank[n]
  {
    && NodeRefs(a, n)
    && forall j :: 0 <= j < |a.nodes[n].children| && 0 <= a.nodes[n].children[j] < |a.nodes| ==>
         SubtreeRefs(a, rank, a.nodes[n].children[j])
  }

  /** Everything the scene walk reads without a check, for the nodes it
      reaches from the displayed scene. */
  predicate RenderRefs(a: Asset, rank: seq<nat>) {
    && Ranked(a, rank)
    && SceneRefs(a)
    && (|a.scenes| > 0 ==>
          forall r :: 0 <= r < |a.scenes[SceneToDisplay(a)].nodes| ==>
            SubtreeRefs(a, rank, a.scenes[SceneToDisplay(a)].nodes[r]))
  }

  // ---------------------------------------------------------------------
  // Tables.

  /** Component count of an accessor element type; None where the source
      asserts. */
  function ComponentCount(accessorType: int): (r: Option<nat>)
    ensures r.Some? <==> accessorType in {TYPE_SCALAR, TYPE_VEC2, TYPE_VEC3, TYPE_VEC4}
    ensures r.Some? ==> 1 <= r.value <= 4
    // the vector types are numbered by their component count
    ensures r.Some? && accessorType != TYPE_SCALAR ==> r.value == accessorType
    ensures accessorType == TYPE_SCALAR ==> r == Some(1)
  {
    if accessorType == TYPE_SCALAR then Some(1)
    else if accessorType == TYPE_VEC2 then Some(2)
    else if accessorType == TYPE_VEC3 then Some(3)
    else if accessorType == TYPE_VEC4 then Some(4)
    else None
  }

  /** Shader input location of a vertex attribute; None for the names the
      viewer skips. */
  function AttributeLocation(name: string): (r: Option<nat>)
    ensures r.Some? <==> name in {"POSITION", "NORMAL", "TEXCOORD_0"}
    ensures r.Some? ==> r.value <= 2
  {
    if name == "POSITION" then Some(0)
    else if name == "NORMAL" then Some(1)
    else if name == "TEXCOORD_0" then Some(2)
    else None
  }

  /** The attribute bound at a shader input location. */
  function AttributeAt(location: nat): Option<string> {
    if location == 0 then Some("POSITION")
    else if location == 1 then Some("NORMAL")
    else if location == 2 then Some("TEXCOORD_0")
    else None
  }

  /** The location table is a bijection between the three supported names
      and the locations 0, 1, 2. */
  lemma LocationsInvertible(name: string, location: nat)
    ensures AttributeLocation(name) == Some(location) <==> AttributeAt(location) == Some(name)
  {
  }

  /** OpenGL topology of a glTF primitive mode; None where the source
      asserts (LINE_STRIP and every value outside the table). */
  function GlMode(mode: int): (r: Option<int>)
    ensures r.Some? <==> 0 <= mode <= 6 && mode != MODE_LINE_STRIP
    // glTF numbers its modes as the OpenGL enumerants they stand for
    ensures r.Some? ==> r.value == mode
  {
    if mode == MODE_TRIANGLES then Some(GL_TRIANGLES)
    else if mode == MODE_TRIANGLE_STRIP then Some(GL_TRIANGLE_STRIP)
    else if mode == MODE_TRIANGLE_FAN then Some(GL_TRIANGLE_FAN)
    else if mode == MODE_POINTS then Some(GL_POINTS)
    else if mode == MODE_LINE then Some(GL_LINES)
    else if mode == MODE_LINE_LOOP then Some(GL_LINE_LOOP)
    else None
  }

  // ---------------------------------------------------------------------
  // Node transforms (glTF 2.0 specification, section 3.5.3).

  /** Position of a constructor in the T * R * S order. */
  function Stage(f: Factor): nat {
    match f
    case Translate(_, _, _) => 0
    case Rotate(_, _, _, _) => 1
    case Scale(_, _, _) => 2
    case FromArray16(_) => 3
  }

  predicate HasStage(m: Mat, stage: nat) {
    exists i :: 0 <= i < |m.factors| && Stage(m.factors[i]) == stage
  }

  /** The translation factor of a node: present only with three
      components. */
  function TranslationWord(n: Node): seq<Factor> {
    if |n.translation| == 3 then [Translate(n.translation[0], n.translation[1], n.translation[2])] else []
  }

  /** The rotation factor: glm::quat takes w first, glTF stores the
      quaternion as x, y, z, w. */
  function RotationWord(n: Node): seq<Factor> {
    if |n.rotation| == 4 then [Rotate(n.rotation[3], n.rotation[0], n.rotation[1], n.rotation[2])] else []
  }

  function ScaleWord(n: Node): seq<Factor> {
    if |n.scale| == 3 then [Scale(n.scale[0], n.scale[1], n.scale[2])] else []
  }

  /** The local transform a node pushes: its 16-element matrix verbatim,
      or Identity * T * R * S where each of T, R, S is multiplied in only
      when the node gives that component with the right arity. */
  function LocalTransform(n: Node): (r: Mat)
    ensures |n.matrix| == 16 ==> r == Of(FromArray16(n.matrix))
  {
    if |n.matrix| == 16 then Of(FromArray16(n.matrix))
    else Mul(Mul(Mul(Identity(), Mat(TranslationWord(n))), Mat(RotationWord(n))), Mat(ScaleWord(n)))
  }

  /** The stage of each factor of a node's T * R * S word is fixed by the
      block it lies in. */
  lemma WordStages(n: Node)
    requires |n.matrix| != 16
    ensures var t, q := TranslationWord(n), RotationWord(n);
      var r := LocalTransform(n);
      && |r.factors| == |t| + |q| + |ScaleWord(n)|
      && forall i :: 0 <= i < |r.factors| ==>
           Stage(r.factors[i]) == (if i < |t| then 0 else if i < |t| + |q| then 1 else 2)
  {
    var t, q, s := TranslationWord(n), RotationWord(n), ScaleWord(n);
    var r := LocalTransform(n);
    assert r.factors == t + q + s;
    forall i | 0 <= i < |r.factors|
      ensures Stage(r.factors[i]) == (if i < |t| then 0 else if i < |t| + |q| then 1 else 2)
    {
      if i < |t| { assert r.factors[i] == t[i]; }
      else if i < |t| + |q| { assert r.factors[i] == q[i - |t|]; }
      else { assert r.factors[i] == s[i - |t| - |q|]; }
    }
  }

  /** Without a full matrix, a node's transform has a translation, rotation
      and scale factor exactly when it gives that component with the right
      arity, in the order T, R, S, and no raw matrix factor. */
  lemma LocalTransformOrder(n: Node)
    requires |n.matrix| != 16
    ensures var r := LocalTransform(n);
      && (HasStage(r, 0) <==> |n.translation| == 3)
      && (HasStage(r, 1) <==> |n.rotation| == 4)
      && (HasStage(r, 2) <==> |n.scale| == 3)
      && !HasStage(r, 3)
      && (forall i, j :: 0 <= i < j < |r.factors| ==> Stage(r.factors[i]) < Stage(r.factors[j]))
  {
    var t, q := TranslationWord(n), RotationWord(n);
    var r := LocalTransform(n);
    WordStages(n);
    if |n.translation| == 3 { assert Stage(r.factors[0]) == 0; }
    if |n.rotation| == 4 { assert Stage(r.factors[|t|]) == 1; }
    if |n.scale| == 3 { assert Stage(r.factors[|t| + |q|]) == 2; }
  }

  /** The translation factor holds the node's x, y, z offsets in order. */
  lemma LocalTransformTranslation(n: Node)
    requires |n.matrix| != 16
    ensures var r := LocalTransform(n);
      forall i :: 0 <= i < |r.factors| && r.factors[i].Translate? ==>
        r.factors[i] == Translate(n.translation[0], n.translation[1], n.translation[2])
  {
    var t, q, s := TranslationWord(n), RotationWord(n), ScaleWord(n);
    var r := LocalTransform(n);
    assert r.factors == t + q + s;
    WordStages(n);
    forall i | 0 <= i < |r.factors| && r.factors[i].Translate?
      ensures r.factors[i] == Translate(n.translation[0], n.translation[1], n.translation[2])
    {
      // only the translation block holds a stage-0 factor
      assert Stage(r.factors[i]) == 0;
      assert r.factors[i] == t[i];
    }
  }

  /** The scale factor holds the node's x, y, z scale in order. */
  lemma LocalTransformScale(n: Node)
    requires |n.matrix| != 16
    ensures var r := LocalTransform(n);
      forall i :: 0 <= i < |r.factors| && r.factors[i].Scale? ==>
        r.factors[i] == Scale(n.scale[0], n.scale[1], n.scale[2])
  {
    var t, q, s := TranslationWord(n), RotationWord(n), ScaleWord(n);
    var r := LocalTransform(n);
    assert r.factors == t + q + s;
    WordStages(n);
    forall i | 0 <= i < |r.factors| && r.factors[i].Scale?
      ensures r.factors[i] == Scale(n.scale[0], n.scale[1], n.scale[2])
    {
      // only the scale block holds a stage-2 factor
      assert Stage(r.factors[i]) == 2;
      assert r.factors[i] == s[i - |t| - |q|];
    }
  }

  /** The rotation factor holds the glTF quaternion x, y, z, w reordered
      to glm's w, x, y, z. */
  lemma LocalTransformRotation(n: Node)
    requires |n.matrix| != 16
    ensures var r := LocalTransform(n);
      forall i :: 0 <= i < |r.factors| && r.factors[i].Rotate? ==>
        r.factors[i] == Rotate(n.rotation[3], n.rotation[0], n.rotation[1], n.rotation[2])
  {
    var t, q, s := TranslationWord(n), RotationWord(n), ScaleWord(n);
    var r := LocalTransform(n);
    assert r.factors == t + q + s;
    WordStages(n);
    forall i | 0 <= i < |r.factors| && r.factors[i].Rotate?
      ensures r.factors[i] == Rotate(n.rotation[3], n.rotation[0], n.rotation[1], n.rotation[2])
    {
      // only the rotation block holds a stage-1 factor
      assert Stage(r.factors[i]) == 1;
      assert r.factors[i] == q[i - |t|];
    }
  }
}
