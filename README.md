# glTF viewer: scene graph to draw calls

This project models the core of the `Viewer` class of the zen-object-viewer
glTF viewer (`src/gltf/main.cc`) and proves properties of that model.

The viewer takes a parsed glTF asset and does three things:

- It builds its resource caches once: the bufferView → GPU buffer map
  `gl_vertex_buffer_map_` and the image source → texture map `texture_map_`.
- It walks the node hierarchy of the displayed scene depth-first, keeping a
  stack of local transforms (`matrix_stack_`).
- For every primitive of every mesh it meets, it picks a shader program from
  the material, binds the vertex attributes, sets the `local_model` uniform
  and issues one indexed draw. It commits once per mesh.

## Modules

- `Matrix` (matrix.dfy): the matrices are symbolic.
  - A matrix is the word of constructors it was multiplied from: translate,
    quaternion rotation, scale, raw 16-element array. `Identity` is the empty
    word and `Mul` is concatenation.
  - This is the free monoid on those constructors. Every equation proved
    between matrices therefore holds for real 4x4 matrices under any reading
    of the constructors. Facts about the word itself, such as which factors
    it contains, need not: `Translate(0, 0, 0)` is a factor that evaluates to
    the identity.
  - `Product` is the left fold `Identity * s[0] * ... * s[n-1]` that
    `CalculateLocalModel` computes.
- `Gltf` (gltf.dfy): the asset as the viewer reads it, the tinygltf and
  OpenGL constants, and the pure tables.
  - The tables are accessor type → component count, attribute name → shader
    location, and glTF mode → OpenGL topology.
  - They also include the node local transform (glTF 2.0 specification,
    section 3.5.3).
- `Backend` (backend.dfy): every request to the display backend is an
  `Event` appended to a log.
  - `Trace` keeps the events the scene walk is about: each `local_model`
    uniform, each indexed draw, each commit.
- `Upload` (upload.dfy): reference definitions for setup.
  - Which bufferViews get a GPU buffer.
  - The events setup emits.
  - The texture loop, which stops at the first image that fails to load.
  - `emplace`, which keeps the first texture cached for each image source.
- `Render` (render.dfy): the reference semantics of drawing, as functions
  from state to state.
  - The state is the event log, the bufferView cache, and whether a failed
    `assert` has ended the process.
  - It covers the material dispatch, the attribute loop, the draw, a mesh, a
    node with its children, and a scene.
- `Traversal` (traversal.dfy): an independent definition of the walk.
  - It is a pre-order list of visited nodes, each with its world transform
    defined recursively as parent world * local transform.
  - The proof shows that the stack-based walk, when it completes, leaves
    exactly the marks this list predicts. For each visited mesh node in
    pre-order, that is one (`local_model`, draw) pair per primitive, with
    `local_model` equal to the node's world transform, followed by one commit.
- `Viewer` (viewer.dfy): the class.
  - Its fields are the caches, the matrix stack, the log and an `aborted`
    flag.
  - Its methods have the loops of the source. Each is proved to have exactly
    the effect its reference function gives it.

Where the source indexes a `std::vector` without a check, reading outside
it is undefined behaviour, so the model requires that index to be valid.
Which reads are required depends on the asserts:

- Within one step, a read that comes after an assert is required only when
  that assert passes. A step is one attribute, one draw phase, or one child.
  - The attribute's accessor: only for a non-negative index (main.cc:365-366).
  - The attribute's bufferView: only for a known type (:368-378) and a bound
    name (:400).
  - The index accessor: only for non-negative indices (:412-414).
  - The index accessor's bufferView: only for a mapped mode (:416-440).
  - A child node: only below the node count (:281-282).
- A read in a later attribute, primitive, child or root is required even when
  an earlier one's assert would end the process.

The requirements are:

- `SetupRefs`: with exactly one buffer, the image of each texture the loop
  reaches. These are the textures that load, and the first one that does not.
  With a wrong buffer count, setup returns before the loop and nothing is
  required.
- `RenderRefs`: the walk's reads, required only when setup succeeds, since
  `Configure` returns before the walk otherwise.
  - The displayed scene's index (:239) and its root indices.
  - For each node reachable from those roots, the mesh primitives' material
    and base-color texture indices.
  - The index accessor, and each attribute's accessor.
  - The bufferView of an accessor only where the code reads it: the index
    accessor of a primitive with a mapped mode, and an attribute with a known
    type and a bound name.

Where the source has an `assert`, the model takes the failing case as a path
that sets `aborted` and stops.

Three behaviours of the code are worth stating on their own:

- **Textures.** The setup loop decodes and creates a texture for every entry
  of `textures`, even when two entries name the same image (main.cc:217-228).
  `texture_map_.emplace` then keeps the first texture per image source
  (main.cc:228). The model logs one `LoadTexture` per texture, and `Emplaced`
  keeps the first.
- **`KHR_texture_transform`.** The code sets `in_offset`, `in_scale` and
  `in_rotation` only inside the loop over the base-color texture's
  extensions, when that loop meets `KHR_texture_transform`
  (main.cc:324-349). Without the extension it sets none of them.
  `MaterialEvents` emits them only when the extension is present. Inside a
  present extension, each missing member takes the default that the
  KHR_texture_transform extension specification gives it: offset (0, 0),
  scale (1, 1), rotation 0 (main.cc:327, 335, 343).
- **Sparse accessors.** The code skips every bufferView that a sparse
  accessor reads. It prints its message twice: once inside the accessor scan
  (main.cc:183-193), and once after it (main.cc:195-198). The model emits
  both messages.

## Model

| member | source | states |
|---|---|---|
| Matrix.ProductAppend | src/gltf/main.cc:111-118 | the left-fold product of a stack split in two is the product of the parts, so pushing a matrix multiplies it in on the right |
| Matrix.IdentityIsUnit | src/gltf/main.cc:113 | the identity a fold starts from, and the identity pushed by `Configure`, change no product |
| Gltf.ComponentCount | src/gltf/main.cc:367-378 | SCALAR, VEC2, VEC3 and VEC4 give 1, 2, 3 and 4 components; every other type is the asserting case |
| Gltf.AttributeLocation | src/gltf/main.cc:380-396 | exactly POSITION, NORMAL and TEXCOORD_0 get a location, and that location is at most 2; every other name is skipped |
| Gltf.LocationsInvertible | src/gltf/main.cc:389-394 | the name → location table is a bijection between the three names and the locations 0, 1, 2 |
| Gltf.GlMode | src/gltf/main.cc:416-438 | modes 0 to 6 except LINE_STRIP map to the OpenGL enumerant with the same number; LINE_STRIP and every other value assert |
| Gltf.LocalTransform | src/gltf/main.cc:247-249 | a node with a 16-element matrix pushes exactly that matrix |
| Gltf.WordStages | src/gltf/main.cc:250-272 | without a full matrix, the local transform is the translation block, then the rotation block, then the scale block |
| Gltf.LocalTransformOrder | src/gltf/main.cc:250-272 | without a full matrix, the transform has a T, R or S factor exactly when the node gives that part with 3, 4 or 3 components; the factors come in the order T, R, S, and there is no raw matrix factor |
| Gltf.LocalTransformTranslation | src/gltf/main.cc:253-258 | the translation factor is the offset with x, y, z = translation[0], translation[1], translation[2] |
| Gltf.LocalTransformScale | src/gltf/main.cc:266-270 | the scale factor is the scale with x, y, z = scale[0], scale[1], scale[2] |
| Gltf.LocalTransformRotation | src/gltf/main.cc:260-263 | the rotation factor is the quaternion with w = rotation[3] and x, y, z = rotation[0..2] |
| Upload.UploadedViewsKeys | src/gltf/main.cc:175-215 | after the bufferView loop, the cache has key i exactly when bufferView i has a nonzero target and no accessor reading it is sparse; the entry is bufferView i's own buffer |
| Upload.UploadedAdd | src/gltf/main.cc:207-208 | one more uploadable bufferView adds its own entry over whatever the cache held |
| Upload.UploadedSkip | src/gltf/main.cc:177-198 | a bufferView with target 0 or read by a sparse accessor adds no entry |
| Upload.UploadsPrefix | src/gltf/main.cc:175-215 | the cache built one bufferView at a time, with an entry added only for uploadable views, is the starting cache plus exactly the uploadable views |
| Upload.LoadedPrefix | src/gltf/main.cc:217-227 | the texture loop runs exactly through the textures before the first one that fails to load |
| Upload.SourcesFromExact | src/gltf/main.cc:217-227 | from texture i on, the loop's image reads are valid exactly when every texture from i up to the one the loop stops at names an existing image |
| Upload.SourcesFromReads | src/gltf/main.cc:217-227 | the setup loop's image reads are valid exactly when the textures it reaches, the loaded ones and the one it stops at, name existing images; later textures are not constrained |
| Upload.LoadedPrefixStopsAt | src/gltf/main.cc:224-227 | the loop stops at t exactly when every earlier texture loads and t is the end or fails |
| Upload.EmplacedFirstWins | src/gltf/main.cc:228 | `emplace` keeps every existing entry; a new source is cached under the first texture that names it |
| Upload.EmplacedCoversAll | src/gltf/main.cc:217-229 | after a complete texture loop, every texture's source is cached |
| Upload.SetupLog | src/gltf/main.cc:122-129 | with zero or several buffers, setup prints one message and creates nothing |
| Upload.ViewsLogCreates | src/gltf/main.cc:175-215 | the buffers created are exactly those of the uploadable bufferViews, each with its own offset, length and target |
| Upload.ViewsLogQuiet | src/gltf/main.cc:175-215 | the bufferView loop sets no `local_model`, draws nothing and commits nothing |
| Upload.TexturesLogQuiet | src/gltf/main.cc:217-229 | the texture loop sets no `local_model`, draws nothing and commits nothing |
| Upload.SetupQuiet | src/gltf/main.cc:120-232 | nothing setup emits sets `local_model`, draws or commits |
| Render.Subscript | src/gltf/main.cc:448-450 | `operator[]` returns the cached entry, or inserts and returns a null entry when the key is missing; other entries are unchanged |
| Render.TransformUniforms | src/gltf/main.cc:327-348 | `in_offset`, `in_scale` and `in_rotation`, in that order, each from the extension, or (0,0), (1,1) and 0 when it lacks that member |
| Render.MaterialEvents | src/gltf/main.cc:313-362 | a base-color texture binds its cached texture, then the texture program, and never sets `in_base_color` or binds the color program; the transform uniforms appear exactly when the extension is present, and are then exactly the three events between the texture bind and the program bind. Without a texture, the color program is used and fed exactly four factor components; any other count asserts |
| Render.AttributeStep | src/gltf/main.cc:364-409 | the type is checked before the name; an unknown name only prints; a bound attribute needs byteStride != -1 and a cached bufferView, and binds it at its location with its size, type, normalization, stride, offset and buffer; it halts exactly on a negative index, an unknown type, or a known name with no stride or no buffer. An unknown name needs no valid bufferView, since the code never reads it |
| Render.Attributes | src/gltf/main.cc:364-409 | the attribute loop only appends to the log and never changes the buffer cache; a valid bufferView is asked only of attributes with a known type and a bound name |
| Render.DrawPhase | src/gltf/main.cc:410-450 | a completed draw needs indices >= 0 and a mapped mode; it ends with `local_model` = the given world transform, then one DrawElements with the index accessor's count, type, offset and cached (or newly null) buffer; a wrong index target does not stop the draw |
| Render.DrawPhaseReports | src/gltf/main.cc:410-445 | the vertex array is bound first, and a halted draw phase has emitted only that bind. The unsupported-target message is printed exactly when the index bufferView's target is not GL_ELEMENT_ARRAY_BUFFER, and the draw still follows |
| Render.PrimitiveStep | src/gltf/main.cc:290-451 | one primitive only extends the log and keeps every cached buffer |
| Traversal.MaterialQuiet | src/gltf/main.cc:315-362 | material dispatch sets no `local_model`, draws nothing and commits nothing |
| Traversal.AttributesQuiet | src/gltf/main.cc:364-409 | the attribute loop sets no `local_model`, draws nothing and commits nothing |
| Traversal.DrawPhaseTrace | src/gltf/main.cc:410-450 | a completed draw phase adds exactly `local_model` = world, then one draw |
| Traversal.UnitQuiet | src/gltf/main.cc:291-362 | a new rendering unit and its material leave no mark |
| Traversal.PrimitiveTrace | src/gltf/main.cc:290-451 | a completed primitive adds exactly `local_model` = world, then one draw |
| Traversal.PrimitivesTrace | src/gltf/main.cc:290-451 | a completed primitive loop adds one (`local_model`, draw) pair per primitive, all with the mesh node's world transform |
| Traversal.MeshTrace | src/gltf/main.cc:288-454 | a completed mesh adds one (`local_model`, draw) pair per primitive, then exactly one commit |
| Traversal.NodeTrace | src/gltf/main.cc:245-286 | a completed node visit adds, for each mesh node of the subtree in pre-order, its draws under parent world * local transform, then its commit |
| Traversal.ChildrenTrace | src/gltf/main.cc:280-283 | the children are visited in array order, each under the node's own world transform |
| Traversal.RootsTrace | src/gltf/main.cc:240-242 | the roots are visited in `scene.nodes` order, each under the product of the stack on entry |
| Traversal.SceneTrace | src/gltf/main.cc:234-243 | a completed scene walk needs a scene and adds exactly the marks of the pre-order visits of the displayed scene's roots |
| Viewer.Viewer.constructor | src/gltf/main.cc:27-37 | the viewer starts with empty caches, an empty stack and an empty log |
| Viewer.Viewer.CalculateLocalModel | src/gltf/main.cc:111-118 | the loop returns the left-to-right product of the whole stack, starting from the identity |
| Viewer.Viewer.FindSparseAccessor | src/gltf/main.cc:183-193 | the scan returns -1 exactly when no sparse accessor reads the bufferView; otherwise it returns the first one |
| Viewer.Viewer.Setup | src/gltf/main.cc:120-232 | it succeeds exactly with one buffer and every texture loading. It emits the setup events, sets the bufferView cache to the uploadable views and the texture cache to the emplaced loaded prefix, and leaves the stack alone. With a wrong buffer count it changes no cache, and no texture source needs to be valid |
| Viewer.Viewer.UploadBufferViews | src/gltf/main.cc:175-215 | the loop logs each bufferView's skip, sparse or create events and adds exactly the uploadable views to the cache |
| Viewer.Viewer.LoadTextures | src/gltf/main.cc:217-229 | the loop loads textures up to the first failure, returns false exactly when one fails, and emplaces each loaded texture under its source |
| Viewer.Viewer.BindAttributes | src/gltf/main.cc:364-409 | the loop has exactly the effect of the attribute steps in map order, stopping at the first failed assert; an attribute with an unknown name may carry any bufferView |
| Viewer.Viewer.BindAttribute | src/gltf/main.cc:365-408 | one attribute has exactly the effect of the attribute step: it aborts on a negative index, an unknown type, or a bound name with no stride or no cached buffer; an unknown name only prints; otherwise it binds |
| Viewer.Viewer.DrawIndexed | src/gltf/main.cc:410-450 | the draw phase with `local_model` = the product of the current stack |
| Viewer.Viewer.SetTransformUniforms | src/gltf/main.cc:327-348 | appends exactly the three transform uniforms the extension gives, with their defaults, and changes nothing else |
| Viewer.Viewer.ApplyMaterial | src/gltf/main.cc:313-362 | has exactly the material dispatch's events, or aborts where that dispatch asserts |
| Viewer.Viewer.RenderPrimitive | src/gltf/main.cc:290-451 | one primitive's full effect under the current stack product |
| Viewer.Viewer.RenderMesh | src/gltf/main.cc:288-454 | all primitives in order, then one commit unless an assert failed; stack and texture cache unchanged |
| Viewer.Viewer.NodeLocal | src/gltf/main.cc:247-273 | builds exactly the node's local transform |
| Viewer.Viewer.RenderNode | src/gltf/main.cc:245-286 | one node visit as the reference semantics gives it; when no assert fails, the stack afterwards equals the stack before it (one push, one pop) |
| Viewer.Viewer.RenderChildren | src/gltf/main.cc:280-283 | the child loop has exactly the effect of visiting the children in array order, halting at a child index past the node array; the stack is unchanged when no assert fails |
| Viewer.Viewer.RenderScene | src/gltf/main.cc:234-243 | the displayed scene is `defaultScene`, or scene 0 when `defaultScene <= -1`; its roots are walked in order; the stack is balanced |
| Viewer.Viewer.Configure | src/gltf/main.cc:46-57 | the scene graph needs to be valid only when setup succeeds. A failed setup prints and stops, leaving both caches as setup left them: unchanged with a wrong buffer count, and otherwise the uploadable views and the emplaced loaded prefix of the textures. Otherwise it acknowledges, seeds the identity and walks the scene. The texture cache then covers every texture, and the marks added are exactly those of the pre-order visits with world transforms computed from the stack on entry |

## Left out

- Backend objects (system, bounded, pool, shaders, programs, sampler, vertex arrays, rendering units, techniques): their initialisation is taken to succeed. So the early `return false` in setup on a failed init, and the early return of `RenderMesh` without a commit (main.cc:295-309), are not modelled.
- Shader compile/attach/link, sampler parameters, `GenerateMipmap`, `vertex_array->Enable` and the texture/sampler argument of `Bind` leave no event; only the calls that carry model data are logged.
- The anonymous file, `mmap` and `memcpy` pool copy: operating-system I/O. Only the pool size is logged.
- JPEG decoding and path resolution: file I/O and a foreign call. They become the parameter `loads`, which says which image URIs decode.
- glm numerics of translate, quaternion-to-matrix, scale and multiply, and the texture-transform doubles: floating point. Matrices are symbolic words and the transform values are `real`.
- `tinygltf::Accessor::ByteStride`: a foreign call. It is the accessor field `byteStride`, with -1 meaning undeterminable.
- Ray handlers, `SetupRegion` (including its commit after the scene walk), `Init`, `Run` and `main`: event-loop plumbing, region I/O and argument handling.
- Console messages are logged as `Log` events and are not ordered against the other output stream.
- A failed `assert` ends the process. The model sets `aborted` and stops the walk, and the reference semantics stops in the same place.
- Acyclicity of the node graph is a precondition, a rank that decreases from each node to its children. The source does not check it.
- Out-of-range `std::vector` reads are preconditions. Within one attribute step, draw phase or child visit, a read that follows an assert is required only when that assert passes. For example, the attribute bufferView read at main.cc:400 is not required after the type assert at :377 fails, and the index bufferView read at :440 is not required after the mode assert at :437 fails. A read in a later attribute, primitive, child or root is required even when an earlier one's assert would end the process; for example, the second primitive of a mesh must be valid even when the first one's mode asserts. These reads are the images of the textures the setup loop reaches; the displayed scene's index and root indices; and, below the nodes reachable from those roots, negative child indices (the child assert checks only the upper bound), material and base-color texture indices, accessor indices, and the bufferViews of the index accessor and of bound attributes. In the source each of these reads is undefined behaviour.
- Viewer.Viewer.Configure: when setup succeeds, the acyclicity rank (`Ranked`) is required for every node of the asset, including nodes the displayed scene never reaches. The source does not need unreachable nodes to be acyclic; a rank for the reachable nodes alone would be enough.
- Viewer.Viewer.RenderNode: the ensures gives the stack after the call, not its depth during the call. That depth is visible only through the world transforms, each the product of the stack on entry and the path's local transforms.
- Viewer.Viewer.Configure: the identity seeded before the walk is never popped, so each further configure event leaves one more identity on the stack. The model keeps it, and the proof shows it changes no world transform.
- The `attributes` map of a primitive is a sequence in `std::map` iteration order: the model does not sort it.
