/** Reference definitions for the one-time resource setup: which
    bufferViews get a GPU buffer, which texture each image source is cached
    under, and the events setup emits. */
module Upload {
  import opened Gltf
  import opened Backend

  /** Some accessor reading bufferView `view` is sparse. */
  predicate HasSparse(a: Asset, view: int) {
    exists j :: 0 <= j < |a.accessors| && a.accessors[j].bufferView == view && a.accessors[j].isSparse
  }

  /** A bufferView gets a GPU buffer when it declares a target and no
      sparse accessor reads it. */
  predicate Uploadable(a: Asset, view: int)
    requires 0 <= view < |a.bufferViews|
  {
    a.bufferViews[view].target != 0 && !HasSparse(a, view)
  }

  /** The cache entries made for the first `n` bufferViews. */
  function UploadedPrefix(a: Asset, n: nat): map<int, BufferRef>
    requires n <= |a.bufferViews|
  {
    map i | 0 <= i < n && Uploadable(a, i) :: GlBuffer(i)
  }

  /** One more uploadable bufferView adds its own entry over whatever the
      cache held. */
  lemma UploadedAdd(base: map<int, BufferRef>, a: Asset, i: nat)
    requires i < |a.bufferViews| && Uploadable(a, i)
    ensures base + UploadedPrefix(a, i + 1) == (base + UploadedPrefix(a, i))[i := GlBuffer(i)]
  {
    assert UploadedPrefix(a, i + 1) == UploadedPrefix(a, i)[i := GlBuffer(i)];
  }

  /** A bufferView that is not uploadable leaves the cache alone. */
  lemma UploadedSkip(base: map<int, BufferRef>, a: Asset, i: nat)
    requires i < |a.bufferViews| && !Uploadable(a, i)
    ensures base + UploadedPrefix(a, i + 1) == base + UploadedPrefix(a, i)
  {
    assert UploadedPrefix(a, i + 1) == UploadedPrefix(a, i);
  }

  /** The cache after the first `n` steps of the bufferView loop, one
      entry at a time. */
  function Uploads(base: map<int, BufferRef>, a: Asset, n: nat): map<int, BufferRef>
    requires n <= |a.bufferViews|
  {
    if n == 0 then base
    else
      var prev := Uploads(base, a, n - 1);
      if Uploadable(a, n - 1) then prev[n - 1 := GlBuffer(n - 1)] else prev
  }

  /** Step by step, the loop adds exactly the uploadable bufferViews. */
  lemma {:induction false} UploadsPrefix(base: map<int, BufferRef>, a: Asset, n: nat)
    requires n <= |a.bufferViews|
    ensures Uploads(base, a, n) == base + UploadedPrefix(a, n)
  {
    if n > 0 {
      UploadsPrefix(base, a, n - 1);
      if Uploadable(a, n - 1) {
        UploadedAdd(base, a, n - 1);
      } else {
        UploadedSkip(base, a, n - 1);
      }
    }
  }

  function UploadedViews(a: Asset): map<int, BufferRef> {
    UploadedPrefix(a, |a.bufferViews|)
  }

  /** After the bufferView loop the cache holds bufferView `i` exactly when
      it declares a target and no accessor reading it is sparse, and then
      holds that bufferView's own buffer. */
  lemma UploadedViewsKeys(a: Asset, i: int)
    ensures i in UploadedViews(a) <==>
      && 0 <= i < |a.bufferViews| && a.bufferViews[i].target != 0
      && forall j :: 0 <= j < |a.accessors| && a.accessors[j].bufferView == i ==> !a.accessors[j].isSparse
    ensures i in UploadedViews(a) ==> UploadedViews(a)[i] == GlBuffer(i)
  {
  }

  /** Events for bufferView `i`: a skip message, two sparse messages (one
      inside the accessor scan, one after it), or the buffer creation. */
  function ViewEvents(a: Asset, i: nat): seq<Event>
    requires i < |a.bufferViews|
  {
    var view := a.bufferViews[i];
    if view.target == 0 then [Log(TargetZero)]
    else if HasSparse(a, i) then [Log(SparseAccessor), Log(SparseAccessor)]
    else [CreateBuffer(i, view.byteOffset, view.byteLength, view.target)]
  }

  function ViewsLog(a: Asset, n: nat): seq<Event>
    requires n <= |a.bufferViews|
  {
    if n == 0 then [] else ViewsLog(a, n - 1) + ViewEvents(a, n - 1)
  }

  /** Texture `t` names an existing image. */
  predicate SourceRef(a: Asset, t: nat)
    requires t < |a.textures|
  {
    0 <= a.textures[t].source < |a.images|
  }

  /** Whether the texture's image can be decoded, given the (left out) path
      resolution and JPEG loader as `loads`. A source outside `images` is
      never read: `SourcesFrom` excludes it wherever the loop reads it. */
  predicate TextureLoads(a: Asset, loads: string -> bool, t: nat)
    requires t < |a.textures|
  {
    SourceRef(a, t) && loads(a.images[a.textures[t].source].uri)
  }

  /** The `images` reads of the texture loop from texture `t` on: the image
      of texture `t`, and of each later one only while the earlier load. */
  predicate SourcesFrom(a: Asset, loads: string -> bool, t: nat)
    decreases |a.textures| - t
  {
    t < |a.textures| ==> SourceRef(a, t) && (TextureLoads(a, loads, t) ==> SourcesFrom(a, loads, t + 1))
  }

  /** The `images` reads of setup: none with a wrong buffer count, which
      returns before the texture loop. */
  predicate SetupRefs(a: Asset, loads: string -> bool) {
    |a.buffers| == 1 ==> SourcesFrom(a, loads, 0)
  }

  /** The number of leading textures that load: the loop stops at the first
      failure. */
  function LoadedPrefix(a: Asset, loads: string -> bool): (k: nat)
    ensures k <= |a.textures|
    ensures forall t :: 0 <= t < k ==> TextureLoads(a, loads, t)
    ensures k < |a.textures| ==> !TextureLoads(a, loads, k)
  {
    LoadedFrom(a, loads, 0)
  }

  function LoadedFrom(a: Asset, loads: string -> bool, i: nat): (k: nat)
    requires i <= |a.textures|
    requires forall t :: 0 <= t < i ==> TextureLoads(a, loads, t)
    ensures i <= k <= |a.textures|
    ensures forall t :: 0 <= t < k ==> TextureLoads(a, loads, t)
    ensures k < |a.textures| ==> !TextureLoads(a, loads, k)
    decreases |a.textures| - i
  {
    if i == |a.textures| || !TextureLoads(a, loads, i) then i
    else LoadedFrom(a, loads, i + 1)
  }

  /** The texture loop stops at `t` exactly when every texture before it
      loads and `t` is the end or does not load. */
  lemma LoadedPrefixStopsAt(a: Asset, loads: string -> bool, t: nat)
    requires t <= |a.textures|
    requires forall u :: 0 <= u < t ==> TextureLoads(a, loads, u)
    requires t < |a.textures| ==> !TextureLoads(a, loads, t)
    ensures LoadedPrefix(a, loads) == t
  {
  }

  /** `SourcesFrom` asks exactly for the images the loop reaches: those of
      the loaded textures and of the one the loop stops at. */
  lemma {:induction false} SourcesFromExact(a: Asset, loads: string -> bool, i: nat)
    requires i <= |a.textures|
    requires forall t :: 0 <= t < i ==> TextureLoads(a, loads, t)
    ensures SourcesFrom(a, loads, i) <==>
      forall t :: i <= t <= LoadedFrom(a, loads, i) && t < |a.textures| ==> SourceRef(a, t)
    decreases |a.textures| - i
  {
    if i < |a.textures| && TextureLoads(a, loads, i) {
      SourcesFromExact(a, loads, i + 1);
      assert LoadedFrom(a, loads, i) == LoadedFrom(a, loads, i + 1);
    }
  }

  lemma SourcesFromReads(a: Asset, loads: string -> bool)
    ensures SourcesFrom(a, loads, 0) <==>
      forall t :: 0 <= t <= LoadedPrefix(a, loads) && t < |a.textures| ==> SourceRef(a, t)
  {
    SourcesFromExact(a, loads, 0);
  }

  function TexturesLog(a: Asset, k: nat): seq<Event>
    requires k <= |a.textures|
  {
    if k == 0 then [] else TexturesLog(a, k - 1) + [LoadTexture(k - 1, a.textures[k - 1].source)]
  }

  /** `std::unordered_map::emplace` of each texture, by index, under its
      image source: a source already present keeps its entry. */
  function Emplaced(m: map<int, nat>, ts: seq<Texture>): map<int, nat>
    decreases |ts|
  {
    if ts == [] then m
    else
      var prev := Emplaced(m, ts[..|ts| - 1]);
      var s := ts[|ts| - 1].source;
      if s in prev then prev else prev[s := |ts| - 1]
  }

  /** Emplacing keeps every old entry and caches each new source under the
      FIRST texture that names it. */
  lemma {:induction false} EmplacedFirstWins(m: map<int, nat>, ts: seq<Texture>, s: int)
    ensures s in Emplaced(m, ts) <==> s in m || exists t :: 0 <= t < |ts| && ts[t].source == s
    ensures s in m ==> Emplaced(m, ts)[s] == m[s]
    ensures s !in m && s in Emplaced(m, ts) ==>
      var t := Emplaced(m, ts)[s];
      && t < |ts| && ts[t].source == s
      && forall u :: 0 <= u < t ==> ts[u].source != s
    decreases |ts|
  {
    if ts != [] {
      var init := ts[..|ts| - 1];
      EmplacedFirstWins(m, init, s);
      forall t | 0 <= t < |init| ensures init[t] == ts[t] { }
      if s !in m && (exists t :: 0 <= t < |ts| && ts[t].source == s) {
        var t :| 0 <= t < |ts| && ts[t].source == s;
        if t < |init| {
          assert init[t].source == s;
        }
      }
    }
  }

  /** After a complete texture loop every texture's source is cached. */
  lemma EmplacedCoversAll(m: map<int, nat>, ts: seq<Texture>)
    ensures forall t :: 0 <= t < |ts| ==> ts[t].source in Emplaced(m, ts)
  {
    forall t | 0 <= t < |ts| ensures ts[t].source in Emplaced(m, ts) {
      EmplacedFirstWins(m, ts, ts[t].source);
    }
  }

  /** Pool, then the texture and color programs; shaders and the sampler
      leave no event. */
  function Prologue(a: Asset): seq<Event>
    requires |a.buffers| == 1
  {
    [CreatePool(a.buffers[0].byteLength), CreateProgram(TextureProgram), CreateProgram(ColorProgram)]
  }

  /** Everything setup emits. */
  function SetupLog(a: Asset, loads: string -> bool): (r: seq<Event>)
    // a wrong buffer count only prints: nothing is created
    ensures |a.buffers| != 1 ==> |r| == 1 && r[0].Log?
  {
    if |a.buffers| == 0 then [Log(NoBuffer)]
    else if |a.buffers| > 1 then [Log(MultipleBuffers)]
    else
      var k := LoadedPrefix(a, loads);
      Prologue(a) + ViewsLog(a, |a.bufferViews|) + TexturesLog(a, k)
        + (if k < |a.textures| then [Log(TextureLoadFailed)] else [])
  }

  predicate SetupSucceeds(a: Asset, loads: string -> bool)
  {
    |a.buffers| == 1 && LoadedPrefix(a, loads) == |a.textures|
  }

  /** The GPU buffers created in setup are those of the uploadable
      bufferViews, each at its own offset and length. */
  lemma {:induction false} ViewsLogCreates(a: Asset, n: nat, e: Event)
    requires n <= |a.bufferViews|
    ensures (e in ViewsLog(a, n) && e.CreateBuffer?) <==>
      && e.CreateBuffer?
      && 0 <= e.view < n && Uploadable(a, e.view)
      && e == CreateBuffer(e.view, a.bufferViews[e.view].byteOffset,
                           a.bufferViews[e.view].byteLength, a.bufferViews[e.view].target)
  {
    if n > 0 {
      ViewsLogCreates(a, n - 1, e);
      assert e in ViewsLog(a, n) <==> e in ViewsLog(a, n - 1) || e in ViewEvents(a, n - 1);
    }
  }

  /** Setup neither sets `local_model`, draws nor commits. */
  lemma {:induction false} ViewsLogQuiet(a: Asset, n: nat)
    requires n <= |a.bufferViews|
    ensures Trace(ViewsLog(a, n)) == []
  {
    if n > 0 {
      ViewsLogQuiet(a, n - 1);
      QuietAppend(ViewsLog(a, n - 1), ViewEvents(a, n - 1));
    }
  }

  lemma {:induction false} TexturesLogQuiet(a: Asset, k: nat)
    requires k <= |a.textures|
    ensures Trace(TexturesLog(a, k)) == []
  {
    if k > 0 {
      TexturesLogQuiet(a, k - 1);
      QuietAppend(TexturesLog(a, k - 1), [LoadTexture(k - 1, a.textures[k - 1].source)]);
    }
  }

  lemma SetupQuiet(a: Asset, loads: string -> bool)
    ensures Trace(SetupLog(a, loads)) == []
  {
    if |a.buffers| == 1 {
      var k := LoadedPrefix(a, loads);
      var tail: seq<Event> := if k < |a.textures| then [Log(TextureLoadFailed)] else [];
      QuietTrace(Prologue(a));
      ViewsLogQuiet(a, |a.bufferViews|);
      TexturesLogQuiet(a, k);
      QuietTrace(tail);
      TraceAppend(Prologue(a), ViewsLog(a, |a.bufferViews|));
      TraceAppend(Prologue(a) + ViewsLog(a, |a.bufferViews|), TexturesLog(a, k));
      TraceAppend(Prologue(a) + ViewsLog(a, |a.bufferViews|) + TexturesLog(a, k), tail);
    } else {
      QuietTrace(SetupLog(a, loads));
    }
  }
}
