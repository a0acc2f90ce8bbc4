/** `updateDiagrams`: brings the canvas in line with a list of rendered diagrams. Each
    diagram, in list order, gets a frame stacked below the previous one, an image asset
    holding its SVG and an image shape inside the frame; frames that already exist are
    updated in place. When every diagram has been placed, the managed frames and images
    that no diagram of the list produced are deleted. */
module Reconciler {
  import opened Wrappers
  import opened JsText
  import opened Decimal
  import opened Diagrams
  import opened DiagramIds
  import opened Canvas

  const FramePadding := 20
  const FrameGap := 40
  /** The initial `yOffset` and the `x` of a new frame. */
  const FirstY := 100
  const FrameX := 100
  const SvgMime := "image/svg+xml"

  /** `getImageDimensions`: the width and height of a data URL's image, or `None` when
      loading it fails. */
  type Dims = string -> Option<(nat, nat)>

  /** A diagram with the frame position and image size the loop gave it. */
  datatype Placement = Placement(diagram: Diagram, y: int, w: nat, h: nat)

  /** `yOffset` after the placements so far. */
  function NextY(ps: seq<Placement>): int
  {
    if ps == [] then FirstY
    else
      var p := ps[|ps| - 1];
      p.y + (p.h + FramePadding * 2) + FrameGap
  }

  /** The diagrams the loop gets through, in order, with their positions and sizes: all
      of them, or those before the first one whose dimensions cannot be read. */
  function Place(ds: seq<Diagram>, dims: Dims): (ps: seq<Placement>)
    ensures |ps| <= |ds|
    decreases |ds|
  {
    if ds == [] then []
    else
      var before := Place(ds[..|ds| - 1], dims);
      if |before| < |ds| - 1 then before
      else
        match dims(ds[|ds| - 1].dataUrl)
        case None => before
        case Some(size) => before + [Placement(ds[|ds| - 1], NextY(before), size.0, size.1)]
  }

  /** Reference layout: the top of the `k`-th frame is 100 plus, for every frame above
      it, its height (image height and twice the padding) and the gap. */
  function Stacked(ps: seq<Placement>, k: nat): int
    requires k <= |ps|
  {
    if k == 0 then FirstY else Stacked(ps, k - 1) + ps[k - 1].h + 2 * FramePadding + FrameGap
  }

  // ---- the records written for one diagram ----

  function AssetFor(p: Placement): Asset
  {
    Asset("diagram-" + NatToString(p.diagram.index), p.diagram.dataUrl, p.w, p.h, SvgMime, false)
  }

  function NewFrame(p: Placement): Shape
  {
    Shape(Frame, FrameX, p.y, None, p.w + FramePadding * 2, p.h + FramePadding * 2, p.diagram.title, None)
  }

  function NewImage(p: Placement): Shape
  {
    var i := p.diagram.index;
    Shape(Image, FramePadding, FramePadding, Some(FrameId(i)), p.w, p.h, "", Some(AssetId(i)))
  }

  function FramePatch(p: Placement): ShapePatch
  {
    ShapePatch(FrameId(p.diagram.index), Frame, Some(p.y), p.w + FramePadding * 2, p.h + FramePadding * 2, Some(p.diagram.title))
  }

  function ImagePatch(p: Placement): ShapePatch
  {
    ShapePatch(ImageId(p.diagram.index), Image, None, p.w, p.h, None)
  }

  /** One iteration of the loop: update the diagram's records when its frame exists,
      create frame, asset and image otherwise. */
  function Step(st: Store, p: Placement): Store
  {
    var ids := GetDiagramIds(p.diagram.index);
    var assets := st.assets[ids.assetId := AssetFor(p)];
    if ids.frameId in st.shapes then
      Store(ApplyPatches(st.shapes, [FramePatch(p), ImagePatch(p)]), assets)
    else
      Store(st.shapes[ids.frameId := NewFrame(p)][ids.shapeId := NewImage(p)], assets)
  }

  /** The store after the loop has handled the placements in order. */
  function Loop(st: Store, ps: seq<Placement>): Store
    decreases |ps|
  {
    if ps == [] then st else Step(Loop(st, ps[..|ps| - 1]), ps[|ps| - 1])
  }

  // ---- deletion ----

  function ActiveFrames(ds: seq<Diagram>): set<string>
  {
    set d | d in ds :: FrameId(d.index)
  }

  function ActiveImages(ds: seq<Diagram>): set<string>
  {
    set d | d in ds :: ImageId(d.index)
  }

  function ActiveAssets(ds: seq<Diagram>): set<string>
  {
    set d | d in ds :: AssetId(d.index)
  }

  /** A shape the reconciler owns: a frame with the diagram-frame id prefix or an image
      with the diagram-shape id prefix. */
  predicate Managed(id: string, s: Shape)
  {
    || (s.kind == Frame && StartsAt(id, 0, FramePrefix))
    || (s.kind == Image && StartsAt(id, 0, ImagePrefix))
  }

  /** The test of the deletion loop, given the ids collected during the update. */
  predicate Stale(id: string, s: Shape, frames: set<string>, images: set<string>)
  {
    || (s.kind == Frame && StartsAt(id, 0, FramePrefix) && id !in frames)
    || (s.kind == Image && StartsAt(id, 0, ImagePrefix) && id !in images)
  }

  function StaleIds(shapes: map<string, Shape>, ds: seq<Diagram>): set<string>
  {
    set id | id in shapes && Stale(id, shapes[id], ActiveFrames(ds), ActiveImages(ds))
  }

  function Sweep(st: Store, ds: seq<Diagram>): Store
  {
    Store(Without(st.shapes, StaleIds(st.shapes, ds)), st.assets)
  }

  /** The canvas after `updateDiagrams`, whether the call ran to its end, and whether
      its own `zoomToFit` fired. */
  datatype Outcome = Outcome(store: Store, completed: bool, zoomed: bool)

  function Reconcile(st: Store, ds: seq<Diagram>, dims: Dims): Outcome
  {
    var ps := Place(ds, dims);
    var looped := Loop(st, ps);
    if |ps| < |ds| then Outcome(looped, false, false)
    else
      var swept := Sweep(looped, ds);
      Outcome(swept, true, |ds| > 0 && FrameId(0) !in swept.shapes)
  }

  // ---- layout ----

  /** The placements are the diagrams in list order, each with the size its data URL
      loads at, stacked by the reference layout. */
  lemma {:induction false} PlaceLayout(ds: seq<Diagram>, dims: Dims, k: nat)
    requires k < |Place(ds, dims)|
    ensures var p := Place(ds, dims)[k];
            && p.diagram == ds[k]
            && dims(ds[k].dataUrl) == Some((p.w, p.h))
            && p.y == Stacked(Place(ds, dims), k)
    decreases |ds|
  {
    var n := |ds| - 1;
    var before := Place(ds[..n], dims);
    var ps := Place(ds, dims);
    if k < |before| {
      PlaceLayout(ds[..n], dims, k);
      StackedPrefix(before, ps, k);
    } else {
      assert |before| == n && ps == before + [ps[k]];
      if k > 0 {
        PlaceLayout(ds[..n], dims, k - 1);
        StackedPrefix(before, ps, k - 1);
      }
    }
  }

  lemma {:induction false} StackedPrefix(ps: seq<Placement>, qs: seq<Placement>, k: nat)
    requires k <= |ps| <= |qs| && ps == qs[..|ps|]
    ensures Stacked(ps, k) == Stacked(qs, k)
    decreases k
  {
    if k > 0 {
      StackedPrefix(ps, qs, k - 1);
    }
  }

  /** The loop gets through every diagram exactly when every data URL loads; otherwise
      it stops at the first one that does not. */
  lemma {:induction false} PlaceStops(ds: seq<Diagram>, dims: Dims)
    ensures var n := |Place(ds, dims)|;
            && (n < |ds| ==> dims(ds[n].dataUrl).None?)
            && (forall k :: 0 <= k < n ==> dims(ds[k].dataUrl).Some?)
    decreases |ds|
  {
    if ds != [] {
      var n := |ds| - 1;
      PlaceStops(ds[..n], dims);
      var ps := Place(ds, dims);
      forall k | 0 <= k < |ps|
        ensures dims(ds[k].dataUrl).Some?
      {
        PlaceLayout(ds, dims, k);
      }
    }
  }

  /** Cutting the list just before a diagram whose size cannot be read does not change
      what the loop does. */
  lemma {:induction false} PlaceFails(ds: seq<Diagram>, dims: Dims, i: nat)
    requires i < |ds| && |Place(ds[..i], dims)| == i && dims(ds[i].dataUrl).None?
    ensures Place(ds, dims) == Place(ds[..i], dims)
    decreases |ds|
  {
    if i < |ds| - 1 {
      var n := |ds| - 1;
      assert ds[..n][..i] == ds[..i];
      PlaceFails(ds[..n], dims, i);
    } else {
      assert ds[..|ds| - 1] == ds[..i];
    }
  }

  // ---- what one diagram's step does to its records ----

  /** The three records a diagram owns: its frame, its image shape and its asset. */
  datatype Slice = Slice(frame: Option<Shape>, image: Option<Shape>, asset: Option<Asset>)

  function SliceOf(st: Store, i: nat): Slice
  {
    Slice(Get(st.shapes, FrameId(i)), Get(st.shapes, ImageId(i)), Get(st.assets, AssetId(i)))
  }

  function PatchedFrame(f: Shape, p: Placement): Shape
  {
    f.(kind := Frame, y := p.y, w := p.w + FramePadding * 2, h := p.h + FramePadding * 2, name := p.diagram.title)
  }

  function PatchedImage(s: Shape, p: Placement): Shape
  {
    s.(kind := Image, w := p.w, h := p.h)
  }

  /** A step seen on the records of its own diagram. */
  function StepSlice(sl: Slice, p: Placement): Slice
  {
    if sl.frame.Some? then
      Slice(Some(PatchedFrame(sl.frame.value, p)),
            if sl.image.Some? then Some(PatchedImage(sl.image.value, p)) else None,
            Some(AssetFor(p)))
    else
      Slice(Some(NewFrame(p)), Some(NewImage(p)), Some(AssetFor(p)))
  }

  lemma StepSliceAt(st: Store, p: Placement)
    ensures SliceOf(Step(st, p), p.diagram.index) == StepSlice(SliceOf(st, p.diagram.index), p)
  {
    var i := p.diagram.index;
    PrefixesSeparate(i, i);
    if FrameId(i) in st.shapes {
      ApplyTwo(st.shapes, FramePatch(p), ImagePatch(p));
    }
  }

  /** A step leaves every record of other ids as it was. */
  lemma StepElsewhere(st: Store, p: Placement, id: string)
    ensures id != FrameId(p.diagram.index) && id != ImageId(p.diagram.index) ==>
              Get(Step(st, p).shapes, id) == Get(st.shapes, id)
    ensures id != AssetId(p.diagram.index) ==> Get(Step(st, p).assets, id) == Get(st.assets, id)
  {
    var i := p.diagram.index;
    if FrameId(i) in st.shapes {
      ApplyTwo(st.shapes, FramePatch(p), ImagePatch(p));
    }
  }

  /** The records of diagram `j` do not change in a step for another index. */
  lemma StepOtherSlice(st: Store, p: Placement, j: nat)
    requires j != p.diagram.index
    ensures SliceOf(Step(st, p), j) == SliceOf(st, j)
  {
    var i := p.diagram.index;
    IdsInjective(i, j);
    PrefixesSeparate(i, j);
    PrefixesSeparate(j, i);
    StepElsewhere(st, p, FrameId(j));
    StepElsewhere(st, p, ImageId(j));
    StepElsewhere(st, p, AssetId(j));
  }

  /** A later step for the same index overrides an earlier one: every field the first
      step set is set again, and what it created the second step only updates into the
      same records it would have created. */
  lemma StepAbsorbs(sl: Slice, p: Placement, q: Placement)
    requires p.diagram.index == q.diagram.index
    ensures StepSlice(StepSlice(sl, p), q) == StepSlice(sl, q)
  {
  }

  /** The last placement for index `i`, if any. */
  function LastFor(ps: seq<Placement>, i: nat): (r: Option<Placement>)
    ensures r.Some? ==> r.value in ps && r.value.diagram.index == i
    ensures r.None? ==> forall k :: 0 <= k < |ps| ==> ps[k].diagram.index != i
    decreases |ps|
  {
    if ps == [] then None
    else if ps[|ps| - 1].diagram.index == i then Some(ps[|ps| - 1])
    else LastFor(ps[..|ps| - 1], i)
  }

  /** A diagram's records after the steps for its index, the last of them being `last`. */
  function AfterSteps(sl: Slice, last: Option<Placement>): Slice
  {
    match last
    case None => sl
    case Some(p) => StepSlice(sl, p)
  }

  lemma StepKeepsAfterSteps(st: Store, p: Placement, i: nat, sl: Slice, last: Option<Placement>)
    requires last.Some? ==> last.value.diagram.index == i
    requires SliceOf(st, i) == AfterSteps(sl, last)
    ensures SliceOf(Step(st, p), i) == AfterSteps(sl, if p.diagram.index == i then Some(p) else last)
  {
    if p.diagram.index == i {
      StepSliceAt(st, p);
      if last.Some? {
        StepAbsorbs(sl, last.value, p);
      }
    } else {
      StepOtherSlice(st, p, i);
    }
  }

  /** After the loop, a diagram's records are those the last placement for its index
      left them in, from where they stood before the loop. */
  lemma {:induction false} LoopSlice(st: Store, ps: seq<Placement>, i: nat)
    ensures SliceOf(Loop(st, ps), i) == AfterSteps(SliceOf(st, i), LastFor(ps, i))
    decreases |ps|
  {
    if ps != [] {
      var n := |ps| - 1;
      LoopSlice(st, ps[..n], i);
      StepKeepsAfterSteps(Loop(st, ps[..n]), ps[n], i, SliceOf(st, i), LastFor(ps[..n], i));
    }
  }

  /** No placement's frame or image has this id. */
  predicate Untouched(ps: seq<Placement>, id: string)
  {
    forall k :: 0 <= k < |ps| ==> id != FrameId(ps[k].diagram.index) && id != ImageId(ps[k].diagram.index)
  }

  /** The loop leaves the shapes with other ids as they were. */
  lemma {:induction false} LoopElsewhere(st: Store, ps: seq<Placement>, id: string)
    requires Untouched(ps, id)
    ensures Get(Loop(st, ps).shapes, id) == Get(st.shapes, id)
    decreases |ps|
  {
    if ps != [] {
      var n := |ps| - 1;
      assert Untouched(ps[..n], id) by {
        forall k | 0 <= k < n
          ensures id != FrameId(ps[..n][k].diagram.index) && id != ImageId(ps[..n][k].diagram.index)
        {
          assert ps[..n][k] == ps[k];
        }
      }
      LoopElsewhere(st, ps[..n], id);
      StepElsewhere(Loop(st, ps[..n]), ps[n], id);
    }
  }

  /** No placement's asset has this id. */
  predicate AssetUntouched(ps: seq<Placement>, id: string)
  {
    forall k :: 0 <= k < |ps| ==> id != AssetId(ps[k].diagram.index)
  }

  /** The loop leaves the assets with other ids as they were. */
  lemma {:induction false} LoopAssets(st: Store, ps: seq<Placement>, id: string)
    ensures AssetUntouched(ps, id) ==> Get(Loop(st, ps).assets, id) == Get(st.assets, id)
    decreases |ps|
  {
    if ps != [] && AssetUntouched(ps, id) {
      var n := |ps| - 1;
      assert AssetUntouched(ps[..n], id) by {
        forall k | 0 <= k < n
          ensures id != AssetId(ps[..n][k].diagram.index)
        {
          assert ps[..n][k] == ps[k];
        }
      }
      LoopAssets(st, ps[..n], id);
      assert Loop(st, ps) == Step(Loop(st, ps[..n]), ps[n]);
      StepElsewhere(Loop(st, ps[..n]), ps[n], id);
    }
  }

  /** The loop deletes no asset. */
  lemma {:induction false} LoopKeepsAssets(st: Store, ps: seq<Placement>, id: string)
    ensures id in st.assets ==> id in Loop(st, ps).assets
    decreases |ps|
  {
    if ps != [] {
      var n := |ps| - 1;
      LoopKeepsAssets(st, ps[..n], id);
      assert Loop(st, ps) == Step(Loop(st, ps[..n]), ps[n]);
    }
  }

  // ---- deletion keeps what the update produced ----

  lemma SweepEntry(st: Store, ds: seq<Diagram>, id: string)
    ensures Get(Sweep(st, ds).shapes, id) ==
              if id in st.shapes && Stale(id, st.shapes[id], ActiveFrames(ds), ActiveImages(ds)) then None
              else Get(st.shapes, id)
    ensures Sweep(st, ds).assets == st.assets
  {
  }

  /** The records of a diagram of the list survive the deletion. */
  lemma SweepKeeps(st: Store, ds: seq<Diagram>, d: Diagram)
    requires d in ds
    ensures SliceOf(Sweep(st, ds), d.index) == SliceOf(st, d.index)
  {
    assert FrameId(d.index) in ActiveFrames(ds);
    assert ImageId(d.index) in ActiveImages(ds);
    SweepEntry(st, ds, FrameId(d.index));
    SweepEntry(st, ds, ImageId(d.index));
  }

  lemma SweepIdempotent(st: Store, ds: seq<Diagram>)
    ensures Sweep(Sweep(st, ds), ds) == Sweep(st, ds)
  {
    var once := Sweep(st, ds);
    forall id ensures Get(Sweep(once, ds).shapes, id) == Get(once.shapes, id) {
      SweepEntry(st, ds, id);
      SweepEntry(once, ds, id);
    }
    SameEntries(Sweep(once, ds).shapes, once.shapes);
  }

  // ---- idempotence ----

  /** A store whose records for every placed diagram already are what the loop makes of
      them is left as it is by the loop. */
  lemma LoopFixed(t: Store, st: Store, ps: seq<Placement>)
    requires forall k :: 0 <= k < |ps| ==> SliceOf(t, ps[k].diagram.index) == SliceOf(Loop(st, ps), ps[k].diagram.index)
    ensures Loop(t, ps) == t
  {
    var after := Loop(t, ps);
    forall id ensures Get(after.shapes, id) == Get(t.shapes, id) {
      if Untouched(ps, id) {
        LoopElsewhere(t, ps, id);
      } else {
        var k :| 0 <= k < |ps| && (id == FrameId(ps[k].diagram.index) || id == ImageId(ps[k].diagram.index));
        SliceFixed(t, st, ps, k);
      }
    }
    forall id ensures Get(after.assets, id) == Get(t.assets, id) {
      if AssetUntouched(ps, id) {
        LoopAssets(t, ps, id);
      } else {
        var k :| 0 <= k < |ps| && id == AssetId(ps[k].diagram.index);
        SliceFixed(t, st, ps, k);
      }
    }
    SameEntries(after.shapes, t.shapes);
    SameEntries(after.assets, t.assets);
  }

  lemma SliceFixed(t: Store, st: Store, ps: seq<Placement>, k: nat)
    requires k < |ps|
    requires SliceOf(t, ps[k].diagram.index) == SliceOf(Loop(st, ps), ps[k].diagram.index)
    ensures SliceOf(Loop(t, ps), ps[k].diagram.index) == SliceOf(t, ps[k].diagram.index)
  {
    var i := ps[k].diagram.index;
    LoopSlice(t, ps, i);
    LoopSlice(st, ps, i);
    var last := LastFor(ps, i);
    assert last.Some?;
    StepAbsorbs(SliceOf(st, i), last.value, last.value);
  }

  /** Reconciling the canvas again with the same list and the same image sizes changes
      nothing: every diagram takes the update branch and writes the values it already
      holds, and nothing is left to delete. */
  lemma ReconcileIdempotent(st: Store, ds: seq<Diagram>, dims: Dims)
    ensures Reconcile(Reconcile(st, ds, dims).store, ds, dims) == Reconcile(st, ds, dims)
  {
    var ps := Place(ds, dims);
    var looped := Loop(st, ps);
    if |ps| < |ds| {
      LoopFixed(looped, st, ps);
    } else {
      var swept := Sweep(looped, ds);
      forall k | 0 <= k < |ps|
        ensures SliceOf(swept, ps[k].diagram.index) == SliceOf(looped, ps[k].diagram.index)
      {
        PlaceLayout(ds, dims, k);
        SweepKeeps(looped, ds, ds[k]);
      }
      LoopFixed(swept, st, ps);
      SweepIdempotent(looped, ds);
    }
  }

  // ---- the canvas after one call ----

  predicate DistinctIndices(ds: seq<Diagram>)
  {
    forall a, b :: 0 <= a < b < |ds| ==> ds[a].index != ds[b].index
  }

  lemma {:induction false} LastForDistinct(ps: seq<Placement>, k: nat)
    requires k < |ps|
    requires forall a, b :: 0 <= a < b < |ps| ==> ps[a].diagram.index != ps[b].diagram.index
    ensures LastFor(ps, ps[k].diagram.index) == Some(ps[k])
    decreases |ps|
  {
    var n := |ps| - 1;
    if k < n {
      assert ps[..n][k] == ps[k];
      LastForDistinct(ps[..n], k);
    }
  }

  /** The records of the `k`-th diagram once the call is over, when no two diagrams of
      the list share an index: its frame sits at the stacked position with the image's
      size plus padding and the diagram's label; an existing frame keeps its `x` and
      parent and its image keeps everything but type and size; a new frame is at
      `x = 100` with a new image at (20, 20) inside it; the asset holds the diagram's
      data URL and size. */
  lemma ReconcileDiagram(st: Store, ds: seq<Diagram>, dims: Dims, k: nat)
    requires DistinctIndices(ds) && k < |Place(ds, dims)|
    ensures var p := Place(ds, dims)[k];
            var i := ds[k].index;
            var before := SliceOf(st, i);
            var after := SliceOf(Reconcile(st, ds, dims).store, i);
            && p.diagram == ds[k]
            && dims(ds[k].dataUrl) == Some((p.w, p.h))
            && p.y == Stacked(Place(ds, dims), k)
            && after.frame.Some?
            && after.frame.value.kind == Frame
            && after.frame.value.y == p.y
            && after.frame.value.w == p.w + 2 * FramePadding
            && after.frame.value.h == p.h + 2 * FramePadding
            && after.frame.value.name == ds[k].title
            && after.asset == Some(Asset("diagram-" + NatToString(i), ds[k].dataUrl, p.w, p.h, SvgMime, false))
            && (before.frame.Some? ==>
                  && after.frame.value.x == before.frame.value.x
                  && after.frame.value.parent == before.frame.value.parent
                  && after.image == if before.image.Some? then Some(before.image.value.(kind := Image, w := p.w, h := p.h)) else None)
            && (before.frame.None? ==>
                  && after.frame.value.x == FrameX
                  && after.frame.value.parent == None
                  && after.image == Some(Shape(Image, FramePadding, FramePadding, Some(FrameId(i)), p.w, p.h, "", Some(AssetId(i)))))
  {
    var ps := Place(ds, dims);
    var looped := Loop(st, ps);
    forall a, b | 0 <= a < b < |ps|
      ensures ps[a].diagram.index != ps[b].diagram.index
    {
      PlaceLayout(ds, dims, a);
      PlaceLayout(ds, dims, b);
    }
    PlaceLayout(ds, dims, k);
    LastForDistinct(ps, k);
    LoopSlice(st, ps, ds[k].index);
    if |ps| == |ds| {
      SweepKeeps(looped, ds, ds[k]);
    }
  }

  /** Shapes of ids that no placed diagram produced: once the call completes, exactly
      the managed ones are deleted; every other shape, and every shape when the call
      stops early, is left as it was. */
  lemma ReconcileOthers(st: Store, ds: seq<Diagram>, dims: Dims, id: string)
    requires Untouched(Place(ds, dims), id)
    ensures var o := Reconcile(st, ds, dims);
            Get(o.store.shapes, id) ==
              if o.completed && id in st.shapes && Managed(id, st.shapes[id]) then None else Get(st.shapes, id)
  {
    var ps := Place(ds, dims);
    var looped := Loop(st, ps);
    LoopElsewhere(st, ps, id);
    if |ps| == |ds| {
      SweepEntry(looped, ds, id);
      assert id !in ActiveFrames(ds) && id !in ActiveImages(ds) by {
        forall k | 0 <= k < |ds|
          ensures id != FrameId(ds[k].index) && id != ImageId(ds[k].index)
        {
          PlaceLayout(ds, dims, k);
        }
      }
    }
  }

  /** Assets are never deleted; those of ids no placed diagram produced are unchanged. */
  lemma ReconcileAssets(st: Store, ds: seq<Diagram>, dims: Dims, id: string)
    ensures id in st.assets ==> id in Reconcile(st, ds, dims).store.assets
    ensures AssetUntouched(Place(ds, dims), id) ==>
              Get(Reconcile(st, ds, dims).store.assets, id) == Get(st.assets, id)
  {
    LoopKeepsAssets(st, Place(ds, dims), id);
    LoopAssets(st, Place(ds, dims), id);
  }

  /** The call completes exactly when every diagram's image loads; otherwise it stops
      at the first that does not, and neither deletes nor zooms. */
  lemma ReconcileStops(st: Store, ds: seq<Diagram>, dims: Dims)
    ensures var o := Reconcile(st, ds, dims);
            && (o.completed <==> forall k :: 0 <= k < |ds| ==> dims(ds[k].dataUrl).Some?)
            && (!o.completed ==> dims(ds[|Place(ds, dims)|].dataUrl).None? && !o.zoomed)
  {
    PlaceStops(ds, dims);
  }

  /** The call's own `zoomToFit` tests for frame 0 after the loop, which has just
      created or updated it when diagram 0 is in the list: it can only fire for a list
      without diagram 0, and then exactly when no frame 0 is left on the canvas. */
  lemma ReconcileZoom(st: Store, ds: seq<Diagram>, dims: Dims)
    ensures var o := Reconcile(st, ds, dims);
            && (o.zoomed ==> o.completed && |ds| > 0)
            && ((exists k :: 0 <= k < |ds| && ds[k].index == 0) ==> !o.zoomed)
            && (o.completed && |ds| > 0 && (forall k :: 0 <= k < |ds| ==> ds[k].index != 0) ==>
                  (o.zoomed <==> FrameId(0) !in st.shapes || Managed(FrameId(0), st.shapes[FrameId(0)])))
  {
    var ps := Place(ds, dims);
    var looped := Loop(st, ps);
    var o := Reconcile(st, ds, dims);
    if o.completed {
      if k :| 0 <= k < |ds| && ds[k].index == 0 {
        PlaceLayout(ds, dims, k);
        LoopSlice(st, ps, 0);
        assert LastFor(ps, 0).Some?;
        SweepKeeps(looped, ds, ds[k]);
      } else if |ds| > 0 {
        forall j | 0 <= j < |ps|
          ensures FrameId(0) != FrameId(ps[j].diagram.index) && FrameId(0) != ImageId(ps[j].diagram.index)
        {
          PlaceLayout(ds, dims, j);
          IdsInjective(0, ps[j].diagram.index);
          PrefixesSeparate(0, ps[j].diagram.index);
        }
        ReconcileOthers(st, ds, dims, FrameId(0));
      }
    }
  }

  // ---- updateDiagrams ----

  /** The body of the loop once the image size is known: update the diagram's records
      when its frame exists, create them otherwise. */
  method WriteDiagram(editor: Editor, diagram: Diagram, yOffset: int, width: nat, height: nat)
    modifies editor
    ensures editor.State() == Step(old(editor.State()), Placement(diagram, yOffset, width, height))
  {
    var ids := GetDiagramIds(diagram.index);
    var frameWidth := width + FramePadding * 2;
    var frameHeight := height + FramePadding * 2;
    var asset := Asset("diagram-" + NatToString(diagram.index), diagram.dataUrl, width, height, SvgMime, false);
    var existingFrame := editor.GetShape(ids.frameId);
    if existingFrame.Some? {
      editor.PutAsset(ids.assetId, asset);
      editor.UpdateShapes([
        ShapePatch(ids.frameId, Frame, Some(yOffset), frameWidth, frameHeight, Some(diagram.title)),
        ShapePatch(ids.shapeId, Image, None, width, height, None)]);
    } else {
      editor.CreateShape(ids.frameId, Shape(Frame, FrameX, yOffset, None, frameWidth, frameHeight, diagram.title, None));
      editor.PutAsset(ids.assetId, asset);
      editor.CreateShape(ids.shapeId, Shape(Image, FramePadding, FramePadding, Some(ids.frameId), width, height, "", Some(ids.assetId)));
    }
  }

  /** The deletion phase: collect the managed frames and images whose ids are not among
      those produced by the update, and delete them. */
  method RemoveStale(editor: Editor, activeFrameIds: set<string>, activeShapeIds: set<string>)
    modifies editor
    ensures editor.shapes == Without(old(editor.shapes),
              set id | id in old(editor.shapes) && Stale(id, old(editor.shapes)[id], activeFrameIds, activeShapeIds))
    ensures editor.assets == old(editor.assets)
  {
    var all := editor.shapes;
    var shapesToDelete: seq<string> := [];
    var unvisited := editor.ShapeIds();
    while unvisited != {}
      invariant unvisited <= all.Keys
      invariant forall id :: id in shapesToDelete <==>
                  id in all && id !in unvisited && Stale(id, all[id], activeFrameIds, activeShapeIds)
      decreases |unvisited|
    {
      var id :| id in unvisited;
      var shape := all[id];
      if shape.kind == Frame && StartsAt(id, 0, FramePrefix) {
        if id !in activeFrameIds {
          shapesToDelete := shapesToDelete + [id];
        }
      }
      if shape.kind == Image && StartsAt(id, 0, ImagePrefix) {
        if id !in activeShapeIds {
          shapesToDelete := shapesToDelete + [id];
        }
      }
      unvisited := unvisited - {id};
    }
    ghost var stale := set id | id in all && Stale(id, all[id], activeFrameIds, activeShapeIds);
    assert (set id | id in shapesToDelete) == stale;
    if |shapesToDelete| > 0 {
      editor.DeleteShapes(shapesToDelete);
    } else {
      assert stale == {};
      assert Without(all, stale) == all;
    }
  }

  // ---- steps of the proof of updateDiagrams ----

  /** When the first `n` diagrams have been placed and the next one loads, the
      placements grow by that one. */
  lemma PlaceNext(ds: seq<Diagram>, dims: Dims, n: nat, w: nat, h: nat)
    requires n < |ds| && |Place(ds[..n], dims)| == n && dims(ds[n].dataUrl) == Some((w, h))
    ensures Place(ds[..n + 1], dims) == Place(ds[..n], dims) + [Placement(ds[n], NextY(Place(ds[..n], dims)), w, h)]
  {
    assert ds[..n + 1][..n] == ds[..n];
  }

  lemma LoopNext(st: Store, ps: seq<Placement>, p: Placement)
    ensures Loop(st, ps + [p]) == Step(Loop(st, ps), p)
  {
    assert (ps + [p])[..|ps|] == ps;
  }

  lemma ActiveNext(ds: seq<Diagram>, n: nat)
    requires n < |ds|
    ensures ActiveFrames(ds[..n + 1]) == ActiveFrames(ds[..n]) + {FrameId(ds[n].index)}
    ensures ActiveImages(ds[..n + 1]) == ActiveImages(ds[..n]) + {ImageId(ds[n].index)}
    ensures ActiveAssets(ds[..n + 1]) == ActiveAssets(ds[..n]) + {AssetId(ds[n].index)}
  {
    assert ds[..n + 1] == ds[..n] + [ds[n]];
  }

  lemma ReconcileCompletes(st: Store, ds: seq<Diagram>, dims: Dims)
    requires |Place(ds, dims)| == |ds|
    ensures var swept := Sweep(Loop(st, Place(ds, dims)), ds);
            Reconcile(st, ds, dims) == Outcome(swept, true, |ds| > 0 && FrameId(0) !in swept.shapes)
  {
  }

  lemma ReconcileAborts(st: Store, ds: seq<Diagram>, dims: Dims, n: nat)
    requires n < |ds| && |Place(ds[..n], dims)| == n && dims(ds[n].dataUrl).None?
    ensures Reconcile(st, ds, dims) == Outcome(Loop(st, Place(ds[..n], dims)), false, false)
  {
    PlaceFails(ds, dims, n);
  }

  /** Updates the editor's canvas for `diagrams`, reading sizes with `dims`. Returns
      whether the call ran to its end (it stops when an image fails to load) and whether
      it called `zoomToFit`. */
  method UpdateDiagrams(editor: Editor, diagrams: seq<Diagram>, dims: Dims) returns (completed: bool, zoomed: bool)
    modifies editor
    ensures Outcome(editor.State(), completed, zoomed) == Reconcile(old(editor.State()), diagrams, dims)
  {
    ghost var start := editor.State();
    var activeFrameIds: set<string> := {};
    var activeShapeIds: set<string> := {};
    var activeAssetIds: set<string> := {};
    var yOffset := FirstY;
    ghost var placed: seq<Placement> := [];

    for n := 0 to |diagrams|
      invariant placed == Place(diagrams[..n], dims) && |placed| == n
      invariant editor.State() == Loop(start, placed)
      invariant yOffset == NextY(placed)
      invariant activeFrameIds == ActiveFrames(diagrams[..n])
      invariant activeShapeIds == ActiveImages(diagrams[..n])
      invariant activeAssetIds == ActiveAssets(diagrams[..n])
    {
      var diagram := diagrams[n];
      var ids := GetDiagramIds(diagram.index);
      ActiveNext(diagrams, n);
      activeFrameIds := activeFrameIds + {ids.frameId};
      activeShapeIds := activeShapeIds + {ids.shapeId};
      activeAssetIds := activeAssetIds + {ids.assetId};

      var size := dims(diagram.dataUrl);
      if size.None? {
        // the awaited image load rejects and the rest of the call is skipped
        ReconcileAborts(start, diagrams, dims, n);
        return false, false;
      }
      var width, height := size.value.0, size.value.1;
      WriteDiagram(editor, diagram, yOffset, width, height);
      ghost var p := Placement(diagram, yOffset, width, height);
      PlaceNext(diagrams, dims, n, width, height);
      LoopNext(start, placed, p);
      placed := placed + [p];
      yOffset := yOffset + (height + FramePadding * 2) + FrameGap;
    }
    assert diagrams[..|diagrams|] == diagrams;
    ReconcileCompletes(start, diagrams, dims);

    RemoveStale(editor, activeFrameIds, activeShapeIds);
    completed := true;
    zoomed := |diagrams| > 0 && editor.GetShape(GetDiagramIds(0).frameId).None?;
  }
}
