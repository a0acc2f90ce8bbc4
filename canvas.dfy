/** The part of the tldraw editor that the reconciler drives: a store of shape records
    and a store of asset records, both keyed by id, and the editor calls that read and
    write them. */
module Canvas {
  import opened Wrappers

  /** A shape's `type`. */
  datatype Kind = Frame | Image | OtherKind(name: string)

  /** A shape record, flattened: position, parent, and the `props` the reconciler sets
      (`w`, `h`, a frame's `name`, an image's `assetId`). */
  datatype Shape = Shape(kind: Kind, x: int, y: int, parent: Option<string>,
                         w: int, h: int, name: string, assetRef: Option<string>)

  /** An image asset record's props. */
  datatype Asset = Asset(name: string, src: string, w: int, h: int, mimeType: string, isAnimated: bool)

  datatype Store = Store(shapes: map<string, Shape>, assets: map<string, Asset>)

  /** A partial shape for `updateShapes`: the id, the `type`, optionally `y`, the size and
      optionally the `name`. Fields it leaves out keep their stored values. */
  datatype ShapePatch = ShapePatch(id: string, kind: Kind, y: Option<int>, w: int, h: int, name: Option<string>)

  /** Merges a partial into the shape it names; a partial for a missing id is skipped. */
  function ApplyPatch(shapes: map<string, Shape>, p: ShapePatch): (r: map<string, Shape>)
    ensures r.Keys == shapes.Keys
    ensures forall id :: id in shapes && id != p.id ==> r[id] == shapes[id]
    ensures p.id in shapes ==> var s := shapes[p.id]; var t := r[p.id];
              && t.kind == p.kind && t.w == p.w && t.h == p.h
              && t.y == (if p.y.Some? then p.y.value else s.y)
              && t.name == (if p.name.Some? then p.name.value else s.name)
              && t.x == s.x && t.parent == s.parent && t.assetRef == s.assetRef
  {
    if p.id !in shapes then shapes
    else
      var s := shapes[p.id];
      shapes[p.id := s.(kind := p.kind,
                        y := if p.y.Some? then p.y.value else s.y,
                        w := p.w, h := p.h,
                        name := if p.name.Some? then p.name.value else s.name)]
  }

  function ApplyPatches(shapes: map<string, Shape>, ps: seq<ShapePatch>): map<string, Shape>
    decreases |ps|
  {
    if ps == [] then shapes else ApplyPatches(ApplyPatch(shapes, ps[0]), ps[1..])
  }

  /** Two stores with the same record under every id are the same store. */
  lemma SameEntries<V>(a: map<string, V>, b: map<string, V>)
    requires forall id :: Get(a, id) == Get(b, id)
    ensures a == b
  {
    assert a.Keys == b.Keys by {
      forall id ensures id in a <==> id in b {
        assert Get(a, id) == Get(b, id);
      }
    }
    forall id | id in a ensures a[id] == b[id] {
      assert Get(a, id) == Get(b, id);
    }
  }

  /** Two partials merge one after the other. */
  lemma ApplyTwo(shapes: map<string, Shape>, a: ShapePatch, b: ShapePatch)
    ensures ApplyPatches(shapes, [a, b]) == ApplyPatch(ApplyPatch(shapes, a), b)
  {
    var once := ApplyPatch(shapes, a);
    assert [a, b][1..] == [b];
    assert [b][1..] == [];
    calc {
      ApplyPatches(shapes, [a, b]);
      ApplyPatches(once, [b]);
      ApplyPatches(ApplyPatch(once, b), []);
    }
  }

  /** `deleteShapes`: the store without the given ids. */
  function Without(shapes: map<string, Shape>, ids: set<string>): (r: map<string, Shape>)
    ensures r.Keys == shapes.Keys - ids
    ensures forall id :: id in r ==> r[id] == shapes[id]
  {
    map id | id in shapes && id !in ids :: shapes[id]
  }

  class Editor {
    var shapes: map<string, Shape>
    var assets: map<string, Asset>

    function State(): Store
      reads this
    {
      Store(shapes, assets)
    }

    constructor(initial: Store)
      ensures State() == initial
    {
      shapes := initial.shapes;
      assets := initial.assets;
    }

    /** `getShape` */
    function GetShape(id: string): Option<Shape>
      reads this
    {
      Get(shapes, id)
    }

    /** `getCurrentPageShapes`, as the set of their ids. */
    function ShapeIds(): set<string>
      reads this
    {
      shapes.Keys
    }

    /** `createShape`: stores the record under its id. */
    method CreateShape(id: string, s: Shape)
      modifies this
      ensures shapes == old(shapes)[id := s] && assets == old(assets)
    {
      shapes := shapes[id := s];
    }

    /** `createAssets` and `updateAssets` with a complete record: store it under its id. */
    method PutAsset(id: string, a: Asset)
      modifies this
      ensures assets == old(assets)[id := a] && shapes == old(shapes)
    {
      assets := assets[id := a];
    }

    method UpdateShapes(patches: seq<ShapePatch>)
      modifies this
      ensures shapes == ApplyPatches(old(shapes), patches) && assets == old(assets)
    {
      shapes := ApplyPatches(shapes, patches);
    }

    method DeleteShapes(ids: seq<string>)
      modifies this
      ensures shapes == Without(old(shapes), set id | id in ids) && assets == old(assets)
    {
      shapes := Without(shapes, set id | id in ids);
    }
  }
}
