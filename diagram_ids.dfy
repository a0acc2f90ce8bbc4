/** `getDiagramIds`: the tldraw record ids of a diagram's asset, image shape and frame,
    derived from its index alone. `createShapeId` and `AssetRecordType.createId` add
    the `shape:` and `asset:` prefixes. */
module DiagramIds {
  import opened Decimal
  import opened JsText

  const FramePrefix := "shape:diagram-frame-"
  const ImagePrefix := "shape:diagram-shape-"
  const AssetPrefix := "asset:diagram-asset-"

  datatype Ids = Ids(assetId: string, shapeId: string, frameId: string)

  function FrameId(index: nat): string { FramePrefix + NatToString(index) }
  function ImageId(index: nat): string { ImagePrefix + NatToString(index) }
  function AssetId(index: nat): string { AssetPrefix + NatToString(index) }

  function GetDiagramIds(index: nat): (ids: Ids)
    ensures StartsAt(ids.frameId, 0, FramePrefix) && StartsAt(ids.shapeId, 0, ImagePrefix)
    ensures StartsAt(ids.assetId, 0, AssetPrefix)
  {
    Ids(AssetId(index), ImageId(index), FrameId(index))
  }

  lemma PrefixedAt(prefix: string, n: nat)
    ensures StartsAt(prefix + NatToString(n), 0, prefix)
    ensures (prefix + NatToString(n))[|prefix|..] == NatToString(n)
  {
    assert (prefix + NatToString(n))[..|prefix|] == prefix;
  }

  /** Distinct indices give distinct ids, and the same index the same ids. */
  lemma IdsInjective(a: nat, b: nat)
    ensures FrameId(a) == FrameId(b) <==> a == b
    ensures ImageId(a) == ImageId(b) <==> a == b
    ensures AssetId(a) == AssetId(b) <==> a == b
    ensures GetDiagramIds(a) == GetDiagramIds(b) <==> a == b
  {
    PrefixedAt(FramePrefix, a);
    PrefixedAt(FramePrefix, b);
    PrefixedAt(ImagePrefix, a);
    PrefixedAt(ImagePrefix, b);
    PrefixedAt(AssetPrefix, a);
    PrefixedAt(AssetPrefix, b);
    NatToStringInjective(a, b);
  }

  /** A frame id never carries the image prefix and an image id never carries the frame
      prefix, so no frame id is an image id. */
  lemma PrefixesSeparate(a: nat, b: nat)
    ensures !StartsAt(FrameId(a), 0, ImagePrefix)
    ensures !StartsAt(ImageId(a), 0, FramePrefix)
    ensures FrameId(a) != ImageId(b)
  {
    assert FrameId(a)[14] == 'f';
    assert ImageId(b)[14] == 's';
  }
}
