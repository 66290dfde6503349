/**
 * `GrapheneMetadata.get_draco_grid_size`
 * (cloudvolume/datasource/graphene/metadata.py): the quantisation grid of the
 * Draco-compressed meshes at a ChunkedGraph level, read from the info's
 * `mesh_metadata`.
 */
module GrapheneMesh {
  import opened Wrappers
  import opened Decimal

  /**
   * The fields of `mesh_metadata` that are read.  A field is `None` when the
   * key is missing, and `uniformDracoGridSize` is also `None` when the key
   * holds JSON null, since the source tests that value against `None`.
   */
  datatype MeshMetadata = MeshMetadata(
    uniformDracoGridSize: Option<int>,
    maxMeshedLayer: Option<int>,
    dracoGridSizes: Option<map<string, int>>)

  /** The ValueErrors and KeyErrors `get_draco_grid_size` raises. */
  datatype MeshError =
    | NotDracoMeshed
    | LevelNotMeshed(level: int, maxMeshedLayer: int)
    | KeyError(key: string)

  /**
   * `get_draco_grid_size(level)` for the info's `mesh_metadata` (`None` when
   * the info has none).  The answer is the uniform size when there is one,
   * else the size stored under `str(level)`, provided `level` does not exceed
   * `max_meshed_layer`.
   */
  function DracoGridSize(meta: Option<MeshMetadata>, level: int): (r: Result<int, MeshError>)
    ensures meta.None? ==> r == Err(NotDracoMeshed)
    ensures r.Ok? <==>
      meta.Some? && (meta.value.uniformDracoGridSize.Some? ||
        (meta.value.maxMeshedLayer.Some? && level <= meta.value.maxMeshedLayer.value
         && meta.value.dracoGridSizes.Some? && IntString(level) in meta.value.dracoGridSizes.value))
    ensures meta.Some? && meta.value.uniformDracoGridSize.Some? ==> r == Ok(meta.value.uniformDracoGridSize.value)
    ensures r.Ok? && meta.value.uniformDracoGridSize.None? ==>
      meta.value.maxMeshedLayer.Some? && level <= meta.value.maxMeshedLayer.value
      && meta.value.dracoGridSizes.Some? && IntString(level) in meta.value.dracoGridSizes.value
      && r.value == meta.value.dracoGridSizes.value[IntString(level)]
    ensures r.Err? && r.error.LevelNotMeshed? <==>
      meta.Some? && meta.value.uniformDracoGridSize.None? && meta.value.maxMeshedLayer.Some?
      && meta.value.maxMeshedLayer.value < level
    ensures r.Err? && r.error.LevelNotMeshed? ==> r.error == LevelNotMeshed(level, meta.value.maxMeshedLayer.value)
  {
    match meta
    case None => Err(NotDracoMeshed)
    case Some(mm) =>
      if mm.uniformDracoGridSize.Some? then Ok(mm.uniformDracoGridSize.value)
      else if mm.maxMeshedLayer.None? then Err(KeyError("max_meshed_layer"))
      else if mm.maxMeshedLayer.value < level then Err(LevelNotMeshed(level, mm.maxMeshedLayer.value))
      else if mm.dracoGridSizes.None? then Err(KeyError("draco_grid_sizes"))
      else if IntString(level) !in mm.dracoGridSizes.value then Err(KeyError(IntString(level)))
      else Ok(mm.dracoGridSizes.value[IntString(level)])
  }

  /** A uniform grid size is the answer at every level, meshed or not. */
  lemma UniformAtEveryLevel(mm: MeshMetadata, a: int, b: int)
    requires mm.uniformDracoGridSize.Some?
    ensures DracoGridSize(Some(mm), a) == DracoGridSize(Some(mm), b) == Ok(mm.uniformDracoGridSize.value)
  {
  }

  /**
   * Without a uniform size, each level reads its own entry: the sizes of two
   * meshed levels are looked up under different keys, so changing one
   * level's entry leaves every other level's answer as it was.
   */
  lemma LevelsReadOwnEntry(mm: MeshMetadata, sizes: map<string, int>, level: int, other: int, g: int)
    requires mm.uniformDracoGridSize.None? && mm.dracoGridSizes == Some(sizes) && other != level
    ensures DracoGridSize(Some(mm.(dracoGridSizes := Some(sizes[IntString(level) := g]))), other)
            == DracoGridSize(Some(mm), other)
  {
    IntStringInjective(level, other);
  }

  /** Every level up to `max_meshed_layer` whose entry is present is answered with that entry. */
  lemma MeshedLevelsAnswered(mm: MeshMetadata, sizes: map<string, int>, level: int)
    requires mm.uniformDracoGridSize.None? && mm.maxMeshedLayer.Some? && level <= mm.maxMeshedLayer.value
    requires mm.dracoGridSizes == Some(sizes) && IntString(level) in sizes
    ensures DracoGridSize(Some(mm), level) == Ok(sizes[IntString(level)])
  {
  }
}
