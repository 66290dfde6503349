/**
 * `GrapheneShardReader.compute_shard_location`
 * (cloudvolume/datasource/graphene/sharding.py): a graphene layer keeps one
 * shard file per chunk, named after the label's chunk id, and takes the
 * minishard number from the sharding specification unchanged.
 */
module GrapheneSharding {
  import opened Wrappers
  import opened Uint64
  import opened GrapheneLabel
  import opened Decimal

  const SHARD_SUFFIX: string := ".shard"

  /**
   * The shard filename and minishard of `lbl`.  `minishard` is what the
   * sharding specification's own `compute_shard_location(lbl)` returned.
   */
  function ComputeShardLocation(info: GraphInfo, lbl: U64, minishard: nat): (r: Result<(string, nat), KeyError>)
    requires Fits(info)
    ensures r.Ok? <==> DecodeChunkId(info, lbl).Ok?
    ensures r.Err? ==> r.error == DecodeChunkId(info, lbl).error
    ensures r.Ok? ==> r.value.1 == minishard
  {
    match DecodeChunkId(info, lbl)
    case Err(e) => Err(e)
    case Ok(chunkId) => Ok((NatString(chunkId) + SHARD_SUFFIX, minishard))
  }

  /** Reads the chunk id back out of a shard filename. */
  function ParseShardFilename(name: string): Option<nat> {
    if |name| > |SHARD_SUFFIX| && name[|name| - |SHARD_SUFFIX|..] == SHARD_SUFFIX
       && forall j :: 0 <= j < |name| - |SHARD_SUFFIX| ==> IsDigit(name[j])
    then Some(ParseNat(name[..|name| - |SHARD_SUFFIX|]))
    else None
  }

  /** The filename names the label's chunk id: parsing it gives `decode_chunk_id(lbl)` back. */
  lemma FilenameNamesChunkId(info: GraphInfo, lbl: U64, minishard: nat)
    requires Fits(info) && DecodeChunkId(info, lbl).Ok?
    ensures ParseShardFilename(ComputeShardLocation(info, lbl, minishard).value.0) == Some(DecodeChunkId(info, lbl).value)
  {
    var c := DecodeChunkId(info, lbl).value;
    var name := NatString(c) + SHARD_SUFFIX;
    NatStringRoundTrip(c);
    NatStringDigits(c);
    assert name[..|name| - |SHARD_SUFFIX|] == NatString(c);
    assert name[|name| - |SHARD_SUFFIX|..] == SHARD_SUFFIX;
  }

  /** Two labels share a shard file exactly when they have the same chunk id. */
  lemma SameFileIffSameChunk(info: GraphInfo, a: U64, b: U64, ma: nat, mb: nat)
    requires Fits(info) && DecodeChunkId(info, a).Ok? && DecodeChunkId(info, b).Ok?
    ensures ComputeShardLocation(info, a, ma).value.0 == ComputeShardLocation(info, b, mb).value.0
            <==> DecodeChunkId(info, a) == DecodeChunkId(info, b)
  {
    FilenameNamesChunkId(info, a, ma);
    FilenameNamesChunkId(info, b, mb);
  }

  /** The segment id bits of a label do not reach its shard filename. */
  lemma FilenameIgnoresSegid(info: GraphInfo, a: U64, b: U64, ma: nat, mb: nat)
    requires Fits(info) && DecodeChunkId(info, a).Ok?
    requires SegidBits(info, DecodeLevel(info, a)).value <= 56
    requires a / Pow2(SegidBits(info, DecodeLevel(info, a)).value) == b / Pow2(SegidBits(info, DecodeLevel(info, a)).value)
    ensures ComputeShardLocation(info, b, mb).Ok?
    ensures ComputeShardLocation(info, a, ma).value.0 == ComputeShardLocation(info, b, mb).value.0
  {
    ChunkIdIgnoresSegid(info, a, b);
  }
}
