/**
 * The 64-bit ChunkedGraph label of cloudvolume/datasource/graphene/metadata.py:
 * from the most significant end, `n_bits_for_layer_id` bits of layer (the
 * level), then the chunk coordinates x, y and z with `spatial_bit_count(level)`
 * bits each, then the segment id in the remaining `level_segid_bits(level)`
 * bits.  The decoders read the layout from the graph's `info`.
 */
module GrapheneLabel {
  import opened Wrappers
  import opened Uint64

  /** The level bits as the decoders mask them, whatever `n_bits_for_layer_id` says. */
  const LEVEL_MASK: U64 := 0xff00_0000_0000_0000
  /** Everything below the top byte. */
  const BELOW_LEVEL: U64 := 0x00ff_ffff_ffff_ffff

  /** The part of `info['graph']` the codec reads: `n_bits_for_layer_id`, if present, and `spatial_bit_masks` by level. */
  datatype GraphInfo = GraphInfo(nBitsForLayerId: Option<nat>, spatialBitMasks: map<nat, nat>)

  /** The `KeyError` of a level missing from `spatial_bit_masks`. */
  datatype KeyError = KeyError(level: nat)

  /** `GrapheneLabel`: the decoded fields. */
  datatype Label = Label(level: U64, x: U64, y: U64, z: U64, segid: U64)

  /** `n_bits_for_layer_id`, 8 when the info does not say. */
  function LayerBits(info: GraphInfo): nat {
    if info.nBitsForLayerId.Some? then info.nBitsForLayerId.value else 8
  }

  /**
   * The layouts the codec can decode: the layer field has between 1 and 64
   * bits and every level's fields fit in 64 bits together, so that no shift
   * count is negative or reaches 64.
   */
  predicate Fits(info: GraphInfo) {
    1 <= LayerBits(info) <= 64
    && forall level :: level in info.spatialBitMasks ==> LayerBits(info) + 3 * info.spatialBitMasks[level] <= 64
  }

  /** `decode_level`. */
  function DecodeLevel(info: GraphInfo, lbl: U64): U64
    requires Fits(info)
  {
    Shr(And(lbl, LEVEL_MASK), 64 - LayerBits(info))
  }

  /** `spatial_bit_count`: the bits per coordinate at `level`. */
  function SpatialBitCount(info: GraphInfo, level: nat): Result<nat, KeyError> {
    if level in info.spatialBitMasks then Ok(info.spatialBitMasks[level]) else Err(KeyError(level))
  }

  /** `level_segid_bits`: what is left for the segment id once the layer and the three coordinates are placed. */
  function SegidBits(info: GraphInfo, level: nat): (r: Result<nat, KeyError>)
    requires Fits(info)
    ensures r.Ok? <==> level in info.spatialBitMasks
    ensures r.Ok? ==> r.value + LayerBits(info) + 3 * info.spatialBitMasks[level] == 64
  {
    match SpatialBitCount(info, level)
    case Err(e) => Err(e)
    case Ok(ct) => Ok(64 - LayerBits(info) - 3 * ct)
  }

  // ---------------------------------------------------------------------------
  // The mask loop, as written.

  /** What `mask |= 1; mask <<= 1` leaves after `k` rounds: 2^k - 1 shifted up one bit, stuck at 2^64 - 2 once it fills the word. */
  function LoopMask(k: int): U64 {
    if k <= 0 then 0
    else
      var j := if k >= 63 then 63 else k;
      MaskFits(j);
      LowOnes(j) * 2
  }

  /** A mask of up to 63 bits, shifted up one, still fits in the word. */
  lemma MaskFits(j: nat)
    requires j <= 63
    ensures LowOnes(j) * 2 < TWO_64
  {
    Pow2Monotone(j, 63);
    Two64();
  }

  /** One round of the loop body. */
  lemma LoopStep(i: nat)
    ensures Shl(OrOne(LoopMask(i)), 1) == LoopMask(i + 1)
  {
    if i < 63 {
      LoopStepBelow(i);
    } else {
      LoopStepFull(i);
    }
  }

  /** A round before the mask fills the word: one more bit. */
  lemma LoopStepBelow(i: nat)
    requires i < 63
    ensures Shl(OrOne(LoopMask(i)), 1) == LoopMask(i + 1)
  {
    assert Pow2(i + 1) == 2 * Pow2(i);
    assert OrOne(LoopMask(i)) == LowOnes(i + 1);
    MaskFits(i + 1);
    ShlNoWrap(LowOnes(i + 1), 1, LowOnes(i + 1) * 2);
  }

  /** A round once the mask fills the word: bit 63 is shifted out and the mask stays. */
  lemma LoopStepFull(i: nat)
    requires i >= 63
    ensures Shl(OrOne(LoopMask(i)), 1) == LoopMask(i + 1)
  {
    Two64();
    MaskFits(63);
    assert OrOne(LoopMask(i)) == Pow2(64) - 1;
    DivModUnique((Pow2(64) - 1) * 2, TWO_64, 1, LowOnes(63) * 2);
  }

  /** The loop shared by `decode_segid` and `spatial_bit_masks`: `k` rounds of `mask |= 1; mask <<= 1`. */
  method BuildMask(k: int) returns (mask: U64)
    ensures mask == LoopMask(k)
  {
    mask := 0;
    var i := 0;
    while i < k
      invariant 0 <= i && (k >= 0 ==> i <= k) && (k < 0 ==> i == 0)
      invariant mask == LoopMask(i)
    {
      LoopStep(i);
      mask := OrOne(mask);
      mask := Shl(mask, 1);
      i := i + 1;
    }
  }

  /** The loop's mask is even: it never holds bit 0, unlike 2^k - 1 for any `k` of at least one. */
  lemma LoopMaskIsNotLowOnes(k: nat)
    requires 1 <= k < 64
    ensures LoopMask(k) == LowOnes(k) * 2
    ensures LoopMask(k) % 2 == 0 && LowOnes(k) % 2 == 1
  {
  }

  // ---------------------------------------------------------------------------
  // The decoders, as written.

  /** What `decode_segid` returns: the label under the loop's mask of `level_segid_bits` rounds. */
  function SegidAsWritten(info: GraphInfo, lbl: U64): Result<U64, KeyError>
    requires Fits(info)
  {
    match SegidBits(info, DecodeLevel(info, lbl))
    case Err(e) => Err(e)
    case Ok(s) => Ok(And(lbl, LoopMask(s)))
  }

  /** `decode_segid`. */
  method DecodeSegid(info: GraphInfo, lbl: U64) returns (r: Result<U64, KeyError>)
    requires Fits(info)
    ensures r == SegidAsWritten(info, lbl)
  {
    var level := DecodeLevel(info, lbl);
    var bits := SegidBits(info, level);
    if bits.Err? {
      return Err(bits.error);
    }
    var mask := BuildMask(bits.value);
    r := Ok(And(lbl, mask));
  }

  /** What `decode_segid` computes, in terms of the label's bits: bits 1 to `s` of the label, left in place. */
  lemma SegidAsWrittenIsShiftedField(info: GraphInfo, lbl: U64)
    requires Fits(info) && SegidBits(info, DecodeLevel(info, lbl)).Ok?
    ensures SegidAsWritten(info, lbl).Ok?
    ensures SegidAsWritten(info, lbl).value == (lbl / 2) % Pow2(SegidBits(info, DecodeLevel(info, lbl)).value) * 2
  {
    var s := SegidBits(info, DecodeLevel(info, lbl)).value;
    assert s <= 63;
    if s == 0 {
      assert And(lbl, 0) == 0;
    } else {
      AndField(lbl, s, 1);
    }
  }

  /** The three masks `spatial_bit_masks` returns, for x, y and z. */
  function MasksAsWritten(info: GraphInfo, level: nat): Result<seq<U64>, KeyError>
    requires Fits(info)
  {
    match SpatialBitCount(info, level)
    case Err(e) => Err(e)
    case Ok(ct) =>
      var s := 64 - LayerBits(info) - 3 * ct;
      Ok([Shl(LoopMask(ct), s + 2 * ct), Shl(LoopMask(ct), s + ct), Shl(LoopMask(ct), s)])
  }

  /** `spatial_bit_masks`. */
  method SpatialBitMasks(info: GraphInfo, level: nat) returns (r: Result<seq<U64>, KeyError>)
    requires Fits(info)
    ensures r == MasksAsWritten(info, level)
  {
    var ct := SpatialBitCount(info, level);
    if ct.Err? {
      return Err(ct.error);
    }
    var mask := BuildMask(ct.value);
    var segidBits := 64 - LayerBits(info) - 3 * ct.value;
    r := Ok([Shl(mask, segidBits + 2 * ct.value), Shl(mask, segidBits + ct.value), Shl(mask, segidBits)]);
  }

  /** What `decode_chunk_position` returns. */
  function PositionAsWritten(info: GraphInfo, lbl: U64): Result<(U64, U64, U64), KeyError>
    requires Fits(info)
  {
    var level := DecodeLevel(info, lbl);
    match SpatialBitCount(info, level)
    case Err(e) => Err(e)
    case Ok(ct) =>
      var l := And(lbl, BELOW_LEVEL);
      var masks := MasksAsWritten(info, level).value;
      var s := 64 - LayerBits(info) - 3 * ct;
      Ok((Shr(And(l, masks[0]), s + 2 * ct), Shr(And(l, masks[1]), s + ct), Shr(And(l, masks[2]), s)))
  }

  /** `decode_chunk_position`. */
  method DecodeChunkPosition(info: GraphInfo, lbl: U64) returns (r: Result<(U64, U64, U64), KeyError>)
    requires Fits(info)
    ensures r == PositionAsWritten(info, lbl)
  {
    var level := DecodeLevel(info, lbl);
    var ct := SpatialBitCount(info, level);
    if ct.Err? {
      return Err(ct.error);
    }
    var l := And(lbl, BELOW_LEVEL);
    var masks := SpatialBitMasks(info, level);
    var s := 64 - LayerBits(info) - 3 * ct.value;
    var m := masks.value;
    r := Ok((Shr(And(l, m[0]), s + 2 * ct.value), Shr(And(l, m[1]), s + ct.value), Shr(And(l, m[2]), s)));
  }

  /** `decode_label`. */
  method DecodeLabel(info: GraphInfo, lbl: U64) returns (r: Result<Label, KeyError>)
    requires Fits(info)
    ensures r.Ok? <==> DecodeLevel(info, lbl) in info.spatialBitMasks
    ensures r.Ok? ==> r.value == Label(DecodeLevel(info, lbl), PositionAsWritten(info, lbl).value.0,
      PositionAsWritten(info, lbl).value.1, PositionAsWritten(info, lbl).value.2, SegidAsWritten(info, lbl).value)
  {
    var level := DecodeLevel(info, lbl);
    var position := DecodeChunkPosition(info, lbl);
    if position.Err? {
      return Err(position.error);
    }
    var segid := DecodeSegid(info, lbl);
    assert segid.Ok?;
    var (x, y, z) := position.value;
    r := Ok(Label(level, x, y, z, segid.value));
  }

  /** `decode_chunk_id`: the label below the level byte, without its segment id bits. */
  function DecodeChunkId(info: GraphInfo, lbl: U64): Result<U64, KeyError>
    requires Fits(info)
  {
    var level := DecodeLevel(info, lbl);
    match SegidBits(info, level)
    case Err(e) => Err(e)
    case Ok(s) => Ok(Shr(And(lbl, BELOW_LEVEL), s))
  }

  // ---------------------------------------------------------------------------
  // What the decoders compute.

  /** The constants of the codec as powers of two. */
  lemma Constants()
    ensures Pow2(8) == 256 && Pow2(56) == 0x0100_0000_0000_0000
    ensures Pow2(64) == TWO_64 && Pow2(64) == Pow2(8) * Pow2(56)
    ensures LEVEL_MASK == LowOnes(8) * Pow2(56)
    ensures BELOW_LEVEL == LowOnes(56)
  {
    assert Pow2(4) == 16;
    Pow2Add(4, 4);
    assert Pow2(8) == 256;
    Pow2Add(8, 8);
    assert Pow2(16) == 0x1_0000;
    Pow2Add(16, 16);
    assert Pow2(32) == 0x1_0000_0000;
    Pow2Add(32, 16);
    assert Pow2(48) == 0x1_0000_0000_0000;
    Pow2Add(48, 8);
    Pow2Add(8, 56);
    Two64();
  }

  /** The level mask keeps the top byte of the label. */
  lemma TopByte(lbl: U64)
    ensures And(lbl, LEVEL_MASK) == lbl / Pow2(56) * Pow2(56)
    ensures lbl / Pow2(56) < 256
  {
    Constants();
    var t := lbl / Pow2(56);
    DivBelow(lbl, Pow2(56), Pow2(8));
    AndField(lbl, 8, 56);
    assert t % Pow2(8) == t;
  }

  /** The level is the label's top byte, whatever the layout, and with the default 8 layer bits it is returned unshifted. */
  lemma LevelIsTopByte(info: GraphInfo, lbl: U64)
    requires Fits(info)
    ensures And(lbl, LEVEL_MASK) == lbl / Pow2(56) * Pow2(56)
    ensures LayerBits(info) == 8 ==> DecodeLevel(info, lbl) == lbl / Pow2(56) && DecodeLevel(info, lbl) < 256
  {
    TopByte(lbl);
    if LayerBits(info) == 8 {
      TopByteShifted(lbl);
    }
  }

  /** With 8 layer bits the level mask's result is shifted down by 56. */
  lemma TopByteShifted(lbl: U64)
    ensures Shr(And(lbl, LEVEL_MASK), 56) == lbl / Pow2(56)
  {
    TopByte(lbl);
    DivNat(lbl, Pow2(56));
    ShrMultiple(And(lbl, LEVEL_MASK), lbl / Pow2(56), 56);
  }

  /** `decode_chunk_id` is the label below the level byte shifted down past the segment id, so it has `56 - s` bits. */
  lemma ChunkIdIsField(info: GraphInfo, lbl: U64)
    requires Fits(info) && DecodeChunkId(info, lbl).Ok?
    ensures DecodeChunkId(info, lbl).value == lbl % Pow2(56) / Pow2(SegidBits(info, DecodeLevel(info, lbl)).value)
    ensures SegidBits(info, DecodeLevel(info, lbl)).value <= 56 ==>
      DecodeChunkId(info, lbl).value < Pow2(56 - SegidBits(info, DecodeLevel(info, lbl)).value)
  {
    var s := SegidBits(info, DecodeLevel(info, lbl)).value;
    Constants();
    AndLowOnes(lbl, 56);
    ShrIs(And(lbl, BELOW_LEVEL), s);
    if s <= 56 {
      Pow2Add(56 - s, s);
      DivBelow(lbl % Pow2(56), Pow2(s), Pow2(56 - s));
    }
  }

  /**
   * Two labels that differ only in their low `s` bits, `s` the segment id bits
   * of the first one's level, have the same level and the same chunk id.
   */
  lemma ChunkIdIgnoresSegid(info: GraphInfo, a: U64, b: U64)
    requires Fits(info) && DecodeChunkId(info, a).Ok?
    requires SegidBits(info, DecodeLevel(info, a)).value <= 56
    requires a / Pow2(SegidBits(info, DecodeLevel(info, a)).value) == b / Pow2(SegidBits(info, DecodeLevel(info, a)).value)
    ensures DecodeLevel(info, a) == DecodeLevel(info, b)
    ensures DecodeChunkId(info, a) == DecodeChunkId(info, b)
  {
    var s := SegidBits(info, DecodeLevel(info, a)).value;
    DivDiv(a, s, 56 - s);
    DivDiv(b, s, 56 - s);
    LevelIsTopByte(info, a);
    LevelIsTopByte(info, b);
    Constants();
    AndLowOnes(a, 56);
    AndLowOnes(b, 56);
    ModDiv(a, s, 56 - s);
    ModDiv(b, s, 56 - s);
    ShrIs(And(a, BELOW_LEVEL), s);
    ShrIs(And(b, BELOW_LEVEL), s);
  }

  /** A mask of `w` bits at bit `p`, `(2^w - 1) << p`. */
  function FieldMask(w: nat, p: nat): U64
    requires w + p <= 64
  {
    FieldFits(w, p);
    LowOnes(w) * Pow2(p)
  }

  /** The loop's mask moved up `p` bits is the mask of `w` bits at `p + 1`. */
  lemma ShiftedLoopMask(w: nat, p: nat)
    requires w + p + 1 <= 64 && p < 64 && w < 63
    ensures Shl(LoopMask(w), p) == FieldMask(w, p + 1)
  {
    var L := LowOnes(w);
    assert LoopMask(w) == L * 2;
    assert Pow2(p + 1) == 2 * Pow2(p);
    Assoc(L, Pow2(p));
    FieldFits(w, p + 1);
    ShlNoWrap(LoopMask(w), p, L * Pow2(p + 1));
  }

  /** Masking with the loop's mask moved up `p` bits, then shifting down `p`: bits `p + 1` to `p + w` of `l`, doubled. */
  lemma AsWrittenField(l: U64, w: nat, p: nat)
    requires w + p + 1 <= 64 && p < 64 && w < 63
    ensures ShiftedRead(l, w, p) == l / Pow2(p + 1) % Pow2(w) * 2
  {
    ShiftedLoopMask(w, p);
    AndField(l, w, p + 1);
    ShrIs(And(l, FieldMask(w, p + 1)), p);
    MulDivUp(l / Pow2(p + 1) % Pow2(w), p);
  }

  /** Masking with `(2^w - 1) << p`, then shifting down `p`: bits `p` to `p + w - 1` of `l`. */
  lemma IntendedField(l: U64, w: nat, p: nat)
    requires w + p <= 64 && p < 64
    ensures Shr(And(l, FieldMask(w, p)), p) == l / Pow2(p) % Pow2(w)
  {
    AndField(l, w, p);
    ShrIs(And(l, FieldMask(w, p)), p);
    MulDiv(l / Pow2(p) % Pow2(w), p);
  }

  /** The mask below the level byte keeps the label modulo 2^56. */
  lemma BelowLevel(lbl: U64)
    ensures And(lbl, BELOW_LEVEL) == lbl % Pow2(56)
  {
    Constants();
    AndLowOnes(lbl, 56);
  }

  /** `decode_chunk_position` reads each coordinate under the loop's mask moved up to that coordinate's place. */
  lemma PositionAsWrittenUnfolded(info: GraphInfo, lbl: U64, ct: nat, s: nat)
    requires Fits(info) && DecodeLevel(info, lbl) in info.spatialBitMasks
    requires ct == info.spatialBitMasks[DecodeLevel(info, lbl)] && s == 64 - LayerBits(info) - 3 * ct
    ensures PositionAsWritten(info, lbl) == Ok(ShiftedReads(And(lbl, BELOW_LEVEL), ct, s))
  {
    MasksAsWrittenUnfolded(info, DecodeLevel(info, lbl), ct, s);
  }

  /** The three coordinates read under the loop's mask moved up to each coordinate's place. */
  function ShiftedReads(l: U64, ct: nat, s: nat): (U64, U64, U64)
    requires s + 3 * ct < 64
  {
    (ShiftedRead(l, ct, s + 2 * ct), ShiftedRead(l, ct, s + ct), ShiftedRead(l, ct, s))
  }

  /** One coordinate read under the loop's mask of `w` bits moved up `p` bits. */
  function ShiftedRead(l: U64, w: nat, p: nat): U64
    requires p < 64
  {
    Shr(And(l, Shl(LoopMask(w), p)), p)
  }

  /** `spatial_bit_masks` at a level with `ct` bits per coordinate over `s` bits of segment id. */
  lemma MasksAsWrittenUnfolded(info: GraphInfo, level: nat, ct: nat, s: nat)
    requires Fits(info) && level in info.spatialBitMasks
    requires ct == info.spatialBitMasks[level] && s == 64 - LayerBits(info) - 3 * ct
    ensures MasksAsWritten(info, level) == Ok([Shl(LoopMask(ct), s + 2 * ct), Shl(LoopMask(ct), s + ct), Shl(LoopMask(ct), s)])
  {
  }

  /**
   * What `decode_chunk_position` computes: each coordinate is read one bit too
   * high from the label below its level byte (`BelowLevel` says what that is),
   * x from bits `s + 2ct + 1` to `s + 3ct`, and comes out doubled.
   */
  lemma PositionAsWrittenIsShiftedFields(info: GraphInfo, lbl: U64, ct: nat, s: nat)
    requires Fits(info) && DecodeLevel(info, lbl) in info.spatialBitMasks
    requires ct == info.spatialBitMasks[DecodeLevel(info, lbl)] && s == 64 - LayerBits(info) - 3 * ct
    ensures PositionAsWritten(info, lbl).Ok?
    ensures PositionAsWritten(info, lbl).value ==
      (And(lbl, BELOW_LEVEL) / Pow2(s + 2 * ct + 1) % Pow2(ct) * 2,
       And(lbl, BELOW_LEVEL) / Pow2(s + ct + 1) % Pow2(ct) * 2,
       And(lbl, BELOW_LEVEL) / Pow2(s + 1) % Pow2(ct) * 2)
  {
    var l := And(lbl, BELOW_LEVEL);
    PositionAsWrittenUnfolded(info, lbl, ct, s);
    AsWrittenField(l, ct, s + 2 * ct);
    AsWrittenField(l, ct, s + ct);
    AsWrittenField(l, ct, s);
  }

  // ---------------------------------------------------------------------------
  // The decoders as evidently intended: masks of 2^k - 1.

  /** `decode_segid` with the mask `2^s - 1`. */
  function SegidIntended(info: GraphInfo, lbl: U64): Result<U64, KeyError>
    requires Fits(info)
  {
    match SegidBits(info, DecodeLevel(info, lbl))
    case Err(e) => Err(e)
    case Ok(s) => Ok(And(lbl, LowOnes(s)))
  }

  /** The intended segment id is the label's low `s` bits. */
  lemma SegidIntendedIsLowBits(info: GraphInfo, lbl: U64)
    requires Fits(info) && SegidIntended(info, lbl).Ok?
    ensures SegidIntended(info, lbl).value == lbl % Pow2(SegidBits(info, DecodeLevel(info, lbl)).value)
  {
    AndLowOnes(lbl, SegidBits(info, DecodeLevel(info, lbl)).value);
  }

  /** `decode_chunk_position` with the masks `(2^ct - 1) << (s + k * ct)`. */
  function PositionIntended(info: GraphInfo, lbl: U64): Result<(U64, U64, U64), KeyError>
    requires Fits(info)
  {
    var level := DecodeLevel(info, lbl);
    match SpatialBitCount(info, level)
    case Err(e) => Err(e)
    case Ok(ct) =>
      var l := And(lbl, BELOW_LEVEL);
      var s := 64 - LayerBits(info) - 3 * ct;
      Ok((Shr(And(l, FieldMask(ct, s + 2 * ct)), s + 2 * ct),
          Shr(And(l, FieldMask(ct, s + ct)), s + ct),
          Shr(And(l, FieldMask(ct, s)), s)))
  }

  /** Below the level byte, a field under bit 56 reads the same with or without the level byte. */
  lemma LowField(lbl: U64, p: nat, w: nat)
    requires p + w <= 56
    ensures lbl % Pow2(56) / Pow2(p) % Pow2(w) == lbl / Pow2(p) % Pow2(w)
  {
    var v := 56 - p - w;
    assert p + (w + v) == 56;
    FieldBelow(lbl, p, w, v);
  }

  /** One intended coordinate: the `ct`-bit field at `p` of the label below its level byte. */
  lemma IntendedCoordinate(lbl: U64, ct: nat, p: nat)
    requires ct + p <= 64 && p < 64
    ensures Shr(And(And(lbl, BELOW_LEVEL), FieldMask(ct, p)), p) == lbl % Pow2(56) / Pow2(p) % Pow2(ct)
  {
    IntendedField(And(lbl, BELOW_LEVEL), ct, p);
    BelowLevel(lbl);
  }

  /** A coordinate field wholly below the level byte reads the same from the whole label. */
  lemma IntendedCoordinateLow(lbl: U64, ct: nat, p: nat)
    requires ct + p <= 56
    ensures Shr(And(And(lbl, BELOW_LEVEL), FieldMask(ct, p)), p) == lbl / Pow2(p) % Pow2(ct)
  {
    IntendedCoordinate(lbl, ct, p);
    LowField(lbl, p, ct);
  }

  /** `PositionIntended` reads each coordinate under the mask of `ct` bits at that coordinate's place. */
  lemma PositionIntendedUnfolded(info: GraphInfo, lbl: U64, ct: nat, s: nat)
    requires Fits(info) && DecodeLevel(info, lbl) in info.spatialBitMasks
    requires ct == info.spatialBitMasks[DecodeLevel(info, lbl)] && s == 64 - LayerBits(info) - 3 * ct
    ensures PositionIntended(info, lbl).Ok?
    ensures PositionIntended(info, lbl).value ==
      (Shr(And(And(lbl, BELOW_LEVEL), FieldMask(ct, s + 2 * ct)), s + 2 * ct),
       Shr(And(And(lbl, BELOW_LEVEL), FieldMask(ct, s + ct)), s + ct),
       Shr(And(And(lbl, BELOW_LEVEL), FieldMask(ct, s)), s))
  {
  }

  /**
   * The intended coordinates are the `ct`-bit fields at `s + 2ct`, `s + ct`
   * and `s` of the label below its level byte (`BelowLevel` says what that is).
   */
  lemma PositionIntendedIsFields(info: GraphInfo, lbl: U64, ct: nat, s: nat)
    requires Fits(info) && DecodeLevel(info, lbl) in info.spatialBitMasks
    requires ct == info.spatialBitMasks[DecodeLevel(info, lbl)] && s == 64 - LayerBits(info) - 3 * ct
    ensures PositionIntended(info, lbl).Ok?
    ensures PositionIntended(info, lbl).value ==
      (And(lbl, BELOW_LEVEL) / Pow2(s + 2 * ct) % Pow2(ct), And(lbl, BELOW_LEVEL) / Pow2(s + ct) % Pow2(ct), And(lbl, BELOW_LEVEL) / Pow2(s) % Pow2(ct))
  {
    PositionIntendedUnfolded(info, lbl, ct, s);
    IntendedField(And(lbl, BELOW_LEVEL), ct, s + 2 * ct);
    IntendedField(And(lbl, BELOW_LEVEL), ct, s + ct);
    IntendedField(And(lbl, BELOW_LEVEL), ct, s);
  }

  /** With at least 8 layer bits the intended coordinates lie wholly below the level byte. */
  lemma PositionIntendedIsLowFields(info: GraphInfo, lbl: U64, ct: nat, s: nat)
    requires Fits(info) && DecodeLevel(info, lbl) in info.spatialBitMasks && LayerBits(info) >= 8
    requires ct == info.spatialBitMasks[DecodeLevel(info, lbl)] && s == 64 - LayerBits(info) - 3 * ct
    ensures PositionIntended(info, lbl).Ok?
    ensures PositionIntended(info, lbl).value == (lbl / Pow2(s + 2 * ct) % Pow2(ct), lbl / Pow2(s + ct) % Pow2(ct), lbl / Pow2(s) % Pow2(ct))
  {
    PositionIntendedUnfolded(info, lbl, ct, s);
    IntendedCoordinateLow(lbl, ct, s + 2 * ct);
    IntendedCoordinateLow(lbl, ct, s + ct);
    IntendedCoordinateLow(lbl, ct, s);
  }

  /** `decode_label` with the intended segment id and chunk position. */
  function DecodeLabelIntended(info: GraphInfo, lbl: U64): Result<Label, KeyError>
    requires Fits(info)
  {
    var position := PositionIntended(info, lbl);
    var segid := SegidIntended(info, lbl);
    if position.Err? then Err(position.error)
    else if segid.Err? then Err(segid.error)
    else Ok(Label(DecodeLevel(info, lbl), position.value.0, position.value.1, position.value.2, segid.value))
  }

  // ---------------------------------------------------------------------------
  // A reference encoder for the default layout, and the round trip.

  /** Fields that fit the default layout (8 layer bits) at `level`. */
  predicate Encodable(info: GraphInfo, level: nat, x: nat, y: nat, z: nat, segid: nat)
    requires Fits(info)
  {
    LayerBits(info) == 8 && level < 256 && level in info.spatialBitMasks
    && x < Pow2(info.spatialBitMasks[level]) && y < Pow2(info.spatialBitMasks[level])
    && z < Pow2(info.spatialBitMasks[level]) && segid < Pow2(56 - 3 * info.spatialBitMasks[level])
  }

  /** The powers of two of the default layout, with `s + 3ct == 56`. */
  lemma LayoutPowers(ct: nat, s: nat)
    requires s + 3 * ct == 56
    ensures Pow2(s) * Pow2(ct) == Pow2(s + ct)
    ensures Pow2(s + ct) * Pow2(ct) == Pow2(s + 2 * ct)
    ensures Pow2(s + 2 * ct) * Pow2(ct) == Pow2(56)
    ensures Pow2(ct) * Pow2(ct) * Pow2(ct) == Pow2(3 * ct)
    ensures Pow2(8) == 256 && Pow2(8) * Pow2(ct) * Pow2(ct) * Pow2(ct) * Pow2(s) == TWO_64
    ensures Widths(Pow2(ct), Pow2(s), Pow2(s + ct), Pow2(s + 2 * ct), Pow2(56), Pow2(3 * ct))
  {
    Pow2Add(s, ct);
    Pow2Add(s + ct, ct);
    Pow2Add(s + 2 * ct, ct);
    Pow2Add(ct, ct);
    Pow2Add(2 * ct, ct);
    Pow2Add(8, ct);
    Pow2Add(8 + ct, ct);
    Pow2Add(8 + 2 * ct, ct);
    Pow2Add(8 + 3 * ct, s);
    Two64();
  }

  /** The label with these fields: level, x, y and z of `ct` bits each, then the segment id. */
  function EncodeLabel(info: GraphInfo, level: nat, x: nat, y: nat, z: nat, segid: nat): U64
    requires Fits(info) && Encodable(info, level, x, y, z, segid)
  {
    EncodedFits(info, level, x, y, z, segid, info.spatialBitMasks[level]);
    Packed(level, x, y, z, segid, Pow2(info.spatialBitMasks[level]), Pow2(56 - 3 * info.spatialBitMasks[level]))
  }

  /** The packed fields of an encodable label fit in 64 bits. */
  lemma EncodedFits(info: GraphInfo, level: nat, x: nat, y: nat, z: nat, segid: nat, ct: nat)
    requires Fits(info) && Encodable(info, level, x, y, z, segid) && ct == info.spatialBitMasks[level]
    ensures Packed(level, x, y, z, segid, Pow2(ct), Pow2(56 - 3 * ct)) < TWO_64
  {
    LayoutTotal(ct, 56 - 3 * ct);
    PackedFits(level, x, y, z, segid, Pow2(8), Pow2(ct), Pow2(56 - 3 * ct));
  }

  /** The widths of the default layout multiply to 2^64. */
  lemma LayoutTotal(ct: nat, s: nat)
    requires s + 3 * ct == 56
    ensures Pow2(8) == 256 && Pow2(8) * Pow2(ct) * Pow2(ct) * Pow2(ct) * Pow2(s) == TWO_64
  {
    Pow2Sum5(8, ct, ct, ct, s);
    assert 8 + ct + ct + ct + s == 64;
    Two64();
  }

  /** x, y and z of `ct` bits each, side by side, x the most significant. */
  function ChunkCoordinates(x: nat, y: nat, z: nat, ct: nat): nat {
    Digits3(x, y, z, Pow2(ct))
  }

  /** The fields of an encoded label, as quotients and remainders by powers of two. */
  lemma EncodedFields(info: GraphInfo, level: nat, x: nat, y: nat, z: nat, segid: nat, ct: nat, s: nat, lbl: U64)
    requires Fits(info) && Encodable(info, level, x, y, z, segid)
    requires ct == info.spatialBitMasks[level] && s == 56 - 3 * ct && lbl == EncodeLabel(info, level, x, y, z, segid)
    ensures lbl % Pow2(s) == segid && lbl / Pow2(s) % Pow2(ct) == z
    ensures lbl / Pow2(s + ct) % Pow2(ct) == y && lbl / Pow2(s + 2 * ct) % Pow2(ct) == x
    ensures lbl / Pow2(56) == level
    ensures lbl / Pow2(s) % Pow2(3 * ct) == ChunkCoordinates(x, y, z, ct)
  {
    assert lbl == Packed(level, x, y, z, segid, Pow2(ct), Pow2(s));
    LayoutPowers(ct, s);
    Unpack(level, x, y, z, segid, Pow2(ct), Pow2(s), Pow2(s + ct), Pow2(s + 2 * ct), Pow2(56), Pow2(3 * ct));
  }

  /** An encoded label decodes to its level. */
  lemma EncodedLevel(info: GraphInfo, level: nat, x: nat, y: nat, z: nat, segid: nat)
    requires Fits(info) && Encodable(info, level, x, y, z, segid)
    ensures DecodeLevel(info, EncodeLabel(info, level, x, y, z, segid)) == level
  {
    var ct := info.spatialBitMasks[level];
    var lbl := EncodeLabel(info, level, x, y, z, segid);
    EncodedFields(info, level, x, y, z, segid, ct, 56 - 3 * ct, lbl);
    LevelIsTopByte(info, lbl);
  }

  /** The intended decoders invert the encoder. */
  lemma IntendedRoundTrip(info: GraphInfo, level: U64, x: U64, y: U64, z: U64, segid: U64)
    requires Fits(info) && Encodable(info, level, x, y, z, segid)
    ensures DecodeLevel(info, EncodeLabel(info, level, x, y, z, segid)) == level
    ensures DecodeLabelIntended(info, EncodeLabel(info, level, x, y, z, segid)) == Ok(Label(level, x, y, z, segid))
  {
    var ct := info.spatialBitMasks[level];
    var s := 56 - 3 * ct;
    var lbl := EncodeLabel(info, level, x, y, z, segid);
    EncodedFields(info, level, x, y, z, segid, ct, s, lbl);
    LevelIsTopByte(info, lbl);
    IntendedDecodesFields(info, lbl, level, x, y, z, segid, ct, s);
  }

  /** `decode_chunk_id` of an encoded label is its x, y and z packed together. */
  lemma ChunkIdRoundTrip(info: GraphInfo, level: U64, x: U64, y: U64, z: U64, segid: U64)
    requires Fits(info) && Encodable(info, level, x, y, z, segid)
    ensures DecodeChunkId(info, EncodeLabel(info, level, x, y, z, segid)) == Ok(ChunkCoordinates(x, y, z, info.spatialBitMasks[level]))
  {
    var ct := info.spatialBitMasks[level];
    var s := 56 - 3 * ct;
    var lbl := EncodeLabel(info, level, x, y, z, segid);
    EncodedFields(info, level, x, y, z, segid, ct, s, lbl);
    LevelIsTopByte(info, lbl);
    ChunkIdOfFields(info, lbl, level, ct, s, ChunkCoordinates(x, y, z, ct));
  }

  /** A label of the default layout whose fields are these decodes to them. */
  lemma IntendedDecodesFields(info: GraphInfo, lbl: U64, level: U64, x: U64, y: U64, z: U64, segid: U64, ct: nat, s: nat)
    requires Fits(info) && LayerBits(info) == 8 && level in info.spatialBitMasks
    requires ct == info.spatialBitMasks[level] && s == 56 - 3 * ct
    requires DecodeLevel(info, lbl) == level
    requires lbl % Pow2(s) == segid && lbl / Pow2(s) % Pow2(ct) == z
    requires lbl / Pow2(s + ct) % Pow2(ct) == y && lbl / Pow2(s + 2 * ct) % Pow2(ct) == x
    ensures DecodeLabelIntended(info, lbl) == Ok(Label(level, x, y, z, segid))
  {
    SegidIntendedIsLowBits(info, lbl);
    PositionIntendedIsLowFields(info, lbl, ct, s);
  }

  /** In the default layout `decode_chunk_id` is the `3ct`-bit field above the segment id. */
  lemma ChunkIdOfFields(info: GraphInfo, lbl: U64, level: U64, ct: nat, s: nat, c: int)
    requires Fits(info) && LayerBits(info) == 8 && level in info.spatialBitMasks
    requires ct == info.spatialBitMasks[level] && s == 56 - 3 * ct
    requires DecodeLevel(info, lbl) == level && lbl / Pow2(s) % Pow2(3 * ct) == c
    ensures DecodeChunkId(info, lbl) == Ok(c)
  {
    ChunkIdIsField(info, lbl);
    ModDiv(lbl, s, 3 * ct);
  }

  // ---------------------------------------------------------------------------
  // Labels on which the decoders as written go wrong.

  /** The label 1 at level 0: its segment id is 1, yet `decode_segid` returns 0. */
  lemma SegidOffByOne(info: GraphInfo)
    requires Fits(info) && 0 in info.spatialBitMasks && LayerBits(info) + 3 * info.spatialBitMasks[0] < 64
    ensures DecodeLevel(info, 1) == 0
    ensures SegidAsWritten(info, 1) == Ok(0)
    ensures SegidIntended(info, 1) == Ok(1)
  {
    AndOne(LEVEL_MASK);
    ShrZero(64 - LayerBits(info));
    var s := 64 - LayerBits(info) - 3 * info.spatialBitMasks[0];
    LoopMaskIsNotLowOnes(s);
    AndOne(LoopMask(s));
    AndOne(LowOnes(s));
  }

  /** The number with only bit `k` set, `1 << k`. */
  function Bit(k: nat): U64
    requires k < 64
  {
    Pow2Monotone(k + 1, 64);
    Two64();
    Pow2(k)
  }

  /** A bit below the level byte leaves the level byte and the bits below it as they are. */
  lemma BitBelowLevel(s: nat)
    requires s < 56
    ensures Bit(s) / Pow2(56) == 0 && Bit(s) % Pow2(56) == Bit(s)
  {
    Pow2Monotone(s + 1, 56);
    assert Pow2(s + 1) == 2 * Pow2(s);
    SmallDiv(Pow2(s), Pow2(56));
  }

  /** The label 2^s at level 0, z = 1 in the default layout: `decode_chunk_position` reads its z as 0. */
  lemma PositionOffByOne(info: GraphInfo)
    requires Fits(info) && LayerBits(info) == 8 && 0 in info.spatialBitMasks && info.spatialBitMasks[0] >= 1
    ensures var s := 56 - 3 * info.spatialBitMasks[0];
      DecodeLevel(info, Bit(s)) == 0
      && PositionAsWritten(info, Bit(s)).Ok? && PositionAsWritten(info, Bit(s)).value.2 == 0
      && PositionIntended(info, Bit(s)).Ok? && PositionIntended(info, Bit(s)).value.2 == 1
  {
    var ct := info.spatialBitMasks[0];
    var s := 56 - 3 * ct;
    var lbl := Bit(s);
    BitBelowLevel(s);
    BelowLevel(lbl);
    LevelIsTopByte(info, lbl);
    PositionAsWrittenIsShiftedFields(info, lbl, ct, s);
    PositionIntendedIsLowFields(info, lbl, ct, s);
    BitFields(s, ct);
  }
}
