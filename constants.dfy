/**
 * The sizes that src/server/Constants.js exports. That file is not part of
 * this model, so the sizes are left unspecified: each component is only known
 * to be a positive real. (The default layout in Pieces.js places pieces
 * 62.5 apart, which suggests a square size of 62.5.)
 */
module Constants {

  type PositiveReal = r: real | r > 0.0 witness 1.0

  /** `Constants.hitboxSize`: the square drawn around a piece by a hitbox. */
  const HitboxW: PositiveReal
  const HitboxH: PositiveReal

  /** `Constants.sqSize`: one board square, the unit of the hitbox templates. */
  const SqW: PositiveReal
  const SqH: PositiveReal

  /** `Constants.sqSizeQuarter`: the offset that centres a hitbox on a square. */
  const SqQuarterW: PositiveReal
  const SqQuarterH: PositiveReal
}
