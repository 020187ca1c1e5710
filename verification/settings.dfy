/** The configuration record a grid is built from (read-only for the grid's
    lifetime), with the bounds its validation schema enforces. */
module Config {

  datatype Settings = Settings(
    width: int,
    height: int,
    minWordLength: int,
    maxWordLength: int,
    blockMustHaveDefinition: bool,
    allLettersMustBeConnected: bool,   // accepted, read by no rule
    blocksCanTouch: bool,
    allowWordsAlongFirstRowColumn: bool,
    blocksDensity: real,
    maxBlockIslandSize: int,           // accepted, read by no rule
    animation: int                     // accepted, read by no rule
  )

  /** The bounds of the settings schema. */
  predicate Valid(s: Settings) {
    && s.width >= 2
    && s.height >= 2
    && s.minWordLength >= 1
    && s.maxWordLength >= 2
    && 0.0 <= s.blocksDensity <= 1.0
    && s.maxBlockIslandSize >= 1
    && s.animation >= 0
  }

  /** Width of the sliding window of definition counts kept by the
      measurement pass: `min(width, maxWordLength)`, for both the vertical
      and the horizontal pass. */
  function WindowWidth(s: Settings): (w: nat)
    requires Valid(s)
    ensures 2 <= w
    ensures w <= s.width && w <= s.maxWordLength
    ensures w == s.width || w == s.maxWordLength
  {
    if s.width <= s.maxWordLength then s.width else s.maxWordLength
  }
}
