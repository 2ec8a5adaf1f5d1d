/**
 * Colour values and the fixed colour-name table shared by both versions of
 * the colour engine, with the text helpers the parsers use.
 */
module Palette {

  /** An RGBA colour with integer channels, as the parsers and the gradient cache hold them. */
  datatype Colour = Colour(r: int, g: int, b: int, a: int)

  /** An RGBA colour with real channels: an averaged anchor, or a legacy colour after scaling. */
  datatype Anchor = Anchor(r: real, g: real, b: real, a: real)

  predicate InByteRange(c: Colour) {
    0 <= c.r <= 255 && 0 <= c.g <= 255 && 0 <= c.b <= 255 && 0 <= c.a <= 255
  }

  predicate AnchorInRange(c: Anchor, lo: real, hi: real) {
    lo <= c.r <= hi && lo <= c.g <= hi && lo <= c.b <= hi && lo <= c.a <= hi
  }

  function ToAnchor(c: Colour): Anchor {
    Anchor(c.r as real, c.g as real, c.b as real, c.a as real)
  }

  /** The named colours, in the order the table is written. */
  const COLOURS_MAIN: seq<(string, Colour)> := [
    ("red", Colour(255, 0, 0, 255)),
    ("green", Colour(0, 255, 0, 255)),
    ("blue", Colour(0, 0, 255, 255)),
    ("yellow", Colour(255, 255, 0, 255)),
    ("cyan", Colour(0, 255, 255, 255)),
    ("magenta", Colour(255, 0, 255, 255)),
    ("white", Colour(255, 255, 255, 255)),
    ("grey", Colour(127, 127, 127, 255)),
    ("gray", Colour(127, 127, 127, 255)),
    ("black", Colour(0, 0, 0, 255)),
    ("orange", Colour(255, 127, 0, 255)),
    ("pink", Colour(255, 0, 127, 255)),
    ("purple", Colour(127, 0, 255, 255)),
    ("sky", Colour(0, 164, 255, 255))
  ]

  /**
   * The preset colour maps, each a name and the colour text it stands for;
   * both versions of the engine share the same table.
   */
  const MAPS: map<string, string> := map[
    "jet" := "BlackToDarkBlueToBlueToCyanBlueBlueBlueToCyanBlueToCyanCyanCyanBlueToCyanCyanCyanYellowToCyanYellowToCyanYellowYellowYellowToYellowToOrangeToRedOrangeToRed",
    "transparentjet" := "TransparentBlackToTranslucentTranslucentDarkBlueToTranslucentBlueToTranslucentCyanTranslucentBlueBlueBlueToCyanBlueToCyanCyanCyanBlueToCyanCyanCyanYellowToCyanYellowToCyanYellowYellowYellowToYellowToOrangeToRedOrangeToRed",
    "radiation" := "BlackToRedToYellowToWhiteToWhiteWhiteWhiteLightLightGrey",
    "transparentradiation" := "TransparentBlackToTranslucentRedToYellowToWhiteToWhiteWhiteWhiteLightLightGrey",
    "default" := "WhiteToBlack",
    "citrus" := "BlackToDarkDarkGreyToDarkGreenToYellow",
    "ice" := "BlackToDarkBlueToDarkBlueLightDarkCyanToLightBlueDarkCyanToWhite",
    "neon" := "BlackToPurpleToPinkToBlackToPink",
    "sunburst" := "DarkDarkGrayToOrangeToBlackToOrangeToYellow",
    "demon" := "WhiteToRedToBlackToWhite",
    "chalk" := "BlackToWhite",
    "lightning" := "DarkPurpleToLightMagentaToLightGrayToWhiteToWhite",
    "hazard" := "WhiteToBlackToYellow",
    "razer" := "BlackToDarkGreyToBlackToDarkGreenToGreenToBlack",
    "sketch" := "LightGreyToBlackToDarkPurpleToWhiteToLightGreyToBlackToBlue",
    "grape" := "WhiteToBlackToMagenta",
    "spiderman" := "RedToBlackToWhite",
    "shroud" := "GreyToBlackToLightPurple",
    "blackwidow" := "PurpleToLightCyanWhiteToPurpleToBlack",
    "aqua" := "WhiteToWhiteWhiteLightCyanSkyToSkyToSkyBlue",
    "fire" := "WhiteToWhiteWhiteYellowLightOrangeToWhiteYellowLightOrangeToWhiteYellowOrangeToWhiteLightYellowRedLightRedOrangeToYellowLightYellowRedDarkOrangeToRedDarkRedDarkRed",
    "fire3" := "WhiteToWhiteWhiteYellowLightOrangeToWhiteYellowLightOrangeToWhiteYellowOrangeToLightRedOrangeOrangeToLightYellowRedDarkOrangeToRedDarkRedDarkRed",
    "fire2" := "WhiteToWhiteWhiteYellowLightOrangeToWhiteYellowLightOrangeToWhiteYellowOrangeToLightRedOrangeOrangeToLightYellowRedRedDarkOrangeToDarkRed",
    "ivy" := "WhiteToBlueGreenGreenToBlack",
    "matrix" := "BlackBlackBlackBlackDarkGreenDarkDarkGreyToBlackBlackBlackBlackBlackGreyGreenToBlackBlackDarkGreyGreenToGreen",
    "nature" := "WhiteToWhiteLightYellowLightGreenLightLightGreyToLightYellowGreenLightGreenToDarkGreen",
    "linearfire" := "WhiteToYellowLightOrangeToLightYellowOrangeRedDarkRedToDarkOrangeOrangeRedToBlackBlackOrangeRedDarkRedToRedDarkRedDarkRed",
    "linearmatrix" := "BlackBlackBlackBlackBlackDarkGreenDarkDarkGreyToGreen",
    "linearnature" := "WhiteToDarkGreen"
  ]

  lemma Assoc(a: string, b: string, c: string)
    ensures (a + b) + c == a + (b + c)
  {}

  predicate StartsWith(s: string, p: string) {
    |p| <= |s| && s[..|p|] == p
  }

  function LowerChar(c: char): char {
    if 'A' <= c <= 'Z' then (c as int + 32) as char else c
  }

  /** Lower-casing of the ASCII letters; every other character is kept. */
  function Lower(s: string): (r: string)
    ensures |r| == |s|
    ensures forall i :: 0 <= i < |s| ==> r[i] == LowerChar(s[i])
  {
    seq(|s|, i requires 0 <= i < |s| => LowerChar(s[i]))
  }
}
