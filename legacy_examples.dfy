/**
 * Colour texts worked through the older parser: modifiers taken last-written
 * first and unbounded colour channels, queued modifiers that survive `to`,
 * the empty group `to` leaves behind, and two colour-map lookups.
 */
module LegacyExamples {
  import opened Wrappers
  import opened Palette
  import opened Legacy
  import opened LegacyFacts
  import opened RegistryExamples
  import Descriptor
  import DescriptorExamples

  const LIGHT_M := Mult(128.0, 0.5, 1.0)
  const DARK_M := Mult(0.0, 0.5, 1.0)
  const RED_A := Anchor(255.0, 0.0, 0.0, 255.0)

  lemma Tables()
    ensures COLOUR_MODIFIERS[0] == ("light", LIGHT_M) && COLOUR_MODIFIERS[1] == ("dark", DARK_M)
    ensures COLOURS_MAIN[0].0 == "red" && ToAnchor(COLOURS_MAIN[0].1) == RED_A
    ensures COLOURS_MAIN[2].0 == "blue" && COLOURS_MAIN[6].0 == "white" && COLOURS_MAIN[9].0 == "black"
    ensures COLOURS_MAIN[6].1 == WHITE && COLOURS_MAIN[9].1 == BLACK
  {}

  lemma JoinOne(x: Anchor)
    ensures Join([x]) == Some(x)
  {
    assert SumAnchors([x]) == AddAnchors(SumAnchors([]), x);
  }

  // ---- LightWhite ----

  lemma SpellLightWhite()
    ensures Text([ModifierName(0), ColourName(6)]) == "LightWhite"
  {
    Tables();
  }

  lemma EffectsLightWhite(x: Anchor)
    requires x == Anchor(255.5, 255.5, 255.5, 255.0)
    ensures Effects([ModifierName(0), ColourName(6)], START) == Accum([], [x], [], "")
  {
    Tables();
    var st1 := Accum([], [], [LIGHT_M], "");
    assert Effect(ModifierName(0), START) == st1;
    assert ApplyMults([LIGHT_M], ToAnchor(WHITE)) == x;
    assert Effect(ColourName(6), st1) == Accum([], [x], [], "");
    assert [ModifierName(0), ColourName(6)][1..] == [ColourName(6)];
  }

  /**
   * `LightWhite`: the light modifier lifts each channel to 128 + 255 / 2, and
   * the older parser does not cap colour channels.
   */
  lemma LightWhite()
    ensures ParseLegacy("LightWhite") == Ok([Some(Anchor(255.5, 255.5, 255.5, 255.0))])
  {
    var ws := [ModifierName(0), ColourName(6)];
    var x := Anchor(255.5, 255.5, 255.5, 255.0);
    SpellLightWhite();
    EffectsLightWhite(x);
    JoinOne(x);
    assert Effects(ws, START).final + [Join(Effects(ws, START).temp)] == [Some(x)];
    ParseWords(ws);
  }

  // ---- DarkLightRed ----

  lemma SpellDarkLightRed()
    ensures Text([ModifierName(1), ModifierName(0), ColourName(0)]) == "Dark" + "Light" + "Red"
  {
    Tables();
  }

  lemma EffectsDarkLightRed(y: Anchor)
    requires y == Anchor(127.75, 64.0, 64.0, 255.0)
    ensures Effects([ModifierName(1), ModifierName(0), ColourName(0)], START) == Accum([], [y], [], "")
  {
    Tables();
    var st1 := Accum([], [], [DARK_M], "");
    var st2 := Accum([], [], [DARK_M, LIGHT_M], "");
    assert Effect(ModifierName(1), START) == st1;
    assert Effect(ModifierName(0), st1) == st2;
    assert ApplyMults([DARK_M, LIGHT_M], RED_A) == y by {
      LastModifierFirst([DARK_M], LIGHT_M, RED_A);
      assert [DARK_M] + [LIGHT_M] == [DARK_M, LIGHT_M];
      assert ApplyMult(LIGHT_M, RED_A) == Anchor(255.5, 128.0, 128.0, 255.0);
    }
    assert Effect(ColourName(0), st2) == Accum([], [y], [], "");
    var ws := [ModifierName(1), ModifierName(0), ColourName(0)];
    assert ws[1..] == [ModifierName(0), ColourName(0)] && ws[1..][1..] == [ColourName(0)];
  }

  /** `DarkLightRed`: light is applied first, then dark, so the channels are halved after lifting. */
  lemma DarkLightRed()
    ensures ParseLegacy("Dark" + "Light" + "Red") == Ok([Some(Anchor(127.75, 64.0, 64.0, 255.0))])
  {
    var ws := [ModifierName(1), ModifierName(0), ColourName(0)];
    var y := Anchor(127.75, 64.0, 64.0, 255.0);
    SpellDarkLightRed();
    EffectsDarkLightRed(y);
    JoinOne(y);
    assert Effects(ws, START).final + [Join(Effects(ws, START).temp)] == [Some(y)];
    ParseWords(ws);
  }

  // ---- BlueRed ----

  const BLUE_A := Anchor(0.0, 0.0, 255.0, 255.0)

  lemma SpellBlueRed()
    ensures Text([ColourName(2), ColourName(0)]) == "BlueRed"
  {
    Tables();
  }

  lemma EffectsBlueRed()
    ensures Effects([ColourName(2), ColourName(0)], START) == Accum([], [BLUE_A, RED_A], [], "")
  {
    Tables();
    assert ToAnchor(COLOURS_MAIN[2].1) == BLUE_A;
    var st1 := Accum([], [BLUE_A], [], "");
    assert Effect(ColourName(2), START) == st1;
    assert Effect(ColourName(0), st1) == Accum([], [BLUE_A, RED_A], [], "");
    var ws := [ColourName(2), ColourName(0)];
    assert ws[1..] == [ColourName(0)];
  }

  lemma SumTwo(x: Anchor, y: Anchor)
    ensures SumAnchors([x, y]) == AddAnchors(AddAnchors(Anchor(0.0, 0.0, 0.0, 0.0), x), y)
  {
    assert [x, y][..1] == [x];
    assert [x][..0] == [];
    assert SumAnchors([x]) == AddAnchors(Anchor(0.0, 0.0, 0.0, 0.0), x);
    assert SumAnchors([x, y]) == AddAnchors(SumAnchors([x]), y);
  }

  lemma JoinBlueRed()
    ensures Join([BLUE_A, RED_A]) == Some(Anchor(127.5, 0.0, 127.5, 255.0))
  {
    SumTwo(BLUE_A, RED_A);
  }

  /** `BlueRed`: two colours in one group merge to their exact channelwise mean. */
  lemma BlueRed()
    ensures ParseLegacy("BlueRed") == Ok([Some(Anchor(127.5, 0.0, 127.5, 255.0))])
  {
    var ws := [ColourName(2), ColourName(0)];
    var p := Anchor(127.5, 0.0, 127.5, 255.0);
    SpellBlueRed();
    EffectsBlueRed();
    JoinBlueRed();
    assert Effects(ws, START).final + [Join(Effects(ws, START).temp)] == [Some(p)];
    ParseWords(ws);
  }

  // ---- LightToRed ----

  lemma SpellLightToRed()
    ensures Text([ModifierName(0), ToWord, ColourName(0)]) == "LightToRed"
  {
    Tables();
  }

  lemma EffectsLightToRed(z: Anchor)
    requires z == Anchor(255.5, 128.0, 128.0, 255.0)
    ensures Effects([ModifierName(0), ToWord, ColourName(0)], START) == Accum([None], [z], [], "")
  {
    Tables();
    var st1 := Accum([], [], [LIGHT_M], "");
    var st2 := Accum([None], [], [LIGHT_M], "");
    assert Effect(ModifierName(0), START) == st1;
    assert Effect(ToWord, st1) == st2;
    assert ApplyMults([LIGHT_M], RED_A) == z;
    assert Effect(ColourName(0), st2) == Accum([None], [z], [], "");
    var ws := [ModifierName(0), ToWord, ColourName(0)];
    assert ws[1..] == [ToWord, ColourName(0)] && ws[1..][1..] == [ColourName(0)];
  }

  /**
   * `LightToRed`: `to` closes an empty group, which merges to the empty
   * tuple, and the light modifier is still waiting when red arrives.
   */
  lemma LightToRed()
    ensures ParseLegacy("LightToRed") == Ok([None, Some(Anchor(255.5, 128.0, 128.0, 255.0))])
  {
    var ws := [ModifierName(0), ToWord, ColourName(0)];
    var z := Anchor(255.5, 128.0, 128.0, 255.0);
    SpellLightToRed();
    EffectsLightToRed(z);
    JoinOne(z);
    assert Effects(ws, START).final + [Join(Effects(ws, START).temp)] == [None, Some(z)];
    ParseWords(ws);
  }

  // ---- RedTo ----

  lemma SpellRedTo()
    ensures Text([ColourName(0), ToWord]) == "RedTo"
  {
    Tables();
  }

  lemma EffectsRedTo()
    ensures Effects([ColourName(0), ToWord], START) == Accum([Some(RED_A)], [], [], "")
  {
    Tables();
    var st1 := Accum([], [RED_A], [], "");
    assert Effect(ColourName(0), START) == st1;
    JoinOne(RED_A);
    assert Effect(ToWord, st1) == Accum([Some(RED_A)], [], [], "");
    var ws := [ColourName(0), ToWord];
    assert ws[1..] == [ToWord];
  }

  /** `RedTo`: a trailing `to` leaves an empty last group. */
  lemma RedTo()
    ensures ParseLegacy("RedTo") == Ok([Some(RED_A), None])
  {
    var ws := [ColourName(0), ToWord];
    SpellRedTo();
    EffectsRedTo();
    assert Effects(ws, START).final + [Join(Effects(ws, START).temp)] == [Some(RED_A), None];
    ParseWords(ws);
  }

  /**
   * The two parsers read `DarkLightRed` in opposite orders: the current one
   * applies dark and then light, the older one light and then dark.
   */
  lemma ModifierOrderDiffers()
    ensures Descriptor.Parse("Dark" + "Light" + "Red") == Ok([Anchor(191.0, 128.0, 128.0, 255.0)])
    ensures ParseLegacy("Dark" + "Light" + "Red") == Ok([Some(Anchor(127.75, 64.0, 64.0, 255.0))])
  {
    DescriptorExamples.DarkLightRed();
    DarkLightRed();
  }

  // ---- Colour-map lookups ----

  lemma LegacyParseRed()
    ensures ParseLegacy("Red") == Ok([Some(RED_A)])
  {
    var ws := [ColourName(0)];
    Tables();
    assert Text(ws) == "Red";
    assert Effects(ws, START) == Accum([], [RED_A], [], "");
    JoinOne(RED_A);
    assert Effects(ws, START).final + [Join(Effects(ws, START).temp)] == [Some(RED_A)];
    ParseWords(ws);
  }

  lemma RedNotPreset()
    ensures Lower("Red") == "red" && "red" !in MAPS
  {}

  /** `Red` is no preset, and a single group is too few for a map. */
  lemma RedAlone()
    ensures LegacyColourMapGet("Red") == Err(Legacy.NotEnoughColours)
  {
    RedNotPreset();
    LegacyParseRed();
  }

  lemma TextBlackToWhite()
    ensures Text([ColourName(9), ToWord, ColourName(6)]) == "BlackToWhite"
  {
    Tables();
  }

  lemma EffectsBlackToWhite(b: Anchor, w: Anchor)
    requires b == ToAnchor(BLACK) && w == ToAnchor(WHITE)
    ensures Effects([ColourName(9), ToWord, ColourName(6)], START) == Accum([Some(b)], [w], [], "")
  {
    Tables();
    var st1 := Accum([], [b], [], "");
    var st2 := Accum([Some(b)], [], [], "");
    assert Effect(ColourName(9), START) == st1;
    JoinOne(b);
    assert Effect(ToWord, st1) == st2;
    assert Effect(ColourName(6), st2) == Accum([Some(b)], [w], [], "");
    var ws := [ColourName(9), ToWord, ColourName(6)];
    assert ws[1..] == [ToWord, ColourName(6)] && ws[1..][1..] == [ColourName(6)];
  }

  lemma LegacyParseBlackToWhite()
    ensures ParseLegacy("BlackToWhite") == Ok([Some(ToAnchor(BLACK)), Some(ToAnchor(WHITE))])
  {
    var ws := [ColourName(9), ToWord, ColourName(6)];
    var b, w := ToAnchor(BLACK), ToAnchor(WHITE);
    TextBlackToWhite();
    EffectsBlackToWhite(b, w);
    JoinOne(w);
    assert Effects(ws, START).final + [Join(Effects(ws, START).temp)] == [Some(b), Some(w)];
    ParseWords(ws);
  }

  /** The older lookup reads the preset `Chalk` as black to white too. */
  lemma LegacyChalk()
    ensures LegacyColourMapGet("Chalk") == Ok([Some(ToAnchor(BLACK)), Some(ToAnchor(WHITE))])
  {
    ChalkPreset();
    LegacyParseBlackToWhite();
  }
}
