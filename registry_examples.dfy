/** Two lookups worked through: a preset, and a name with a single colour. */
module RegistryExamples {
  import opened Wrappers
  import opened Palette
  import opened Descriptor
  import opened DescriptorWords
  import opened DescriptorFacts
  import opened DescriptorExamples
  import opened Registry

  const BLACK := Colour(0, 0, 0, 255)
  const WHITE := Colour(255, 255, 255, 255)

  lemma Entries()
    ensures COLOURS_MAIN[9].1 == BLACK && COLOURS_MAIN[6].1 == WHITE && COLOURS_MAIN[2].1 == BLUE
  {}

  lemma SpellBlackToWhite()
    ensures Lower("BlackToWhite") == Spelling([ColourWord(9), SeparatorWord, ColourWord(6)])
  {
    assert "BlackToWhite" == "Black" + "To" + "White";
    LowerAppend("Black" + "To", "White");
    LowerAppend("Black", "To");
    assert Lower("Black") == "black" && Lower("To") == "to" && Lower("White") == "white";
  }

  lemma ReadBlackToWhite()
    ensures Interpret([ColourWord(9), SeparatorWord, ColourWord(6)], INIT) == Ok(State([[BLACK]], [WHITE], 1, [], 1))
  {
    var st1 := State([], [BLACK], 1, [], 1);
    var st2 := State([[BLACK]], [], 1, [], 1);
    Entries();
    AppendSmall([], BLACK);
    AppendSmall([], WHITE);
    AppendSmall([], [BLACK]);
    SelectPlain(6, st2, [WHITE]);
    InterpretCons(ColourWord(6), [], st2);
    assert Apply(SeparatorWord, st1) == Ok(st2);
    InterpretCons(SeparatorWord, [ColourWord(6)], st1);
    SelectPlain(9, INIT, [BLACK]);
    InterpretCons(ColourWord(9), [SeparatorWord, ColourWord(6)], INIT);
  }

  lemma FinishBlackToWhite(st: State)
    requires st == State([[BLACK]], [WHITE], 1, [], 1)
    ensures Finish(st) == Ok([ToAnchor(BLACK), ToAnchor(WHITE)])
  {
    FinishOutcome(st);
    MeanOne(BLACK);
    MeanOne(WHITE);
    var r := Finish(st).value;
    assert |r| == 2 && r[0] == ToAnchor(BLACK) && r[1] == ToAnchor(WHITE);
    assert r == [ToAnchor(BLACK), ToAnchor(WHITE)];
  }

  lemma ParseBlackToWhite()
    ensures Parse("BlackToWhite") == Ok([ToAnchor(BLACK), ToAnchor(WHITE)])
  {
    SpellBlackToWhite();
    ParseSpelling("BlackToWhite", [ColourWord(9), SeparatorWord, ColourWord(6)]);
    ReadBlackToWhite();
    FinishBlackToWhite(State([[BLACK]], [WHITE], 1, [], 1));
  }

  lemma ChalkPreset()
    ensures Lower("Chalk") == "chalk" && "chalk" in MAPS && MAPS["chalk"] == "BlackToWhite"
  {}

  /** The preset `Chalk`, in any case, is black to white. */
  lemma Chalk()
    ensures ColourMapGet("Chalk") == Ok([ToAnchor(BLACK), ToAnchor(WHITE)])
  {
    ChalkPreset();
    ParseBlackToWhite();
  }

  lemma BlueNotPreset()
    ensures Lower("Blue") == "blue" && "blue" !in MAPS
  {}

  lemma ParseBlue()
    ensures Parse("Blue") == Ok([ToAnchor(BLUE)])
  {
    assert Lower("Blue") == Spelling([ColourWord(2)]);
    ParseSpelling("Blue", [ColourWord(2)]);
    AppendSmall([], BLUE);
    SelectPlain(2, INIT, [BLUE]);
    InterpretCons(ColourWord(2), [], INIT);
    OneGroup([BLUE]);
    MeanOne(BLUE);
  }

  /** `Blue` is no preset and a single colour is too few for a map. */
  lemma BlueAlone()
    ensures ColourMapGet("Blue") == Err(NotEnoughColours)
  {
    BlueNotPreset();
    ParseBlue();
  }
}
