/**
 * Worked examples of the current descriptor language. Each text is spelled
 * as words, read word by word, and merged. The texts are written as
 * concatenations of their words only to keep the proofs small.
 */
module DescriptorExamples {
  import opened Wrappers
  import opened Palette
  import opened Descriptor
  import opened DescriptorWords
  import opened DescriptorFacts

  const RED := Colour(255, 0, 0, 255)
  const BLUE := Colour(0, 0, 255, 255)
  const DARK_RED := Colour(127, 0, 0, 255)
  /** Red darkened, then lightened. */
  const LIGHT_DARK_RED := Colour(191, 128, 128, 255)
  /** Red darkened three times, then lightened. */
  const LIGHT_DARKEST_RED := Colour(143, 128, 128, 255)

  // ---- Small facts the examples share ----

  lemma LowerAppend(a: string, b: string)
    ensures Lower(a + b) == Lower(a) + Lower(b)
  {}

  lemma RepeatSmall<T>(x: T)
    ensures Repeat(x, 1) == [x] && Repeat(x, 2) == [x, x] && Repeat(x, 3) == [x, x, x]
  {}

  lemma AppendSmall<T>(s: seq<T>, x: T)
    ensures [] + s == s && s + [] == s
    ensures [] + Repeat(x, 1) == [x] && [] + Repeat(x, 2) == [x, x] && [] + Repeat(x, 3) == [x, x, x]
    ensures s + Repeat(x, 1) == s + [x]
  {
    RepeatSmall(x);
  }

  lemma SumSmall(x: Colour, y: Colour)
    ensures Sum([x]) == x
    ensures Sum([x, y]) == Add(x, y)
  {
    assert [x, y][..1] == [x];
  }

  lemma MeanOne(x: Colour)
    ensures Mean([x]) == ToAnchor(x)
  {
    SumSmall(x, x);
  }

  lemma MeanTwo(x: Colour, y: Colour)
    ensures Mean([x, y]) == Anchor((x.r + y.r) as real / 2.0, (x.g + y.g) as real / 2.0,
                                    (x.b + y.b) as real / 2.0, (x.a + y.a) as real / 2.0)
  {
    SumSmall(x, y);
  }

  lemma OneGroup(g: seq<Colour>)
    requires g != []
    ensures Finish(State([], g, 1, [], 1)) == Ok([Mean(g)])
  {
    FinishOutcome(State([], g, 1, [], 1));
    var r := Finish(State([], g, 1, [], 1)).value;
    assert |r| == 1 && r[0] == Mean(g);
    assert r == [Mean(g)];
  }

  /** A colour name selects its table entry; red and blue are entries 0 and 2. */
  lemma ColourStep(k: nat, st: State)
    requires k < |COLOURS_MAIN| && Inv(st)
    ensures Apply(ColourWord(k), st) == Select(COLOURS_MAIN[k].1, st)
    ensures COLOURS_MAIN[0].1 == RED && COLOURS_MAIN[2].1 == BLUE
  {}

  lemma DarkRed(mods: seq<Modifier>, c: Colour)
    requires mods == [DARK] && c == RED
    ensures ApplyModifiers(mods, c) == Ok(DARK_RED)
  {
    DarkEffect(RED);
    ApplyModifiersCons(DARK, [], RED);
  }

  /** `red` with `dark` pending. */
  lemma SelectDarkRed(st: State, cur: seq<Colour>)
    requires Inv(st) && st.mods == [DARK] && cur == st.cur + Repeat(DARK_RED, st.dup)
    ensures Apply(ColourWord(0), st) == Ok(State(st.closed, cur, st.copies, [], 1))
  {
    assert Select(RED, st) == Ok(State(st.closed, cur, st.copies, [], 1)) by {
      DarkRed(st.mods, RED);
    }
    ColourStep(0, st);
  }

  /** A colour name with nothing pending. */
  lemma SelectPlain(k: nat, st: State, cur: seq<Colour>)
    requires k < |COLOURS_MAIN| && Inv(st) && st.mods == [] && cur == st.cur + Repeat(COLOURS_MAIN[k].1, st.dup)
    ensures Apply(ColourWord(k), st) == Ok(State(st.closed, cur, st.copies, [], 1))
  {
    ColourStep(k, st);
    assert ApplyModifiers([], COLOURS_MAIN[k].1) == Ok(COLOURS_MAIN[k].1);
  }

  lemma SpellingCons(w: Word, ws: seq<Word>)
    requires WellFormed(w) && AllWellFormed(ws)
    ensures AllWellFormed([w] + ws) && Spelling([w] + ws) == Spell(w) + Spelling(ws)
  {
    assert ([w] + ws)[0] == w && ([w] + ws)[1..] == ws;
  }

  lemma SpellingFour(a: Word, b: Word, c: Word, d: Word)
    requires WellFormed(a) && WellFormed(b) && WellFormed(c) && WellFormed(d)
    ensures AllWellFormed([a, b, c, d])
    ensures Spelling([a, b, c, d]) == Spell(a) + Spell(b) + Spell(c) + Spell(d)
  {
    SpellingCons(d, []);
    assert [d] + [] == [d] && Spell(d) + [] == Spell(d);
    SpellingCons(c, [d]);
    assert [c] + [d] == [c, d];
    SpellingCons(b, [c, d]);
    assert [b] + [c, d] == [b, c, d];
    Assoc(Spell(b), Spell(c), Spell(d));
    SpellingCons(a, [b, c, d]);
    assert [a] + [b, c, d] == [a, b, c, d];
    Assoc(Spell(a), Spell(b), Spell(c));
    Assoc(Spell(a), Spell(b) + Spell(c), Spell(d));
  }

  lemma SpellingFive(a: Word, b: Word, c: Word, d: Word, e: Word)
    requires WellFormed(a) && WellFormed(b) && WellFormed(c) && WellFormed(d) && WellFormed(e)
    ensures AllWellFormed([a, b, c, d, e])
    ensures Spelling([a, b, c, d, e]) == Spell(a) + Spell(b) + Spell(c) + Spell(d) + Spell(e)
  {
    SpellingFour(b, c, d, e);
    SpellingCons(a, [b, c, d, e]);
    assert [a] + [b, c, d, e] == [a, b, c, d, e];
    var x := Spell(b) + Spell(c);
    var y := x + Spell(d);
    Assoc(Spell(a), Spell(b), Spell(c));
    Assoc(Spell(a), x, Spell(d));
    Assoc(Spell(a), y, Spell(e));
  }

  lemma SpellingSeven(a: Word, b: Word, c: Word, d: Word, e: Word, f: Word, g: Word)
    requires WellFormed(a) && WellFormed(b) && WellFormed(c) && WellFormed(d)
    requires WellFormed(e) && WellFormed(f) && WellFormed(g)
    ensures AllWellFormed([a, b, c, d, e, f, g])
    ensures Spelling([a, b, c, d, e, f, g])
         == Spell(a) + Spell(b) + Spell(c) + Spell(d) + Spell(e) + Spell(f) + Spell(g)
  {
    SpellingFive(c, d, e, f, g);
    SpellingCons(b, [c, d, e, f, g]);
    assert [b] + [c, d, e, f, g] == [b, c, d, e, f, g];
    SpellingCons(a, [b, c, d, e, f, g]);
    assert [a] + [b, c, d, e, f, g] == [a, b, c, d, e, f, g];
    var r1 := Spell(c) + Spell(d);
    var r2 := r1 + Spell(e);
    var r3 := r2 + Spell(f);
    var l := Spell(a) + Spell(b);
    Assoc(Spell(a), Spell(b), r3 + Spell(g));
    Assoc(l, r3, Spell(g));
    Assoc(l, r2, Spell(f));
    Assoc(l, r1, Spell(e));
    Assoc(l, Spell(c), Spell(d));
  }

  // ---- `DarkDoubleRed` and `DarkRedDarkRed` ----

  lemma SpellDarkDoubleRed()
    ensures Lower("Dark" + "Double" + "Red") == Spelling([ModifierWord(1), DuplicateWord(1), ColourWord(0)])
  {
    LowerAppend("Dark" + "Double", "Red");
    LowerAppend("Dark", "Double");
    assert Lower("Dark") == "dark" && Lower("Double") == "double" && Lower("Red") == "red";
  }

  lemma SpellDarkRedDarkRed()
    ensures Lower("Dark" + "Red" + "Dark" + "Red")
         == Spelling([ModifierWord(1), ColourWord(0), ModifierWord(1), ColourWord(0)])
  {
    LowerAppend("Dark" + "Red" + "Dark", "Red");
    LowerAppend("Dark" + "Red", "Dark");
    LowerAppend("Dark", "Red");
    assert Lower("Dark") == "dark" && Lower("Red") == "red";
    SpellingFour(ModifierWord(1), ColourWord(0), ModifierWord(1), ColourWord(0));
    assert Spell(ModifierWord(1)) == "dark" && Spell(ColourWord(0)) == "red";
  }

  lemma ReadDarkDoubleRed()
    ensures Interpret([ModifierWord(1), DuplicateWord(1), ColourWord(0)], INIT)
         == Ok(State([], [DARK_RED, DARK_RED], 1, [], 1))
  {
    var st1 := State([], [], 1, [DARK], 1);
    AppendSmall([], DARK);
    assert Apply(ModifierWord(1), INIT) == Ok(st1);
    InterpretCons(ModifierWord(1), [DuplicateWord(1), ColourWord(0)], INIT);
    ReadDoubleRed(st1);
  }

  lemma ReadDoubleRed(st1: State)
    requires st1 == State([], [], 1, [DARK], 1)
    ensures Interpret([DuplicateWord(1), ColourWord(0)], st1) == Ok(State([], [DARK_RED, DARK_RED], 1, [], 1))
  {
    var st2 := State([], [], 1, [DARK], 2);
    assert Apply(DuplicateWord(1), st1) == Ok(st2);
    InterpretCons(DuplicateWord(1), [ColourWord(0)], st1);
    ReadRedTwice(st2);
  }

  lemma ReadRedTwice(st2: State)
    requires st2 == State([], [], 1, [DARK], 2)
    ensures Interpret([ColourWord(0)], st2) == Ok(State([], [DARK_RED, DARK_RED], 1, [], 1))
  {
    AppendSmall([], DARK_RED);
    SelectDarkRed(st2, [DARK_RED, DARK_RED]);
    InterpretCons(ColourWord(0), [], st2);
  }

  lemma ReadDarkRedDarkRed()
    ensures Interpret([ModifierWord(1), ColourWord(0), ModifierWord(1), ColourWord(0)], INIT)
         == Ok(State([], [DARK_RED, DARK_RED], 1, [], 1))
  {
    var st1 := State([], [], 1, [DARK], 1);
    AppendSmall([], DARK);
    assert Apply(ModifierWord(1), INIT) == Ok(st1);
    InterpretCons(ModifierWord(1), [ColourWord(0), ModifierWord(1), ColourWord(0)], INIT);
    ReadRedDarkRed(st1);
  }

  lemma ReadRedDarkRed(st1: State)
    requires st1 == State([], [], 1, [DARK], 1)
    ensures Interpret([ColourWord(0), ModifierWord(1), ColourWord(0)], st1) == Ok(State([], [DARK_RED, DARK_RED], 1, [], 1))
  {
    var st2 := State([], [DARK_RED], 1, [], 1);
    AppendSmall([], DARK_RED);
    SelectDarkRed(st1, [DARK_RED]);
    InterpretCons(ColourWord(0), [ModifierWord(1), ColourWord(0)], st1);
    ReadSecondDarkRed(st2);
  }

  lemma ReadSecondDarkRed(st2: State)
    requires st2 == State([], [DARK_RED], 1, [], 1)
    ensures Interpret([ModifierWord(1), ColourWord(0)], st2) == Ok(State([], [DARK_RED, DARK_RED], 1, [], 1))
  {
    var st3 := State([], [DARK_RED], 1, [DARK], 1);
    AppendSmall([], DARK);
    assert Apply(ModifierWord(1), st2) == Ok(st3);
    InterpretCons(ModifierWord(1), [ColourWord(0)], st2);
    AppendSmall([DARK_RED], DARK_RED);
    SelectDarkRed(st3, [DARK_RED, DARK_RED]);
    InterpretCons(ColourWord(0), [], st3);
  }

  lemma FinishTwoDarkReds(st: State)
    requires st == State([], [DARK_RED, DARK_RED], 1, [], 1)
    ensures Finish(st) == Ok([Anchor(127.0, 0.0, 0.0, 255.0)])
  {
    OneGroup([DARK_RED, DARK_RED]);
    MeanTwo(DARK_RED, DARK_RED);
  }

  lemma ParseDarkRedDarkRed()
    ensures Parse("Dark" + "Red" + "Dark" + "Red") == Ok([Anchor(127.0, 0.0, 0.0, 255.0)])
  {
    SpellDarkRedDarkRed();
    ParseSpelling("Dark" + "Red" + "Dark" + "Red", [ModifierWord(1), ColourWord(0), ModifierWord(1), ColourWord(0)]);
    ReadDarkRedDarkRed();
    FinishTwoDarkReds(State([], [DARK_RED, DARK_RED], 1, [], 1));
  }

  /** `DarkDoubleRed` and `DarkRedDarkRed` both read as two dark reds, whose mean is one dark red. */
  lemma DarkDoubleRed()
    ensures Parse("Dark" + "Double" + "Red") == Ok([Anchor(127.0, 0.0, 0.0, 255.0)])
    ensures Parse("Dark" + "Red" + "Dark" + "Red") == Parse("Dark" + "Double" + "Red")
  {
    SpellDarkDoubleRed();
    ParseSpelling("Dark" + "Double" + "Red", [ModifierWord(1), DuplicateWord(1), ColourWord(0)]);
    ReadDarkDoubleRed();
    FinishTwoDarkReds(State([], [DARK_RED, DARK_RED], 1, [], 1));
    ParseDarkRedDarkRed();
  }

  // ---- `TripleDarkLightRed` and `DarkDarkDarkLightRed` ----

  lemma SpellTripleDarkLightRed()
    ensures Lower("Triple" + "Dark" + "Light" + "Red")
         == Spelling([DuplicateWord(2), ModifierWord(1), ModifierWord(0), ColourWord(0)])
  {
    LowerAppend("Triple" + "Dark" + "Light", "Red");
    LowerAppend("Triple" + "Dark", "Light");
    LowerAppend("Triple", "Dark");
    assert Lower("Triple") == "triple" && Lower("Dark") == "dark";
    assert Lower("Light") == "light" && Lower("Red") == "red";
    SpellingFour(DuplicateWord(2), ModifierWord(1), ModifierWord(0), ColourWord(0));
    assert Spell(DuplicateWord(2)) == "triple" && Spell(ModifierWord(1)) == "dark";
    assert Spell(ModifierWord(0)) == "light" && Spell(ColourWord(0)) == "red";
  }

  lemma SpellDarkDarkDarkLightRed()
    ensures Lower("Dark" + "Dark" + "Dark" + "Light" + "Red")
         == Spelling([ModifierWord(1), ModifierWord(1), ModifierWord(1), ModifierWord(0), ColourWord(0)])
  {
    LowerAppend("Dark" + "Dark" + "Dark" + "Light", "Red");
    LowerAppend("Dark" + "Dark" + "Dark", "Light");
    LowerAppend("Dark" + "Dark", "Dark");
    LowerAppend("Dark", "Dark");
    assert Lower("Dark") == "dark" && Lower("Light") == "light" && Lower("Red") == "red";
    SpellingFive(ModifierWord(1), ModifierWord(1), ModifierWord(1), ModifierWord(0), ColourWord(0));
    assert Spell(ModifierWord(1)) == "dark" && Spell(ModifierWord(0)) == "light" && Spell(ColourWord(0)) == "red";
  }

  /** Red darkened three times and then lightened. */
  lemma DarkestThenLight(mods: seq<Modifier>, c: Colour)
    requires mods == [DARK, DARK, DARK, LIGHT] && c == RED
    ensures ApplyModifiers(mods, c) == Ok(LIGHT_DARKEST_RED)
  {
    DarkEffect(RED);
    DarkEffect(Colour(127, 0, 0, 255));
    DarkEffect(Colour(63, 0, 0, 255));
    LightEffect(Colour(31, 0, 0, 255));
    ApplyModifiersCons(DARK, [DARK, DARK, LIGHT], RED);
    ApplyModifiersCons(DARK, [DARK, LIGHT], Colour(127, 0, 0, 255));
    ApplyModifiersCons(DARK, [LIGHT], Colour(63, 0, 0, 255));
    ApplyModifiersCons(LIGHT, [], Colour(31, 0, 0, 255));
  }

  /** `red` with three darks and a light pending. */
  lemma SelectLightDarkestRed(st: State)
    requires st == State([], [], 1, [DARK, DARK, DARK, LIGHT], 1)
    ensures Apply(ColourWord(0), st) == Ok(State([], [LIGHT_DARKEST_RED], 1, [], 1))
  {
    assert Select(RED, st) == Ok(State([], [LIGHT_DARKEST_RED], 1, [], 1)) by {
      DarkestThenLight(st.mods, RED);
      AppendSmall([], LIGHT_DARKEST_RED);
    }
    ColourStep(0, st);
  }

  /** With three darks pending, `light` then `red` give one colour. */
  lemma ReadPendingRed(st: State)
    requires st == State([], [], 1, [DARK, DARK, DARK], 1)
    ensures Interpret([ModifierWord(0), ColourWord(0)], st) == Ok(State([], [LIGHT_DARKEST_RED], 1, [], 1))
  {
    var st1 := State([], [], 1, [DARK, DARK, DARK, LIGHT], 1);
    AppendSmall([DARK, DARK, DARK], LIGHT);
    assert [DARK, DARK, DARK] + [LIGHT] == [DARK, DARK, DARK, LIGHT];
    SelectLightDarkestRed(st1);
    InterpretCons(ColourWord(0), [], st1);
    assert Apply(ModifierWord(0), st) == Ok(st1);
    InterpretCons(ModifierWord(0), [ColourWord(0)], st);
  }

  lemma ReadTripleDarkLightRed()
    ensures Interpret([DuplicateWord(2), ModifierWord(1), ModifierWord(0), ColourWord(0)], INIT)
         == Ok(State([], [LIGHT_DARKEST_RED], 1, [], 1))
  {
    var st1 := State([], [], 1, [], 3);
    assert Apply(DuplicateWord(2), INIT) == Ok(st1);
    InterpretCons(DuplicateWord(2), [ModifierWord(1), ModifierWord(0), ColourWord(0)], INIT);
    ReadTripledDark(st1);
  }

  lemma ReadTripledDark(st1: State)
    requires st1 == State([], [], 1, [], 3)
    ensures Interpret([ModifierWord(1), ModifierWord(0), ColourWord(0)], st1) == Ok(State([], [LIGHT_DARKEST_RED], 1, [], 1))
  {
    var st2 := State([], [], 1, [DARK, DARK, DARK], 1);
    AppendSmall([], DARK);
    assert Apply(ModifierWord(1), st1) == Ok(st2);
    InterpretCons(ModifierWord(1), [ModifierWord(0), ColourWord(0)], st1);
    ReadPendingRed(st2);
  }

  lemma ReadDarkDarkDarkLightRed()
    ensures Interpret([ModifierWord(1), ModifierWord(1), ModifierWord(1), ModifierWord(0), ColourWord(0)], INIT)
         == Ok(State([], [LIGHT_DARKEST_RED], 1, [], 1))
  {
    var st1 := State([], [], 1, [DARK], 1);
    AppendSmall([], DARK);
    assert Apply(ModifierWord(1), INIT) == Ok(st1);
    InterpretCons(ModifierWord(1), [ModifierWord(1), ModifierWord(1), ModifierWord(0), ColourWord(0)], INIT);
    ReadDarkDarkAfterDark(st1);
  }

  lemma ReadDarkDarkAfterDark(st1: State)
    requires st1 == State([], [], 1, [DARK], 1)
    ensures Interpret([ModifierWord(1), ModifierWord(1), ModifierWord(0), ColourWord(0)], st1)
         == Ok(State([], [LIGHT_DARKEST_RED], 1, [], 1))
  {
    var st2 := State([], [], 1, [DARK, DARK], 1);
    AppendSmall([DARK], DARK);
    assert [DARK] + [DARK] == [DARK, DARK];
    assert Apply(ModifierWord(1), st1) == Ok(st2);
    InterpretCons(ModifierWord(1), [ModifierWord(1), ModifierWord(0), ColourWord(0)], st1);
    ReadDarkAfterTwoDarks(st2);
  }

  lemma ReadDarkAfterTwoDarks(st2: State)
    requires st2 == State([], [], 1, [DARK, DARK], 1)
    ensures Interpret([ModifierWord(1), ModifierWord(0), ColourWord(0)], st2)
         == Ok(State([], [LIGHT_DARKEST_RED], 1, [], 1))
  {
    var st3 := State([], [], 1, [DARK, DARK, DARK], 1);
    AppendSmall([DARK, DARK], DARK);
    assert [DARK, DARK] + [DARK] == [DARK, DARK, DARK];
    assert Apply(ModifierWord(1), st2) == Ok(st3);
    InterpretCons(ModifierWord(1), [ModifierWord(0), ColourWord(0)], st2);
    ReadPendingRed(st3);
  }

  lemma FinishLightDarkestRed(st: State)
    requires st == State([], [LIGHT_DARKEST_RED], 1, [], 1)
    ensures Finish(st) == Ok([Anchor(143.0, 128.0, 128.0, 255.0)])
  {
    OneGroup([LIGHT_DARKEST_RED]);
    MeanOne(LIGHT_DARKEST_RED);
  }

  /**
   * `TripleDarkLightRed` is `DarkDarkDarkLightRed`: a duplicate word repeats
   * the next modifier and nothing else. Red darkened three times is 31, and
   * lightening that gives 143.
   */
  lemma TripleDarkLightRed()
    ensures Parse("Triple" + "Dark" + "Light" + "Red") == Ok([Anchor(143.0, 128.0, 128.0, 255.0)])
    ensures Parse("Dark" + "Dark" + "Dark" + "Light" + "Red") == Parse("Triple" + "Dark" + "Light" + "Red")
  {
    ParseTripleDarkLightRed();
    ParseDarkDarkDarkLightRed();
  }

  lemma ParseTripleDarkLightRed()
    ensures Parse("Triple" + "Dark" + "Light" + "Red") == Ok([Anchor(143.0, 128.0, 128.0, 255.0)])
  {
    SpellTripleDarkLightRed();
    ParseSpelling("Triple" + "Dark" + "Light" + "Red",
                  [DuplicateWord(2), ModifierWord(1), ModifierWord(0), ColourWord(0)]);
    ReadTripleDarkLightRed();
    FinishLightDarkestRed(State([], [LIGHT_DARKEST_RED], 1, [], 1));
  }

  lemma ParseDarkDarkDarkLightRed()
    ensures Parse("Dark" + "Dark" + "Dark" + "Light" + "Red") == Ok([Anchor(143.0, 128.0, 128.0, 255.0)])
  {
    SpellDarkDarkDarkLightRed();
    ParseSpelling("Dark" + "Dark" + "Dark" + "Light" + "Red",
                  [ModifierWord(1), ModifierWord(1), ModifierWord(1), ModifierWord(0), ColourWord(0)]);
    ReadDarkDarkDarkLightRed();
    FinishLightDarkestRed(State([], [LIGHT_DARKEST_RED], 1, [], 1));
  }

  // ---- `DarkLightRed`: the modifiers apply in the order written ----

  lemma SpellDarkLightRed()
    ensures Lower("Dark" + "Light" + "Red") == Spelling([ModifierWord(1), ModifierWord(0), ColourWord(0)])
  {
    LowerAppend("Dark" + "Light", "Red");
    LowerAppend("Dark", "Light");
    assert Lower("Dark") == "dark" && Lower("Light") == "light" && Lower("Red") == "red";
  }

  lemma DarkThenLight(mods: seq<Modifier>, c: Colour)
    requires mods == [DARK, LIGHT] && c == RED
    ensures ApplyModifiers(mods, c) == Ok(LIGHT_DARK_RED)
  {
    DarkEffect(RED);
    LightEffect(DARK_RED);
    ApplyModifiersCons(DARK, [LIGHT], RED);
    ApplyModifiersCons(LIGHT, [], DARK_RED);
  }

  /** `red` with `dark` and then `light` pending. */
  lemma SelectLightDarkRed(st: State)
    requires st == State([], [], 1, [DARK, LIGHT], 1)
    ensures Apply(ColourWord(0), st) == Ok(State([], [LIGHT_DARK_RED], 1, [], 1))
  {
    assert Select(RED, st) == Ok(State([], [LIGHT_DARK_RED], 1, [], 1)) by {
      DarkThenLight(st.mods, RED);
      AppendSmall([], LIGHT_DARK_RED);
    }
    ColourStep(0, st);
  }

  lemma ReadDarkLightRed()
    ensures Interpret([ModifierWord(1), ModifierWord(0), ColourWord(0)], INIT)
         == Ok(State([], [LIGHT_DARK_RED], 1, [], 1))
  {
    var st1 := State([], [], 1, [DARK], 1);
    AppendSmall([], DARK);
    assert Apply(ModifierWord(1), INIT) == Ok(st1);
    InterpretCons(ModifierWord(1), [ModifierWord(0), ColourWord(0)], INIT);
    ReadLightRed(st1);
  }

  lemma ReadLightRed(st1: State)
    requires st1 == State([], [], 1, [DARK], 1)
    ensures Interpret([ModifierWord(0), ColourWord(0)], st1) == Ok(State([], [LIGHT_DARK_RED], 1, [], 1))
  {
    var st2 := State([], [], 1, [DARK, LIGHT], 1);
    AppendSmall([DARK], LIGHT);
    assert [DARK] + [LIGHT] == [DARK, LIGHT];
    assert Apply(ModifierWord(0), st1) == Ok(st2);
    InterpretCons(ModifierWord(0), [ColourWord(0)], st1);
    ReadRedAfter(st2);
  }

  lemma ReadRedAfter(st2: State)
    requires st2 == State([], [], 1, [DARK, LIGHT], 1)
    ensures Interpret([ColourWord(0)], st2) == Ok(State([], [LIGHT_DARK_RED], 1, [], 1))
  {
    SelectLightDarkRed(st2);
    InterpretCons(ColourWord(0), [], st2);
  }

  lemma FinishLightDarkRed(st: State)
    requires st == State([], [LIGHT_DARK_RED], 1, [], 1)
    ensures Finish(st) == Ok([Anchor(191.0, 128.0, 128.0, 255.0)])
  {
    OneGroup([LIGHT_DARK_RED]);
    MeanOne(LIGHT_DARK_RED);
  }

  /**
   * Modifiers apply front to back: `DarkLightRed` darkens red to 127 and
   * then lightens it to 191; the other way round it would be (127, 64, 64).
   */
  lemma DarkLightRed()
    ensures Parse("Dark" + "Light" + "Red") == Ok([Anchor(191.0, 128.0, 128.0, 255.0)])
  {
    SpellDarkLightRed();
    ParseSpelling("Dark" + "Light" + "Red", [ModifierWord(1), ModifierWord(0), ColourWord(0)]);
    ReadDarkLightRed();
    FinishLightDarkRed(State([], [LIGHT_DARK_RED], 1, [], 1));
  }

  // ---- `BlueDoubleToDarkRed` ----

  lemma LowerBlueDouble()
    ensures Lower("Blue" + "Double" + "To") == "blue" + "double" + "to"
  {
    LowerAppend("Blue" + "Double", "To");
    LowerAppend("Blue", "Double");
    assert Lower("Blue") == "blue" && Lower("Double") == "double" && Lower("To") == "to";
  }

  lemma LowerBlueDoubleToDarkRed()
    ensures Lower("Blue" + "Double" + "To" + "Dark" + "Red") == "blue" + "double" + "to" + "dark" + "red"
  {
    LowerAppend("Blue" + "Double" + "To" + "Dark", "Red");
    LowerAppend("Blue" + "Double" + "To", "Dark");
    LowerBlueDouble();
    assert Lower("Dark") == "dark" && Lower("Red") == "red";
  }

  lemma SpellBlueDoubleToDarkRed()
    ensures Lower("Blue" + "Double" + "To" + "Dark" + "Red")
         == Spelling([ColourWord(2), DuplicateWord(1), SeparatorWord, ModifierWord(1), ColourWord(0)])
  {
    LowerBlueDoubleToDarkRed();
    SpellingFive(ColourWord(2), DuplicateWord(1), SeparatorWord, ModifierWord(1), ColourWord(0));
    assert Spell(ColourWord(2)) == "blue" && Spell(DuplicateWord(1)) == "double" && Spell(SeparatorWord) == "to";
    assert Spell(ModifierWord(1)) == "dark" && Spell(ColourWord(0)) == "red";
  }

  /** A text that opens with `blue`. */
  lemma ReadFirstBlue(rest: seq<Word>)
    requires AllWellFormed(rest) && (rest == [] || !rest[0].HexWord?)
    ensures AllWellFormed([ColourWord(2)] + rest)
    ensures Interpret([ColourWord(2)] + rest, INIT) == Interpret(rest, State([], [BLUE], 1, [], 1))
  {
    AppendSmall([], BLUE);
    SelectPlain(2, INIT, [BLUE]);
    InterpretCons(ColourWord(2), rest, INIT);
  }

  lemma ReadDarkRedAfterTo(st: State)
    requires st == State([[BLUE]], [], 2, [], 1)
    ensures Interpret([ModifierWord(1), ColourWord(0)], st) == Ok(State([[BLUE]], [DARK_RED], 2, [], 1))
  {
    var st1 := State([[BLUE]], [], 2, [DARK], 1);
    AppendSmall([], DARK_RED);
    AppendSmall([], DARK);
    SelectDarkRed(st1, [DARK_RED]);
    InterpretCons(ColourWord(0), [], st1);
    assert Apply(ModifierWord(1), st) == Ok(st1);
    InterpretCons(ModifierWord(1), [ColourWord(0)], st);
  }

  lemma ReadBlueDoubleToDarkRed()
    ensures Interpret([ColourWord(2), DuplicateWord(1), SeparatorWord, ModifierWord(1), ColourWord(0)], INIT)
         == Ok(State([[BLUE]], [DARK_RED], 2, [], 1))
  {
    var rest := [DuplicateWord(1), SeparatorWord, ModifierWord(1), ColourWord(0)];
    assert [ColourWord(2)] + rest == [ColourWord(2), DuplicateWord(1), SeparatorWord, ModifierWord(1), ColourWord(0)];
    ReadFirstBlue(rest);
    ReadDoubleToDarkRed(State([], [BLUE], 1, [], 1));
  }

  lemma ReadDoubleToDarkRed(st1: State)
    requires st1 == State([], [BLUE], 1, [], 1)
    ensures Interpret([DuplicateWord(1), SeparatorWord, ModifierWord(1), ColourWord(0)], st1)
         == Ok(State([[BLUE]], [DARK_RED], 2, [], 1))
  {
    var st2 := State([], [BLUE], 1, [], 2);
    assert Apply(DuplicateWord(1), st1) == Ok(st2);
    InterpretCons(DuplicateWord(1), [SeparatorWord, ModifierWord(1), ColourWord(0)], st1);
    ReadToDarkRed(st2);
  }

  lemma ReadToDarkRed(st2: State)
    requires st2 == State([], [BLUE], 1, [], 2)
    ensures Interpret([SeparatorWord, ModifierWord(1), ColourWord(0)], st2)
         == Ok(State([[BLUE]], [DARK_RED], 2, [], 1))
  {
    var st3 := State([[BLUE]], [], 2, [], 1);
    AppendSmall([], [BLUE]);
    assert Apply(SeparatorWord, st2) == Ok(st3);
    InterpretCons(SeparatorWord, [ModifierWord(1), ColourWord(0)], st2);
    ReadDarkRedAfterTo(st3);
  }

  lemma FinishBlueDarkRedDarkRed(st: State)
    requires st == State([[BLUE]], [DARK_RED], 2, [], 1)
    ensures Finish(st) == Ok([ToAnchor(BLUE), ToAnchor(DARK_RED), ToAnchor(DARK_RED)])
  {
    FinishOutcome(st);
    MeanOne(BLUE);
    MeanOne(DARK_RED);
    var r := Finish(st).value;
    assert |r| == 3 && r[0] == ToAnchor(BLUE) && r[1] == ToAnchor(DARK_RED) && r[2] == ToAnchor(DARK_RED);
    assert r == [ToAnchor(BLUE), ToAnchor(DARK_RED), ToAnchor(DARK_RED)];
  }

  lemma LowerBlueToDarkRed()
    ensures Lower("Blue" + "To" + "Dark" + "Red") == "blue" + "to" + "dark" + "red"
  {
    LowerAppend("Blue" + "To" + "Dark", "Red");
    LowerAppend("Blue" + "To", "Dark");
    LowerAppend("Blue", "To");
    assert Lower("Blue") == "blue" && Lower("To") == "to" && Lower("Dark") == "dark" && Lower("Red") == "red";
  }

  lemma LowerBlueToDarkRedToDarkRed()
    ensures Lower("Blue" + "To" + "Dark" + "Red" + "To" + "Dark" + "Red")
         == "blue" + "to" + "dark" + "red" + "to" + "dark" + "red"
  {
    LowerAppend("Blue" + "To" + "Dark" + "Red" + "To" + "Dark", "Red");
    LowerAppend("Blue" + "To" + "Dark" + "Red" + "To", "Dark");
    LowerAppend("Blue" + "To" + "Dark" + "Red", "To");
    LowerBlueToDarkRed();
    assert Lower("To") == "to" && Lower("Dark") == "dark" && Lower("Red") == "red";
  }

  lemma SpellBlueToDarkRedToDarkRed()
    ensures Lower("Blue" + "To" + "Dark" + "Red" + "To" + "Dark" + "Red")
         == Spelling([ColourWord(2), SeparatorWord, ModifierWord(1), ColourWord(0), SeparatorWord, ModifierWord(1), ColourWord(0)])
  {
    LowerBlueToDarkRedToDarkRed();
    SpellingSeven(ColourWord(2), SeparatorWord, ModifierWord(1), ColourWord(0), SeparatorWord, ModifierWord(1), ColourWord(0));
    assert Spell(ColourWord(2)) == "blue" && Spell(SeparatorWord) == "to";
    assert Spell(ModifierWord(1)) == "dark" && Spell(ColourWord(0)) == "red";
  }

  lemma ConsTwo<T>(a: T, b: T, rest: seq<T>)
    ensures [a] + ([b] + rest) == [a, b] + rest
  {}

  /** `dark` then `red`, with nothing pending, add dark red to the open group. */
  lemma ReadDarkRedOnto(rest: seq<Word>, st: State)
    requires Inv(st) && st.dup == 1 && st.mods == [] && AllWellFormed(rest) && (rest == [] || !rest[0].HexWord?)
    ensures AllWellFormed([ModifierWord(1), ColourWord(0)] + rest)
    ensures Interpret([ModifierWord(1), ColourWord(0)] + rest, st) == Interpret(rest, st.(cur := st.cur + [DARK_RED]))
  {
    assert ApplyModifier(MODIFIERS[1].1, COLOURS_MAIN[0].1) == Ok(DARK_RED) by {
      ColourStep(0, st);
      assert MODIFIERS[1].1 == DARK;
      DarkEffect(RED);
    }
    ConsTwo(ModifierWord(1), ColourWord(0), rest);
    ModifiedColourOnce(1, 0, rest, st);
  }

  lemma ReadSecondToDarkRed(st: State)
    requires st == State([[BLUE]], [DARK_RED], 1, [], 1)
    ensures Interpret([SeparatorWord, ModifierWord(1), ColourWord(0)], st)
         == Ok(State([[BLUE], [DARK_RED]], [DARK_RED], 1, [], 1))
  {
    var st1 := State([[BLUE], [DARK_RED]], [], 1, [], 1);
    RepeatSmall([DARK_RED]);
    assert st.closed + Repeat(st.cur, st.copies) == [[BLUE], [DARK_RED]];
    assert Apply(SeparatorWord, st) == Ok(st1);
    assert [ModifierWord(1), ColourWord(0)] + [] == [ModifierWord(1), ColourWord(0)];
    assert st1.(cur := st1.cur + [DARK_RED]) == State([[BLUE], [DARK_RED]], [DARK_RED], 1, [], 1);
    InterpretCons(SeparatorWord, [ModifierWord(1), ColourWord(0)], st);
    ReadDarkRedOnto([], st1);
  }

  lemma ReadTwoDarkReds(st: State)
    requires st == State([[BLUE]], [], 1, [], 1)
    ensures Interpret([ModifierWord(1), ColourWord(0), SeparatorWord, ModifierWord(1), ColourWord(0)], st)
         == Ok(State([[BLUE], [DARK_RED]], [DARK_RED], 1, [], 1))
  {
    assert [ModifierWord(1), ColourWord(0)] + [SeparatorWord, ModifierWord(1), ColourWord(0)]
        == [ModifierWord(1), ColourWord(0), SeparatorWord, ModifierWord(1), ColourWord(0)];
    assert st.(cur := st.cur + [DARK_RED]) == State([[BLUE]], [DARK_RED], 1, [], 1);
    ReadDarkRedOnto([SeparatorWord, ModifierWord(1), ColourWord(0)], st);
    ReadSecondToDarkRed(State([[BLUE]], [DARK_RED], 1, [], 1));
  }

  lemma ReadBlueToDarkRedToDarkRed()
    ensures Interpret([ColourWord(2), SeparatorWord, ModifierWord(1), ColourWord(0), SeparatorWord, ModifierWord(1), ColourWord(0)], INIT)
         == Ok(State([[BLUE], [DARK_RED]], [DARK_RED], 1, [], 1))
  {
    var rest := [SeparatorWord, ModifierWord(1), ColourWord(0), SeparatorWord, ModifierWord(1), ColourWord(0)];
    assert [ColourWord(2)] + rest
        == [ColourWord(2), SeparatorWord, ModifierWord(1), ColourWord(0), SeparatorWord, ModifierWord(1), ColourWord(0)];
    ReadFirstBlue(rest);
    ReadToTwoDarkReds(State([], [BLUE], 1, [], 1));
  }

  lemma ReadToTwoDarkReds(st1: State)
    requires st1 == State([], [BLUE], 1, [], 1)
    ensures Interpret([SeparatorWord, ModifierWord(1), ColourWord(0), SeparatorWord, ModifierWord(1), ColourWord(0)], st1)
         == Ok(State([[BLUE], [DARK_RED]], [DARK_RED], 1, [], 1))
  {
    var st2 := State([[BLUE]], [], 1, [], 1);
    RepeatSmall([BLUE]);
    AppendSmall([], [BLUE]);
    assert Apply(SeparatorWord, st1) == Ok(st2);
    InterpretCons(SeparatorWord, [ModifierWord(1), ColourWord(0), SeparatorWord, ModifierWord(1), ColourWord(0)], st1);
    ReadTwoDarkReds(st2);
  }

  lemma FinishBlueDarkRedThenDarkRed(st: State)
    requires st == State([[BLUE], [DARK_RED]], [DARK_RED], 1, [], 1)
    ensures Finish(st) == Ok([ToAnchor(BLUE), ToAnchor(DARK_RED), ToAnchor(DARK_RED)])
  {
    FinishOutcome(st);
    MeanOne(BLUE);
    MeanOne(DARK_RED);
    var r := Finish(st).value;
    assert |r| == 3 && r[0] == ToAnchor(BLUE) && r[1] == ToAnchor(DARK_RED) && r[2] == ToAnchor(DARK_RED);
    assert r == [ToAnchor(BLUE), ToAnchor(DARK_RED), ToAnchor(DARK_RED)];
  }

  lemma ParseBlueToDarkRedToDarkRed()
    ensures Parse("Blue" + "To" + "Dark" + "Red" + "To" + "Dark" + "Red")
         == Ok([ToAnchor(BLUE), ToAnchor(DARK_RED), ToAnchor(DARK_RED)])
  {
    SpellBlueToDarkRedToDarkRed();
    ParseSpelling("Blue" + "To" + "Dark" + "Red" + "To" + "Dark" + "Red",
                  [ColourWord(2), SeparatorWord, ModifierWord(1), ColourWord(0), SeparatorWord, ModifierWord(1), ColourWord(0)]);
    ReadBlueToDarkRedToDarkRed();
    FinishBlueDarkRedThenDarkRed(State([[BLUE], [DARK_RED]], [DARK_RED], 1, [], 1));
  }

  lemma ParseBlueDoubleToDarkRed()
    ensures Parse("Blue" + "Double" + "To" + "Dark" + "Red")
         == Ok([ToAnchor(BLUE), ToAnchor(DARK_RED), ToAnchor(DARK_RED)])
  {
    SpellBlueDoubleToDarkRed();
    ParseSpelling("Blue" + "Double" + "To" + "Dark" + "Red",
                  [ColourWord(2), DuplicateWord(1), SeparatorWord, ModifierWord(1), ColourWord(0)]);
    ReadBlueDoubleToDarkRed();
    FinishBlueDarkRedDarkRed(State([[BLUE]], [DARK_RED], 2, [], 1));
  }

  /** A duplicate word before `to` opens that many slots: `BlueDoubleToDarkRed` is `BlueToDarkRedToDarkRed`. */
  lemma BlueDoubleToDarkRed()
    ensures Parse("Blue" + "Double" + "To" + "Dark" + "Red")
         == Ok([ToAnchor(BLUE), ToAnchor(DARK_RED), ToAnchor(DARK_RED)])
    ensures Parse("Blue" + "To" + "Dark" + "Red" + "To" + "Dark" + "Red")
         == Parse("Blue" + "Double" + "To" + "Dark" + "Red")
  {
    ParseBlueDoubleToDarkRed();
    ParseBlueToDarkRedToDarkRed();
  }

  // ---- Mixing, `to`, and the error cases ----

  lemma SpellBlueRed()
    ensures Lower("Blue" + "Red") == Spelling([ColourWord(2), ColourWord(0)])
  {
    LowerAppend("Blue", "Red");
    assert Lower("Blue") == "blue" && Lower("Red") == "red";
  }

  lemma ReadBlueRed()
    ensures Interpret([ColourWord(2), ColourWord(0)], INIT) == Ok(State([], [BLUE, RED], 1, [], 1))
  {
    var st1 := State([], [BLUE], 1, [], 1);
    AppendSmall([], BLUE);
    AppendSmall([BLUE], RED);
    SelectPlain(0, st1, [BLUE, RED]);
    InterpretCons(ColourWord(0), [], st1);
    SelectPlain(2, INIT, [BLUE]);
    InterpretCons(ColourWord(2), [ColourWord(0)], INIT);
  }

  lemma FinishBlueRed(st: State)
    requires st == State([], [BLUE, RED], 1, [], 1)
    ensures Finish(st) == Ok([Anchor(127.5, 0.0, 127.5, 255.0)])
  {
    OneGroup([BLUE, RED]);
    MeanTwo(BLUE, RED);
  }

  /** Colours written together are mixed into one anchor, their channelwise mean. */
  lemma BlueRed()
    ensures Parse("Blue" + "Red") == Ok([Anchor(127.5, 0.0, 127.5, 255.0)])
  {
    SpellBlueRed();
    ParseSpelling("Blue" + "Red", [ColourWord(2), ColourWord(0)]);
    ReadBlueRed();
    FinishBlueRed(State([], [BLUE, RED], 1, [], 1));
  }

  lemma SpellToRed()
    ensures Lower("To" + "Red") == Spelling([SeparatorWord, ColourWord(0)])
  {
    LowerAppend("To", "Red");
    assert Lower("To") == "to" && Lower("Red") == "red";
  }

  /** A leading `to` changes nothing. */
  lemma ToRed()
    ensures Parse("To" + "Red") == Ok([ToAnchor(RED)])
  {
    SpellToRed();
    ParseSpelling("To" + "Red", [SeparatorWord, ColourWord(0)]);
    var st1 := State([], [RED], 1, [], 1);
    AppendSmall([], RED);
    SelectPlain(0, INIT, [RED]);
    InterpretCons(ColourWord(0), [], INIT);
    SeparateIdempotent(INIT);
    assert Apply(SeparatorWord, INIT) == Ok(INIT);
    InterpretCons(SeparatorWord, [ColourWord(0)], INIT);
    OneGroup([RED]);
    MeanOne(RED);
  }

  /** The empty text leaves the first slot empty: ValueError. */
  lemma EmptyText()
    ensures Parse("") == Err(InvalidColourMap)
  {
    assert Lower("") == "";
    FinishOutcome(INIT);
  }

  lemma SpellRedTo()
    ensures Lower("Red" + "To") == Spelling([ColourWord(0), SeparatorWord])
  {
    LowerAppend("Red", "To");
    assert Lower("To") == "to" && Lower("Red") == "red";
  }

  /** A trailing `to` leaves a later slot empty: IndexError. */
  lemma RedTo()
    ensures Parse("Red" + "To") == Err(EmptyGroup)
  {
    SpellRedTo();
    ParseSpelling("Red" + "To", [ColourWord(0), SeparatorWord]);
    var st1 := State([], [RED], 1, [], 1);
    var st2 := State([[RED]], [], 1, [], 1);
    AppendSmall([], RED);
    AppendSmall([], [RED]);
    assert Apply(SeparatorWord, st1) == Ok(st2);
    InterpretCons(SeparatorWord, [], st1);
    SelectPlain(0, INIT, [RED]);
    InterpretCons(ColourWord(0), [SeparatorWord], INIT);
    FinishOutcome(st2);
  }

  lemma SpellOpaqueRed()
    ensures Lower("Opaque" + "Red") == Spelling([ModifierWord(4), ColourWord(0)])
  {
    LowerAppend("Opaque", "Red");
    assert Lower("Opaque") == "opaque" && Lower("Red") == "red";
  }

  lemma SelectOpaqueRed(st: State)
    requires Inv(st) && st.mods == [OPAQUE]
    ensures Apply(ColourWord(0), st) == Err(NegativeShift)
  {
    ApplyModifiersCons(OPAQUE, [], COLOURS_MAIN[0].1);
    assert ApplyModifier(st.mods[0], COLOURS_MAIN[0].1) == Err(NegativeShift);
  }

  /** `opaque` shifts alpha by -1, which raises once a colour is selected. */
  lemma OpaqueRed()
    ensures Parse("Opaque" + "Red") == Err(NegativeShift)
  {
    SpellOpaqueRed();
    ParseSpelling("Opaque" + "Red", [ModifierWord(4), ColourWord(0)]);
    var st1 := State([], [], 1, [OPAQUE], 1);
    AppendSmall([], OPAQUE);
    SelectOpaqueRed(st1);
    InterpretCons(ColourWord(0), [], st1);
    assert Apply(ModifierWord(4), INIT) == Ok(st1);
    InterpretCons(ModifierWord(4), [ColourWord(0)], INIT);
  }
}
