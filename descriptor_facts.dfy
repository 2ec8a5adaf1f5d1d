/**
 * Properties of the current descriptor parser: what each modifier does,
 * that channels stay within a byte, when the parse fails, what `to` and the
 * duplicate words do, and that upper and lower case mean the same.
 */
module DescriptorFacts {
  import opened Wrappers
  import opened Palette
  import Hex
  import opened Descriptor
  import opened DescriptorWords

  // ---- The modifiers ----

  lemma ShrOne(x: int)
    ensures Shr(x, 1) == x / 2
  {
    assert Pow2(1) == 2;
  }

  lemma ShrZero(x: int)
    ensures Shr(x, 0) == x
  {
    assert Pow2(0) == 1;
  }

  lemma ShrEight(x: int)
    ensures Shr(x, 8) == x / 256
  {
    assert Pow2(8) == 256 by {
      assert Pow2(4) == 16;
    }
  }

  lemma LightEffect(c: Colour)
    ensures ApplyModifier(LIGHT, c) == Ok(Colour(c.r / 2 + 128, c.g / 2 + 128, c.b / 2 + 128, c.a))
  {
    ShrOne(c.r); ShrOne(c.g); ShrOne(c.b); ShrZero(c.a);
  }

  lemma DarkEffect(c: Colour)
    ensures ApplyModifier(DARK, c) == Ok(Colour(c.r / 2, c.g / 2, c.b / 2, c.a))
  {
    ShrOne(c.r); ShrOne(c.g); ShrOne(c.b); ShrZero(c.a);
  }

  lemma TransparentEffect(c: Colour)
    ensures ApplyModifier(TRANSPARENT, c) == Ok(Colour(c.r, c.g, c.b, c.a / 256))
  {
    ShrZero(c.r); ShrZero(c.g); ShrZero(c.b); ShrEight(c.a);
  }

  lemma TranslucentEffect(c: Colour)
    ensures ApplyModifier(TRANSLUCENT, c) == Ok(Colour(c.r, c.g, c.b, c.a / 2))
  {
    ShrZero(c.r); ShrZero(c.g); ShrZero(c.b); ShrOne(c.a);
  }

  /**
   * What each entry of the modifier table does to one colour: `light` halves
   * the colour channels and adds 128, `dark` halves them, `transparent`
   * shifts alpha right by 8, `translucent` halves alpha, and `opaque`, with
   * its shift of -1, raises.
   */
  lemma ModifierEffect(c: Colour)
    ensures ApplyModifier(LIGHT, c) == Ok(Colour(c.r / 2 + 128, c.g / 2 + 128, c.b / 2 + 128, c.a))
    ensures ApplyModifier(DARK, c) == Ok(Colour(c.r / 2, c.g / 2, c.b / 2, c.a))
    ensures ApplyModifier(TRANSPARENT, c) == Ok(Colour(c.r, c.g, c.b, c.a / 256))
    ensures ApplyModifier(TRANSLUCENT, c) == Ok(Colour(c.r, c.g, c.b, c.a / 2))
    ensures ApplyModifier(OPAQUE, c) == Err(NegativeShift)
  {
    LightEffect(c);
    DarkEffect(c);
    TransparentEffect(c);
    TranslucentEffect(c);
  }

  ghost predicate TableModifier(m: Modifier) {
    m == LIGHT || m == DARK || m == TRANSPARENT || m == TRANSLUCENT || m == OPAQUE
  }

  ghost predicate TableModifiers(mods: seq<Modifier>) {
    forall i :: 0 <= i < |mods| ==> TableModifier(mods[i])
  }

  lemma ModifierEntry(k: nat)
    requires k < |MODIFIERS|
    ensures TableModifier(MODIFIERS[k].1)
  {}

  /** Only the opaque entry fails, and the others keep a colour within a byte. */
  lemma ModifierInRange(m: Modifier, c: Colour)
    requires TableModifier(m) && InByteRange(c)
    ensures ApplyModifier(m, c).Err? <==> m == OPAQUE
    ensures ApplyModifier(m, c).Ok? ==> InByteRange(ApplyModifier(m, c).value)
  {
    ModifierEffect(c);
  }

  lemma ApplyModifiersCons(m: Modifier, rest: seq<Modifier>, c: Colour)
    ensures ApplyModifier(m, c).Err? ==> ApplyModifiers([m] + rest, c) == Err(ApplyModifier(m, c).error)
    ensures ApplyModifier(m, c).Ok? ==> ApplyModifiers([m] + rest, c) == ApplyModifiers(rest, ApplyModifier(m, c).value)
  {
    assert ([m] + rest)[1..] == rest;
  }

  /**
   * Modifiers queued in two parts: the first part is applied, and the second
   * is applied to its result; an error in the first part stops the loop.
   */
  lemma {:induction false} ApplyModifiersAppend(a: seq<Modifier>, b: seq<Modifier>, c: Colour)
    ensures ApplyModifiers(a, c).Err? ==> ApplyModifiers(a + b, c) == ApplyModifiers(a, c)
    ensures ApplyModifiers(a, c).Ok? ==> ApplyModifiers(a + b, c) == ApplyModifiers(b, ApplyModifiers(a, c).value)
    decreases |a|
  {
    if a == [] {
      assert a + b == b;
    } else {
      assert a + b == [a[0]] + (a[1..] + b);
      ApplyModifiersCons(a[0], a[1..] + b, c);
      if ApplyModifier(a[0], c).Ok? {
        ApplyModifiersAppend(a[1..], b, ApplyModifier(a[0], c).value);
      }
    }
  }

  /** Pending modifiers fail exactly when one of them is `opaque`; otherwise the colour stays within a byte. */
  lemma {:induction false} ApplyModifiersInRange(mods: seq<Modifier>, c: Colour)
    requires TableModifiers(mods) && InByteRange(c)
    ensures ApplyModifiers(mods, c).Err? <==> OPAQUE in mods
    ensures ApplyModifiers(mods, c).Err? ==> ApplyModifiers(mods, c).error == NegativeShift
    ensures ApplyModifiers(mods, c).Ok? ==> InByteRange(ApplyModifiers(mods, c).value)
    decreases |mods|
  {
    if mods != [] {
      ModifierInRange(mods[0], c);
      ModifierEffect(c);
      assert mods == [mods[0]] + mods[1..];
      ApplyModifiersCons(mods[0], mods[1..], c);
      if ApplyModifier(mods[0], c).Ok? {
        ApplyModifiersInRange(mods[1..], ApplyModifier(mods[0], c).value);
      }
    }
  }

  // ---- Channels stay within a byte ----

  ghost predicate AllInRange(g: seq<Colour>) {
    forall i :: 0 <= i < |g| ==> InByteRange(g[i])
  }

  /** Every colour the state holds is within a byte and every pending modifier is a table entry. */
  ghost predicate Ranged(st: State) {
    (forall i :: 0 <= i < |st.closed| ==> AllInRange(st.closed[i]))
    && AllInRange(st.cur) && TableModifiers(st.mods)
  }

  lemma ColourEntry(k: nat)
    requires k < |COLOURS_MAIN|
    ensures InByteRange(COLOURS_MAIN[k].1)
  {}

  lemma SelectionInRange(s: string, st: State)
    ensures MatchColourName(s).1.Some? ==> InByteRange(MatchColourName(s).1.value)
    ensures MatchHex(MatchColourName(s).0, MatchColourName(s).1).1.Some?
            ==> InByteRange(MatchHex(MatchColourName(s).0, MatchColourName(s).1).1.value)
  {
    var k := FindPrefix(NamesOf(COLOURS_MAIN), s, 0);
    if k < |COLOURS_MAIN| {
      ColourEntry(k);
    }
  }

  lemma SelectRanged(c: Colour, st: State)
    requires Inv(st) && Ranged(st) && InByteRange(c)
    ensures Select(c, st).Ok? ==> Ranged(Select(c, st).value)
  {
    ApplyModifiersInRange(st.mods, c);
  }

  lemma {:induction false} ModifierPassRanged(s: string, mods: seq<Modifier>, dup: nat, edited: bool, k: nat)
    requires k <= |MODIFIERS| && TableModifiers(mods)
    ensures TableModifiers(ModifierPass(s, mods, dup, edited, k).1)
    decreases |MODIFIERS| - k
  {
    if k < |MODIFIERS| {
      var (name, m) := MODIFIERS[k];
      ModifierEntry(k);
      if StartsWith(s, name) {
        ModifierTableWellFormed(k);
        ModifierPassRanged(s[|name|..], mods + Repeat(m, dup), 1, true, k + 1);
      } else {
        ModifierPassRanged(s, mods, dup, edited, k + 1);
      }
    }
  }

  lemma ScanRanged(s: string, st: State)
    requires |s| > 0 && Inv(st) && Ranged(st)
    ensures Ranged(Scan(s, st).1)
  {
    ModifierPassRanged(s, st.mods, st.dup, false, 0);
  }

  lemma StepRanged(s: string, st: State)
    requires |s| > 0 && Inv(st) && Ranged(st)
    ensures Step(s, st).Ok? ==> Ranged(Step(s, st).value.1)
  {
    SelectionInRange(s, st);
    var (s1, named) := MatchColourName(s);
    var (s2, sel) := MatchHex(s1, named);
    if sel.Some? {
      SelectRanged(sel.value, st);
    } else {
      ScanRanged(s2, st);
    }
  }

  lemma {:induction false} RunRanged(s: string, st: State)
    requires Inv(st) && Ranged(st)
    ensures Run(s, st).Ok? ==> Ranged(Run(s, st).value)
    decreases |s|
  {
    if |s| > 0 {
      StepRanged(s, st);
      if Step(s, st).Ok? {
        var (s', st') := Step(s, st).value;
        RunRanged(s', st');
      }
    }
  }

  lemma {:induction false} SumBounds(g: seq<Colour>)
    requires g != [] && AllInRange(g)
    ensures 0 <= Sum(g).r <= 255 * |g| && 0 <= Sum(g).g <= 255 * |g|
    ensures 0 <= Sum(g).b <= 255 * |g| && 0 <= Sum(g).a <= 255 * |g|
    decreases |g|
  {
    if |g| > 1 {
      SumBounds(g[..|g| - 1]);
    }
  }

  lemma ScaledBound(x: int, n: nat)
    requires n > 0 && 0 <= x <= 255 * n
    ensures 0.0 <= x as real / n as real <= 255.0
  {
    assert x as real <= 255.0 * n as real;
  }

  /** The mean of colours within a byte is within a byte. */
  lemma MeanInRange(g: seq<Colour>)
    requires g != [] && AllInRange(g)
    ensures AnchorInRange(Mean(g), 0.0, 255.0)
  {
    SumBounds(g);
    var t := Sum(g);
    ScaledBound(t.r, |g|);
    ScaledBound(t.g, |g|);
    ScaledBound(t.b, |g|);
    ScaledBound(t.a, |g|);
  }

  /** Every anchor of a successful parse has its four channels in [0, 255]. */
  lemma ParseInRange(text: string)
    ensures Parse(text).Ok? ==> forall i :: 0 <= i < |Parse(text).value| ==> AnchorInRange(Parse(text).value[i], 0.0, 255.0)
  {
    RunRanged(Lower(text), INIT);
    if Run(Lower(text), INIT).Ok? {
      var st := Run(Lower(text), INIT).value;
      var slots := Slots(st);
      if slots[0] != [] && MergeGroups(slots).Ok? {
        forall i | 0 <= i < |slots|
          ensures AnchorInRange(MergeGroups(slots).value[i], 0.0, 255.0)
        {
          assert AllInRange(slots[i]) by {
            if i >= |st.closed| {
              assert slots[i] == st.cur;
            }
          }
          MeanInRange(slots[i]);
        }
      }
    }
  }

  // ---- When the parse fails ----

  /**
   * Closed groups are never empty, so the merge fails exactly when the open
   * group is empty: with ValueError when it is the only group, with
   * IndexError otherwise; on success there is one mean anchor per slot.
   */
  lemma FinishOutcome(st: State)
    requires Inv(st)
    ensures Finish(st).Err? <==> st.cur == []
    ensures Finish(st) == Err(InvalidColourMap) <==> st.closed == [] && st.cur == []
    ensures Finish(st) == Err(EmptyGroup) <==> st.closed != [] && st.cur == []
    ensures Finish(st).Ok? ==> |Finish(st).value| == |st.closed| + st.copies
    ensures Finish(st).Ok? ==> forall i :: 0 <= i < |st.closed| ==> Finish(st).value[i] == Mean(st.closed[i])
    ensures Finish(st).Ok? ==> forall i :: |st.closed| <= i < |st.closed| + st.copies ==> Finish(st).value[i] == Mean(st.cur)
  {
    var slots := Slots(st);
    assert slots[|slots| - 1] == st.cur;
    if st.closed == [] {
      assert slots[0] == st.cur;
    } else {
      assert slots[0] == st.closed[0];
    }
    forall i | |st.closed| <= i < |slots|
      ensures slots[i] == st.cur
    {}
  }

  /** A text whose reading ends on `to` (or with nothing selected) fails. */
  lemma ParseFailsOnEmptyLastGroup(text: string)
    requires Run(Lower(text), INIT).Ok?
    ensures Parse(text).Err? <==> Run(Lower(text), INIT).value.cur == []
  {
    FinishOutcome(Run(Lower(text), INIT).value);
  }

  // ---- `to` and the duplicate words ----

  /** A second `to` in a row changes nothing, and neither does a leading `to`. */
  lemma SeparateIdempotent(st: State)
    requires st.dup >= 1
    ensures Separate(Separate(st)) == Separate(st)
    ensures st.cur == [] && st.dup == 1 ==> Separate(st) == st
  {}

  /** A duplicate word before `to` opens that many slots for the next group. */
  lemma SeparateOpens(st: State)
    requires st.dup >= 1 && st.cur != []
    ensures Separate(st).copies == st.dup && Separate(st).cur == []
    ensures Slots(Separate(st)) == Slots(st) + Repeat([], st.dup)
  {}

  lemma InterpretCons(w: Word, rest: seq<Word>, st: State)
    requires WellFormed(w) && AllWellFormed(rest) && Inv(st)
    requires !(w.ColourWord? && rest != [] && rest[0].HexWord?)
    ensures AllWellFormed([w] + rest)
    ensures Apply(w, st).Err? ==> Interpret([w] + rest, st) == Err(Apply(w, st).error)
    ensures Apply(w, st).Ok? ==> Interpret([w] + rest, st) == Interpret(rest, Apply(w, st).value)
  {
    assert ([w] + rest)[1..] == rest;
  }

  lemma RepeatTail<T>(x: T, v: nat)
    requires v >= 1
    ensures Repeat(x, v) == [x] + Repeat(x, v - 1)
  {}

  /** The same modifier word written `v` times pushes it `v` times. */
  lemma {:induction false} ModifierWordRepeated(k: nat, v: nat, st: State)
    requires k < |MODIFIERS| && Inv(st) && st.dup == 1
    ensures AllWellFormed(Repeat(ModifierWord(k), v))
    ensures Interpret(Repeat(ModifierWord(k), v), st) == Ok(st.(mods := st.mods + Repeat(MODIFIERS[k].1, v)))
    decreases v
  {
    if v == 0 {
      assert st.mods + [] == st.mods;
    } else {
      RepeatTail(ModifierWord(k), v);
      var st1 := st.(mods := st.mods + [MODIFIERS[k].1]);
      assert Repeat(MODIFIERS[k].1, 1) == [MODIFIERS[k].1];
      assert Apply(ModifierWord(k), st) == Ok(st1);
      ModifierWordRepeated(k, v - 1, st1);
      InterpretCons(ModifierWord(k), Repeat(ModifierWord(k), v - 1), st);
      RepeatTail(MODIFIERS[k].1, v);
      assert st.mods + [MODIFIERS[k].1] + Repeat(MODIFIERS[k].1, v - 1) == st.mods + Repeat(MODIFIERS[k].1, v);
    }
  }

  /** A duplicate word before a modifier is the modifier written that many times: `TripleDark` is `DarkDarkDark`. */
  lemma DuplicateBeforeModifier(d: nat, k: nat, st: State)
    requires d < |DUPLICATES| && k < |MODIFIERS| && Inv(st) && st.dup == 1
    ensures AllWellFormed([DuplicateWord(d), ModifierWord(k)])
    ensures AllWellFormed(Repeat(ModifierWord(k), DUPLICATES[d].1))
    ensures Interpret([DuplicateWord(d), ModifierWord(k)], st) == Interpret(Repeat(ModifierWord(k), DUPLICATES[d].1), st)
  {
    DuplicateTableWellFormed(d);
    var v := DUPLICATES[d].1;
    var st1 := st.(dup := v);
    assert Apply(DuplicateWord(d), st) == Ok(st1);
    InterpretCons(ModifierWord(k), [], st1);
    InterpretCons(DuplicateWord(d), [ModifierWord(k)], st);
    ModifierWordRepeated(k, v, st);
  }

  /** The same colour name written `v` times with nothing pending adds it `v` times. */
  lemma {:induction false} ColourWordRepeated(k: nat, v: nat, st: State)
    requires k < |COLOURS_MAIN| && Inv(st) && st.dup == 1 && st.mods == []
    ensures AllWellFormed(Repeat(ColourWord(k), v))
    ensures Interpret(Repeat(ColourWord(k), v), st) == Ok(st.(cur := st.cur + Repeat(COLOURS_MAIN[k].1, v)))
    decreases v
  {
    if v == 0 {
      assert st.cur + [] == st.cur;
    } else {
      RepeatTail(ColourWord(k), v);
      var c := COLOURS_MAIN[k].1;
      var st1 := st.(cur := st.cur + [c]);
      assert Repeat(c, 1) == [c];
      assert ApplyModifiers([], c) == Ok(c);
      assert Apply(ColourWord(k), st) == Ok(st1);
      ColourWordRepeated(k, v - 1, st1);
      InterpretCons(ColourWord(k), Repeat(ColourWord(k), v - 1), st);
      RepeatTail(c, v);
      assert st.cur + [c] + Repeat(c, v - 1) == st.cur + Repeat(c, v);
    }
  }

  /** A duplicate word before a bare colour name is the name written that many times: `DoubleRed` is `RedRed`. */
  lemma DuplicateBeforeColour(d: nat, k: nat, st: State)
    requires d < |DUPLICATES| && k < |COLOURS_MAIN| && Inv(st) && st.dup == 1 && st.mods == []
    ensures AllWellFormed([DuplicateWord(d), ColourWord(k)])
    ensures AllWellFormed(Repeat(ColourWord(k), DUPLICATES[d].1))
    ensures Interpret([DuplicateWord(d), ColourWord(k)], st) == Interpret(Repeat(ColourWord(k), DUPLICATES[d].1), st)
  {
    DuplicateTableWellFormed(d);
    var v := DUPLICATES[d].1;
    var st1 := st.(dup := v);
    assert Apply(DuplicateWord(d), st) == Ok(st1);
    InterpretCons(ColourWord(k), [], st1);
    InterpretCons(DuplicateWord(d), [ColourWord(k)], st);
    assert ApplyModifiers([], COLOURS_MAIN[k].1) == Ok(COLOURS_MAIN[k].1);
    ColourWordRepeated(k, v, st);
  }

  lemma ApplyOne(m: Modifier, c: Colour)
    ensures ApplyModifiers([m], c) == ApplyModifier(m, c)
  {
    assert [m][1..] == [];
  }

  /**
   * A duplicate word before a colour name, whatever modifiers are pending:
   * the modified colour joins the open group that many times, or the
   * modifiers' error is raised.
   */
  lemma DuplicateBeforeColourPending(d: nat, k: nat, st: State)
    requires d < |DUPLICATES| && k < |COLOURS_MAIN| && Inv(st) && st.dup == 1
    ensures AllWellFormed([DuplicateWord(d), ColourWord(k)])
    ensures ApplyModifiers(st.mods, COLOURS_MAIN[k].1).Err? ==>
              Interpret([DuplicateWord(d), ColourWord(k)], st) == Err(ApplyModifiers(st.mods, COLOURS_MAIN[k].1).error)
    ensures ApplyModifiers(st.mods, COLOURS_MAIN[k].1).Ok? ==>
              Interpret([DuplicateWord(d), ColourWord(k)], st)
              == Ok(st.(cur := st.cur + Repeat(ApplyModifiers(st.mods, COLOURS_MAIN[k].1).value, DUPLICATES[d].1),
                        mods := [], dup := 1))
  {
    DuplicateTableWellFormed(d);
    var st1 := st.(dup := DUPLICATES[d].1);
    assert Apply(DuplicateWord(d), st) == Ok(st1);
    InterpretCons(ColourWord(k), [], st1);
    InterpretCons(DuplicateWord(d), [ColourWord(k)], st);
  }

  /** A modifier and a colour name, written `v` times in a row. */
  function ModifiedPairs(m: nat, k: nat, v: nat): (ws: seq<Word>)
    requires m < |MODIFIERS| && k < |COLOURS_MAIN|
    ensures AllWellFormed(ws)
    ensures |ws| == 2 * v
    decreases v
  {
    if v == 0 then [] else [ModifierWord(m), ColourWord(k)] + ModifiedPairs(m, k, v - 1)
  }

  lemma ModifiedPairsCons(m: nat, k: nat, v: nat)
    requires m < |MODIFIERS| && k < |COLOURS_MAIN| && v >= 1
    ensures ModifiedPairs(m, k, v) == [ModifierWord(m)] + ([ColourWord(k)] + ModifiedPairs(m, k, v - 1))
    ensures ModifiedPairs(m, k, v)[0] == ModifierWord(m)
  {
    assert [ModifierWord(m), ColourWord(k)] + ModifiedPairs(m, k, v - 1) == [ModifierWord(m)] + ([ColourWord(k)] + ModifiedPairs(m, k, v - 1));
  }

  /** One modifier and one colour name, with nothing pending. */
  lemma ModifiedColourOnce(m: nat, k: nat, rest: seq<Word>, st: State)
    requires m < |MODIFIERS| && k < |COLOURS_MAIN| && Inv(st) && st.dup == 1 && st.mods == []
    requires AllWellFormed(rest) && (rest == [] || !rest[0].HexWord?)
    ensures AllWellFormed([ModifierWord(m)] + ([ColourWord(k)] + rest))
    ensures ApplyModifier(MODIFIERS[m].1, COLOURS_MAIN[k].1).Err? ==>
              Interpret([ModifierWord(m)] + ([ColourWord(k)] + rest), st) == Err(ApplyModifier(MODIFIERS[m].1, COLOURS_MAIN[k].1).error)
    ensures ApplyModifier(MODIFIERS[m].1, COLOURS_MAIN[k].1).Ok? ==>
              Interpret([ModifierWord(m)] + ([ColourWord(k)] + rest), st)
              == Interpret(rest, st.(cur := st.cur + [ApplyModifier(MODIFIERS[m].1, COLOURS_MAIN[k].1).value]))
  {
    var mod := MODIFIERS[m].1;
    var stm := st.(mods := [mod]);
    assert Repeat(mod, 1) == [mod] && st.mods + Repeat(mod, st.dup) == [mod];
    assert Apply(ModifierWord(m), st) == Ok(stm);
    InterpretCons(ModifierWord(m), [ColourWord(k)] + rest, st);
    InterpretCons(ColourWord(k), rest, stm);
    ApplyOne(mod, COLOURS_MAIN[k].1);
    if ApplyModifier(mod, COLOURS_MAIN[k].1).Ok? {
      var c1 := ApplyModifier(mod, COLOURS_MAIN[k].1).value;
      assert Repeat(c1, 1) == [c1];
      assert Apply(ColourWord(k), stm) == Ok(st.(cur := st.cur + [c1]));
    }
  }

  lemma ModifiedPairsNone(m: nat, k: nat, c1: Colour, st: State)
    requires m < |MODIFIERS| && k < |COLOURS_MAIN| && Inv(st)
    ensures Interpret(ModifiedPairs(m, k, 0), st) == Ok(st.(cur := st.cur + Repeat(c1, 0)))
  {
    assert ModifiedPairs(m, k, 0) == [];
    assert st.cur + Repeat(c1, 0) == st.cur;
  }

  lemma ModifiedPairsStep(m: nat, k: nat, v: nat, st: State)
    requires m < |MODIFIERS| && k < |COLOURS_MAIN| && Inv(st) && st.dup == 1 && st.mods == [] && v >= 1
    ensures ApplyModifier(MODIFIERS[m].1, COLOURS_MAIN[k].1).Err? ==>
              Interpret(ModifiedPairs(m, k, v), st) == Err(ApplyModifier(MODIFIERS[m].1, COLOURS_MAIN[k].1).error)
    ensures ApplyModifier(MODIFIERS[m].1, COLOURS_MAIN[k].1).Ok? ==>
              Interpret(ModifiedPairs(m, k, v), st)
              == Interpret(ModifiedPairs(m, k, v - 1), st.(cur := st.cur + [ApplyModifier(MODIFIERS[m].1, COLOURS_MAIN[k].1).value]))
  {
    ModifiedPairsCons(m, k, v);
    if v >= 2 {
      ModifiedPairsCons(m, k, v - 1);
    }
    ModifiedColourOnce(m, k, ModifiedPairs(m, k, v - 1), st);
  }

  lemma AppendShift(st: State, c1: Colour, v: nat)
    requires v >= 1
    ensures st.(cur := st.cur + [c1]).(cur := st.cur + [c1] + Repeat(c1, v - 1)) == st.(cur := st.cur + Repeat(c1, v))
  {
    RepeatTail(c1, v);
    assert st.cur + [c1] + Repeat(c1, v - 1) == st.cur + Repeat(c1, v);
  }

  /** With nothing pending, a modifier and a colour name written `v` times add the modified colour `v` times. */
  lemma {:induction false} ModifiedColourRepeated(m: nat, k: nat, v: nat, st: State)
    requires m < |MODIFIERS| && k < |COLOURS_MAIN| && Inv(st) && st.dup == 1 && st.mods == []
    ensures ApplyModifier(MODIFIERS[m].1, COLOURS_MAIN[k].1).Ok? ==>
              Interpret(ModifiedPairs(m, k, v), st)
              == Ok(st.(cur := st.cur + Repeat(ApplyModifier(MODIFIERS[m].1, COLOURS_MAIN[k].1).value, v)))
    ensures ApplyModifier(MODIFIERS[m].1, COLOURS_MAIN[k].1).Err? && v >= 1 ==>
              Interpret(ModifiedPairs(m, k, v), st) == Err(ApplyModifier(MODIFIERS[m].1, COLOURS_MAIN[k].1).error)
    decreases v
  {
    var r := ApplyModifier(MODIFIERS[m].1, COLOURS_MAIN[k].1);
    if r.Ok? && v == 0 {
      ModifiedPairsNone(m, k, r.value, st);
    } else if v >= 1 {
      ModifiedPairsStep(m, k, v, st);
      if r.Ok? {
        var st1 := st.(cur := st.cur + [r.value]);
        ModifiedColourRepeated(m, k, v - 1, st1);
        AppendShift(st, r.value, v);
      }
    }
  }

  /**
   * A duplicate word between a modifier and a colour name repeats both:
   * `DarkDoubleRed` is `DarkRedDarkRed`, for every modifier, duplicate
   * word and colour name.
   */
  lemma DuplicateAfterModifier(m: nat, d: nat, k: nat, st: State)
    requires m < |MODIFIERS| && d < |DUPLICATES| && k < |COLOURS_MAIN| && Inv(st) && st.dup == 1 && st.mods == []
    ensures AllWellFormed([ModifierWord(m), DuplicateWord(d), ColourWord(k)])
    ensures Interpret([ModifierWord(m), DuplicateWord(d), ColourWord(k)], st) == Interpret(ModifiedPairs(m, k, DUPLICATES[d].1), st)
  {
    var mod := MODIFIERS[m].1;
    var stm := st.(mods := [mod]);
    assert Repeat(mod, 1) == [mod] && st.mods + Repeat(mod, st.dup) == [mod];
    assert Apply(ModifierWord(m), st) == Ok(stm);
    assert [ModifierWord(m)] + [DuplicateWord(d), ColourWord(k)] == [ModifierWord(m), DuplicateWord(d), ColourWord(k)];
    InterpretCons(ModifierWord(m), [DuplicateWord(d), ColourWord(k)], st);
    DuplicateBeforeColourPending(d, k, stm);
    ApplyOne(mod, COLOURS_MAIN[k].1);
    DuplicateTableWellFormed(d);
    ModifiedColourRepeated(m, k, DUPLICATES[d].1, st);
  }

  // ---- Case does not matter ----

  lemma LowerIdempotent(s: string)
    ensures Lower(Lower(s)) == Lower(s)
  {}

  /** The text is lower-cased first, so upper and lower case mean the same. */
  lemma ParseIgnoresCase(text: string)
    ensures Parse(Lower(text)) == Parse(text)
  {
    LowerIdempotent(text);
  }
}
