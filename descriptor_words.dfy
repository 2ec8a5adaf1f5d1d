/**
 * The descriptor language read one word at a time. A text spelled from
 * words (colour names, modifiers, duplicate words, `to`, eight-digit hex
 * literals, and characters that no word begins with) parses exactly as the
 * word-by-word reading says. The parser's own loop can consume several
 * modifiers or several duplicate words in one turn, and it tries the tables
 * in a fixed order; `RunSpelling` shows that this changes nothing.
 */
module DescriptorWords {
  import opened Wrappers
  import opened Palette
  import Hex
  import opened Descriptor
  import opened Vocabulary

  datatype Word =
    | ColourWord(k: nat)      // COLOURS_MAIN[k]
    | ModifierWord(k: nat)    // MODIFIERS[k]
    | DuplicateWord(k: nat)   // DUPLICATES[k]
    | SeparatorWord           // `to`
    | HexWord(c: Colour)      // `#RRGGBBAA`
    | OtherChar(ch: char)     // a character the parser drops

  /** A character that begins no word and is not `#`. */
  predicate Inert(ch: char) {
    ch != '#' && forall i :: 0 <= i < |WORDS| ==> WORDS[i][0] != ch
  }

  predicate WellFormed(w: Word) {
    match w
    case ColourWord(k) => k < |COLOURS_MAIN|
    case ModifierWord(k) => k < |MODIFIERS|
    case DuplicateWord(k) => k < |DUPLICATES|
    case SeparatorWord => true
    case HexWord(c) => InByteRange(c)
    case OtherChar(ch) => Inert(ch)
  }

  predicate AllWellFormed(ws: seq<Word>) {
    forall i :: 0 <= i < |ws| ==> WellFormed(ws[i])
  }

  function Spell(w: Word): string
    requires WellFormed(w)
  {
    match w
    case ColourWord(k) => COLOURS_MAIN[k].0
    case ModifierWord(k) => MODIFIERS[k].0
    case DuplicateWord(k) => DUPLICATES[k].0
    case SeparatorWord => SEPERATORS[0]
    case HexWord(c) => "#" + Hex.ToHex8(c)
    case OtherChar(ch) => [ch]
  }

  function Spelling(ws: seq<Word>): string
    requires AllWellFormed(ws)
  {
    if ws == [] then "" else Spell(ws[0]) + Spelling(ws[1..])
  }

  /** What one word does to the parser state. */
  function Apply(w: Word, st: State): (r: Result<State, ParseError>)
    requires WellFormed(w) && Inv(st)
    ensures r.Ok? ==> Inv(r.value)
  {
    match w
    case ColourWord(k) => Select(COLOURS_MAIN[k].1, st)
    case HexWord(c) => Select(c, st)
    case ModifierWord(k) => Ok(st.(mods := st.mods + Repeat(MODIFIERS[k].1, st.dup), dup := 1))
    case DuplicateWord(k) =>
      DuplicateTableWellFormed(k);
      Ok(st.(dup := Scale(st.dup, DUPLICATES[k].1)))
    case SeparatorWord => Ok(Separate(st))
    case OtherChar(_) => Ok(st)
  }

  /**
   * The word-by-word reading. A colour name directly followed by a hex
   * literal is cut off and then superseded by the literal, so it has no
   * effect at all.
   */
  function Interpret(ws: seq<Word>, st: State): (r: Result<State, ParseError>)
    requires AllWellFormed(ws) && Inv(st)
    ensures r.Ok? ==> Inv(r.value)
    decreases |ws|
  {
    if ws == [] then Ok(st)
    else if ws[0].ColourWord? && |ws| > 1 && ws[1].HexWord? then Interpret(ws[1..], st)
    else match Apply(ws[0], st)
      case Err(e) => Err(e)
      case Ok(st1) => Interpret(ws[1..], st1)
  }

  // ---- Which table entries can start a text ----

  lemma FirstChar(s: string, p: string)
    requires |p| > 0
    ensures StartsWith(s, p) ==> |s| > 0 && s[0] == p[0]
  {
    if StartsWith(s, p) {
      assert s[..|p|][0] == s[0];
    }
  }

  /** A text that starts with word `w` starts with no other word. */
  lemma OnlyWord(w: nat, s: string)
    requires w < |WORDS| && StartsWith(s, WORDS[w])
    ensures forall j :: 0 <= j < |WORDS| && j != w ==> !StartsWith(s, WORDS[j])
  {
    forall j | 0 <= j < |WORDS| && j != w
      ensures !StartsWith(s, WORDS[j])
    {
      Exclusive(w, j, s);
    }
  }

  /** A text whose first character begins no word starts with no word. */
  lemma NoWord(s: string)
    requires |s| > 0 && forall i :: 0 <= i < |WORDS| ==> WORDS[i][0] != s[0]
    ensures forall j :: 0 <= j < |WORDS| ==> !StartsWith(s, WORDS[j])
  {
    forall j | 0 <= j < |WORDS|
      ensures !StartsWith(s, WORDS[j])
    {
      WordShape(j);
      FirstChar(s, WORDS[j]);
    }
  }

  /** A text that starts with a word is not empty and does not start with `#`. */
  lemma WordIsNotHash(w: nat, s: string)
    requires w < |WORDS| && StartsWith(s, WORDS[w])
    ensures |s| > 0 && !StartsWith(s, "#")
  {
    WordShape(w);
    FirstChar(s, WORDS[w]);
    FirstChar(s, "#");
  }

  lemma ColourScanNone(s: string)
    requires forall j :: COLOUR_BASE <= j < MODIFIER_BASE ==> !StartsWith(s, WORDS[j])
    ensures MatchColourName(s) == (s, None)
  {
    forall j | 0 <= j < |COLOURS_MAIN|
      ensures !StartsWith(s, NamesOf(COLOURS_MAIN)[j])
    {
      ColourWordAt(j);
    }
  }

  lemma {:induction false} ModifierPassSkips(s: string, mods: seq<Modifier>, dup: nat, edited: bool, k: nat)
    requires k <= |MODIFIERS|
    requires forall j :: k <= j < |MODIFIERS| ==> !StartsWith(s, MODIFIERS[j].0)
    ensures ModifierPass(s, mods, dup, edited, k) == (s, mods, dup, edited)
    decreases |MODIFIERS| - k
  {
    if k < |MODIFIERS| {
      ModifierPassMiss(s, mods, dup, edited, k);
      ModifierPassSkips(s, mods, dup, edited, k + 1);
    }
  }

  lemma ModifierPassMiss(s: string, mods: seq<Modifier>, dup: nat, edited: bool, k: nat)
    requires k < |MODIFIERS| && !StartsWith(s, MODIFIERS[k].0)
    ensures ModifierPass(s, mods, dup, edited, k) == ModifierPass(s, mods, dup, edited, k + 1)
  {}

  lemma ModifierPassHit(s: string, mods: seq<Modifier>, dup: nat, edited: bool, k: nat)
    requires k < |MODIFIERS| && StartsWith(s, MODIFIERS[k].0)
    ensures ModifierPass(s, mods, dup, edited, k)
         == ModifierPass(s[|MODIFIERS[k].0|..], mods + Repeat(MODIFIERS[k].1, dup), 1, true, k + 1)
  {}

  lemma {:induction false} ModifierPassAt(s: string, mods: seq<Modifier>, dup: nat, edited: bool, k: nat, j: nat)
    requires k <= j < |MODIFIERS| && StartsWith(s, MODIFIERS[j].0)
    requires forall i :: k <= i < j ==> !StartsWith(s, MODIFIERS[i].0)
    ensures ModifierPass(s, mods, dup, edited, k)
         == ModifierPass(s[|MODIFIERS[j].0|..], mods + Repeat(MODIFIERS[j].1, dup), 1, true, j + 1)
    decreases j - k
  {
    if k < j {
      ModifierPassMiss(s, mods, dup, edited, k);
      ModifierPassAt(s, mods, dup, edited, k + 1, j);
    } else {
      ModifierPassHit(s, mods, dup, edited, k);
    }
  }

  lemma ModifierScanNone(s: string, mods: seq<Modifier>, dup: nat, edited: bool)
    requires forall j :: MODIFIER_BASE <= j < DUPLICATE_BASE ==> !StartsWith(s, WORDS[j])
    ensures ModifierPass(s, mods, dup, edited, 0) == (s, mods, dup, edited)
  {
    forall j | 0 <= j < |MODIFIERS|
      ensures !StartsWith(s, MODIFIERS[j].0)
    {
      ModifierWordAt(j);
    }
    ModifierPassSkips(s, mods, dup, edited, 0);
  }

  lemma {:induction false} DuplicatePassSkips(s: string, dup: nat, edited: bool, k: nat)
    requires k <= |DUPLICATES|
    requires forall j :: k <= j < |DUPLICATES| ==> !StartsWith(s, DUPLICATES[j].0)
    ensures DuplicatePass(s, dup, edited, k) == (s, dup, edited)
    decreases |DUPLICATES| - k
  {
    if k < |DUPLICATES| {
      DuplicatePassMiss(s, dup, edited, k);
      DuplicatePassSkips(s, dup, edited, k + 1);
    }
  }

  lemma DuplicatePassMiss(s: string, dup: nat, edited: bool, k: nat)
    requires k < |DUPLICATES| && !StartsWith(s, DUPLICATES[k].0)
    ensures DuplicatePass(s, dup, edited, k) == DuplicatePass(s, dup, edited, k + 1)
  {}

  lemma DuplicatePassHit(s: string, dup: nat, edited: bool, k: nat)
    requires k < |DUPLICATES| && StartsWith(s, DUPLICATES[k].0)
    ensures DuplicatePass(s, dup, edited, k) == DuplicatePass(s[|DUPLICATES[k].0|..], Scale(dup, DUPLICATES[k].1), true, k + 1)
  {}

  lemma {:induction false} DuplicatePassAt(s: string, dup: nat, edited: bool, k: nat, j: nat)
    requires k <= j < |DUPLICATES| && StartsWith(s, DUPLICATES[j].0)
    requires forall i :: k <= i < j ==> !StartsWith(s, DUPLICATES[i].0)
    ensures DuplicatePass(s, dup, edited, k)
         == DuplicatePass(s[|DUPLICATES[j].0|..], Scale(dup, DUPLICATES[j].1), true, j + 1)
    decreases j - k
  {
    if k < j {
      DuplicatePassMiss(s, dup, edited, k);
      DuplicatePassAt(s, dup, edited, k + 1, j);
    } else {
      DuplicatePassHit(s, dup, edited, k);
    }
  }

  lemma DuplicateScanNone(s: string, dup: nat, edited: bool)
    requires forall j :: DUPLICATE_BASE <= j < SEPARATOR_INDEX ==> !StartsWith(s, WORDS[j])
    ensures DuplicatePass(s, dup, edited, 0) == (s, dup, edited)
  {
    forall j | 0 <= j < |DUPLICATES|
      ensures !StartsWith(s, DUPLICATES[j].0)
    {
      DuplicateWordAt(j);
    }
    DuplicatePassSkips(s, dup, edited, 0);
  }

  lemma SeparatorScanNone(s: string)
    requires !StartsWith(s, WORDS[SEPARATOR_INDEX])
    ensures FindPrefix(SEPERATORS, s, 0) == |SEPERATORS|
  {
    SeparatorWordAt();
  }

  /** A text that starts with a word other than a colour name: no colour is selected. */
  lemma ColourScanPast(w: nat, s: string)
    requires MODIFIER_BASE <= w < |WORDS| && StartsWith(s, WORDS[w])
    ensures MatchColourName(s) == (s, None) && |s| > 0 && !StartsWith(s, "#")
  {
    forall j | COLOUR_BASE <= j < MODIFIER_BASE
      ensures !StartsWith(s, WORDS[j])
    {
      Exclusive(w, j, s);
    }
    ColourScanNone(s);
    WordIsNotHash(w, s);
  }

  /** A text that starts with a word other than a modifier: the modifier pass changes nothing. */
  lemma ModifierScanPast(w: nat, s: string, mods: seq<Modifier>, dup: nat, edited: bool)
    requires w < |WORDS| && !(MODIFIER_BASE <= w < DUPLICATE_BASE) && StartsWith(s, WORDS[w])
    ensures ModifierPass(s, mods, dup, edited, 0) == (s, mods, dup, edited)
  {
    forall j | MODIFIER_BASE <= j < DUPLICATE_BASE
      ensures !StartsWith(s, WORDS[j])
    {
      Exclusive(w, j, s);
    }
    ModifierScanNone(s, mods, dup, edited);
  }

  /** A text that starts with a word other than a duplicate word: the duplicate pass changes nothing. */
  lemma DuplicateScanPast(w: nat, s: string, dup: nat, edited: bool)
    requires w < |WORDS| && !(DUPLICATE_BASE <= w < SEPARATOR_INDEX) && StartsWith(s, WORDS[w])
    ensures DuplicatePass(s, dup, edited, 0) == (s, dup, edited)
  {
    forall j | DUPLICATE_BASE <= j < SEPARATOR_INDEX
      ensures !StartsWith(s, WORDS[j])
    {
      Exclusive(w, j, s);
    }
    DuplicateScanNone(s, dup, edited);
  }

  /** When the modifier pass cuts something, the turn ends with its result. */
  lemma ScanByModifier(s: string, st: State)
    requires |s| > 0 && Inv(st)
    requires |ModifierPass(s, st.mods, st.dup, false, 0).0| < |s|
    ensures var r := ModifierPass(s, st.mods, st.dup, false, 0);
            Scan(s, st) == (r.0, st.(mods := r.1, dup := r.2))
  {}

  /** When no modifier but a duplicate word is cut, the turn ends with the duplicate pass's result. */
  lemma ScanByDuplicate(s: string, st: State)
    requires |s| > 0 && Inv(st)
    requires ModifierPass(s, st.mods, st.dup, false, 0) == (s, st.mods, st.dup, false)
    requires |DuplicatePass(s, st.dup, false, 0).0| < |s|
    ensures var r := DuplicatePass(s, st.dup, false, 0);
            Scan(s, st) == (r.0, st.(dup := r.1))
  {}

  /** The colour-name check on a text that starts with colour name `k`. */
  lemma ColourScanAt(k: nat, s: string)
    requires k < |COLOURS_MAIN| && StartsWith(s, COLOURS_MAIN[k].0)
    ensures MatchColourName(s) == (s[|COLOURS_MAIN[k].0|..], Some(COLOURS_MAIN[k].1))
  {
    ColourWordAt(k);
    OnlyWord(COLOUR_BASE + k, s);
    forall j | 0 <= j < |COLOURS_MAIN| && j != k
      ensures !StartsWith(s, NamesOf(COLOURS_MAIN)[j])
    {
      ColourWordAt(j);
    }
  }

  /** A turn in which neither a colour name nor `#` starts the text goes on to the other checks. */
  lemma StepUnselected(s: string, st: State)
    requires |s| > 0 && Inv(st) && MatchColourName(s) == (s, None) && !StartsWith(s, "#")
    ensures Step(s, st) == Ok(Scan(s, st))
  {}

  /** A turn that succeeds hands the rest of the loop its result. */
  lemma RunStepped(s: string, st: State, s1: string, st1: State)
    requires |s| > 0 && Inv(st) && Step(s, st) == Ok((s1, st1))
    ensures Inv(st1) && Run(s, st) == Run(s1, st1)
  {}

  // ---- One word at the head of the text ----

  /** A colour name not followed by `#` selects its colour. */
  lemma RunColourWord(k: nat, rest: string, st: State)
    requires k < |COLOURS_MAIN| && Inv(st) && !StartsWith(rest, "#")
    ensures Select(COLOURS_MAIN[k].1, st).Err? ==> Run(COLOURS_MAIN[k].0 + rest, st) == Err(Select(COLOURS_MAIN[k].1, st).error)
    ensures Select(COLOURS_MAIN[k].1, st).Ok? ==> Run(COLOURS_MAIN[k].0 + rest, st) == Run(rest, Select(COLOURS_MAIN[k].1, st).value)
  {
    var s := COLOURS_MAIN[k].0 + rest;
    StartsWithWord(COLOURS_MAIN[k].0, rest);
    ColourScanAt(k, s);
    assert s[|COLOURS_MAIN[k].0|..] == rest;
  }

  /** A colour name followed by `#` is cut off and forgotten: the hex check replaces its selection. */
  lemma RunColourBeforeHash(k: nat, t: string, st: State)
    requires k < |COLOURS_MAIN| && Inv(st) && StartsWith(t, "#")
    ensures Run(COLOURS_MAIN[k].0 + t, st) == Run(t, st)
  {
    var s := COLOURS_MAIN[k].0 + t;
    StartsWithWord(COLOURS_MAIN[k].0, t);
    ColourScanAt(k, s);
    assert s[|COLOURS_MAIN[k].0|..] == t;
    FirstChar(t, "#");
    NoWord(t);
    ColourScanNone(t);
    assert Step(s, st) == Step(t, st);
  }

  /** An eight-digit hex literal selects the colour it spells. */
  lemma RunHexWord(c: Colour, rest: string, st: State)
    requires InByteRange(c) && Inv(st)
    ensures Select(c, st).Err? ==> Run("#" + Hex.ToHex8(c) + rest, st) == Err(Select(c, st).error)
    ensures Select(c, st).Ok? ==> Run("#" + Hex.ToHex8(c) + rest, st) == Run(rest, Select(c, st).value)
  {
    var h := Hex.ToHex8(c);
    var s := "#" + h + rest;
    assert s[0] == '#';
    NoWord(s);
    ColourScanNone(s);
    assert StartsWith(s, "#");
    assert s[1..Min(9, |s|)] == h;
    Hex.HexRoundTrip8(c);
    assert s[1 + 8..] == rest;
    assert MatchHex(s, None) == (rest, Some(c));
  }

  /** No modifier listed before `j` starts a text that starts with modifier `j`. */
  lemma ModifiersBefore(rest: string, j: nat)
    requires j < |MODIFIERS| && StartsWith(rest, MODIFIERS[j].0)
    ensures forall i :: 0 <= i < j ==> !StartsWith(rest, MODIFIERS[i].0)
  {
    ModifierWordAt(j);
    forall i | 0 <= i < j
      ensures !StartsWith(rest, MODIFIERS[i].0)
    {
      ModifierWordAt(i);
      Exclusive(MODIFIER_BASE + j, MODIFIER_BASE + i, rest);
    }
  }

  /** On a text that starts with modifier `j`, a pass from before `j` and a fresh pass agree. */
  lemma ModifierPassesAgree(rest: string, mods: seq<Modifier>, k: nat, j: nat)
    requires k < j < |MODIFIERS| && StartsWith(rest, MODIFIERS[j].0)
    ensures ModifierPass(rest, mods, 1, true, k + 1) == ModifierPass(rest, mods, 1, false, 0)
    ensures |ModifierPass(rest, mods, 1, false, 0).0| < |rest|
  {
    ModifiersBefore(rest, j);
    ModifierPassAt(rest, mods, 1, true, k + 1, j);
    ModifierPassAt(rest, mods, 1, false, 0, j);
    ModifierCutShortens(rest, mods, j);
  }

  /** Cutting modifier `j` off the text leaves less of it. */
  lemma ModifierCutShortens(rest: string, mods: seq<Modifier>, j: nat)
    requires j < |MODIFIERS| && StartsWith(rest, MODIFIERS[j].0)
    ensures |ModifierPass(rest[|MODIFIERS[j].0|..], mods + Repeat(MODIFIERS[j].1, 1), 1, true, j + 1).0| < |rest|
  {
    ModifierWordAt(j);
    WordShape(MODIFIER_BASE + j);
  }

  /** The rest of a pass after modifier `k` either cuts nothing or does what a fresh pass does on a text starting with a modifier. */
  lemma ModifierPassRestart(rest: string, mods: seq<Modifier>, k: nat)
    requires k < |MODIFIERS|
    ensures var r := ModifierPass(rest, mods, 1, true, k + 1);
            r == (rest, mods, 1, true) ||
            (r == ModifierPass(rest, mods, 1, false, 0) && |r.0| < |rest| &&
             exists w :: MODIFIER_BASE <= w < DUPLICATE_BASE && StartsWith(rest, WORDS[w]))
  {
    if j :| 0 <= j < |MODIFIERS| && StartsWith(rest, MODIFIERS[j].0) && j > k {
      ModifierPassesAgree(rest, mods, k, j);
      ModifierWordAt(j);
      assert StartsWith(rest, WORDS[MODIFIER_BASE + j]);
    } else {
      ModifierPassSkips(rest, mods, 1, true, k + 1);
    }
  }

  /** The next turn on a text that starts with a modifier is the modifier pass. */
  lemma StepAtModifier(rest: string, st: State, w: nat)
    requires Inv(st) && MODIFIER_BASE <= w < DUPLICATE_BASE && StartsWith(rest, WORDS[w])
    requires |ModifierPass(rest, st.mods, st.dup, false, 0).0| < |rest|
    ensures var r := ModifierPass(rest, st.mods, st.dup, false, 0);
            Step(rest, st) == Ok((r.0, st.(mods := r.1, dup := r.2)))
  {
    ColourScanPast(w, rest);
    StepUnselected(rest, st);
    ScanByModifier(rest, st);
  }

  /** After a modifier has been read, the rest of the same pass reads what the next turn would. */
  lemma ModifierChain(rest: string, st: State, k: nat)
    requires Inv(st) && st.dup == 1 && k < |MODIFIERS|
    ensures var r := ModifierPass(rest, st.mods, 1, true, k + 1);
            Run(rest, st) == Run(r.0, st.(mods := r.1, dup := r.2))
  {
    var r := ModifierPass(rest, st.mods, 1, true, k + 1);
    ModifierPassRestart(rest, st.mods, k);
    if r != (rest, st.mods, 1, true) {
      var w :| MODIFIER_BASE <= w < DUPLICATE_BASE && StartsWith(rest, WORDS[w]);
      StepAtModifier(rest, st, w);
      RunStepped(rest, st, r.0, st.(mods := r.1, dup := r.2));
    }
  }

  /** A modifier queues itself `dup` times and resets `dup`. */
  lemma RunModifierWord(k: nat, rest: string, st: State)
    requires k < |MODIFIERS| && Inv(st)
    ensures Run(MODIFIERS[k].0 + rest, st)
         == Run(rest, st.(mods := st.mods + Repeat(MODIFIERS[k].1, st.dup), dup := 1))
  {
    var s := MODIFIERS[k].0 + rest;
    var st1 := st.(mods := st.mods + Repeat(MODIFIERS[k].1, st.dup), dup := 1);
    ModifierWordAt(k);
    StartsWithWord(MODIFIERS[k].0, rest);
    OnlyWord(MODIFIER_BASE + k, s);
    ColourScanNone(s);
    WordIsNotHash(MODIFIER_BASE + k, s);
    forall i | 0 <= i < k
      ensures !StartsWith(s, MODIFIERS[i].0)
    {
      ModifierWordAt(i);
    }
    ModifierPassAt(s, st.mods, st.dup, false, 0, k);
    assert s[|MODIFIERS[k].0|..] == rest;
    var r := ModifierPass(rest, st1.mods, 1, true, k + 1);
    StepUnselected(s, st);
    assert Scan(s, st) == (r.0, st.(mods := r.1, dup := r.2));
    RunStepped(s, st, r.0, st.(mods := r.1, dup := r.2));
    ModifierChain(rest, st1, k);
  }

  /** On a text that starts with duplicate word `j`, a pass from before `j` and a fresh pass agree. */
  lemma DuplicatePassesAgree(rest: string, dup: nat, k: nat, j: nat)
    requires k < j < |DUPLICATES| && StartsWith(rest, DUPLICATES[j].0)
    ensures DuplicatePass(rest, dup, true, k + 1) == DuplicatePass(rest, dup, false, 0)
    ensures |DuplicatePass(rest, dup, false, 0).0| < |rest|
  {
    PassReachesWord(rest, dup, true, k + 1, j);
    PassReachesWord(rest, dup, false, 0, j);
    DuplicateCutShortens(rest, dup, j);
  }

  /** A pass from any point before duplicate word `j` runs on to `j` on a text starting with it. */
  lemma PassReachesWord(rest: string, dup: nat, edited: bool, k: nat, j: nat)
    requires k <= j < |DUPLICATES| && StartsWith(rest, DUPLICATES[j].0)
    ensures DuplicatePass(rest, dup, edited, k)
         == DuplicatePass(rest[|DUPLICATES[j].0|..], Scale(dup, DUPLICATES[j].1), true, j + 1)
  {
    DuplicatesBefore(rest, j);
    DuplicatePassAt(rest, dup, edited, k, j);
  }

  /** No duplicate word listed before `j` starts a text that starts with duplicate word `j`. */
  lemma DuplicatesBefore(rest: string, j: nat)
    requires j < |DUPLICATES| && StartsWith(rest, DUPLICATES[j].0)
    ensures forall i :: 0 <= i < j ==> !StartsWith(rest, DUPLICATES[i].0)
  {
    DuplicateWordAt(j);
    forall i | 0 <= i < j
      ensures !StartsWith(rest, DUPLICATES[i].0)
    {
      DuplicateWordAt(i);
      Exclusive(DUPLICATE_BASE + j, DUPLICATE_BASE + i, rest);
    }
  }

  /** Cutting duplicate word `j` off the text leaves less of it. */
  lemma DuplicateCutShortens(rest: string, dup: nat, j: nat)
    requires j < |DUPLICATES| && StartsWith(rest, DUPLICATES[j].0)
    ensures |DuplicatePass(rest[|DUPLICATES[j].0|..], Scale(dup, DUPLICATES[j].1), true, j + 1).0| < |rest|
  {
    DuplicateWordAt(j);
    WordShape(DUPLICATE_BASE + j);
  }

  /** The rest of a pass after duplicate word `k` either cuts nothing or does what a fresh pass does on a text starting with a duplicate word. */
  lemma DuplicatePassRestart(rest: string, dup: nat, k: nat)
    requires k < |DUPLICATES|
    ensures var r := DuplicatePass(rest, dup, true, k + 1);
            r == (rest, dup, true) ||
            (r == DuplicatePass(rest, dup, false, 0) && |r.0| < |rest| &&
             exists w :: DUPLICATE_BASE <= w < SEPARATOR_INDEX && StartsWith(rest, WORDS[w]))
  {
    if j :| 0 <= j < |DUPLICATES| && StartsWith(rest, DUPLICATES[j].0) && j > k {
      DuplicatePassesAgree(rest, dup, k, j);
      DuplicateWordAt(j);
      assert StartsWith(rest, WORDS[DUPLICATE_BASE + j]);
    } else {
      DuplicatePassSkips(rest, dup, true, k + 1);
    }
  }

  /** The next turn on a text that starts with a duplicate word is the duplicate pass. */
  lemma StepAtDuplicate(rest: string, st: State, w: nat)
    requires Inv(st) && DUPLICATE_BASE <= w < SEPARATOR_INDEX && StartsWith(rest, WORDS[w])
    requires |DuplicatePass(rest, st.dup, false, 0).0| < |rest|
    ensures var r := DuplicatePass(rest, st.dup, false, 0);
            Step(rest, st) == Ok((r.0, st.(dup := r.1)))
  {
    ColourScanPast(w, rest);
    ModifierScanPast(w, rest, st.mods, st.dup, false);
    StepUnselected(rest, st);
    ScanByDuplicate(rest, st);
  }

  /** After a duplicate word has been read, the rest of the same pass reads what the next turn would. */
  lemma DuplicateChain(rest: string, st: State, k: nat)
    requires Inv(st) && k < |DUPLICATES|
    ensures var r := DuplicatePass(rest, st.dup, true, k + 1);
            Run(rest, st) == Run(r.0, st.(dup := r.1))
  {
    var r := DuplicatePass(rest, st.dup, true, k + 1);
    DuplicatePassRestart(rest, st.dup, k);
    if r != (rest, st.dup, true) {
      var w :| DUPLICATE_BASE <= w < SEPARATOR_INDEX && StartsWith(rest, WORDS[w]);
      StepAtDuplicate(rest, st, w);
      RunStepped(rest, st, r.0, st.(dup := r.1));
    }
  }

  /** A duplicate word multiplies `dup`. */
  lemma RunDuplicateWord(k: nat, rest: string, st: State)
    requires k < |DUPLICATES| && Inv(st)
    ensures DUPLICATES[k].1 >= 1
    ensures Run(DUPLICATES[k].0 + rest, st) == Run(rest, st.(dup := Scale(st.dup, DUPLICATES[k].1)))
  {
    DuplicateTableWellFormed(k);
    var s := DUPLICATES[k].0 + rest;
    var st1 := st.(dup := Scale(st.dup, DUPLICATES[k].1));
    var r := DuplicatePass(rest, st1.dup, true, k + 1);
    StepDuplicateWord(k, rest, st);
    RunStepped(s, st, r.0, st.(dup := r.1));
    DuplicateChain(rest, st1, k);
  }

  /** One turn of the loop on a duplicate word: the duplicate pass takes it and goes on after it. */
  lemma StepDuplicateWord(k: nat, rest: string, st: State)
    requires k < |DUPLICATES| && Inv(st)
    ensures DUPLICATES[k].1 >= 1
    ensures var r := DuplicatePass(rest, Scale(st.dup, DUPLICATES[k].1), true, k + 1);
            |DUPLICATES[k].0 + rest| > 0 && Step(DUPLICATES[k].0 + rest, st) == Ok((r.0, st.(dup := r.1)))
  {
    DuplicateTableWellFormed(k);
    var s := DUPLICATES[k].0 + rest;
    DuplicateWordAt(k);
    StartsWithWord(DUPLICATES[k].0, rest);
    OnlyWord(DUPLICATE_BASE + k, s);
    ColourScanNone(s);
    WordIsNotHash(DUPLICATE_BASE + k, s);
    ModifierScanNone(s, st.mods, st.dup, false);
    forall i | 0 <= i < k
      ensures !StartsWith(s, DUPLICATES[i].0)
    {
      DuplicateWordAt(i);
    }
    DuplicatePassAt(s, st.dup, false, 0, k);
    assert s[|DUPLICATES[k].0|..] == rest;
    var r := DuplicatePass(rest, Scale(st.dup, DUPLICATES[k].1), true, k + 1);
    StepUnselected(s, st);
    assert Scan(s, st) == (r.0, st.(dup := r.1));
  }

  /** `to` closes or widens the open group. */
  lemma RunSeparatorWord(rest: string, st: State)
    requires Inv(st)
    ensures Run(SEPERATORS[0] + rest, st) == Run(rest, Separate(st))
  {
    var s := SEPERATORS[0] + rest;
    SeparatorWordAt();
    StartsWithWord(SEPERATORS[0], rest);
    OnlyWord(SEPARATOR_INDEX, s);
    ColourScanNone(s);
    WordIsNotHash(SEPARATOR_INDEX, s);
    ModifierScanNone(s, st.mods, st.dup, false);
    DuplicateScanNone(s, st.dup, false);
    assert s[|SEPERATORS[0]|..] == rest;
    StepUnselected(s, st);
    assert Scan(s, st) == (rest, Separate(st));
    RunStepped(s, st, rest, Separate(st));
  }

  /** A character that begins no word is dropped. */
  lemma RunOtherChar(ch: char, rest: string, st: State)
    requires Inert(ch) && Inv(st)
    ensures Run([ch] + rest, st) == Run(rest, st)
  {
    var s := [ch] + rest;
    NoWord(s);
    ColourScanNone(s);
    FirstChar(s, "#");
    ModifierScanNone(s, st.mods, st.dup, false);
    DuplicateScanNone(s, st.dup, false);
    SeparatorScanNone(s);
    assert s[1..] == rest;
    StepUnselected(s, st);
    assert Scan(s, st) == (rest, st);
    RunStepped(s, st, rest, st);
  }

  // ---- The whole text ----

  /** A word that is neither a hex literal nor a stray character is spelt as an entry of the word table. */
  lemma SpellIsWord(w: Word) returns (i: nat)
    requires WellFormed(w) && !w.HexWord? && !w.OtherChar?
    ensures i < |WORDS| && Spell(w) == WORDS[i]
  {
    match w
    case ColourWord(k) => ColourWordAt(k); i := COLOUR_BASE + k;
    case ModifierWord(k) => ModifierWordAt(k); i := MODIFIER_BASE + k;
    case DuplicateWord(k) => DuplicateWordAt(k); i := DUPLICATE_BASE + k;
    case SeparatorWord => SeparatorWordAt(); i := SEPARATOR_INDEX;
  }

  lemma TableWordNotHash(i: nat, rest: string)
    requires i < |WORDS|
    ensures !StartsWith(WORDS[i] + rest, "#")
  {
    StartsWithWord(WORDS[i], rest);
    WordIsNotHash(i, WORDS[i] + rest);
  }

  /** A spelling starts with `#` only when its first word is a hex literal. */
  lemma SpellingHead(ws: seq<Word>)
    requires AllWellFormed(ws)
    ensures StartsWith(Spelling(ws), "#") <==> ws != [] && ws[0].HexWord?
  {
    if ws != [] {
      var s := Spelling(ws);
      var rest := Spelling(ws[1..]);
      assert s == Spell(ws[0]) + rest;
      if ws[0].HexWord? {
        assert s[..1] == "#";
      } else if ws[0].OtherChar? {
        FirstChar(s, "#");
        assert s[0] == ws[0].ch;
      } else {
        var i := SpellIsWord(ws[0]);
        TableWordNotHash(i, rest);
      }
    }
  }

  /** The parser's loop on a spelled text computes the word-by-word reading. */
  lemma {:induction false} RunSpelling(ws: seq<Word>, st: State)
    requires AllWellFormed(ws) && Inv(st)
    ensures Run(Spelling(ws), st) == Interpret(ws, st)
    decreases |ws|
  {
    if ws != [] {
      var rest := Spelling(ws[1..]);
      assert AllWellFormed(ws[1..]);
      SpellingHead(ws[1..]);
      if ws[0].ColourWord? && |ws| > 1 && ws[1].HexWord? {
        RunColourBeforeHash(ws[0].k, rest, st);
        RunSpelling(ws[1..], st);
      } else {
        match ws[0]
        case ColourWord(k) =>
          RunColourWord(k, rest, st);
          if Select(COLOURS_MAIN[k].1, st).Ok? {
            RunSpelling(ws[1..], Select(COLOURS_MAIN[k].1, st).value);
          }
        case HexWord(c) =>
          assert Spelling(ws) == "#" + Hex.ToHex8(c) + rest;
          RunHexWord(c, rest, st);
          if Select(c, st).Ok? {
            RunSpelling(ws[1..], Select(c, st).value);
          }
        case ModifierWord(k) =>
          RunModifierWord(k, rest, st);
          RunSpelling(ws[1..], Apply(ws[0], st).value);
        case DuplicateWord(k) =>
          RunDuplicateWord(k, rest, st);
          RunSpelling(ws[1..], Apply(ws[0], st).value);
        case SeparatorWord =>
          RunSeparatorWord(rest, st);
          RunSpelling(ws[1..], Separate(st));
        case OtherChar(ch) =>
          RunOtherChar(ch, rest, st);
          RunSpelling(ws[1..], st);
      }
    }
  }

  /** A descriptor whose lower-cased text is spelled from words parses as the words say. */
  lemma ParseSpelling(text: string, ws: seq<Word>)
    requires AllWellFormed(ws) && Lower(text) == Spelling(ws)
    ensures Interpret(ws, INIT).Err? ==> Parse(text) == Err(Interpret(ws, INIT).error)
    ensures Interpret(ws, INIT).Ok? ==> Parse(text) == Finish(Interpret(ws, INIT).value)
  {
    RunSpelling(ws, INIT);
  }
}
