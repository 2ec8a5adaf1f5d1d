/**
 * The older colour-text parser. It walks the text one letter at a time:
 * lower-case letters build up a word, an upper-case letter starts a new
 * one, and a word fires as soon as it is a colour name, a modifier or
 * `to`. After the last letter the loop makes one more pass over that same
 * letter, which closes the final group.
 */
module Legacy {
  import opened Wrappers
  import opened Palette

  /** A legacy modifier: each colour channel `c` becomes `add + mul * c`, alpha becomes `min(255, alpha * alphaMul)`. */
  datatype Mult = Mult(add: real, mul: real, alphaMul: real)

  const COLOUR_MODIFIERS: seq<(string, Mult)> := [
    ("light", Mult(128.0, 0.5, 1.0)),
    ("dark", Mult(0.0, 0.5, 1.0)),
    ("transparent", Mult(0.0, 1.0, 0.0)),
    ("translucent", Mult(0.0, 1.0, 0.5)),
    ("opaque", Mult(0.0, 1.0, 2.0))
  ]

  datatype LegacyError = InvalidCharacters   // ValueError('invalid characters in colour map')

  /**
   * The parser's working state: the merged groups so far (`None` is the
   * empty tuple an empty group merges to), the colours of the open group,
   * the modifiers waiting for a colour, and the word being read.
   */
  datatype Accum = Accum(final: seq<Option<Anchor>>, temp: seq<Anchor>, mult: seq<Mult>, word: string)

  const START := Accum([], [], [], "")

  predicate IsLowerLetter(c: char) { 'a' <= c <= 'z' }

  predicate IsUpperLetter(c: char) { 'A' <= c <= 'Z' }

  /** Dictionary lookup: the value stored under `w`, if any. */
  function Find<V>(table: seq<(string, V)>, w: string): (r: Option<V>)
    ensures r.None? <==> forall i :: 0 <= i < |table| ==> table[i].0 != w
    ensures r.Some? ==> exists i :: 0 <= i < |table| && table[i] == (w, r.value)
  {
    if table == [] then None
    else if table[0].0 == w then Some(table[0].1)
    else
      var r := Find(table[1..], w);
      assert r.Some? ==> exists i :: 1 <= i < |table| && table[i] == (w, r.value) by {
        if r.Some? {
          var i :| 0 <= i < |table[1..]| && table[1..][i] == (w, r.value);
          assert table[i + 1] == (w, r.value);
        }
      }
      assert r.None? ==> forall i :: 1 <= i < |table| ==> table[i].0 != w by {
        if r.None? {
          forall i | 1 <= i < |table| ensures table[i].0 != w {
            assert table[1..][i - 1] == table[i];
          }
        }
      }
      r
  }

  /** Python's `min(255, v)`: `v` when it is smaller, otherwise 255. */
  function CapAt255(v: real): (m: real)
    ensures m <= 255.0 && m <= v
    ensures v < 255.0 ==> m == v
    ensures v >= 255.0 ==> m == 255.0
  {
    if v < 255.0 then v else 255.0
  }

  /** One modifier applied to a colour; only alpha is capped. */
  function ApplyMult(m: Mult, c: Anchor): Anchor {
    Anchor(m.add + m.mul * c.r, m.add + m.mul * c.g, m.add + m.mul * c.b, CapAt255(c.a * m.alphaMul))
  }

  /** The waiting modifiers applied last-written first, as `for mult in Mult[::-1]` does. */
  function ApplyMults(ms: seq<Mult>, c: Anchor): Anchor
    decreases |ms|
  {
    if ms == [] then c else ApplyMults(ms[..|ms| - 1], ApplyMult(ms[|ms| - 1], c))
  }

  function AddAnchors(x: Anchor, y: Anchor): Anchor {
    Anchor(x.r + y.r, x.g + y.g, x.b + y.b, x.a + y.a)
  }

  function SumAnchors(g: seq<Anchor>): Anchor
    decreases |g|
  {
    if g == [] then Anchor(0.0, 0.0, 0.0, 0.0) else AddAnchors(SumAnchors(g[..|g| - 1]), g[|g| - 1])
  }

  /** `tuple(sum(c) / n for c in zip(*Temp))`: the channelwise mean, or the empty tuple for no colours. */
  function Join(g: seq<Anchor>): (j: Option<Anchor>)
    ensures j.None? <==> g == []
  {
    if g == [] then None
    else
      var s, n := SumAnchors(g), |g| as real;
      Some(Anchor(s.r / n, s.g / n, s.b / n, s.a / n))
  }

  /**
   * What a fired word does: a modifier is queued, or a colour is modified,
   * added to the group and the queue emptied; then `to`, or the final pass,
   * closes the group.
   */
  function Act(word: string, skip: bool, st: Accum): Accum {
    var mod := Find(COLOUR_MODIFIERS, word);
    var colour := Find(COLOURS_MAIN, word);
    var st1 :=
      if mod.Some? then st.(mult := st.mult + [mod.value])
      else if colour.Some? then st.(temp := st.temp + [ApplyMults(st.mult, ToAnchor(colour.value))], mult := [])
      else st;
    if word == "to" || skip then st1.(final := st1.final + [Join(st1.temp)], temp := []) else st1
  }

  /** A word the parser acts on. */
  predicate Fires(word: string) {
    Find(COLOURS_MAIN, word).Some? || Find(COLOUR_MODIFIERS, word).Some? || word == "to"
  }

  /** One pass of the loop over `letter`; `skip` marks the extra pass over the last letter. */
  function Body(letter: char, skip: bool, st: Accum): Result<Accum, LegacyError> {
    var lower := IsLowerLetter(letter);
    var word := if lower then st.word + [letter] else st.word;
    if skip || Fires(word) || IsUpperLetter(letter) then
      Ok(Act(word, skip, st).(word := if lower then "" else [LowerChar(letter)]))
    else if lower then Ok(st.(word := word))
    else Err(InvalidCharacters)
  }

  /** The loop over the rest `s` of the text, then the extra pass over the text's last letter `last`. */
  function Walk(s: string, st: Accum, last: char): Result<Accum, LegacyError>
    decreases |s|
  {
    if s == [] then Body(last, true, st)
    else match Body(s[0], false, st)
      case Err(e) => Err(e)
      case Ok(st') => Walk(s[1..], st', last)
  }

  /** The merged groups of a whole text. */
  function ParseLegacy(name: string): Result<seq<Option<Anchor>>, LegacyError> {
    if name == [] then Ok([])
    else match Walk(name, START, name[|name| - 1])
      case Err(e) => Err(e)
      case Ok(st) => Ok(st.final)
  }

  /** The modifier loop: the colour is rewritten once per waiting modifier, from the last to the first. */
  method ApplyModifiersReversed(mult: seq<Mult>, colour: Anchor) returns (c: Anchor)
    ensures c == ApplyMults(mult, colour)
  {
    c := colour;
    var j := |mult|;
    assert mult[..j] == mult;
    while j > 0
      invariant 0 <= j <= |mult|
      invariant ApplyMults(mult[..j], c) == ApplyMults(mult, colour)
    {
      // alpha is popped, the colour channels rewritten, and the capped alpha put back
      assert mult[..j][..j - 1] == mult[..j - 1];
      c := ApplyMult(mult[j - 1], c);
      j := j - 1;
    }
    assert mult[..0] == [];
  }

  /**
   * One pass of the loop over `letter`, on the state `st`: `doneStuff` is
   * false exactly when the letter is rejected.
   */
  method LetterPass(letter: char, skip: bool, st: Accum) returns (doneStuff: bool, next: Accum)
    ensures doneStuff <==> Body(letter, skip, st).Ok?
    ensures doneStuff ==> Body(letter, skip, st) == Ok(next)
  {
    var final, temp, mult, word := st.final, st.temp, st.mult, st.word;
    doneStuff := false;
    if IsLowerLetter(letter) {
      word := word + [letter];
      doneStuff := true;
    }
    var wordColours := Find(COLOURS_MAIN, word);
    var wordMods := Find(COLOUR_MODIFIERS, word);
    var wordTo := word == "to";
    if skip || wordColours.Some? || wordMods.Some? || wordTo || IsUpperLetter(letter) {
      if wordMods.Some? {
        mult := mult + [wordMods.value];
      } else if wordColours.Some? {
        var c := ApplyModifiersReversed(mult, ToAnchor(wordColours.value));
        temp := temp + [c];
        mult := [];
      }
      if wordTo || skip {
        final := final + [Join(temp)];
        temp := [];
      }
      if !doneStuff {
        word := [LowerChar(letter)];
      } else {
        word := "";
      }
      doneStuff := true;
    }
    next := Accum(final, temp, mult, word);
  }

  /** `_parse_colour_text` of the older version, letter by letter. */
  method ParseColourTextLegacy(colourName: string) returns (r: Result<seq<Option<Anchor>>, LegacyError>)
    ensures r == ParseLegacy(colourName)
  {
    ghost var last := if colourName == [] then 'a' else colourName[|colourName| - 1];
    var st := START;
    var i := 0;
    if colourName != [] {
      WalkFromIsWalk(colourName, 0, START, last);
      assert colourName[0..] == colourName;
    }
    while true
      invariant 0 <= i <= |colourName| + 1
      invariant colourName == [] ==> i == 0 && st == START
      invariant colourName != [] && i <= |colourName| ==>
                  Walk(colourName, START, last) == WalkFrom(colourName, i, st, last)
      invariant colourName != [] && i == |colourName| + 1 ==> Walk(colourName, START, last) == Ok(st)
      decreases |colourName| + 1 - i
    {
      var skip := false;
      var letter: char;
      if i < |colourName| {
        letter := colourName[i];
      } else if 0 < i <= |colourName| {
        // `colour_name[i - 1]`; at i == 0 this index is -1, which fails only for the empty text
        letter := colourName[i - 1];
        skip := true;
      } else {
        break;
      }
      var doneStuff, next := LetterPass(letter, skip, st);
      i := i + 1;
      if !doneStuff {
        return Err(InvalidCharacters);
      }
      st := next;
    }
    ParseOfWalk(colourName, st);
    r := Ok(st.final);
  }

  /** The walk from position `i` of `name` on, by index. */
  function WalkFrom(name: string, i: nat, st: Accum, last: char): Result<Accum, LegacyError>
    requires i <= |name|
    decreases |name| - i
  {
    if i == |name| then Body(last, true, st)
    else match Body(name[i], false, st)
      case Err(e) => Err(e)
      case Ok(st') => WalkFrom(name, i + 1, st', last)
  }

  lemma {:induction false} WalkFromIsWalk(name: string, i: nat, st: Accum, last: char)
    requires i <= |name|
    ensures WalkFrom(name, i, st, last) == Walk(name[i..], st, last)
    decreases |name| - i
  {
    if i < |name| {
      assert name[i..][0] == name[i] && name[i..][1..] == name[i + 1..];
      match Body(name[i], false, st)
      case Err(e) =>
      case Ok(st') => WalkFromIsWalk(name, i + 1, st', last);
    }
  }

  /** The parse of a text is the merged groups its walk leaves. */
  lemma ParseOfWalk(name: string, st: Accum)
    requires name != [] ==> Walk(name, START, name[|name| - 1]) == Ok(st)
    requires name == [] ==> st == START
    ensures ParseLegacy(name) == Ok(st.final)
  {}

  /** Every step keeps the merged groups and may add to them; the final pass always adds one. */
  lemma {:induction false} WalkAddsGroup(s: string, st: Accum, last: char)
    ensures Walk(s, st, last).Ok? ==> |Walk(s, st, last).value.final| >= |st.final| + 1
    decreases |s|
  {
    if s != [] {
      var b := Body(s[0], false, st);
      if b.Ok? {
        WalkAddsGroup(s[1..], b.value, last);
      }
    }
  }

  /** A text that parses gives no groups only when it is empty. */
  lemma ParseLegacyEmpty(name: string)
    ensures ParseLegacy(name) == Ok([]) <==> name == []
  {
    if name != [] {
      WalkAddsGroup(name, START, name[|name| - 1]);
    }
  }

  datatype LegacyMapError =
    | BadText(e: LegacyError)   // the parser's own exception, passed on
    | NotEnoughColours          // ValueError('not enough colours to generate colour map')
    | UnknownColourMap          // ValueError('unknown colour map')

  function LiftLegacy(p: Result<seq<Option<Anchor>>, LegacyError>): (r: Result<seq<Option<Anchor>>, LegacyMapError>)
    ensures p.Ok? ==> r == Ok(p.value)
    ensures p.Err? ==> r == Err(BadText(p.error))
  {
    match p
    case Ok(g) => Ok(g)
    case Err(e) => Err(BadText(e))
  }

  lemma EmptyIsNoPreset()
    ensures Lower("") == "" && "" !in MAPS
  {}

  /**
   * `ColourMap()[profile]` of the older version: a preset, or a generated
   * map of at least two groups. Only the empty text gives no groups, so
   * `unknown colour map` is the answer for the empty name and no other.
   */
  function LegacyColourMapGet(profile: string): (r: Result<seq<Option<Anchor>>, LegacyMapError>)
    ensures Lower(profile) in MAPS ==> r == LiftLegacy(ParseLegacy(MAPS[Lower(profile)]))
    ensures Lower(profile) !in MAPS && ParseLegacy(profile).Err? ==> r == Err(BadText(ParseLegacy(profile).error))
    ensures Lower(profile) !in MAPS && ParseLegacy(profile).Ok? ==>
              (r == Err(NotEnoughColours) <==> |ParseLegacy(profile).value| == 1)
    ensures Lower(profile) !in MAPS && r.Ok? ==> ParseLegacy(profile) == Ok(r.value) && |r.value| >= 2
    ensures r == Err(UnknownColourMap) <==> profile == []
  {
    var key := Lower(profile);
    EmptyIsNoPreset();
    ParseLegacyEmpty(profile);
    if key in MAPS then
      LiftLegacy(ParseLegacy(MAPS[key]))
    else
      match ParseLegacy(profile)
      case Err(e) => Err(BadText(e))
      case Ok(generated) =>
        if |generated| == 0 then Err(UnknownColourMap)
        else if |generated| < 2 then Err(NotEnoughColours)
        else Ok(generated)
  }
}
