/**
 * What the older parser does with words: a word fires only once it is
 * complete, since no legacy word is a prefix of another; an upper-case
 * letter drops the partial word and starts a new one; colours take the
 * waiting modifiers last-written first; and any character that is not an
 * ASCII letter is rejected.
 */
module LegacyFacts {
  import opened Wrappers
  import opened Palette
  import opened Descriptor
  import opened Vocabulary
  import opened Legacy

  predicate IsLetter(c: char) { IsLowerLetter(c) || IsUpperLetter(c) }

  predicate AllLower(w: string) { forall i :: 0 <= i < |w| ==> IsLowerLetter(w[i]) }

  function UpperChar(c: char): (u: char)
    requires IsLowerLetter(c)
    ensures IsUpperLetter(u) && LowerChar(u) == c
  {
    (c as int - 32) as char
  }

  /** A word written with a capital first letter, as colour texts are. */
  function Capital(w: string): (s: string)
    requires |w| >= 1 && IsLowerLetter(w[0])
    ensures |s| == |w| && IsUpperLetter(s[0]) && s[1..] == w[1..]
  {
    [UpperChar(w[0])] + w[1..]
  }

  // ---- The legacy words are words of the vocabulary ----

  lemma ModifierNamesAgree(k: nat)
    requires k < |COLOUR_MODIFIERS|
    ensures k < |MODIFIERS| && COLOUR_MODIFIERS[k].0 == MODIFIERS[k].0
  {}

  /** A word that fires is one of the vocabulary's words. */
  lemma FiresIsWord(w: string) returns (i: nat)
    requires Fires(w)
    ensures i < |WORDS| && WORDS[i] == w
  {
    if Find(COLOURS_MAIN, w).Some? {
      var k :| 0 <= k < |COLOURS_MAIN| && COLOURS_MAIN[k] == (w, Find(COLOURS_MAIN, w).value);
      ColourWordAt(k);
      i := COLOUR_BASE + k;
    } else if Find(COLOUR_MODIFIERS, w).Some? {
      var k :| 0 <= k < |COLOUR_MODIFIERS| && COLOUR_MODIFIERS[k] == (w, Find(COLOUR_MODIFIERS, w).value);
      ModifierNamesAgree(k);
      ModifierWordAt(k);
      i := MODIFIER_BASE + k;
    } else {
      SeparatorWordAt();
      i := SEPARATOR_INDEX;
    }
  }

  /** Every word that fires has two letters or more. */
  lemma FiresShape(w: string)
    ensures Fires(w) ==> |w| >= 2
  {
    if Fires(w) {
      var i := FiresIsWord(w);
      WordShape(i);
    }
  }

  /** No proper prefix of a word that fires fires itself. */
  lemma PrefixQuiet(w: string, k: nat)
    requires Fires(w) && k < |w|
    ensures !Fires(w[..k])
  {
    if Fires(w[..k]) {
      var i := FiresIsWord(w);
      var j := FiresIsWord(w[..k]);
      assert StartsWith(WORDS[i], WORDS[j]);
      Unambiguous(i, j);
    }
  }

  /** Lookup of a key that no other entry of the table shares. */
  lemma FindHit<V>(table: seq<(string, V)>, k: nat)
    requires k < |table|
    requires forall j :: 0 <= j < |table| && j != k ==> table[j].0 != table[k].0
    ensures Find(table, table[k].0) == Some(table[k].1)
  {
    var r := Find(table, table[k].0);
    var i :| 0 <= i < |table| && table[i] == (table[k].0, r.value);
  }

  lemma WordsDiffer(i: nat, j: nat)
    requires i < |WORDS| && j < |WORDS| && i != j
    ensures WORDS[i] != WORDS[j]
  {
    Unambiguous(i, j);
  }

  // ---- What each kind of word does ----

  /** A colour name adds the colour, with the waiting modifiers applied, and empties the queue. */
  lemma ActColour(k: nat, st: Accum)
    requires k < |COLOURS_MAIN|
    ensures Act(COLOURS_MAIN[k].0, false, st)
         == st.(temp := st.temp + [ApplyMults(st.mult, ToAnchor(COLOURS_MAIN[k].1))], mult := [])
  {
    var w := COLOURS_MAIN[k].0;
    ColourWordAt(k);
    forall j | 0 <= j < |COLOURS_MAIN| && j != k ensures COLOURS_MAIN[j].0 != w {
      ColourWordAt(j);
      WordsDiffer(j, k);
    }
    FindHit(COLOURS_MAIN, k);
    forall j | 0 <= j < |COLOUR_MODIFIERS| ensures COLOUR_MODIFIERS[j].0 != w {
      ModifierNamesAgree(j);
      ModifierWordAt(j);
      WordsDiffer(MODIFIER_BASE + j, k);
    }
    SeparatorWordAt();
    WordsDiffer(SEPARATOR_INDEX, k);
  }

  /** A modifier joins the queue and nothing else changes. */
  lemma ActModifier(k: nat, st: Accum)
    requires k < |COLOUR_MODIFIERS|
    ensures Act(COLOUR_MODIFIERS[k].0, false, st) == st.(mult := st.mult + [COLOUR_MODIFIERS[k].1])
  {
    var w := COLOUR_MODIFIERS[k].0;
    ModifierNamesAgree(k);
    ModifierWordAt(k);
    forall j | 0 <= j < |COLOUR_MODIFIERS| && j != k ensures COLOUR_MODIFIERS[j].0 != w {
      ModifierNamesAgree(j);
      ModifierWordAt(j);
      WordsDiffer(MODIFIER_BASE + j, MODIFIER_BASE + k);
    }
    FindHit(COLOUR_MODIFIERS, k);
    SeparatorWordAt();
    WordsDiffer(SEPARATOR_INDEX, MODIFIER_BASE + k);
  }

  /** `to` closes the open group; the waiting modifiers stay queued. */
  lemma ActTo(st: Accum)
    ensures Act("to", false, st) == st.(final := st.final + [Join(st.temp)], temp := [])
  {
    SeparatorWordAt();
    forall j | 0 <= j < |COLOURS_MAIN| ensures COLOURS_MAIN[j].0 != "to" {
      ColourWordAt(j);
      WordsDiffer(COLOUR_BASE + j, SEPARATOR_INDEX);
    }
    forall j | 0 <= j < |COLOUR_MODIFIERS| ensures COLOUR_MODIFIERS[j].0 != "to" {
      ModifierNamesAgree(j);
      ModifierWordAt(j);
      WordsDiffer(MODIFIER_BASE + j, SEPARATOR_INDEX);
    }
  }

  // ---- Letters, words and the final pass ----

  /** An upper-case letter drops a partial word and starts a new one with that letter. */
  lemma UpperRestarts(c: char, rest: string, st: Accum, last: char)
    requires IsUpperLetter(c) && !Fires(st.word)
    ensures Walk([c] + rest, st, last) == Walk(rest, st.(word := [LowerChar(c)]), last)
  {
    assert ([c] + rest)[1..] == rest;
  }

  /** One step of the walk over a letter the loop accepts. */
  lemma WalkStep(c: char, rest: string, st: Accum, last: char)
    requires Body(c, false, st).Ok?
    ensures Walk([c] + rest, st, last) == Walk(rest, Body(c, false, st).value, last)
  {
    assert ([c] + rest)[1..] == rest;
  }

  /** A lower-case letter that does not complete a word only extends it. */
  lemma BodyGrows(c: char, st: Accum)
    requires IsLowerLetter(c) && !Fires(st.word + [c])
    ensures Body(c, false, st) == Ok(st.(word := st.word + [c]))
  {}

  /** A lower-case letter that completes a word fires it and clears it. */
  lemma BodyFires(c: char, st: Accum)
    requires IsLowerLetter(c) && Fires(st.word + [c])
    ensures Body(c, false, st) == Ok(Act(st.word + [c], false, st).(word := ""))
  {}

  /** `Act` neither reads nor writes the partial word. */
  lemma ActIgnoresWord(w: string, st: Accum, x: string)
    ensures Act(w, false, st.(word := x)) == Act(w, false, st).(word := x)
  {}

  /** A letter that completes a word fires it. */
  lemma LastLetter(c: char, rest: string, st: Accum, last: char)
    requires IsLowerLetter(c) && Fires(st.word + [c])
    ensures Walk([c] + rest, st, last) == Walk(rest, Act(st.word + [c], false, st).(word := ""), last)
  {
    BodyFires(c, st);
    WalkStep(c, rest, st, last);
  }

  /** A letter that does not complete a word only extends it. */
  lemma InnerLetter(c: char, rest: string, st: Accum, last: char)
    requires IsLowerLetter(c) && !Fires(st.word + [c])
    ensures Walk([c] + rest, st, last) == Walk(rest, st.(word := st.word + [c]), last)
  {
    BodyGrows(c, st);
    WalkStep(c, rest, st, last);
  }

  /** The last letter `u` of the word `p + u` fires it. */
  lemma LastOfWord(p: string, u: string, rest: string, st: Accum, last: char)
    requires Fires(p + u) && AllLower(u) && |u| == 1 && st.word == p
    ensures Walk(u + rest, st, last) == Walk(rest, Act(p + u, false, st).(word := ""), last)
  {
    assert u + rest == [u[0]] + rest;
    assert p + u == st.word + [u[0]];
    LastLetter(u[0], rest, st, last);
  }

  lemma Shift(p: string, u: string)
    requires |u| >= 2
    ensures (p + [u[0]]) + u[1..] == p + u && (p + u)[..|p| + 1] == p + [u[0]]
    ensures u == [u[0]] + u[1..]
  {}

  /** A letter before the last of the word `p + u` moves it from `u` to `p`. */
  lemma InsideWord(p: string, u: string, rest: string, st: Accum, last: char)
    requires Fires(p + u) && AllLower(u) && |u| >= 2 && st.word == p
    ensures Walk(u + rest, st, last) == Walk(u[1..] + rest, st.(word := p + [u[0]]), last)
  {
    NextQuiet(p, u);
    Unshift(u, rest);
    InnerLetter(u[0], u[1..] + rest, st, last);
  }

  /** No proper prefix of a word that fires fires itself. */
  lemma NextQuiet(p: string, u: string)
    requires Fires(p + u) && |u| >= 2
    ensures !Fires(p + [u[0]])
  {
    Shift(p, u);
    PrefixQuiet(p + u, |p| + 1);
  }

  lemma Unshift(u: string, rest: string)
    requires |u| >= 1
    ensures u + rest == [u[0]] + (u[1..] + rest)
  {
    assert u == [u[0]] + u[1..];
  }

  /** With `p` read so far, the remaining letters `u` of the word `p + u` build it up and fire it at its last letter. */
  lemma {:induction false} WalkLetters(p: string, u: string, rest: string, st: Accum, last: char)
    requires Fires(p + u) && AllLower(u) && u != [] && st.word == p
    ensures Walk(u + rest, st, last) == Walk(rest, Act(p + u, false, st).(word := ""), last)
    decreases |u|
  {
    if |u| == 1 {
      LastOfWord(p, u, rest, st, last);
    } else {
      var st1 := st.(word := p + [u[0]]);
      InsideWord(p, u, rest, st, last);
      Shift(p, u);
      assert AllLower(u[1..]);
      WalkLetters(p + [u[0]], u[1..], rest, st1, last);
      ActIgnoresWord(p + u, st, p + [u[0]]);
      ActIgnoresWord(p + u, st, "");
    }
  }

  /** A capitalised word fires once, with the effect `Act` gives it, and leaves the word empty. */
  lemma WalkCapital(w: string, rest: string, st: Accum, last: char)
    requires Fires(w) && AllLower(w) && !Fires(st.word)
    ensures Walk(Capital(w) + rest, st, last) == Walk(rest, Act(w, false, st).(word := ""), last)
  {
    FiresShape(w);
    var u := UpperChar(w[0]);
    CapitalSplit(w, rest);
    UpperRestarts(u, w[1..] + rest, st, last);
    WalkLetters([w[0]], w[1..], rest, st.(word := [w[0]]), last);
    ActIgnoresWord(w, st, [w[0]]);
  }

  lemma CapitalSplit(w: string, rest: string)
    requires |w| >= 1 && IsLowerLetter(w[0])
    ensures Capital(w) + rest == [UpperChar(w[0])] + (w[1..] + rest)
    ensures [w[0]] + w[1..] == w
  {}

  // ---- Texts made of capitalised words ----

  /** A word of a colour text: a colour name, a modifier or `to`, each by its table index. */
  datatype Word = ColourName(k: nat) | ModifierName(m: nat) | ToWord

  predicate Known(w: Word) {
    match w
    case ColourName(k) => k < |COLOURS_MAIN|
    case ModifierName(m) => m < |COLOUR_MODIFIERS|
    case ToWord => true
  }

  predicate AllKnown(ws: seq<Word>) { forall i :: 0 <= i < |ws| ==> Known(ws[i]) }

  lemma ColourNamesLower(k: nat)
    requires k < |COLOURS_MAIN|
    ensures |COLOURS_MAIN[k].0| >= 2 && AllLower(COLOURS_MAIN[k].0)
  {}

  lemma ModifierNamesLower(m: nat)
    requires m < |COLOUR_MODIFIERS|
    ensures |COLOUR_MODIFIERS[m].0| >= 2 && AllLower(COLOUR_MODIFIERS[m].0)
  {}

  function Name(w: Word): (n: string)
    requires Known(w)
    ensures |n| >= 2 && AllLower(n)
  {
    match w
    case ColourName(k) => ColourNamesLower(k); COLOURS_MAIN[k].0
    case ModifierName(m) => ModifierNamesLower(m); COLOUR_MODIFIERS[m].0
    case ToWord => "to"
  }

  /** Every name fires. */
  lemma NameFires(w: Word)
    requires Known(w)
    ensures Fires(Name(w))
  {
    match w
    case ColourName(k) => assert Find(COLOURS_MAIN, Name(w)).Some?;
    case ModifierName(m) => assert Find(COLOUR_MODIFIERS, Name(w)).Some?;
    case ToWord =>
  }

  /** The text the words spell, each with a capital first letter and no spaces. */
  function Text(ws: seq<Word>): string
    requires AllKnown(ws)
    decreases |ws|
  {
    if ws == [] then "" else Capital(Name(ws[0])) + Text(ws[1..])
  }

  /** A text of one or more words ends with the lower-case last letter of its last word. */
  lemma {:induction false} TextEnd(ws: seq<Word>)
    requires AllKnown(ws) && ws != []
    ensures |Text(ws)| >= 2 && IsLowerLetter(Text(ws)[|Text(ws)| - 1])
    decreases |ws|
  {
    var n := Name(ws[0]);
    var head, tail := Capital(n), Text(ws[1..]);
    assert Text(ws) == head + tail;
    if |ws| == 1 {
      assert tail == "";
      assert head[|head| - 1] == n[|n| - 1];
    } else {
      TextEnd(ws[1..]);
    }
  }

  /** What each word does to the parser's state, as a reference apart from the letter loop. */
  function Effect(w: Word, st: Accum): (r: Accum)
    requires Known(w)
    ensures r.word == st.word
  {
    match w
    case ColourName(k) => st.(temp := st.temp + [ApplyMults(st.mult, ToAnchor(COLOURS_MAIN[k].1))], mult := [])
    case ModifierName(m) => st.(mult := st.mult + [COLOUR_MODIFIERS[m].1])
    case ToWord => st.(final := st.final + [Join(st.temp)], temp := [])
  }

  function Effects(ws: seq<Word>, st: Accum): (r: Accum)
    requires AllKnown(ws)
    ensures r.word == st.word
    decreases |ws|
  {
    if ws == [] then st else Effects(ws[1..], Effect(ws[0], st))
  }

  lemma EffectIsAct(w: Word, st: Accum)
    requires Known(w) && st.word == ""
    ensures Act(Name(w), false, st).(word := "") == Effect(w, st)
  {
    match w
    case ColourName(k) => ActColour(k, st);
    case ModifierName(m) => ActModifier(m, st);
    case ToWord => ActTo(st);
  }

  /** One capitalised word read from an empty partial word. */
  lemma WalkWord(w: Word, rest: string, st: Accum, last: char)
    requires Known(w) && st.word == ""
    ensures Walk(Capital(Name(w)) + rest, st, last) == Walk(rest, Effect(w, st), last)
  {
    NameFires(w);
    FiresShape(st.word);
    WalkCapital(Name(w), rest, st, last);
    EffectIsAct(w, st);
  }

  lemma TextCons(ws: seq<Word>, rest: string)
    requires AllKnown(ws) && ws != []
    ensures Text(ws) + rest == Capital(Name(ws[0])) + (Text(ws[1..]) + rest)
  {
    var head, tail := Capital(Name(ws[0])), Text(ws[1..]);
    assert Text(ws) == head + tail;
    Assoc(head, tail, rest);
  }

  /** A text of capitalised words is read word by word, each word doing what `Effect` says. */
  lemma {:induction false} WalkWords(ws: seq<Word>, rest: string, st: Accum, last: char)
    requires AllKnown(ws) && st.word == ""
    ensures Walk(Text(ws) + rest, st, last) == Walk(rest, Effects(ws, st), last)
    decreases |ws|
  {
    if ws != [] {
      TextCons(ws, rest);
      WalkWord(ws[0], Text(ws[1..]) + rest, st, last);
      WalkWords(ws[1..], rest, Effect(ws[0], st), last);
    } else {
      assert Text(ws) + rest == rest;
    }
  }

  /** The state after the extra pass over `last` that follows a complete word. */
  function Closed(st: Accum, last: char): Accum {
    Accum(st.final + [Join(st.temp)], [], st.mult, if IsLowerLetter(last) then "" else [LowerChar(last)])
  }

  /** After a complete word, the extra pass closes the open group. */
  lemma FinalPass(st: Accum, last: char)
    requires st.word == "" && IsLetter(last)
    ensures Walk("", st, last) == Ok(Closed(st, last))
  {
    var word := if IsLowerLetter(last) then [last] else "";
    FiresShape(word);
    assert word != "to";
  }

  /** An unfinished word is dropped when a capitalised word follows it. */
  lemma PartialWordDropped(w: Word, rest: string, st: Accum, last: char)
    requires Known(w) && !Fires(st.word)
    ensures Walk(Capital(Name(w)) + rest, st, last) == Walk(Capital(Name(w)) + rest, st.(word := ""), last)
  {
    NameFires(w);
    FiresShape("");
    WalkCapital(Name(w), rest, st, last);
    WalkCapital(Name(w), rest, st.(word := ""), last);
    ActIgnoresWord(Name(w), st, "");
  }

  lemma WalkText(ws: seq<Word>, last: char)
    requires AllKnown(ws)
    ensures Walk(Text(ws), START, last) == Walk("", Effects(ws, START), last)
  {
    WalkWords(ws, "", START, last);
    assert Text(ws) + "" == Text(ws);
  }

  /** A text of capitalised words parses to the groups its words close, and then the open one. */
  lemma ParseWords(ws: seq<Word>)
    requires AllKnown(ws) && ws != []
    ensures ParseLegacy(Text(ws)) == Ok(Effects(ws, START).final + [Join(Effects(ws, START).temp)])
  {
    TextEnd(ws);
    var t := Text(ws);
    var last := t[|t| - 1];
    var fin := Effects(ws, START);
    WalkText(ws, last);
    FinalPass(fin, last);
    ParseOfWalk(t, Closed(fin, last));
  }

  // ---- Modifiers ----

  /** The modifier written last is applied first. */
  lemma LastModifierFirst(ms: seq<Mult>, m: Mult, c: Anchor)
    ensures ApplyMults(ms + [m], c) == ApplyMults(ms, ApplyMult(m, c))
  {
    assert (ms + [m])[..|ms|] == ms;
  }

  /**
   * Modifiers waiting in two parts: the part written later is applied first,
   * and the earlier part to its result, whatever the split.
   */
  lemma {:induction false} ApplyMultsAppend(a: seq<Mult>, b: seq<Mult>, c: Anchor)
    ensures ApplyMults(a + b, c) == ApplyMults(a, ApplyMults(b, c))
    decreases |b|
  {
    if b == [] {
      assert a + b == a;
    } else {
      var b1, m := b[..|b| - 1], b[|b| - 1];
      assert b == b1 + [m];
      assert a + b == (a + b1) + [m];
      LastModifierFirst(a + b1, m, c);
      LastModifierFirst(b1, m, c);
      ApplyMultsAppend(a, b1, ApplyMult(m, c));
    }
  }

  /** A modified colour has its alpha capped at 255; its colour channels are not capped. */
  lemma {:induction false} AlphaCapped(ms: seq<Mult>, c: Anchor)
    requires ms != []
    ensures ApplyMults(ms, c).a <= 255.0
    decreases |ms|
  {
    var c1 := ApplyMult(ms[|ms| - 1], c);
    if |ms| > 1 {
      AlphaCapped(ms[..|ms| - 1], c1);
    }
  }

  // ---- Invalid characters ----

  /** A word that does not fire stays so after a pass over a letter. */
  lemma BodyKeepsQuiet(letter: char, st: Accum)
    requires !Fires(st.word) && Body(letter, false, st).Ok?
    ensures !Fires(Body(letter, false, st).value.word)
  {
    FiresShape([]);
    FiresShape([LowerChar(letter)]);
  }

  /** From a word that does not fire, the walk fails exactly when the rest holds a character that is not a letter. */
  lemma {:induction false} WalkFailsIff(s: string, st: Accum, last: char)
    requires !Fires(st.word)
    ensures Walk(s, st, last).Err? <==> exists i :: 0 <= i < |s| && !IsLetter(s[i])
    decreases |s|
  {
    if s != [] {
      if IsLetter(s[0]) {
        var st1 := Body(s[0], false, st).value;
        BodyKeepsQuiet(s[0], st);
        WalkFailsIff(s[1..], st1, last);
        if exists i :: 0 <= i < |s| && !IsLetter(s[i]) {
          var i :| 0 <= i < |s| && !IsLetter(s[i]);
          assert s[1..][i - 1] == s[i];
        }
        if exists i :: 0 <= i < |s[1..]| && !IsLetter(s[1..][i]) {
          var i :| 0 <= i < |s[1..]| && !IsLetter(s[1..][i]);
          assert s[i + 1] == s[1..][i];
        }
      }
    }
  }

  /** The older parser accepts exactly the texts made of ASCII letters. */
  lemma ParseLegacyFailsIff(name: string)
    ensures ParseLegacy(name).Err? <==> exists i :: 0 <= i < |name| && !IsLetter(name[i])
    ensures ParseLegacy(name).Err? ==> ParseLegacy(name).error == InvalidCharacters
  {
    if name != [] {
      FiresShape(START.word);
      WalkFailsIff(name, START, name[|name| - 1]);
    }
  }
}
