/**
 * The descriptor parser of the current colour engine (`_parse_colour_text`
 * in core/image/colours.py): a lenient left-to-right scan of the lower-cased
 * text that recognises colour names, `#` hex literals, modifiers, duplicate
 * words and the separator `to`, and drops any character nothing matches.
 *
 * The source keeps its groups in a list of lists in which one list object may
 * fill several trailing slots (`[new_list] * list_len`), so that extending the
 * last slot in place extends all of them. `State` keeps exactly what that
 * aliasing means: the closed groups, the content `cur` of the shared last
 * list and the number `copies` of slots it fills.
 */
module Descriptor {
  import opened Wrappers
  import opened Palette
  import Hex

  /** A modifier: each RGB channel becomes (c >> colourShift) + colourOffset, alpha likewise. */
  datatype Modifier = Modifier(colourOffset: int, colourShift: int, alphaOffset: int, alphaShift: int)

  const LIGHT := Modifier(128, 1, 0, 0)
  const DARK := Modifier(0, 1, 0, 0)
  const TRANSPARENT := Modifier(0, 0, 0, 8)
  const TRANSLUCENT := Modifier(0, 0, 0, 1)
  const OPAQUE := Modifier(0, 0, 0, -1)

  const MODIFIERS: seq<(string, Modifier)> := [
    ("light", LIGHT),
    ("dark", DARK),
    ("transparent", TRANSPARENT),
    ("translucent", TRANSLUCENT),
    ("opaque", OPAQUE)
  ]

  const DUPLICATES: seq<(string, nat)> := [
    ("single", 1), ("double", 2), ("triple", 3), ("quadruple", 4),
    ("quintuple", 5), ("pentuple", 5), ("sextuple", 6), ("hextuple", 6),
    ("septuple", 7), ("heptuple", 7), ("octuple", 8), ("nonuple", 9),
    ("decuple", 10), ("undecuple", 11), ("hendecuple", 11),
    ("duodecuple", 12), ("tredecuple", 13)
  ]

  const SEPERATORS: seq<string> := ["to"]

  lemma ModifierTableWellFormed(k: nat)
    requires k < |MODIFIERS|
    ensures |MODIFIERS[k].0| > 0
  {}

  lemma DuplicateTableWellFormed(k: nat)
    requires k < |DUPLICATES|
    ensures |DUPLICATES[k].0| > 0 && DUPLICATES[k].1 >= 1
  {}

  /** The three ways a parse aborts. */
  datatype ParseError =
    | InvalidColourMap   // ValueError('input colour map is not valid'): the first slot is empty
    | EmptyGroup         // IndexError: a later slot is empty when the groups are merged
    | NegativeShift      // ValueError from `>>` with a negative count (the opaque modifier)

  datatype State = State(closed: seq<seq<Colour>>, cur: seq<Colour>, copies: nat, mods: seq<Modifier>, dup: nat)

  const INIT := State([], [], 1, [], 1)

  /** What the loop keeps true: at least one slot, a positive multiplier, no empty closed group. */
  ghost predicate Inv(st: State) {
    st.copies >= 1 && st.dup >= 1 && forall i :: 0 <= i < |st.closed| ==> st.closed[i] != []
  }

  function Repeat<T>(x: T, n: nat): (r: seq<T>)
    ensures |r| == n && forall i :: 0 <= i < n ==> r[i] == x
  {
    seq(n, _ => x)
  }

  function Min(x: int, y: int): int { if x <= y then x else y }

  function NamesOf<V>(table: seq<(string, V)>): (r: seq<string>)
    ensures |r| == |table| && forall i :: 0 <= i < |table| ==> r[i] == table[i].0
  {
    seq(|table|, i requires 0 <= i < |table| => table[i].0)
  }

  /** Index of the first name that starts `s`, or |names| when none does. */
  function FindPrefix(names: seq<string>, s: string, k: nat): (i: nat)
    requires k <= |names|
    ensures k <= i <= |names|
    ensures i < |names| ==> StartsWith(s, names[i])
    ensures forall j :: k <= j < i ==> !StartsWith(s, names[j])
    decreases |names| - k
  {
    if k == |names| then k
    else if StartsWith(s, names[k]) then k
    else FindPrefix(names, s, k + 1)
  }

  function Pow2(k: nat): (p: nat)
    ensures p >= 1
  {
    if k == 0 then 1 else 2 * Pow2(k - 1)
  }

  /** Python's `x >> k` for k >= 0 (a floor division, also for negative x). */
  function Shr(x: int, k: nat): int {
    x / Pow2(k)
  }

  function ApplyModifier(m: Modifier, c: Colour): Result<Colour, ParseError> {
    if m.colourShift < 0 || m.alphaShift < 0 then Err(NegativeShift)
    else Ok(Colour(Shr(c.r, m.colourShift) + m.colourOffset,
                   Shr(c.g, m.colourShift) + m.colourOffset,
                   Shr(c.b, m.colourShift) + m.colourOffset,
                   Shr(c.a, m.alphaShift) + m.alphaOffset))
  }

  /** The pending modifiers, applied in the order they were written. */
  function ApplyModifiers(mods: seq<Modifier>, c: Colour): Result<Colour, ParseError>
    decreases |mods|
  {
    if mods == [] then Ok(c)
    else match ApplyModifier(mods[0], c)
      case Err(e) => Err(e)
      case Ok(c1) => ApplyModifiers(mods[1..], c1)
  }

  /** The colour-name check: the first name that starts `s` is cut off. */
  function MatchColourName(s: string): (r: (string, Option<Colour>))
    ensures r.1.None? ==> r.0 == s
    ensures r.1.Some? ==> |r.0| < |s| && r.0 == s[|s| - |r.0|..]
  {
    var k := FindPrefix(NamesOf(COLOURS_MAIN), s, 0);
    if k < |COLOURS_MAIN| then
      assert |COLOURS_MAIN[k].0| > 0;
      (s[|COLOURS_MAIN[k].0|..], Some(COLOURS_MAIN[k].1))
    else (s, None)
  }

  /**
   * The hex check: after a `#`, up to eight characters go to the decoder;
   * its colour replaces the selection even when it is None, and a decoded
   * literal is cut off with its `#`.
   */
  function MatchHex(s: string, sel: Option<Colour>): (r: (string, Option<Colour>))
    ensures r.0 == s || (|r.0| < |s| && r.0 == s[|s| - |r.0|..] && r.1.Some?)
    ensures r.0 == s ==> r.1 == sel || r.1.None?
  {
    if StartsWith(s, "#") then
      var h := Hex.HexToColour(s[1..Min(9, |s|)]);
      if h.colour.Some? && h.consumed != 0 then (s[1 + h.consumed..], h.colour)
      else (s, h.colour)
    else (s, sel)
  }

  /** The modifier check: every modifier, in table order, that starts what is left is cut off and pushed `dup` times. */
  function ModifierPass(s: string, mods: seq<Modifier>, dup: nat, edited: bool, k: nat)
    : (r: (string, seq<Modifier>, nat, bool))
    requires k <= |MODIFIERS|
    ensures |r.0| <= |s| && r.0 == s[|s| - |r.0|..]
    ensures r.3 <==> edited || |r.0| < |s|
    ensures |r.0| == |s| ==> r == (s, mods, dup, edited)
    ensures dup >= 1 ==> r.2 >= 1
    decreases |MODIFIERS| - k
  {
    if k == |MODIFIERS| then (s, mods, dup, edited)
    else
      var (name, m) := MODIFIERS[k];
      if StartsWith(s, name) then
        ModifierTableWellFormed(k);
        ModifierPass(s[|name|..], mods + Repeat(m, dup), 1, true, k + 1)
      else ModifierPass(s, mods, dup, edited, k + 1)
  }

  /** A duplicate word multiplies the pending count. */
  function Scale(dup: nat, v: nat): (p: nat)
    ensures p >= 1 <==> dup >= 1 && v >= 1
    ensures p >= dup || v == 0
  {
    dup * v
  }

  /** The duplicate check: every duplicate word, in table order, that starts what is left is cut off and multiplies `dup`. */
  function DuplicatePass(s: string, dup: nat, edited: bool, k: nat): (r: (string, nat, bool))
    requires k <= |DUPLICATES|
    ensures |r.0| <= |s| && r.0 == s[|s| - |r.0|..]
    ensures r.2 <==> edited || |r.0| < |s|
    ensures |r.0| == |s| ==> r == (s, dup, edited)
    ensures dup >= 1 ==> r.1 >= 1
    decreases |DUPLICATES| - k
  {
    if k == |DUPLICATES| then (s, dup, edited)
    else
      var (name, v) := DUPLICATES[k];
      if StartsWith(s, name) then
        DuplicateTableWellFormed(k);
        DuplicatePass(s[|name|..], Scale(dup, v), true, k + 1)
      else DuplicatePass(s, dup, edited, k + 1)
  }

  /**
   * `to`: after a non-empty group the slots of that group are closed and
   * `dup` fresh slots sharing one empty list are opened; after an empty
   * group, `dup - 1` more slots share the same empty list.
   */
  function Separate(st: State): State
    requires st.dup >= 1
  {
    if st.cur == [] then st.(copies := st.copies + st.dup - 1, dup := 1)
    else st.(closed := st.closed + Repeat(st.cur, st.copies), cur := [], copies := st.dup, dup := 1)
  }

  /** The checks after a turn in which no colour was selected: modifiers, duplicates, the separator, else one character is dropped. */
  function Scan(s: string, st: State): (r: (string, State))
    requires |s| > 0 && Inv(st)
    ensures |r.0| < |s| && Inv(r.1)
  {
    var (s3, mods3, dup3, byModifier) := ModifierPass(s, st.mods, st.dup, false, 0);
    if byModifier then (s3, st.(mods := mods3, dup := dup3))
    else
      var (s4, dup4, byDuplicate) := DuplicatePass(s, st.dup, false, 0);
      if byDuplicate then (s4, st.(dup := dup4))
      else if FindPrefix(SEPERATORS, s, 0) < |SEPERATORS| then
        (s[|SEPERATORS[0]|..], Separate(st))
      else (s[1..], st)
  }

  /** A selected colour: the pending modifiers are applied to it and it joins the open group `dup` times. */
  function Select(c: Colour, st: State): (r: Result<State, ParseError>)
    requires Inv(st)
    ensures r.Ok? ==> Inv(r.value) && r.value.closed == st.closed && r.value.copies == st.copies
    ensures r.Ok? ==> |r.value.cur| == |st.cur| + st.dup && r.value.mods == [] && r.value.dup == 1
    ensures r.Err? <==> ApplyModifiers(st.mods, c).Err?
    ensures r.Err? ==> r.error == ApplyModifiers(st.mods, c).error
    ensures r.Ok? ==> r.value.cur[..|st.cur|] == st.cur
    ensures r.Ok? ==> forall i :: |st.cur| <= i < |r.value.cur| ==> r.value.cur[i] == ApplyModifiers(st.mods, c).value
  {
    match ApplyModifiers(st.mods, c)
    case Err(e) => Err(e)
    case Ok(c1) => Ok(st.(cur := st.cur + Repeat(c1, st.dup), mods := [], dup := 1))
  }

  /** One turn of the parser's loop on the non-empty text `s`. */
  function Step(s: string, st: State): (r: Result<(string, State), ParseError>)
    requires |s| > 0 && Inv(st)
    ensures r.Ok? ==> |r.value.0| < |s| && Inv(r.value.1)
  {
    var (s1, named) := MatchColourName(s);
    var (s2, sel) := MatchHex(s1, named);
    if sel.Some? then
      match Select(sel.value, st)
      case Err(e) => Err(e)
      case Ok(st1) => Ok((s2, st1))
    else
      assert s2 == s1 && |s1| > 0;
      Ok(Scan(s2, st))
  }

  /** The loop, run until the text is used up. */
  function Run(s: string, st: State): (r: Result<State, ParseError>)
    requires Inv(st)
    ensures r.Ok? ==> Inv(r.value)
    decreases |s|
  {
    if |s| == 0 then Ok(st)
    else match Step(s, st)
      case Err(e) => Err(e)
      case Ok((s', st')) => Run(s', st')
  }

  /** The slots of `current_mix` that the state stands for. */
  function Slots(st: State): seq<seq<Colour>> {
    st.closed + Repeat(st.cur, st.copies)
  }

  function Add(x: Colour, y: Colour): Colour {
    Colour(x.r + y.r, x.g + y.g, x.b + y.b, x.a + y.a)
  }

  /** Channelwise sum, first colour first. */
  function Sum(g: seq<Colour>): Colour
    requires g != []
  {
    if |g| == 1 then g[0] else Add(Sum(g[..|g| - 1]), g[|g| - 1])
  }

  /** The anchor of a group: channelwise sum over the number of colours. */
  function Mean(g: seq<Colour>): Anchor
    requires g != []
  {
    var t := Sum(g);
    var n := |g| as real;
    Anchor(t.r as real / n, t.g as real / n, t.b as real / n, t.a as real / n)
  }

  /** The merge loop: one anchor per slot, or IndexError at the first empty slot. */
  function MergeGroups(groups: seq<seq<Colour>>): (r: Result<seq<Anchor>, ParseError>)
    ensures r.Ok? <==> forall i :: 0 <= i < |groups| ==> groups[i] != []
    ensures r.Err? ==> r.error == EmptyGroup
    ensures r.Ok? ==> |r.value| == |groups| && forall i :: 0 <= i < |groups| ==> r.value[i] == Mean(groups[i])
  {
    if groups == [] then Ok([])
    else if groups[0] == [] then Err(EmptyGroup)
    else match MergeGroups(groups[1..])
      case Err(e) => Err(e)
      case Ok(rest) => Ok([Mean(groups[0])] + rest)
  }

  /** The end of the parse: the check on the first slot, then the merge. */
  function Finish(st: State): Result<seq<Anchor>, ParseError>
    requires Inv(st)
  {
    var slots := Slots(st);
    if slots[0] == [] then Err(InvalidColourMap) else MergeGroups(slots)
  }

  /** `_parse_colour_text`: lower-case the text, run the loop from the initial state, merge. */
  function Parse(text: string): Result<seq<Anchor>, ParseError> {
    match Run(Lower(text), INIT)
    case Err(e) => Err(e)
    case Ok(st) => Finish(st)
  }
}

/**
 * The parser as the source runs it: a while loop that shrinks the text, inner
 * loops over the tables, and the merge loop at the end. Each method is proved
 * equal to the function of the same part of module Descriptor.
 */
module DescriptorParser {
  import opened Wrappers
  import opened Palette
  import Hex
  import opened Descriptor

  /** The first name of `names` that starts `s` (a `for ... if startswith ... break` loop). */
  method FindFirstPrefix(names: seq<string>, s: string) returns (k: nat)
    ensures k == FindPrefix(names, s, 0)
  {
    k := 0;
    while k < |names|
      invariant k <= |names|
      invariant FindPrefix(names, s, k) == FindPrefix(names, s, 0)
    {
      if StartsWith(s, names[k]) {
        return;
      }
      k := k + 1;
    }
  }

  /** The loop applying the pending modifiers to a selected colour; `>>` with a negative count aborts it. */
  method ApplyPending(mods: seq<Modifier>, selection: Colour) returns (r: Result<Colour, ParseError>)
    ensures r == ApplyModifiers(mods, selection)
  {
    var colour := selection;
    for k := 0 to |mods|
      invariant ApplyModifiers(mods[k..], colour) == ApplyModifiers(mods, selection)
    {
      assert mods[k..][1..] == mods[k + 1..];
      var next := ApplyModifier(mods[k], colour);
      if next.Err? {
        return Err(next.error);
      }
      colour := next.value;
    }
    return Ok(colour);
  }

  /** The loop over the modifier table. */
  method ModifierLoop(s0: string, mods0: seq<Modifier>, dup0: nat)
    returns (s: string, mods: seq<Modifier>, dup: nat, edited: bool)
    ensures (s, mods, dup, edited) == ModifierPass(s0, mods0, dup0, false, 0)
  {
    s, mods, dup, edited := s0, mods0, dup0, false;
    for k := 0 to |MODIFIERS|
      invariant ModifierPass(s, mods, dup, edited, k) == ModifierPass(s0, mods0, dup0, false, 0)
    {
      var (name, m) := MODIFIERS[k];
      if StartsWith(s, name) {
        s := s[|name|..];
        edited := true;
        mods := mods + Repeat(m, dup);
        dup := 1;
      }
    }
  }

  /** The loop over the duplicate table. */
  method DuplicateLoop(s0: string, dup0: nat) returns (s: string, dup: nat, edited: bool)
    ensures (s, dup, edited) == DuplicatePass(s0, dup0, false, 0)
  {
    s, dup, edited := s0, dup0, false;
    for k := 0 to |DUPLICATES|
      invariant DuplicatePass(s, dup, edited, k) == DuplicatePass(s0, dup0, false, 0)
    {
      DuplicateTableWellFormed(k);
      var (name, v) := DUPLICATES[k];
      if StartsWith(s, name) {
        s, dup, edited := s[|name|..], Scale(dup, v), true;
      }
    }
  }

  /** Channelwise sum of a group, left to right. */
  method SumGroup(g: seq<Colour>) returns (t: Colour)
    requires g != []
    ensures t == Sum(g)
  {
    t := g[0];
    for j := 1 to |g|
      invariant t == Sum(g[..j])
    {
      assert g[..j + 1][..j] == g[..j];
      t := Add(t, g[j]);
    }
    assert g[..|g|] == g;
  }

  /** The merge loop: each slot becomes its mean, and an empty slot aborts with IndexError. */
  method MergeLoop(groups: seq<seq<Colour>>) returns (r: Result<seq<Anchor>, ParseError>)
    ensures r == MergeGroups(groups)
  {
    var finalMix: seq<Anchor> := [];
    for i := 0 to |groups|
      invariant |finalMix| == i
      invariant forall j :: 0 <= j < i ==> groups[j] != [] && finalMix[j] == Mean(groups[j])
    {
      var colours := groups[i];
      if colours == [] {
        return Err(EmptyGroup);
      }
      var t := SumGroup(colours);
      var n := |colours| as real;
      finalMix := finalMix + [Anchor(t.r as real / n, t.g as real / n, t.b as real / n, t.a as real / n)];
    }
    var expected := MergeGroups(groups);
    assert expected.Ok? && |expected.value| == |finalMix|;
    assert forall j :: 0 <= j < |finalMix| ==> expected.value[j] == finalMix[j];
    assert expected.value == finalMix;
    return Ok(finalMix);
  }

  /** One turn of the loop on the non-empty text `s0`: the colour, hex, modifier, duplicate and separator checks. */
  method Turn(s0: string, st0: State) returns (r: Result<(string, State), ParseError>)
    requires |s0| > 0 && Inv(st0)
    ensures r == Step(s0, st0)
  {
    var s := s0;
    var State(closed, cur, copies, mods, dup) := st0;
    var selection: Option<Colour> := None;
    var k := FindFirstPrefix(NamesOf(COLOURS_MAIN), s);
    if k < |COLOURS_MAIN| {
      s := s[|COLOURS_MAIN[k].0|..];
      selection := Some(COLOURS_MAIN[k].1);
    }
    assert (s, selection) == MatchColourName(s0);
    ghost var s1 := s;
    if StartsWith(s, "#") {
      var h := Hex.HexToColour(s[1..Min(9, |s|)]);
      selection := h.colour;
      if h.colour.Some? && h.consumed != 0 {
        s := s[1 + h.consumed..];
      }
    }
    assert (s, selection) == MatchHex(s1, MatchColourName(s0).1);
    if selection.Some? {
      var colour := ApplyPending(mods, selection.value);
      if colour.Err? {
        return Err(colour.error);
      }
      return Ok((s, State(closed, cur + Repeat(colour.value, dup), copies, [], 1)));
    }
    var next := ScanTurn(s, st0);
    return Ok(next);
  }

  /** The rest of a turn in which no colour was selected. */
  method ScanTurn(s0: string, st0: State) returns (r: (string, State))
    requires |s0| > 0 && Inv(st0)
    ensures r == Scan(s0, st0)
  {
    var State(closed, cur, copies, mods, dup) := st0;
    var s, edited;
    s, mods, dup, edited := ModifierLoop(s0, mods, dup);
    if edited {
      return (s, State(closed, cur, copies, mods, dup));
    }
    s, dup, edited := DuplicateLoop(s0, st0.dup);
    if edited {
      return (s, State(closed, cur, copies, mods, dup));
    }
    var sep := FindFirstPrefix(SEPERATORS, s);
    if sep < |SEPERATORS| {
      s := s[|SEPERATORS[sep]|..];
      if cur == [] {
        copies := copies + dup - 1;
      } else {
        closed := closed + Repeat(cur, copies);
        cur, copies := [], dup;
      }
      return (s, State(closed, cur, copies, mods, 1));
    }
    return (s[1..], st0);
  }

  /** `_parse_colour_text`: the loop until the text is used up, then the merge. */
  method ParseColourText(colourString: string) returns (r: Result<seq<Anchor>, ParseError>)
    ensures r == Parse(colourString)
  {
    var s := Lower(colourString);
    var st := INIT;
    while |s| > 0
      invariant Inv(st)
      invariant Run(s, st) == Run(Lower(colourString), INIT)
      decreases |s|
    {
      var next := Turn(s, st);
      if next.Err? {
        return Err(next.error);
      }
      s, st := next.value.0, next.value.1;
    }
    var slots := st.closed + Repeat(st.cur, st.copies);
    if slots[0] == [] {
      return Err(InvalidColourMap);
    }
    r := MergeLoop(slots);
  }
}
