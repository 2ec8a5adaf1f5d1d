# MouseTracks colour gradients, in Dafny

MouseTracks renders its heat maps and track images through a colour map. A
colour map is a short English text such as `BlackToDarkBlueToBlue` or
`WhiteToRedToBlackToWhite`, or the name of a preset that stands for one.
It is read into a list of anchor colours, and the anchors are then spread
over a range of values by a cached gradient. This project models that core
in both versions found in the repository:

- the current engine, `core/image/colours.py`: the hex decoder
  `hex_to_colour`, the descriptor parser `_parse_colour_text`, the gradient
  class `ColourRange` (with its background colour) and the lookup
  `ColourMap.__getitem__` with its presets `_MAPS`;
- the older engine, `core/colours.py`: its letter-by-letter parser
  `_parse_colour_text`, its `ColourRange` (the same class without a
  background) and its `ColourMap.__getitem__`.

Modules follow the program:

- **Palette**: the shared colour types, `COLOURS_MAIN`, `_MAPS` (the same
  text in both files) and ASCII lower-casing.
- **Hex**: `hex_to_colour`, plus the reference decoding and the round trips
  that it is proved against.
- **Descriptor**: the current parser as functions, one per part of one turn
  of its loop.
- **DescriptorParser**: the same parser as the source runs it, with `while`
  and `for` loops. Each method is proved equal to its function.
- **DescriptorWords**, **Vocabulary** and **DescriptorFacts**: an
  independent word-by-word reading of a descriptor and the proof that the
  parser computes it. This rests on the fact that no word of the vocabulary
  is a prefix of another. Also proved here: the byte range, the failure
  cases, the meaning of duplicate words, and case-insensitivity.
- **Gradient** and **GradientFacts**: `ColourRange` as a class whose
  constructor fills the cache, with lemmas for clamping, wrapping, the
  endpoints and the cache size.
- **Registry**: the current `ColourMap` lookup.
- **Legacy**, **LegacyFacts** and **LegacyExamples**: the older parser and
  lookup.
- **DescriptorExamples** and **RegistryExamples**: the examples the source's
  documentation gives, each worked through to its exact result.

Python floats are modelled as Dafny `real`. `int()` of a float is
truncation toward zero (`Gradient.Trunc`). `>>` is floor division by a
power of two, and a negative shift count raises. Where the comments of the
source and its code disagree, the model follows the code:

- The current parser's docstring says several modifiers "work in reverse
  order". The current code applies them in the order written
  (`DescriptorExamples.DarkLightRed`); only the older parser applies them in
  reverse (`LegacyExamples.ModifierOrderDiffers`).
- In the current `ColourMap`, the `unknown colour map` branch cannot be
  reached, because a text that parses always gives at least one colour. An
  empty or unreadable text raises `input colour map is not valid` from the
  parser instead (`DescriptorFacts.FinishOutcome`).
- A `#RGBA` literal is decoded with its alpha digit, but the decoder reports
  3 characters used, so the alpha digit is read again as text
  (`Hex.ShorthandAlphaReportsThree`).
- A colour name followed directly by `#` is cut off and then replaced by
  whatever the hex decoder returns, even when that is nothing
  (`DescriptorWords.RunColourBeforeHash`).
- The mean of the colours in a group is exact (`BlueRed` gives 127.5), not
  truncated.

## Model

| member | source | states |
|---|---|---|
| Hex.HexToColour | core/image/colours.py:398-429 | reports 0, 3, 6 or 8 characters used; 0 exactly when no colour is returned; never more than the text after one leading `#`; every channel decoded is in [0, 255] |
| Hex.HexToColourIsSpec | core/image/colours.py:403-429 | once one leading `#` is dropped, and provided no second `#` follows it, the decoder with its retries on shorter prefixes equals the reference decoding: the longest of the 8-, 6-, 4- and 3-digit forms whose digits are all valid (the retries strip `#` again, so a text such as `##123456` is outside this lemma) |
| Hex.HexRoundTrip8 | core/image/colours.py:406-408 | the eight digits spelling any colour decode back to that colour, with or without `#`, and report 8 |
| Hex.HexRoundTrip6 | core/image/colours.py:412-414 | six digits decode to the colour's red, green and blue with alpha 255, and report 6 |
| Hex.HexRoundTrip3 | core/image/colours.py:424-426 | three shorthand digits decode to the colour they abbreviate (each digit d is 17·d) with alpha 255, and report 3 |
| Hex.ShorthandAlphaReportsThree | core/image/colours.py:418-420 | a four-digit `#RGBA` decodes all four digits, alpha included, but reports 3 characters |
| Palette.Lower | core/image/colours.py:158 | lower-casing keeps the length and lowers each ASCII capital and nothing else |
| Descriptor.FindPrefix | core/image/colours.py:167-171 | the index found is that of the first table name that starts the text; no earlier name does; the table's length means none does |
| Descriptor.MatchColourName | core/image/colours.py:165-171 | without a match the text is unchanged; with one, a non-empty name is cut off the front |
| Descriptor.MatchHex | core/image/colours.py:173-177 | the text is unchanged, or a shorter suffix is left and a colour was decoded; when the text is unchanged the selection is kept or cleared |
| Descriptor.ModifierPass | core/image/colours.py:201-207 | what is left is a suffix; the pass counts as an edit exactly when it cut something; a pass that cuts nothing changes nothing; the pending count stays positive |
| Descriptor.DuplicatePass | core/image/colours.py:211-216 | the same four facts for the duplicate table |
| Descriptor.Select | core/image/colours.py:179-199 | the selection fails exactly when applying the pending modifiers fails, with that error; otherwise the open group keeps its colours and gains `dup` copies of the selected colour with the pending modifiers applied, the pending modifiers are emptied, `dup` is reset to 1, and the closed groups and the slot count are unchanged |
| Descriptor.Scan | core/image/colours.py:201-241 | a turn with no colour always shortens the text and keeps the loop invariant |
| Descriptor.Step | core/image/colours.py:162-241 | every turn that does not raise shortens the text (so the loop ends) and keeps the invariant |
| Descriptor.Run | core/image/colours.py:162-241 | the loop's final state keeps the invariant: at least one slot, a positive multiplier, no empty closed group |
| Descriptor.MergeGroups | core/image/colours.py:246-256 | the merge succeeds exactly when no slot is empty, giving one mean anchor per slot; otherwise it raises IndexError |
| DescriptorParser.FindFirstPrefix | core/image/colours.py:167-171 | the `for … startswith … break` loop returns the first matching name |
| DescriptorParser.ApplyPending | core/image/colours.py:184-194 | the modifier loop gives the modifiers applied front to back, or the error of a negative shift |
| DescriptorParser.ModifierLoop | core/image/colours.py:202-207 | the loop over the modifier table computes the modifier pass |
| DescriptorParser.DuplicateLoop | core/image/colours.py:212-216 | the loop over the duplicate table computes the duplicate pass |
| DescriptorParser.SumGroup | core/image/colours.py:250-252 | the summing loop computes the channelwise sum of the group |
| DescriptorParser.MergeLoop | core/image/colours.py:246-256 | the merge loop computes the merge: one mean per slot, or IndexError |
| DescriptorParser.Turn | core/image/colours.py:163-241 | one pass of the `while` body computes one turn (colour, hex, modifiers, duplicates, `to`, drop a character) |
| DescriptorParser.ScanTurn | core/image/colours.py:201-241 | the part of the body after no colour was selected computes the scan, including the aliasing of the slots opened by `to` |
| DescriptorParser.ParseColourText | core/image/colours.py:123-256 | the whole method returns exactly what the functional parse gives |
| DescriptorFacts.ModifierEffect | core/image/colours.py:23-30 | light halves the channels and adds 128, dark halves them, transparent is alpha >> 8, translucent halves alpha, and opaque, with a shift of -1, raises |
| DescriptorFacts.ApplyModifiersAppend | core/image/colours.py:184-194 | for any split of the pending modifiers into a front and a back part, the front part is applied first and the back part to its result; an error in the front part is the result |
| DescriptorFacts.ModifierInRange | core/image/colours.py:186-194 | one table modifier on a colour in [0, 255] fails exactly when it is opaque, and otherwise gives a colour in [0, 255] |
| DescriptorFacts.ApplyModifiersInRange | core/image/colours.py:186-194 | pending modifiers from the table fail exactly when one is opaque; otherwise a colour in [0, 255] stays there |
| DescriptorFacts.RunRanged | core/image/colours.py:162-241 | from a state holding only colours in [0, 255], the loop ends in such a state |
| DescriptorFacts.MeanInRange | core/image/colours.py:246-255 | the mean of colours in [0, 255] is in [0, 255] |
| DescriptorFacts.ParseInRange | core/image/colours.py:123-256 | every anchor of a successful parse has all four channels in [0, 255] |
| DescriptorFacts.FinishOutcome | core/image/colours.py:243-256 | the end fails exactly when the last group is empty: ValueError when it is the only one, IndexError otherwise; on success there are as many anchors as slots, each the mean of its group |
| DescriptorFacts.ParseFailsOnEmptyLastGroup | core/image/colours.py:220-256 | a parse that gets through the loop fails exactly when the open group is empty, as after a trailing `to` |
| DescriptorFacts.SeparateIdempotent | core/image/colours.py:226-235 | a second `to` in a row changes nothing, and neither does a leading `to` |
| DescriptorFacts.SeparateOpens | core/image/colours.py:226-235 | after a non-empty group, `to` keeps the slots and adds `dup` empty slots sharing one list |
| DescriptorFacts.ModifierWordRepeated | core/image/colours.py:202-207 | a modifier written v times pushes it v times |
| DescriptorFacts.DuplicateBeforeModifier | core/image/colours.py:201-218 | a duplicate word before a modifier reads as the modifier written that many times |
| DescriptorFacts.ColourWordRepeated | core/image/colours.py:181-199 | a colour name written v times, with nothing pending, adds it v times |
| DescriptorFacts.DuplicateBeforeColour | core/image/colours.py:181-218 | a duplicate word before a bare colour name reads as the name written that many times |
| DescriptorFacts.DuplicateBeforeColourPending | core/image/colours.py:181-218 | with any modifiers pending, a duplicate word before a colour name adds that many copies of the colour with the modifiers applied and clears them, or raises the modifiers' error |
| DescriptorFacts.ModifiedColourRepeated | core/image/colours.py:181-207 | a modifier and a colour name written v times add the modified colour v times, or raise the modifier's error |
| DescriptorFacts.DuplicateAfterModifier | core/image/colours.py:181-218 | a duplicate word between a modifier and a colour name reads as the modifier and the name written that many times (`DarkDoubleRed` is `DarkRedDarkRed`, for every modifier, duplicate word and colour) |
| DescriptorFacts.ParseIgnoresCase | core/image/colours.py:158 | a text and its lower-cased form parse the same |
| Vocabulary.Unambiguous | core/image/colours.py:6-52 | no colour name, modifier, duplicate word or separator is a prefix of another |
| Vocabulary.Exclusive | core/image/colours.py:165-238 | a text that starts with one word of the vocabulary starts with no other, so the order of the tables does not matter |
| DescriptorWords.Apply | core/image/colours.py:179-238 | the word-by-word reference: what one word does to the state, keeping the invariant |
| DescriptorWords.Interpret | core/image/colours.py:162-241 | the word-by-word reading of a word list keeps the invariant |
| DescriptorWords.RunColourWord | core/image/colours.py:165-199 | the loop on a text starting with a colour name, with no `#` after it, selects the colour (or raises its modifier error) and goes on after the name |
| DescriptorWords.RunColourBeforeHash | core/image/colours.py:165-177 | a colour name followed by a hex literal is cut off and superseded by the literal |
| DescriptorWords.RunHexWord | core/image/colours.py:173-199 | the loop on a `#` and eight hex digits selects the colour they spell (or raises its modifier error) and goes on after them |
| DescriptorWords.RunModifierWord | core/image/colours.py:201-209 | a modifier word queues its modifier `dup` times, resets `dup` to 1, and the loop goes on after it |
| DescriptorWords.RunDuplicateWord | core/image/colours.py:211-218 | a duplicate word multiplies `dup` by its factor, which is at least 1, and the loop goes on after it |
| DescriptorWords.RunSeparatorWord | core/image/colours.py:220-238 | `to` closes or widens the open group as the separator rule says |
| DescriptorWords.RunOtherChar | core/image/colours.py:240-241 | a character that starts no word is dropped and nothing else changes |
| DescriptorWords.RunSpelling | core/image/colours.py:162-241 | on any text spelled from words, the parser's loop computes the word-by-word reading |
| DescriptorWords.ParseSpelling | core/image/colours.py:123-256 | a descriptor whose lower-cased text is spelled from words parses as the words say |
| DescriptorExamples.DarkDoubleRed | core/image/colours.py:148 | `DarkDoubleRed` and `DarkRedDarkRed` parse the same: one dark red anchor (127, 0, 0, 255) |
| DescriptorExamples.TripleDarkLightRed | core/image/colours.py:149 | `TripleDarkLightRed` and `DarkDarkDarkLightRed` parse the same: (143, 128, 128, 255) |
| DescriptorExamples.BlueDoubleToDarkRed | core/image/colours.py:150 | `BlueDoubleToDarkRed` parses to blue, dark red, dark red, and `BlueToDarkRedToDarkRed` parses the same |
| DescriptorExamples.DarkLightRed | core/image/colours.py:184-194 | modifiers apply in the order written: `DarkLightRed` is (191, 128, 128, 255) |
| DescriptorExamples.BlueRed | core/image/colours.py:246-255 | colours written together merge to their exact mean, (127.5, 0, 127.5, 255) |
| DescriptorExamples.ToRed | core/image/colours.py:226-235 | a leading `to` changes nothing |
| DescriptorExamples.EmptyText | core/image/colours.py:243-244 | the empty text raises `input colour map is not valid` |
| DescriptorExamples.RedTo | core/image/colours.py:248-250 | a trailing `to` leaves an empty slot, and the merge raises IndexError |
| DescriptorExamples.OpaqueRed | core/image/colours.py:186-194 | `OpaqueRed` raises, because `opaque` shifts by -1 |
| Registry.ParseNonEmpty | core/image/colours.py:243-256 | a text that parses gives at least one anchor |
| Registry.ColourMapGet | core/image/colours.py:303-313 | a preset name, in any case, gives the parse of its stored text with no length check; any other name gives its own parse's error, `not enough colours` exactly when it has fewer than two anchors, or its anchors; `unknown colour map` is never returned |
| Registry.ColourMapIgnoresCase | core/image/colours.py:303-305 | a name and its lower-cased form look up the same |
| RegistryExamples.Chalk | core/image/colours.py:278 | the preset `Chalk` gives black and then white |
| RegistryExamples.BlueAlone | core/image/colours.py:306-310 | `Blue` is no preset, and its single colour is too few: `not enough colours` |
| Gradient.Trunc | core/image/colours.py:117-119 | `int()` truncates toward zero: from below for non-negative values, from above for negative ones |
| Gradient.Clamp | core/image/colours.py:106-108 | `max(min(x, hi), lo)` is x within the bounds, else the bound it passed |
| Gradient.Ratio | core/image/colours.py:113 | the mix ratio lies in [0, 1]; it is the fraction itself when that is in [0, 1], 1 above 1 and 0 below 0 |
| Gradient.BlendBounds | core/image/colours.py:117-119 | the truncated mix of two channels in [0, 255] is in [0, 255]; with ratio 0, or equal channels, it is the first channel truncated |
| Gradient.MixBounds | core/image/colours.py:117-119 | the same for whole colours |
| Gradient.ColourRange.constructor | core/image/colours.py:60-83 | min >= max keeps only the first colour, sets max to min + 1 and fills the cache with that colour; otherwise the colours and max are kept; the cache has 255·len + 1 entries, each the colour calculated at the value of its step |
| Gradient.ColourRange.BaseIndex | core/image/colours.py:100-108 | the index of the anchor a mix starts from is valid, in loop mode and out of it |
| Gradient.ColourRange.MixIndex | core/image/colours.py:100-108 | the index of the second anchor of a mix is valid |
| Gradient.ColourRange.CalculateColour | core/image/colours.py:95-119 | with anchors in [0, 255] every calculated colour is in [0, 255]; a single anchor gives that anchor |
| Gradient.ColourRange.Get | core/image/colours.py:85-93 | zero gives the background when there is one; any other lookup gives an entry of the cache |
| GradientFacts.StepsCoverRange | core/image/colours.py:74-75 | the range is `stepMax` steps long and the last step's value is max |
| GradientFacts.BetweenAnchors | core/image/colours.py:95-119 | between anchors k and k+1 the colour mixes those two by the fractional position |
| GradientFacts.AtAnchor | core/image/colours.py:95-119 | at an anchor's own position the colour is that anchor, truncated |
| GradientFacts.AnchorsEvenlySpread | core/image/colours.py:95-119 | with no offset, anchor k is reached at min + k·(max − min)/(len − 1) |
| GradientFacts.Endpoints | core/image/colours.py:95-119 | with no offset the range starts at the first anchor and ends at the last |
| GradientFacts.ClampedBelow | core/image/colours.py:106-108 | outside loop mode, values before the range give the first anchor |
| GradientFacts.ClampedAbove | core/image/colours.py:106-108 | outside loop mode, values past the range give the last anchor |
| GradientFacts.LoopWrapsToFirst | core/image/colours.py:103-105 | in loop mode, past the last anchor the colour mixes the last anchor toward the first |
| GradientFacts.CacheEndpoints | core/image/colours.py:77-81 | with no offset the first cache entry is the first anchor and the last entry is the last anchor |
| GradientFacts.GetInByteRange | core/image/colours.py:85-93 | with anchors and background in [0, 255], every lookup is in [0, 255] |
| GradientFacts.GetInsideRange | core/image/colours.py:89-93 | within the range a lookup reads the entry of the step the value falls in, in both modes |
| GradientFacts.GetClamped | core/image/colours.py:93 | outside loop mode, values before the range read the first entry and values past it the last |
| GradientFacts.GetLoopPeriodic | core/image/colours.py:90-92 | in loop mode, except at a whole number of ranges past min, one whole range further on reads the same entry |
| GradientFacts.GetLoopLastEntry | core/image/colours.py:89-93 | in loop mode the end of the range reads the last entry, and one step further wraps to entry 1, not entry 0 |
| GradientFacts.IndexShift | core/image/colours.py:89 | one whole range further on is `stepMax` steps further on |
| GradientFacts.IndexOutside | core/image/colours.py:89 | before the range the step is at most 0, past it at least `stepMax` |
| GradientFacts.LastIndices | core/image/colours.py:89 | max falls on step `stepMax`, and one step past max on step `stepMax` + 1 |
| Legacy.Find | core/colours.py:144-145 | dictionary membership: nothing is found exactly when no key equals the word, and a value found is stored under it |
| Legacy.CapAt255 | core/colours.py:160 | `min(255, v)` is at most 255 and at most v; it is v below 255 and 255 from 255 on |
| Legacy.Join | core/colours.py:164-168 | the merge of a group gives the empty tuple exactly when the group is empty |
| Legacy.ApplyModifiersReversed | core/colours.py:157-160 | the loop over `Mult[::-1]` applies the modifiers last-written first |
| Legacy.LetterPass | core/colours.py:129-178 | one pass over a letter: it is rejected exactly when the letter-level step fails, and otherwise gives that step's state |
| Legacy.ParseColourTextLegacy | core/colours.py:98-180 | the whole letter loop, with its extra pass over the last letter, returns exactly the functional parse |
| Legacy.WalkFromIsWalk | core/colours.py:128-176 | the index-driven loop from position i does what the walk over the rest of the text does |
| Legacy.WalkAddsGroup | core/colours.py:164-168 | a walk that succeeds ends with at least one more group than it started with, because the extra pass over the last letter closes one |
| Legacy.ParseLegacyEmpty | core/colours.py:128-138 | a parse gives no groups exactly when the text is empty |
| Legacy.LegacyColourMapGet | core/colours.py:227-237 | a preset gives its parse; any other name gives its own parse's error, `not enough colours` exactly for one group, `unknown colour map` exactly for the empty name, or its groups |
| LegacyFacts.ActColour | core/colours.py:153-161 | a colour name adds the colour with the waiting modifiers applied and empties the queue |
| LegacyFacts.ActModifier | core/colours.py:151-152 | a modifier joins the queue and nothing else changes |
| LegacyFacts.ActTo | core/colours.py:164-168 | `to` closes the open group while the waiting modifiers stay queued |
| LegacyFacts.UpperRestarts | core/colours.py:149-171 | an upper-case letter drops an unfinished word and starts a new one with its own lower-case letter |
| LegacyFacts.BodyKeepsQuiet | core/colours.py:140-174 | from a word that completes nothing, a letter never leaves a completed word waiting: it fires it at once |
| LegacyFacts.PartialWordDropped | core/colours.py:149-174 | an unfinished word before a capitalised word has no effect |
| LegacyFacts.WalkCapital | core/colours.py:140-174 | a capitalised word fires once, with its effect, and leaves the word empty |
| LegacyFacts.WalkWords | core/colours.py:128-176 | a text of capitalised words is read word by word, each doing its effect |
| LegacyFacts.FinalPass | core/colours.py:131-138 | after a complete word, the extra pass over the last letter closes the open group |
| LegacyFacts.ParseWords | core/colours.py:98-180 | a text of capitalised words parses to the groups its words close, then the open one |
| LegacyFacts.ApplyMultsAppend | core/colours.py:157-160 | for any split of the waiting modifiers, the part written later is applied first and the earlier part to its result |
| LegacyFacts.AlphaCapped | core/colours.py:160 | a modified colour has alpha at most 255 |
| LegacyFacts.WalkFailsIff | core/colours.py:140-178 | from a quiet word, the letter loop fails exactly when a character that is not an ASCII letter lies ahead |
| LegacyFacts.ParseLegacyFailsIff | core/colours.py:140-178 | the older parser raises `invalid characters in colour map` exactly when the text holds a character that is not an ASCII letter |
| LegacyExamples.LightWhite | core/colours.py:157-160 | `LightWhite` gives channels of 255.5: the older parser caps only alpha |
| LegacyExamples.BlueRed | core/colours.py:152-167 | `BlueRed`, the mixed colour of the docstring, is one group whose colour is the exact channelwise mean (127.5, 0, 127.5, 255) |
| LegacyExamples.DarkLightRed | core/colours.py:157-160 | `DarkLightRed` applies light and then dark: (127.75, 64, 64, 255) |
| LegacyExamples.LightToRed | core/colours.py:164-168 | `to` after a lone modifier closes an empty group (the empty tuple), and the modifier still applies to the next colour |
| LegacyExamples.RedTo | core/colours.py:164-168 | a trailing `to` leaves an empty last group |
| LegacyExamples.ModifierOrderDiffers | core/colours.py:157 | the two parsers read `DarkLightRed` in opposite modifier orders |
| LegacyExamples.RedAlone | core/colours.py:231-234 | `Red` is no preset, and its one group is too few: `not enough colours` |
| LegacyExamples.LegacyChalk | core/colours.py:227-229 | the older lookup also reads the preset `Chalk` as black and then white |

## Left out

- The `cache` argument of both `ColourRange` constructors, which installs a cache computed elsewhere, is not modelled: the constructor always fills its own cache.
- The `as_int=False` branch of `calculate_colour` is not modelled; only the truncated colours the cache holds are.
- `get_luminance`, `parse_colour_file`, `_new_colour_map_data` and the compatibility imports are outside the colour-map core and are not part of this model.
- Floating point is modelled by exact reals, so rounding in `/`, in `*` and in the step size is not captured; `int()` truncation is modelled exactly.
- Palette.Lower: `str.lower()` also lower-cases non-ASCII capitals; the model lowers ASCII capitals only.
- Hex.HexToColour: a digit is one of 0-9, a-f or A-F; `int(x, 16)` in the source also accepts a sign, surrounding spaces and Unicode decimal digits (such as Arabic-Indic digits), which the model does not.
- Gradient.ColourRange.constructor: requires at least one anchor, where the source fails on an empty list with IndexError or ZeroDivisionError.
- The older `ColourRange` is the current class with no background, since its code is otherwise the same. The empty tuple that the older parser produces for an empty group cannot be used as an anchor, because the class takes four-channel anchors.
- The tables are sequences in the order written, as Python 3.7+ dictionaries iterate; the iteration order of older Python dictionaries is not modelled.
- The parse of each preset text in `_MAPS` is not worked out, except for `chalk`.
- Exceptions are modelled as error values, with one variant per exception the core raises; the message text is given in the comments.
