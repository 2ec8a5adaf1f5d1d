/**
 * The words the current descriptor parser recognises, and the fact that
 * makes its table-order scan unambiguous: no word is a prefix of another,
 * so at most one word can start any text.
 */
module Vocabulary {
  import opened Palette
  import opened Descriptor

  /** Every colour name, modifier, duplicate word and separator, in table order. */
  const WORDS: seq<string> := [
    "red", "green", "blue", "yellow", "cyan", "magenta", "white", "grey", "gray", "black",
    "orange", "pink", "purple", "sky",
    "light", "dark", "transparent", "translucent", "opaque",
    "single", "double", "triple", "quadruple", "quintuple", "pentuple", "sextuple", "hextuple",
    "septuple", "heptuple", "octuple", "nonuple", "decuple", "undecuple", "hendecuple",
    "duodecuple", "tredecuple",
    "to"]

  /** Where each table starts in WORDS. */
  const COLOUR_BASE := 0
  const MODIFIER_BASE := 14
  const DUPLICATE_BASE := 19
  const SEPARATOR_INDEX := 36

  /** One of the two is a prefix of the other. */
  predicate Compatible(x: string, y: string) { StartsWith(x, y) || StartsWith(y, x) }

  lemma DiffAt(x: string, y: string, d: nat)
    requires d < |x| && d < |y| && x[d] != y[d]
    ensures !Compatible(x, y)
  {
    PrefixAgrees(x, y);
    PrefixAgrees(y, x);
  }

  lemma PrefixAgrees(x: string, y: string)
    ensures StartsWith(x, y) ==> forall d :: 0 <= d < |y| ==> x[d] == y[d]
  {
    if StartsWith(x, y) {
      forall d | 0 <= d < |y| ensures x[d] == y[d] {
        assert x[..|y|][d] == x[d];
      }
    }
  }

  lemma Pair(x: string, y: string)
    requires |x| >= 2 && |y| >= 2
    requires x[0] != y[0] || x[1] != y[1] || (|x| > 2 && |y| > 2 && (x[2] != y[2] ||
       (|x| > 3 && |y| > 3 && (x[3] != y[3] || (|x| > 5 && |y| > 5 && x[5] != y[5])))))
    ensures !Compatible(x, y)
  {
    if x[0] != y[0] { DiffAt(x, y, 0); }
    else if x[1] != y[1] { DiffAt(x, y, 1); }
    else if x[2] != y[2] { DiffAt(x, y, 2); }
    else if x[3] != y[3] { DiffAt(x, y, 3); }
    else { DiffAt(x, y, 5); }
  }

  lemma Block0a(i: nat, j: nat)
    requires 0 <= i < 3 && 0 <= j < 13 && i != j
    ensures !Compatible(WORDS[i], WORDS[j])
  {
    Pair(WORDS[i], WORDS[j]);
  }

  lemma Block0b(i: nat, j: nat)
    requires 0 <= i < 3 && 13 <= j < 26 && i != j
    ensures !Compatible(WORDS[i], WORDS[j])
  {
    Pair(WORDS[i], WORDS[j]);
  }

  lemma Block0c(i: nat, j: nat)
    requires 0 <= i < 3 && 26 <= j < 37 && i != j
    ensures !Compatible(WORDS[i], WORDS[j])
  {
    Pair(WORDS[i], WORDS[j]);
  }

  lemma Row0(i: nat, j: nat)
    requires 0 <= i < 3 && j < |WORDS| && i != j
    ensures !Compatible(WORDS[i], WORDS[j])
  {
    if j < 13 {
      Block0a(i, j);
    } else if j < 26 {
      Block0b(i, j);
    } else {
      Block0c(i, j);
    }
  }

  lemma Block1a(i: nat, j: nat)
    requires 3 <= i < 6 && 0 <= j < 13 && i != j
    ensures !Compatible(WORDS[i], WORDS[j])
  {
    Pair(WORDS[i], WORDS[j]);
  }

  lemma Block1b(i: nat, j: nat)
    requires 3 <= i < 6 && 13 <= j < 26 && i != j
    ensures !Compatible(WORDS[i], WORDS[j])
  {
    Pair(WORDS[i], WORDS[j]);
  }

  lemma Block1c(i: nat, j: nat)
    requires 3 <= i < 6 && 26 <= j < 37 && i != j
    ensures !Compatible(WORDS[i], WORDS[j])
  {
    Pair(WORDS[i], WORDS[j]);
  }

  lemma Row1(i: nat, j: nat)
    requires 3 <= i < 6 && j < |WORDS| && i != j
    ensures !Compatible(WORDS[i], WORDS[j])
  {
    if j < 13 {
      Block1a(i, j);
    } else if j < 26 {
      Block1b(i, j);
    } else {
      Block1c(i, j);
    }
  }

  lemma Block2a(i: nat, j: nat)
    requires 6 <= i < 9 && 0 <= j < 13 && i != j
    ensures !Compatible(WORDS[i], WORDS[j])
  {
    Pair(WORDS[i], WORDS[j]);
  }

  lemma Block2b(i: nat, j: nat)
    requires 6 <= i < 9 && 13 <= j < 26 && i != j
    ensures !Compatible(WORDS[i], WORDS[j])
  {
    Pair(WORDS[i], WORDS[j]);
  }

  lemma Block2c(i: nat, j: nat)
    requires 6 <= i < 9 && 26 <= j < 37 && i != j
    ensures !Compatible(WORDS[i], WORDS[j])
  {
    Pair(WORDS[i], WORDS[j]);
  }

  lemma Row2(i: nat, j: nat)
    requires 6 <= i < 9 && j < |WORDS| && i != j
    ensures !Compatible(WORDS[i], WORDS[j])
  {
    if j < 13 {
      Block2a(i, j);
    } else if j < 26 {
      Block2b(i, j);
    } else {
      Block2c(i, j);
    }
  }

  lemma Block3a(i: nat, j: nat)
    requires 9 <= i < 12 && 0 <= j < 13 && i != j
    ensures !Compatible(WORDS[i], WORDS[j])
  {
    Pair(WORDS[i], WORDS[j]);
  }

  lemma Block3b(i: nat, j: nat)
    requires 9 <= i < 12 && 13 <= j < 26 && i != j
    ensures !Compatible(WORDS[i], WORDS[j])
  {
    Pair(WORDS[i], WORDS[j]);
  }

  lemma Block3c(i: nat, j: nat)
    requires 9 <= i < 12 && 26 <= j < 37 && i != j
    ensures !Compatible(WORDS[i], WORDS[j])
  {
    Pair(WORDS[i], WORDS[j]);
  }

  lemma Row3(i: nat, j: nat)
    requires 9 <= i < 12 && j < |WORDS| && i != j
    ensures !Compatible(WORDS[i], WORDS[j])
  {
    if j < 13 {
      Block3a(i, j);
    } else if j < 26 {
      Block3b(i, j);
    } else {
      Block3c(i, j);
    }
  }

  lemma Block4a(i: nat, j: nat)
    requires 12 <= i < 15 && 0 <= j < 13 && i != j
    ensures !Compatible(WORDS[i], WORDS[j])
  {
    Pair(WORDS[i], WORDS[j]);
  }

  lemma Block4b(i: nat, j: nat)
    requires 12 <= i < 15 && 13 <= j < 26 && i != j
    ensures !Compatible(WORDS[i], WORDS[j])
  {
    Pair(WORDS[i], WORDS[j]);
  }

  lemma Block4c(i: nat, j: nat)
    requires 12 <= i < 15 && 26 <= j < 37 && i != j
    ensures !Compatible(WORDS[i], WORDS[j])
  {
    Pair(WORDS[i], WORDS[j]);
  }

  lemma Row4(i: nat, j: nat)
    requires 12 <= i < 15 && j < |WORDS| && i != j
    ensures !Compatible(WORDS[i], WORDS[j])
  {
    if j < 13 {
      Block4a(i, j);
    } else if j < 26 {
      Block4b(i, j);
    } else {
      Block4c(i, j);
    }
  }

  lemma Block5a(i: nat, j: nat)
    requires 15 <= i < 18 && 0 <= j < 13 && i != j
    ensures !Compatible(WORDS[i], WORDS[j])
  {
    Pair(WORDS[i], WORDS[j]);
  }

  lemma Block5b(i: nat, j: nat)
    requires 15 <= i < 18 && 13 <= j < 26 && i != j
    ensures !Compatible(WORDS[i], WORDS[j])
  {
    Pair(WORDS[i], WORDS[j]);
  }

  lemma Block5c(i: nat, j: nat)
    requires 15 <= i < 18 && 26 <= j < 37 && i != j
    ensures !Compatible(WORDS[i], WORDS[j])
  {
    Pair(WORDS[i], WORDS[j]);
  }

  lemma Row5(i: nat, j: nat)
    requires 15 <= i < 18 && j < |WORDS| && i != j
    ensures !Compatible(WORDS[i], WORDS[j])
  {
    if j < 13 {
      Block5a(i, j);
    } else if j < 26 {
      Block5b(i, j);
    } else {
      Block5c(i, j);
    }
  }

  lemma Block6a(i: nat, j: nat)
    requires 18 <= i < 21 && 0 <= j < 13 && i != j
    ensures !Compatible(WORDS[i], WORDS[j])
  {
    Pair(WORDS[i], WORDS[j]);
  }

  lemma Block6b(i: nat, j: nat)
    requires 18 <= i < 21 && 13 <= j < 26 && i != j
    ensures !Compatible(WORDS[i], WORDS[j])
  {
    Pair(WORDS[i], WORDS[j]);
  }

  lemma Block6c(i: nat, j: nat)
    requires 18 <= i < 21 && 26 <= j < 37 && i != j
    ensures !Compatible(WORDS[i], WORDS[j])
  {
    Pair(WORDS[i], WORDS[j]);
  }

  lemma Row6(i: nat, j: nat)
    requires 18 <= i < 21 && j < |WORDS| && i != j
    ensures !Compatible(WORDS[i], WORDS[j])
  {
    if j < 13 {
      Block6a(i, j);
    } else if j < 26 {
      Block6b(i, j);
    } else {
      Block6c(i, j);
    }
  }

  lemma Block7a(i: nat, j: nat)
    requires 21 <= i < 24 && 0 <= j < 13 && i != j
    ensures !Compatible(WORDS[i], WORDS[j])
  {
    Pair(WORDS[i], WORDS[j]);
  }

  lemma Block7b(i: nat, j: nat)
    requires 21 <= i < 24 && 13 <= j < 26 && i != j
    ensures !Compatible(WORDS[i], WORDS[j])
  {
    Pair(WORDS[i], WORDS[j]);
  }

  lemma Block7c(i: nat, j: nat)
    requires 21 <= i < 24 && 26 <= j < 37 && i != j
    ensures !Compatible(WORDS[i], WORDS[j])
  {
    Pair(WORDS[i], WORDS[j]);
  }

  lemma Row7(i: nat, j: nat)
    requires 21 <= i < 24 && j < |WORDS| && i != j
    ensures !Compatible(WORDS[i], WORDS[j])
  {
    if j < 13 {
      Block7a(i, j);
    } else if j < 26 {
      Block7b(i, j);
    } else {
      Block7c(i, j);
    }
  }

  lemma Block8a(i: nat, j: nat)
    requires 24 <= i < 27 && 0 <= j < 13 && i != j
    ensures !Compatible(WORDS[i], WORDS[j])
  {
    Pair(WORDS[i], WORDS[j]);
  }

  lemma Block8b(i: nat, j: nat)
    requires 24 <= i < 27 && 13 <= j < 26 && i != j
    ensures !Compatible(WORDS[i], WORDS[j])
  {
    Pair(WORDS[i], WORDS[j]);
  }

  lemma Block8c(i: nat, j: nat)
    requires 24 <= i < 27 && 26 <= j < 37 && i != j
    ensures !Compatible(WORDS[i], WORDS[j])
  {
    Pair(WORDS[i], WORDS[j]);
  }

  lemma Row8(i: nat, j: nat)
    requires 24 <= i < 27 && j < |WORDS| && i != j
    ensures !Compatible(WORDS[i], WORDS[j])
  {
    if j < 13 {
      Block8a(i, j);
    } else if j < 26 {
      Block8b(i, j);
    } else {
      Block8c(i, j);
    }
  }

  lemma Block9a(i: nat, j: nat)
    requires 27 <= i < 30 && 0 <= j < 13 && i != j
    ensures !Compatible(WORDS[i], WORDS[j])
  {
    Pair(WORDS[i], WORDS[j]);
  }

  lemma Block9b(i: nat, j: nat)
    requires 27 <= i < 30 && 13 <= j < 26 && i != j
    ensures !Compatible(WORDS[i], WORDS[j])
  {
    Pair(WORDS[i], WORDS[j]);
  }

  lemma Block9c(i: nat, j: nat)
    requires 27 <= i < 30 && 26 <= j < 37 && i != j
    ensures !Compatible(WORDS[i], WORDS[j])
  {
    Pair(WORDS[i], WORDS[j]);
  }

  lemma Row9(i: nat, j: nat)
    requires 27 <= i < 30 && j < |WORDS| && i != j
    ensures !Compatible(WORDS[i], WORDS[j])
  {
    if j < 13 {
      Block9a(i, j);
    } else if j < 26 {
      Block9b(i, j);
    } else {
      Block9c(i, j);
    }
  }

  lemma Block10a(i: nat, j: nat)
    requires 30 <= i < 33 && 0 <= j < 13 && i != j
    ensures !Compatible(WORDS[i], WORDS[j])
  {
    Pair(WORDS[i], WORDS[j]);
  }

  lemma Block10b(i: nat, j: nat)
    requires 30 <= i < 33 && 13 <= j < 26 && i != j
    ensures !Compatible(WORDS[i], WORDS[j])
  {
    Pair(WORDS[i], WORDS[j]);
  }

  lemma Block10c(i: nat, j: nat)
    requires 30 <= i < 33 && 26 <= j < 37 && i != j
    ensures !Compatible(WORDS[i], WORDS[j])
  {
    Pair(WORDS[i], WORDS[j]);
  }

  lemma Row10(i: nat, j: nat)
    requires 30 <= i < 33 && j < |WORDS| && i != j
    ensures !Compatible(WORDS[i], WORDS[j])
  {
    if j < 13 {
      Block10a(i, j);
    } else if j < 26 {
      Block10b(i, j);
    } else {
      Block10c(i, j);
    }
  }

  lemma Block11a(i: nat, j: nat)
    requires 33 <= i < 36 && 0 <= j < 13 && i != j
    ensures !Compatible(WORDS[i], WORDS[j])
  {
    Pair(WORDS[i], WORDS[j]);
  }

  lemma Block11b(i: nat, j: nat)
    requires 33 <= i < 36 && 13 <= j < 26 && i != j
    ensures !Compatible(WORDS[i], WORDS[j])
  {
    Pair(WORDS[i], WORDS[j]);
  }

  lemma Block11c(i: nat, j: nat)
    requires 33 <= i < 36 && 26 <= j < 37 && i != j
    ensures !Compatible(WORDS[i], WORDS[j])
  {
    Pair(WORDS[i], WORDS[j]);
  }

  lemma Row11(i: nat, j: nat)
    requires 33 <= i < 36 && j < |WORDS| && i != j
    ensures !Compatible(WORDS[i], WORDS[j])
  {
    if j < 13 {
      Block11a(i, j);
    } else if j < 26 {
      Block11b(i, j);
    } else {
      Block11c(i, j);
    }
  }

  lemma Block12a(i: nat, j: nat)
    requires 36 <= i < 37 && 0 <= j < 13 && i != j
    ensures !Compatible(WORDS[i], WORDS[j])
  {
    Pair(WORDS[i], WORDS[j]);
  }

  lemma Block12b(i: nat, j: nat)
    requires 36 <= i < 37 && 13 <= j < 26 && i != j
    ensures !Compatible(WORDS[i], WORDS[j])
  {
    Pair(WORDS[i], WORDS[j]);
  }

  lemma Block12c(i: nat, j: nat)
    requires 36 <= i < 37 && 26 <= j < 37 && i != j
    ensures !Compatible(WORDS[i], WORDS[j])
  {
    Pair(WORDS[i], WORDS[j]);
  }

  lemma Row12(i: nat, j: nat)
    requires 36 <= i < 37 && j < |WORDS| && i != j
    ensures !Compatible(WORDS[i], WORDS[j])
  {
    if j < 13 {
      Block12a(i, j);
    } else if j < 26 {
      Block12b(i, j);
    } else {
      Block12c(i, j);
    }
  }

  /** No word of the vocabulary is a prefix of another. */
  lemma Unambiguous(i: nat, j: nat)
    requires i < |WORDS| && j < |WORDS| && i != j
    ensures !Compatible(WORDS[i], WORDS[j])
  {
    if i < 3 {
      Row0(i, j);
    } else if i < 6 {
      Row1(i, j);
    } else if i < 9 {
      Row2(i, j);
    } else if i < 12 {
      Row3(i, j);
    } else if i < 15 {
      Row4(i, j);
    } else if i < 18 {
      Row5(i, j);
    } else if i < 21 {
      Row6(i, j);
    } else if i < 24 {
      Row7(i, j);
    } else if i < 27 {
      Row8(i, j);
    } else if i < 30 {
      Row9(i, j);
    } else if i < 33 {
      Row10(i, j);
    } else if i < 36 {
      Row11(i, j);
    } else {
      Row12(i, j);
    }
  }

  lemma ColourWordAt(k: nat)
    requires k < |COLOURS_MAIN|
    ensures COLOUR_BASE + k < |WORDS| && WORDS[COLOUR_BASE + k] == COLOURS_MAIN[k].0
  {}

  lemma ModifierWordAt(k: nat)
    requires k < |MODIFIERS|
    ensures MODIFIER_BASE + k < |WORDS| && WORDS[MODIFIER_BASE + k] == MODIFIERS[k].0
  {}

  lemma DuplicateWordAt(k: nat)
    requires k < |DUPLICATES|
    ensures DUPLICATE_BASE + k < |WORDS| && WORDS[DUPLICATE_BASE + k] == DUPLICATES[k].0
  {}

  lemma SeparatorWordAt()
    ensures SEPARATOR_INDEX < |WORDS| && WORDS[SEPARATOR_INDEX] == SEPERATORS[0] && |SEPERATORS| == 1
  {}

  /** Every word has at least two letters and none begins with `#`. */
  lemma WordShape(i: nat)
    requires i < |WORDS|
    ensures |WORDS[i]| >= 2 && WORDS[i][0] != '#'
  {}

  lemma BothStart(s: string, a: string, b: string)
    ensures StartsWith(s, a) && StartsWith(s, b) ==> Compatible(a, b)
  {
    if StartsWith(s, a) && StartsWith(s, b) {
      if |a| <= |b| {
        assert b[..|a|] == s[..|b|][..|a|];
      } else {
        assert a[..|b|] == s[..|a|][..|b|];
      }
    }
  }

  /** A text that starts with one word starts with no other. */
  lemma Exclusive(i: nat, j: nat, s: string)
    requires i < |WORDS| && j < |WORDS| && i != j && StartsWith(s, WORDS[i])
    ensures !StartsWith(s, WORDS[j])
  {
    BothStart(s, WORDS[i], WORDS[j]);
    Unambiguous(i, j);
  }

  /** A word followed by anything starts with that word. */
  lemma StartsWithWord(w: string, rest: string)
    ensures StartsWith(w + rest, w)
  {
    assert (w + rest)[..|w|] == w;
  }
}
