/**
 * The current colour-map lookup: a preset name, in any case, stands for its
 * stored colour text; any other name is read as a colour text itself and
 * must give at least two colours.
 */
module Registry {
  import opened Wrappers
  import opened Palette
  import opened Descriptor
  import opened DescriptorFacts

  datatype MapError =
    | BadText(e: ParseError)   // the parser's own exception, passed on
    | NotEnoughColours         // ValueError('not enough colours to generate colour map')
    | UnknownColourMap         // ValueError('unknown colour map')

  function LiftError(p: Result<seq<Anchor>, ParseError>): (r: Result<seq<Anchor>, MapError>)
    ensures p.Ok? ==> r == Ok(p.value)
    ensures p.Err? ==> r == Err(BadText(p.error))
  {
    match p
    case Ok(g) => Ok(g)
    case Err(e) => Err(BadText(e))
  }

  /** A text that parses gives at least one colour: one per slot, and there is always one slot. */
  lemma ParseNonEmpty(text: string)
    ensures Parse(text).Ok? ==> |Parse(text).value| >= 1
  {
    var run := Run(Lower(text), INIT);
    if run.Ok? {
      FinishOutcome(run.value);
    }
  }

  /**
   * `ColourMap()[profile]`. A preset's colours are returned however many
   * there are; a generated map needs two or more. The `unknown colour map`
   * branch cannot be taken, since a text that parses is never empty.
   */
  function ColourMapGet(profile: string): (r: Result<seq<Anchor>, MapError>)
    ensures Lower(profile) in MAPS ==> r == LiftError(Parse(MAPS[Lower(profile)]))
    ensures Lower(profile) !in MAPS && Parse(profile).Err? ==> r == Err(BadText(Parse(profile).error))
    ensures Lower(profile) !in MAPS && Parse(profile).Ok? ==>
              (r == Err(NotEnoughColours) <==> |Parse(profile).value| < 2)
    ensures Lower(profile) !in MAPS && r.Ok? ==> Parse(profile) == Ok(r.value) && |r.value| >= 2
    ensures r != Err(UnknownColourMap)
  {
    var key := Lower(profile);
    if key in MAPS then
      ParseNonEmpty(MAPS[key]);
      LiftError(Parse(MAPS[key]))
    else
      ParseNonEmpty(profile);
      match Parse(profile)
      case Err(e) => Err(BadText(e))
      case Ok(generated) =>
        if |generated| == 0 then Err(UnknownColourMap)
        else if |generated| < 2 then Err(NotEnoughColours)
        else Ok(generated)
  }

  /** The name is looked up and parsed without regard to case. */
  lemma ColourMapIgnoresCase(profile: string)
    ensures ColourMapGet(Lower(profile)) == ColourMapGet(profile)
  {
    LowerIdempotent(profile);
    ParseIgnoresCase(profile);
  }
}
