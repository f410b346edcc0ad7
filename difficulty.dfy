/**
 * The difficulty tiers and their fixed selection settings. A complexity flag
 * of a tier is a three-way value: the word must have the flag, must not have
 * it, or the tier does not care (the source writes `undefined` for that).
 */
module Difficulty {
  import opened Wrappers

  datatype QuizDifficulty = Easy | Medium | Hard | VeryHard
  {
    /** The enum value, which is also the tier's key in the difficulty map. */
    function Key(): string
    {
      match this
      case Easy => "EASY"
      case Medium => "MEDIUM"
      case Hard => "HARD"
      case VeryHard => "VERYHARD"
    }

    /** Position in order of increasing difficulty. */
    function Rank(): nat
    {
      match this
      case Easy => 0
      case Medium => 1
      case Hard => 2
      case VeryHard => 3
    }
  }

  /** A tier's requirement on one complexity flag. */
  datatype FlagRequirement = Required(value: bool) | Unconstrained

  datatype DifficultyConfig = DifficultyConfig(
    lengthMin: int,
    lengthMax: int,
    countMin: int,
    countMax: int,
    complexVowel: FlagRequirement,
    complexConsonant: FlagRequirement,
    maxAttempts: int)

  /** The four tiers' settings, keyed by enum value. */
  const DIFFICULTY_MAP: map<string, DifficultyConfig> := map[
    "EASY" := DifficultyConfig(2, 2, 4, 4, Required(false), Required(false), 7),
    "MEDIUM" := DifficultyConfig(2, 3, 5, 6, Unconstrained, Unconstrained, 6),
    "HARD" := DifficultyConfig(3, 3, 7, 11, Unconstrained, Unconstrained, 6),
    "VERYHARD" := DifficultyConfig(3, 4, 8, 16, Unconstrained, Unconstrained, 6)]

  /** The map has exactly one entry per tier. */
  lemma MapKeysAreTiers()
    ensures forall d: QuizDifficulty :: d.Key() in DIFFICULTY_MAP
    ensures forall key | key in DIFFICULTY_MAP :: exists d: QuizDifficulty :: d.Key() == key
    ensures forall d: QuizDifficulty, e: QuizDifficulty :: d.Key() == e.Key() ==> d == e
  {
    assert DIFFICULTY_MAP.Keys == {Easy.Key(), Medium.Key(), Hard.Key(), VeryHard.Key()};
  }

  /**
   * The settings of a tier. Every tier's ranges are non-empty and start at a
   * positive length; only EASY constrains the complexity flags (it forbids
   * both), and EASY allows one attempt more than the others.
   */
  function ConfigFor(d: QuizDifficulty): (c: DifficultyConfig)
    ensures 1 <= c.lengthMin <= c.lengthMax && 2 * c.lengthMin <= c.countMin <= c.countMax
    ensures c.complexVowel == c.complexConsonant
    ensures c.complexVowel.Unconstrained? <==> d != Easy
    ensures d == Easy ==> c.complexVowel == Required(false)
    ensures c.maxAttempts == if d == Easy then 7 else 6
  {
    DIFFICULTY_MAP[d.Key()]
  }

  /** The table, entry by entry. */
  lemma DifficultyTable()
    ensures ConfigFor(Easy) == DifficultyConfig(2, 2, 4, 4, Required(false), Required(false), 7)
    ensures ConfigFor(Medium) == DifficultyConfig(2, 3, 5, 6, Unconstrained, Unconstrained, 6)
    ensures ConfigFor(Hard) == DifficultyConfig(3, 3, 7, 11, Unconstrained, Unconstrained, 6)
    ensures ConfigFor(VeryHard) == DifficultyConfig(3, 4, 8, 16, Unconstrained, Unconstrained, 6)
  {
  }

  /** Harder tiers never ask for shorter words or fewer jamo. */
  lemma HarderTiersAskMore(d: QuizDifficulty, e: QuizDifficulty)
    requires d.Rank() < e.Rank()
    ensures ConfigFor(d).lengthMin <= ConfigFor(e).lengthMin
    ensures ConfigFor(d).lengthMax <= ConfigFor(e).lengthMax
    ensures ConfigFor(d).countMin < ConfigFor(e).countMin
    ensures ConfigFor(d).countMax < ConfigFor(e).countMax
  {
  }

  /** Indexing the map with a raw tier value: `undefined` when the value is not a tier. */
  function Lookup(key: string): (r: Option<DifficultyConfig>)
    ensures r.Some? <==> exists d: QuizDifficulty :: d.Key() == key
    ensures forall d: QuizDifficulty :: d.Key() == key ==> r == Some(ConfigFor(d))
  {
    MapKeysAreTiers();
    if key in DIFFICULTY_MAP then Some(DIFFICULTY_MAP[key]) else None
  }
}
