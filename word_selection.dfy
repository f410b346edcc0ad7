/**
 * How the word service picks a quiz word for a tier: it looks up the tier's
 * settings (falling back to EASY for an unknown tier), builds a query one
 * clause at a time, and takes one random word among those that satisfy every
 * clause.
 */
module WordSelection {
  import opened Wrappers
  import opened Hangul
  import opened Difficulty
  import opened WordAnalysis

  /**
   * The settings used for selection: the map's entry for the key, or EASY's
   * entry when the key has none (every entry is an object, so the fallback
   * applies only to a missing key).
   */
  function SelectionConfig(key: string): (c: DifficultyConfig)
    ensures key in DIFFICULTY_MAP ==> c == DIFFICULTY_MAP[key]
    ensures key !in DIFFICULTY_MAP ==> c == DIFFICULTY_MAP[Easy.Key()]
  {
    match Lookup(key)
    case Some(c) => c
    case None => DIFFICULTY_MAP["EASY"]
  }

  /** A known tier selects with its own settings; any other value selects with EASY's. */
  lemma SelectionFallback(key: string)
    ensures forall d: QuizDifficulty :: d.Key() == key ==> SelectionConfig(key) == ConfigFor(d)
    ensures (forall d: QuizDifficulty :: d.Key() != key) ==> SelectionConfig(key) == ConfigFor(Easy)
  {
  }

  /** One condition of the query. */
  datatype Clause =
    | LengthBetween(lo: int, hi: int)
    | CountBetween(lo: int, hi: int)
    | ComplexVowelIs(vowel: bool)
    | ComplexConsonantIs(consonant: bool)

  /** Whether a stored word satisfies one condition; BETWEEN includes both ends. */
  predicate Holds(c: Clause, w: WordProfile)
  {
    match c
    case LengthBetween(lo, hi) => lo <= w.length <= hi
    case CountBetween(lo, hi) => lo <= w.count <= hi
    case ComplexVowelIs(b) => w.hasComplexVowel == b
    case ComplexConsonantIs(b) => w.hasComplexConsonant == b
  }

  /** A word is selected when it satisfies every clause of the query. */
  predicate Matches(query: seq<Clause>, w: WordProfile)
  {
    forall i | 0 <= i < |query| :: Holds(query[i], w)
  }

  /**
   * The query for some settings: the length range and the count range always,
   * then a flag clause only for a flag the settings constrain. An
   * unconstrained flag adds no clause at all.
   */
  function BuildQuery(cfg: DifficultyConfig): (query: seq<Clause>)
    ensures |query| == 2 + (if cfg.complexVowel.Required? then 1 else 0)
                         + (if cfg.complexConsonant.Required? then 1 else 0)
    ensures cfg.complexVowel.Unconstrained? ==> forall i | 0 <= i < |query| :: !query[i].ComplexVowelIs?
    ensures cfg.complexConsonant.Unconstrained? ==> forall i | 0 <= i < |query| :: !query[i].ComplexConsonantIs?
  {
    var query := [LengthBetween(cfg.lengthMin, cfg.lengthMax), CountBetween(cfg.countMin, cfg.countMax)];
    var query := if cfg.complexVowel.Required? then query + [ComplexVowelIs(cfg.complexVowel.value)] else query;
    if cfg.complexConsonant.Required? then query + [ComplexConsonantIs(cfg.complexConsonant.value)] else query
  }

  /** Whether a flag value meets a requirement. */
  predicate Satisfies(r: FlagRequirement, flag: bool)
  {
    match r
    case Required(v) => flag == v
    case Unconstrained => true
  }

  /** The query accepts a word exactly when both ranges and both flag requirements hold. */
  lemma QueryMeaning(cfg: DifficultyConfig, w: WordProfile)
    ensures Matches(BuildQuery(cfg), w) <==>
      && cfg.lengthMin <= w.length <= cfg.lengthMax
      && cfg.countMin <= w.count <= cfg.countMax
      && Satisfies(cfg.complexVowel, w.hasComplexVowel)
      && Satisfies(cfg.complexConsonant, w.hasComplexConsonant)
  {
    var q := BuildQuery(cfg);
    assert Holds(q[0], w) <==> cfg.lengthMin <= w.length <= cfg.lengthMax;
    assert Holds(q[1], w) <==> cfg.countMin <= w.count <= cfg.countMax;
    if cfg.complexVowel.Required? {
      assert q[2] == ComplexVowelIs(cfg.complexVowel.value);
    }
    if cfg.complexConsonant.Required? {
      assert q[|q| - 1] == ComplexConsonantIs(cfg.complexConsonant.value);
    }
  }

  /** An unconstrained flag does not affect selection: either value of it is accepted alike. */
  lemma UnconstrainedAcceptsBoth(cfg: DifficultyConfig, w: WordProfile)
    ensures cfg.complexVowel.Unconstrained? ==>
      (Matches(BuildQuery(cfg), w) <==> Matches(BuildQuery(cfg), w.(hasComplexVowel := !w.hasComplexVowel)))
    ensures cfg.complexConsonant.Unconstrained? ==>
      (Matches(BuildQuery(cfg), w) <==> Matches(BuildQuery(cfg), w.(hasComplexConsonant := !w.hasComplexConsonant)))
  {
    QueryMeaning(cfg, w);
    QueryMeaning(cfg, w.(hasComplexVowel := !w.hasComplexVowel));
    QueryMeaning(cfg, w.(hasComplexConsonant := !w.hasComplexConsonant));
  }

  /** The words of the pool that satisfy the query, in pool order. */
  function Candidates(query: seq<Clause>, pool: seq<WordProfile>): (r: seq<WordProfile>)
    ensures |r| <= |pool|
    ensures forall i | 0 <= i < |r| :: r[i] in pool && Matches(query, r[i])
    ensures forall w | w in pool && Matches(query, w) :: w in r
  {
    if pool == [] then []
    else
      var rest := Candidates(query, pool[1..]);
      if Matches(query, pool[0]) then [pool[0]] + rest else rest
  }

  datatype SelectionError = NotFoundWord

  /**
   * One word for a quiz of tier `key`. `pool` is the stored words still
   * available to the user and `pick` stands for the database's random order;
   * with no candidate the service reports that no word was found.
   */
  function GetRandomWordForQuiz(key: string, pool: seq<WordProfile>, pick: nat): (r: Result<WordProfile, SelectionError>)
    ensures r.Success? ==> r.value in pool && Matches(BuildQuery(SelectionConfig(key)), r.value)
    ensures r.Failure? <==> forall w | w in pool :: !Matches(BuildQuery(SelectionConfig(key)), w)
  {
    var candidates := Candidates(BuildQuery(SelectionConfig(key)), pool);
    if |candidates| == 0 then Failure(NotFoundWord) else Success(candidates[pick % |candidates|])
  }

  /** Every final of `word` is absent: each syllable spells exactly two jamo. */
  predicate OpenSyllables(word: string)
  {
    forall k | 0 <= k < |word| :: InBlock(word[k]) && Split(word[k]).final == 0
  }

  /**
   * An EASY word has no compound jamo and two characters; when both are
   * syllables, neither has a final (four jamo for two syllables leaves no room
   * for one).
   */
  lemma EasyWordShape(word: string)
    requires Matches(BuildQuery(ConfigFor(Easy)), Profile(word))
    ensures |word| == 2
    ensures forall k | 0 <= k < |Decomposed(word)| :: !IsCompound(Decomposed(word)[k])
    ensures (forall k | 0 <= k < |word| :: InBlock(word[k])) ==> OpenSyllables(word)
  {
    var p := Profile(word);
    QueryMeaning(ConfigFor(Easy), p);
    assert !p.hasComplexConsonant && !p.hasComplexVowel && p.length == 2 && p.count == 4;
    FlagsClear(word);
    var units := Decomposed(word);
    ExpandedLength(units);
    AtomicUnitsUnchanged(units);
    if forall k | 0 <= k < |word| :: InBlock(word[k]) {
      TwoJamoPerSyllable(word);
    }
  }

  /** A word whose profile sets neither flag has no compound jamo. */
  lemma FlagsClear(word: string)
    requires !Profile(word).hasComplexConsonant && !Profile(word).hasComplexVowel
    ensures forall k | 0 <= k < |Decomposed(word)| :: !IsCompound(Decomposed(word)[k])
  {
    ProfileMeaning(word);
  }

  /** Syllables with exactly two jamo each have no final. */
  lemma {:induction false} TwoJamoPerSyllable(word: string)
    requires forall k | 0 <= k < |word| :: InBlock(word[k])
    requires |Decomposed(word)| == 2 * |word|
    ensures OpenSyllables(word)
  {
    if word != [] {
      var w', c := word[..|word| - 1], word[|word| - 1];
      assert word == w' + [c];
      assert forall k | 0 <= k < |w'| :: w'[k] == word[k];
      DecomposedSnoc(w', c);
      DecomposedLength(w');
      assert |Decomposed(w')| == 2 * |w'| && |SyllableUnits(c)| == 2;
      TwoJamoPerSyllable(w');
      OpenSyllablesSnoc(w', c);
    }
  }

  /** Appending a syllable without a final to open syllables keeps them open. */
  lemma OpenSyllablesSnoc(w: string, c: char)
    requires OpenSyllables(w)
    requires InBlock(c) && |SyllableUnits(c)| == 2
    ensures OpenSyllables(w + [c])
  {
    assert Split(c).final == 0;
    assert forall k | 0 <= k < |w| :: (w + [c])[k] == w[k];
  }
}
