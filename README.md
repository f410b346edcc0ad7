# Towerdle word analysis and quiz rules, in Dafny

This project models the core of the Towerdle quiz server, a word-guessing
game over Korean vocabulary.

- **Hangul** (`hangul.dfy`): the jamo tables and the syllable arithmetic of
  the Unicode Standard, section 3.12 (Conjoining Jamo Behavior). A syllable
  U+AC00..U+D7A3 is 0xAC00 + 588·initial + 28·medial + final. The decomposer
  emits, per character, either the character itself (outside the block) or
  its initial, medial and optional final as compatibility jamo (U+3131..).
  The tables come from `src/common/constant/hangul.constant`, which is not
  part of this model. They are reproduced in Unicode order: 19 initials, 21
  medials, and 28 finals with the empty string at index 0.
- **WordAnalysis** (`word_analysis.dfy`): `decomposeHangulString` and
  `decomposeConstants` as loops (methods). Each is proved equal to a
  specification function (`Decomposed`, `Expanded`, the two counters).
  `checkWord` and the flag derivation of `getWordInfo` build a `WordProfile`
  from them.
- **Difficulty** (`difficulty.dfy`): the four-entry `DIFFICULTY_MAP`. Each
  complexity flag is a three-way `FlagRequirement` (`Required(true)`,
  `Required(false)` or `Unconstrained`) instead of a nullable boolean.
- **WordSelection** (`word_selection.dfy`): `getRandomWordForQuiz` as a pure
  function. It picks the settings with the EASY fallback, builds the query
  one clause at a time, and picks one matching word from a pool.
- **Quiz** (`quiz.dfy`): the `Quiz` record as a class, with `solveQuiz`
  updating its `attempts` and `status` in place.
- **QuizStats** (`quiz_stats.dfy`): the counting loop of `getQuizStats` over
  a list of `(difficulty, attempts)` records.

Two consequences of the code are worth stating, and lemmas pin them down:

- 참외 counts six jamo: 참 decomposes to ㅊ ㅏ ㅁ, because it carries the
  final ㅁ (offset 8248 = 588·14 + 16), and the compound vowel ㅚ of 외 is
  expanded to ㅗ ㅣ. `ChamoeJamo`, `ChamoeExpanded` and
  `ChamoeProfile` prove that its profile is length 2, count 6, a compound
  vowel and no compound consonant.
- A compound jamo typed on its own, such as ㄳ, lies outside the syllable
  block. It passes through the decomposer and is then expanded and counted
  by the compound expander (`BareCompoundJamoIsCounted`). Any other
  character outside the block passes through as one unit and counts nothing
  (`PlainTextPassesThrough`).

## Model

| member | source | states |
|---|---|---|
| `Hangul.Split` | src/word/word.service.ts:221-223 | The three indices of an in-block syllable are below 19, 21 and 28, and 588·initial + 28·medial + final equals the code point minus 0xAC00 |
| `Hangul.Compose` | src/word/word.service.ts:221-223 | The syllable built from a valid triple lies in the block, at offset 588·initial + 28·medial + final |
| `Hangul.SplitCompose` | src/word/word.service.ts:221-223 | Round trip over all 19×21×28 triples: splitting the syllable built from a triple returns that triple |
| `Hangul.ComposeSplit` | src/word/word.service.ts:221-223 | Every in-block syllable is rebuilt from its own triple |
| `Hangul.TablesShape` | src/word/word.service.ts:225-226 | The tables have 19, 21 and 28 entries. Final 0 is the empty string and every other final is one jamo. The block holds exactly 19·21·28 syllables |
| `Hangul.TablesDistinct` | src/word/word.service.ts:225-226 | No jamo table lists an entry twice, so a jamo determines its table position |
| `Hangul.SyllableUnits` | src/word/word.service.ts:214-226 | A character outside the block (offset below 0 or above 11171) gives exactly itself. A syllable gives its initial, its medial and then its final, which makes 2 jamo when the final index is 0 and 3 otherwise |
| `Hangul.Assemble` | src/word/word.service.ts:225-226 | The inverse of the decomposer's table lookup, not the Hangul library's assemble function: looking up the positions of a jamo group in the tables gives a syllable of the block |
| `Hangul.AssembleSyllableUnits` | src/word/word.service.ts:214-226 | The jamo of a syllable form a valid group that reassembles to that syllable |
| `Hangul.SyllableUnitsAssemble` | src/word/word.service.ts:214-226 | Every valid group of initial, medial and optional final is exactly what its reassembled syllable decomposes to, so decomposition is a bijection onto these groups |
| `WordAnalysis.Expansion` | src/word/word.service.ts:143-202 | A compound unit becomes 2 units and any other unit stays as itself. No unit it produces is compound |
| `WordAnalysis.DecomposeHangulString` | src/word/word.service.ts:210-230 | The loop's result is the concatenation, in character order, of each character's jamo |
| `WordAnalysis.DecomposeConstants` | src/word/word.service.ts:139-208 | The loop's array is the in-order expansion of the input. The two counters equal the numbers of compound finals and compound vowels in the input |
| `WordAnalysis.DecomposedAppend` | src/word/word.service.ts:213-227 | Decomposition distributes over concatenation, so the order of characters is kept |
| `WordAnalysis.ExpandedAppend` | src/word/word.service.ts:143-202 | Expansion distributes over concatenation, so the relative order of units is kept |
| `WordAnalysis.CountsAppend` | src/word/word.service.ts:140-198 | Both counters distribute over concatenation: the count of a joined sequence is the sum of the counts of its parts |
| `WordAnalysis.ExpandedLength` | src/word/word.service.ts:143-207 | The expanded length is the input length plus the compound-consonant count plus the compound-vowel count |
| `WordAnalysis.CountsPositive` | src/word/word.service.ts:140-198 | Each counter is positive exactly when a unit of its kind occurs in the input (both directions) |
| `WordAnalysis.ExpandedIsAtomic` | src/word/word.service.ts:143-202 | No unit of an expansion is a compound final or a compound vowel |
| `WordAnalysis.AtomicUnitsUnchanged` | src/word/word.service.ts:199-200 | A sequence without compound units expands to itself and counts nothing |
| `WordAnalysis.ExpandIdempotent` | src/word/word.service.ts:143-202 | Expanding twice equals expanding once, and the second pass counts nothing |
| `WordAnalysis.DecomposedLength` | src/word/word.service.ts:213-227 | A string of n characters decomposes into between n and 3n jamo, and at least 2n when every character is a syllable |
| `WordAnalysis.OutsideBlockPassesThrough` | src/word/word.service.ts:214-218 | A string with no character in the syllable block decomposes to itself |
| `WordAnalysis.PlainTextPassesThrough` | src/word/word.service.ts:214-218 | A string with no syllable and no compound jamo decomposes and expands to itself, with both counters 0 |
| `WordAnalysis.CompoundTableEntries` | src/word/word.service.ts:134-198 | No initial is compound. The compound vowels are exactly medials 9, 10, 11, 14, 15, 16 and 19, and the compound finals are exactly finals 3, 5, 6, 9-15 and 18. ㄲ ㄸ ㅃ ㅆ ㅉ ㅐ ㅔ ㅒ ㅖ are not compound |
| `WordAnalysis.CompoundParts` | src/word/word.service.ts:145-198 | A compound final splits into two initial consonants and a compound vowel into two medial vowels |
| `WordAnalysis.CheckWord` | src/word/word.service.ts:126-132 | arr is the expansion of the word's jamo and count is its length. The counters are the compound counts and length is the word length. count equals the jamo count plus both counters, and count is at least length |
| `WordAnalysis.GetWordInfo` | src/word/word.service.ts:109-120 | The stored profile is the word, its length, its count and the two flags, where each flag is its counter > 0 |
| `WordAnalysis.ProfileMeaning` | src/word/word.service.ts:109-111 | A flag is set exactly when the word's jamo contain a compound of that kind. length ≤ count ≤ 5·length |
| `WordAnalysis.CountBound` | src/word/word.service.ts:126-129 | A word of n characters expands to between n and 5n jamo |
| `WordAnalysis.ProfileOfSimpleSyllables` | src/word/word.service.ts:126-129 | A word of syllables without compounds has 2·length ≤ count ≤ 3·length and neither flag set |
| `WordAnalysis.ChamoeJamo` | src/word/word.service.ts:213-227 | 참외 decomposes to ㅊ ㅏ ㅁ ㅇ ㅚ |
| `WordAnalysis.ChamoeExpanded` | src/word/word.service.ts:143-207 | ㅊ ㅏ ㅁ ㅇ ㅚ expands to ㅊ ㅏ ㅁ ㅇ ㅗ ㅣ with one compound vowel and no compound consonant |
| `WordAnalysis.ChamoeProfile` | src/word/word.service.ts:126-132 | 참외 has length 2, count 6, no compound consonant and a compound vowel |
| `WordAnalysis.BareCompoundJamoIsCounted` | src/word/word.service.ts:214-218 | A lone ㄳ passes through the decomposer unchanged and is then expanded and counted: length 1, count 2, compound consonant set |
| `Difficulty.ConfigFor` | src/quiz/interface/quiz-difficulty.interface.ts:13-50 | For every tier: 1 ≤ lengthMin ≤ lengthMax and 2·lengthMin ≤ countMin ≤ countMax. Only EASY constrains the flags, forbidding both. maxAttempts is 7 for EASY and 6 otherwise |
| `Difficulty.DifficultyTable` | src/quiz/interface/quiz-difficulty.interface.ts:14-49 | EASY {2,2,4,4,false,false,7}, MEDIUM {2,3,5,6,unconstrained,unconstrained,6}, HARD {3,3,7,11,unconstrained,unconstrained,6}, VERYHARD {3,4,8,16,unconstrained,unconstrained,6} |
| `Difficulty.MapKeysAreTiers` | src/quiz/interface/quiz-difficulty.interface.ts:13 | The map has exactly one entry per tier |
| `Difficulty.HarderTiersAskMore` | src/quiz/interface/quiz-difficulty.interface.ts:13-50 | A harder tier never lowers a length bound and strictly raises both count bounds |
| `Difficulty.Lookup` | src/quiz/quiz.service.ts:46 | Indexing the map gives a value exactly for the four tier keys, namely that tier's settings, and nothing otherwise |
| `WordSelection.SelectionConfig` | src/word/word.service.ts:29-30 | The settings used for selection are the map's entry for the key when it has one, and EASY's entry otherwise |
| `WordSelection.SelectionFallback` | src/word/word.service.ts:29-30 | A tier selects with its own settings. Any value that is not a tier selects with EASY's settings |
| `WordSelection.BuildQuery` | src/word/word.service.ts:45-67 | The query has the two range clauses plus one clause per constrained flag. An unconstrained flag adds no clause of its kind |
| `WordSelection.QueryMeaning` | src/word/word.service.ts:45-67 | A word matches exactly when its length and count lie in the inclusive ranges and each flag meets its requirement |
| `WordSelection.UnconstrainedAcceptsBoth` | src/word/word.service.ts:59-67 | With an unconstrained flag, flipping that flag on a word never changes whether it matches |
| `WordSelection.Candidates` | src/word/word.service.ts:32-71 | The candidates are pool words that match the query, and every matching pool word is among them |
| `WordSelection.GetRandomWordForQuiz` | src/word/word.service.ts:28-75 | A returned word is in the pool and matches the tier's query. The result is NotFoundWord exactly when no pool word matches |
| `WordSelection.EasyWordShape` | src/quiz/interface/quiz-difficulty.interface.ts:14-22 | A word EASY accepts has 2 characters and no compound jamo. If both characters are syllables, neither has a final |
| `Quiz.SolveTransition` | src/quiz/quiz.service.ts:62-68 | Only an IN_PROGRESS quiz moves, and it moves to SOLVED iff solved, otherwise FAILED. Any other status is a FinishedQuiz error |
| `Quiz.SolvedAtMostOnce` | src/quiz/quiz.service.ts:62-68 | After one recorded result, a second one is always refused |
| `Quiz.SolveQuiz` | src/quiz/quiz.service.ts:58-68 | A missing quiz is InvalidQuiz. A finished quiz is FinishedQuiz and stays unchanged. Otherwise attempts is set to the given value, the status follows SolveTransition and the same quiz is returned. Only attempts and status can change |
| `Quiz.StartAndSelectionAgree` | src/quiz/quiz.service.ts:46 | Starting a quiz returns its tier's map entry without a fallback. That entry equals the selection settings on every tier. Other values give nothing, while selection uses EASY |
| `QuizStats.GetQuizStats` | src/quiz/quiz.service.ts:144-165 | The loop's dictionary equals the in-order fold of the quizzes |
| `QuizStats.TierPresence` | src/quiz/quiz.service.ts:149-155 | A tier has an entry exactly when some input quiz has that tier |
| `QuizStats.TierCount` | src/quiz/quiz.service.ts:157 | totalSolved of a tier is the number of input quizzes with that tier |
| `QuizStats.TierAttempts` | src/quiz/quiz.service.ts:158 | totalAttempts of a tier is the sum of the attempts of its quizzes |
| `QuizStats.TierHistogram` | src/quiz/quiz.service.ts:160-164 | attemptCounts[d] has key a exactly when some quiz has tier d and a attempts. Its value is the number of such quizzes |
| `QuizStats.HistogramSumsToTotal` | src/quiz/quiz.service.ts:157-164 | The values of attemptCounts[d] sum to totalSolved[d] |

## Left out

- The dictionary lookups (`checkAndgetWordDefinitionsFromKrDictApi` and `checkAndgetWordDefinitionsFromStDictApi`): HTTP calls and XML mapping. So are the definition fetching in `getRandomWordForQuiz` and the dictionary check in `getWordInfo`.
- Persistence (`save`, `findOne`, `find`, `count`): repository results are inputs. `GetRandomWordForQuiz` receives the pool left after the "already solved" subquery, and a `pick` number stands for `ORDER BY RANDOM()`. `SolveQuiz` receives the quiz `findOne` returned, or null. `GetQuizStats` receives the user's solved quizzes.
- GetWordInfo: models only the branch that profiles a new word. `hangul.assemble(...).trim()` is a foreign library call, so the word is taken as already assembled. The branch that returns or updates an existing stored word is persistence.
- CheckWord: length is the number of code points. The source uses `word.length`, which counts UTF-16 code units. For a character above U+FFFF the source's length would be 2 while the decomposer emits one unit, so there count could fall below length.
- SelectionConfig: a tier value naming an inherited JavaScript object property (such as `constructor`) is not modelled. Only the four tier keys and "anything else" are.
- QuizDifficulty: the enum file is not part of this model. Its values are taken to be the member names, `EASY`, `MEDIUM`, `HARD` and `VERYHARD`, because `word.service.ts:30` indexes the map with `'EASY'`.
- Quiz: the entity file is not part of this model. The constructor takes every field, and entity defaults are not modelled.
- SolveQuiz: attempts is not checked against the tier's maxAttempts, just as in the source (its TODO at `quiz.service.ts:66`).
- `averageAttempts` and the formatting loop of `getQuizStats` (`quiz.service.ts:167-174`): floating-point division with `toFixed` rounding.
- `startNewQuiz` is modelled only for its `DIFFICULTY_MAP` lookup (`Lookup`, `StartAndSelectionAgree`). Generating the UUID and saving the quiz are I/O.
- `getUserSolveData`, the commented-out streak code and the dayjs timezone setup: they are persistence, dead code or time-library code.
- Authentication, user creation, controllers, DTOs, modules and `main.ts`: framework plumbing.
- The race between selecting a word and recording a solved quiz: concurrency is not modelled.
