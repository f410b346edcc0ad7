/**
 * The word service's analysis of a word: every precomposed syllable is split
 * into its jamo, every compound final and compound vowel is then expanded into
 * its two simpler jamo and counted, and the word's profile (length, number of
 * jamo, complexity flags) is derived from the result.
 */
module WordAnalysis {
  import opened Hangul

  /** The 11 compound finals: each one is expanded into two consonants. */
  predicate IsComplexConsonant(u: char)
  {
    u in {'ㄳ', 'ㄵ', 'ㄶ', 'ㄺ', 'ㄻ', 'ㄼ', 'ㄽ', 'ㄾ', 'ㄿ', 'ㅀ', 'ㅄ'}
  }

  /** The 7 compound vowels: each one is expanded into two vowels. */
  predicate IsComplexVowel(u: char)
  {
    u in {'ㅘ', 'ㅙ', 'ㅚ', 'ㅝ', 'ㅞ', 'ㅟ', 'ㅢ'}
  }

  predicate IsCompound(u: char)
  {
    IsComplexConsonant(u) || IsComplexVowel(u)
  }

  /**
   * The expansion table: what one unit becomes. Compound units become their
   * ordered pair, every other unit (tense consonants such as ㄲ and vowels
   * such as ㅐ included) stays a single unit.
   */
  function Expansion(u: char): (r: seq<char>)
    ensures |r| == (if IsCompound(u) then 2 else 1)
    ensures !IsCompound(u) ==> r == [u]
    ensures forall k | 0 <= k < |r| :: !IsCompound(r[k])
  {
    match u
    case 'ㄳ' => ['ㄱ', 'ㅅ']
    case 'ㄵ' => ['ㄴ', 'ㅈ']
    case 'ㄶ' => ['ㄴ', 'ㅎ']
    case 'ㄺ' => ['ㄹ', 'ㄱ']
    case 'ㄻ' => ['ㄹ', 'ㅁ']
    case 'ㄼ' => ['ㄹ', 'ㅂ']
    case 'ㄽ' => ['ㄹ', 'ㅅ']
    case 'ㄾ' => ['ㄹ', 'ㅌ']
    case 'ㄿ' => ['ㄹ', 'ㅍ']
    case 'ㅀ' => ['ㄹ', 'ㅎ']
    case 'ㅄ' => ['ㅂ', 'ㅅ']
    case 'ㅘ' => ['ㅗ', 'ㅏ']
    case 'ㅙ' => ['ㅗ', 'ㅐ']
    case 'ㅚ' => ['ㅗ', 'ㅣ']
    case 'ㅝ' => ['ㅜ', 'ㅓ']
    case 'ㅞ' => ['ㅜ', 'ㅔ']
    case 'ㅟ' => ['ㅜ', 'ㅣ']
    case 'ㅢ' => ['ㅡ', 'ㅣ']
    case _ => [u]
  }

  /** The jamo of a string: each character's jamo, in the order of the characters. */
  function Decomposed(s: seq<char>): seq<char>
  {
    if s == [] then [] else Decomposed(s[..|s| - 1]) + SyllableUnits(s[|s| - 1])
  }

  /** One step of the definition: appending a character appends its jamo. */
  lemma DecomposedSnoc(s: seq<char>, c: char)
    ensures Decomposed(s + [c]) == Decomposed(s) + SyllableUnits(c)
  {
    assert (s + [c])[..|s|] == s;
  }

  /** The expansion of a sequence of units: each unit's expansion, in order. */
  function Expanded(a: seq<char>): seq<char>
  {
    if a == [] then [] else Expanded(a[..|a| - 1]) + Expansion(a[|a| - 1])
  }

  function ComplexConsonantCount(a: seq<char>): nat
  {
    if a == [] then 0
    else ComplexConsonantCount(a[..|a| - 1]) + (if IsComplexConsonant(a[|a| - 1]) then 1 else 0)
  }

  function ComplexVowelCount(a: seq<char>): nat
  {
    if a == [] then 0
    else ComplexVowelCount(a[..|a| - 1]) + (if IsComplexVowel(a[|a| - 1]) then 1 else 0)
  }

  /** Splits each character of `str` into jamo; characters outside the syllable block pass through. */
  method DecomposeHangulString(str: seq<char>) returns (result: seq<char>)
    ensures result == Decomposed(str)
  {
    result := [];
    for i := 0 to |str|
      invariant result == Decomposed(str[..i])
    {
      var ch := str[i];
      assert str[..i + 1][..i] == str[..i];
      assert Decomposed(str[..i + 1]) == result + SyllableUnits(ch);
      var code := ch as int - 0xAC00;
      if code < 0 || code > 11171 {
        result := result + [ch];
        continue;
      }
      var initialIndex := code / 588;
      var medialIndex := (code % 588) / 28;
      var finalIndex := code % 28;
      assert Split(ch) == SyllableIndices(initialIndex, medialIndex, finalIndex);
      ghost var expected := result + SyllableUnits(ch);
      result := result + [INITIALS[initialIndex], MEDIALS[medialIndex]];
      if FINALS[finalIndex] != "" {
        result := result + FINALS[finalIndex];
      }
      assert result == expected;
    }
    assert str[..|str|] == str;
  }

  /** Expands compound finals and compound vowels into pairs, counting each kind. */
  method DecomposeConstants(arr: seq<char>) returns (decomposed: seq<char>, complexConsonantCount: nat, complexVowelCount: nat)
    ensures decomposed == Expanded(arr)
    ensures complexConsonantCount == ComplexConsonantCount(arr)
    ensures complexVowelCount == ComplexVowelCount(arr)
  {
    decomposed, complexConsonantCount, complexVowelCount := [], 0, 0;
    for i := 0 to |arr|
      invariant decomposed == Expanded(arr[..i])
      invariant complexConsonantCount == ComplexConsonantCount(arr[..i])
      invariant complexVowelCount == ComplexVowelCount(arr[..i])
    {
      var ch := arr[i];
      assert arr[..i + 1][..i] == arr[..i];
      if IsComplexConsonant(ch) {
        complexConsonantCount := complexConsonantCount + 1;
      } else if IsComplexVowel(ch) {
        complexVowelCount := complexVowelCount + 1;
      }
      var parts := Expansion(ch);
      decomposed := decomposed + parts;
    }
    assert arr[..|arr|] == arr;
  }

  /** Decomposition works character by character: it distributes over concatenation. */
  lemma {:induction false} DecomposedAppend(a: seq<char>, b: seq<char>)
    ensures Decomposed(a + b) == Decomposed(a) + Decomposed(b)
    decreases |b|
  {
    if b == [] {
      assert a + b == a;
    } else {
      var b' := b[..|b| - 1];
      assert (a + b)[..|a + b| - 1] == a + b';
      DecomposedAppend(a, b');
    }
  }

  /** Expansion works unit by unit: it distributes over concatenation. */
  lemma {:induction false} ExpandedAppend(a: seq<char>, b: seq<char>)
    ensures Expanded(a + b) == Expanded(a) + Expanded(b)
    decreases |b|
  {
    if b == [] {
      assert a + b == a;
    } else {
      var b', x := b[..|b| - 1], b[|b| - 1];
      assert a + b == (a + b') + [x];
      assert b == b' + [x];
      ExpandedSnoc(a + b', x);
      ExpandedSnoc(b', x);
      ExpandedAppend(a, b');
    }
  }

  /** Both counters work unit by unit: they distribute over concatenation. */
  lemma {:induction false} CountsAppend(a: seq<char>, b: seq<char>)
    ensures ComplexConsonantCount(a + b) == ComplexConsonantCount(a) + ComplexConsonantCount(b)
    ensures ComplexVowelCount(a + b) == ComplexVowelCount(a) + ComplexVowelCount(b)
    decreases |b|
  {
    if b == [] {
      assert a + b == a;
    } else {
      var b', x := b[..|b| - 1], b[|b| - 1];
      assert a + b == (a + b') + [x];
      assert b == b' + [x];
      ExpandedSnoc(a + b', x);
      ExpandedSnoc(b', x);
      CountsAppend(a, b');
    }
  }

  /** One step of the definitions: appending a unit appends its expansion and counts it. */
  lemma ExpandedSnoc(a: seq<char>, x: char)
    ensures Expanded(a + [x]) == Expanded(a) + Expansion(x)
    ensures ComplexConsonantCount(a + [x]) == ComplexConsonantCount(a) + (if IsComplexConsonant(x) then 1 else 0)
    ensures ComplexVowelCount(a + [x]) == ComplexVowelCount(a) + (if IsComplexVowel(x) then 1 else 0)
  {
    assert (a + [x])[..|a|] == a;
  }

  /** Each counted unit adds exactly one unit to the expansion; every other unit adds none. */
  lemma {:induction false} ExpandedLength(a: seq<char>)
    ensures |Expanded(a)| == |a| + ComplexConsonantCount(a) + ComplexVowelCount(a)
  {
    if a != [] {
      ExpandedLength(a[..|a| - 1]);
    }
  }

  /** A complexity counter is positive exactly when some unit of that kind occurs. */
  lemma {:induction false} CountsPositive(a: seq<char>)
    ensures ComplexConsonantCount(a) > 0 <==> exists k | 0 <= k < |a| :: IsComplexConsonant(a[k])
    ensures ComplexVowelCount(a) > 0 <==> exists k | 0 <= k < |a| :: IsComplexVowel(a[k])
  {
    if a != [] {
      var a' := a[..|a| - 1];
      CountsPositive(a');
      if exists k | 0 <= k < |a'| :: IsComplexConsonant(a'[k]) {
        var k :| 0 <= k < |a'| && IsComplexConsonant(a'[k]);
        assert a[k] == a'[k];
      }
      if exists k | 0 <= k < |a'| :: IsComplexVowel(a'[k]) {
        var k :| 0 <= k < |a'| && IsComplexVowel(a'[k]);
        assert a[k] == a'[k];
      }
      if exists k | 0 <= k < |a| :: IsComplexConsonant(a[k]) {
        var k :| 0 <= k < |a| && IsComplexConsonant(a[k]);
        assert k < |a'| ==> a'[k] == a[k];
      }
      if exists k | 0 <= k < |a| :: IsComplexVowel(a[k]) {
        var k :| 0 <= k < |a| && IsComplexVowel(a[k]);
        assert k < |a'| ==> a'[k] == a[k];
      }
    }
  }

  /** The expansion contains no compound unit. */
  lemma {:induction false} ExpandedIsAtomic(a: seq<char>)
    ensures forall k | 0 <= k < |Expanded(a)| :: !IsCompound(Expanded(a)[k])
  {
    if a != [] {
      var a' := a[..|a| - 1];
      ExpandedIsAtomic(a');
      var e, x := Expanded(a'), Expansion(a[|a| - 1]);
      assert forall k | 0 <= k < |e + x| :: (e + x)[k] == if k < |e| then e[k] else x[k - |e|];
    }
  }

  /** Units without compounds are left exactly as they are, and nothing is counted. */
  lemma {:induction false} AtomicUnitsUnchanged(a: seq<char>)
    requires forall k | 0 <= k < |a| :: !IsCompound(a[k])
    ensures Expanded(a) == a
    ensures ComplexConsonantCount(a) == 0 && ComplexVowelCount(a) == 0
  {
    if a != [] {
      var a' := a[..|a| - 1];
      assert forall k | 0 <= k < |a'| :: a'[k] == a[k];
      AtomicUnitsUnchanged(a');
      assert a == a' + [a[|a| - 1]];
    }
  }

  /** Expanding twice is expanding once; the second pass counts nothing. */
  lemma ExpandIdempotent(a: seq<char>)
    ensures Expanded(Expanded(a)) == Expanded(a)
    ensures ComplexConsonantCount(Expanded(a)) == 0 && ComplexVowelCount(Expanded(a)) == 0
  {
    ExpandedIsAtomic(a);
    AtomicUnitsUnchanged(Expanded(a));
  }

  /** Every character gives at least one jamo and at most three; a syllable at least two. */
  lemma {:induction false} DecomposedLength(s: seq<char>)
    ensures |s| <= |Decomposed(s)| <= 3 * |s|
    ensures (forall k | 0 <= k < |s| :: InBlock(s[k])) ==> 2 * |s| <= |Decomposed(s)|
  {
    if s != [] {
      var s' := s[..|s| - 1];
      assert forall k | 0 <= k < |s'| :: s'[k] == s[k];
      DecomposedLength(s');
    }
  }

  /** A string with no syllable and no compound jamo passes through unchanged and counts nothing. */
  lemma PlainTextPassesThrough(s: seq<char>)
    requires forall k | 0 <= k < |s| :: !InBlock(s[k]) && !IsCompound(s[k])
    ensures Decomposed(s) == s
    ensures Expanded(s) == s
    ensures ComplexConsonantCount(s) == 0 && ComplexVowelCount(s) == 0
  {
    assert forall k | 0 <= k < |s| :: !InBlock(s[k]);
    OutsideBlockPassesThrough(s);
    assert forall k | 0 <= k < |s| :: !IsCompound(s[k]);
    AtomicUnitsUnchanged(s);
  }

  /** Characters outside the syllable block are copied to the output one by one. */
  lemma {:induction false} OutsideBlockPassesThrough(s: seq<char>)
    requires forall k | 0 <= k < |s| :: !InBlock(s[k])
    ensures Decomposed(s) == s
  {
    if s != [] {
      var s', c := s[..|s| - 1], s[|s| - 1];
      assert forall k | 0 <= k < |s'| :: s'[k] == s[k];
      OutsideBlockPassesThrough(s');
      assert s == s' + [c];
      DecomposedSnoc(s', c);
    }
  }

  /** Which table entries are compound: no initial, 7 medials and 11 finals. */
  lemma CompoundTableEntries()
    ensures forall i | 0 <= i < |INITIALS| :: !IsCompound(INITIALS[i])
    ensures forall i | 0 <= i < |MEDIALS| :: !IsComplexConsonant(MEDIALS[i])
    ensures forall i | 0 <= i < |MEDIALS| :: IsComplexVowel(MEDIALS[i]) <==> i in {9, 10, 11, 14, 15, 16, 19}
    ensures forall i | 1 <= i < |FINALS| :: !IsComplexVowel(FINALS[i][0])
    ensures forall i | 1 <= i < |FINALS| ::
      IsComplexConsonant(FINALS[i][0]) <==> i in {3, 5, 6, 9, 10, 11, 12, 13, 14, 15, 18}
    ensures forall u | u in ['ㄲ', 'ㄸ', 'ㅃ', 'ㅆ', 'ㅉ', 'ㅐ', 'ㅔ', 'ㅒ', 'ㅖ'] :: !IsCompound(u)
  {
    InitialsNotCompound();
    CompoundMedials();
    CompoundFinals();
  }

  lemma InitialsNotCompound()
    ensures forall i | 0 <= i < |INITIALS| :: !IsCompound(INITIALS[i])
  {
  }

  lemma CompoundMedials()
    ensures forall i | 0 <= i < |MEDIALS| :: !IsComplexConsonant(MEDIALS[i])
    ensures forall i | 0 <= i < |MEDIALS| :: IsComplexVowel(MEDIALS[i]) <==> i in {9, 10, 11, 14, 15, 16, 19}
  {
  }

  lemma CompoundFinals()
    ensures forall i | 1 <= i < |FINALS| :: !IsComplexVowel(FINALS[i][0])
    ensures forall i | 1 <= i < |FINALS| ::
      IsComplexConsonant(FINALS[i][0]) <==> i in {3, 5, 6, 9, 10, 11, 12, 13, 14, 15, 18}
  {
  }

  /** A compound final splits into two initial consonants, a compound vowel into two medials. */
  lemma CompoundParts(u: char)
    ensures IsComplexConsonant(u) ==> Expansion(u)[0] in INITIALS && Expansion(u)[1] in INITIALS
    ensures IsComplexVowel(u) ==> Expansion(u)[0] in MEDIALS && Expansion(u)[1] in MEDIALS
  {
  }

  /** The result of the word check: the expanded jamo, the word length and the counters. */
  datatype WordCheck = WordCheck(arr: seq<char>, length: nat, count: nat, complexConsonantCount: nat, complexVowelCount: nat)

  /** Decomposes a word, expands its compounds and measures it. */
  method CheckWord(word: string) returns (r: WordCheck)
    ensures r.arr == Expanded(Decomposed(word))
    ensures r.complexConsonantCount == ComplexConsonantCount(Decomposed(word))
    ensures r.complexVowelCount == ComplexVowelCount(Decomposed(word))
    ensures r.length == |word| && r.count == |r.arr|
    ensures r.count == |Decomposed(word)| + r.complexConsonantCount + r.complexVowelCount
    ensures r.length <= r.count
  {
    var units := DecomposeHangulString(word);
    var arr, complexConsonantCount, complexVowelCount := DecomposeConstants(units);
    ExpandedLength(units);
    DecomposedLength(word);
    r := WordCheck(arr, |word|, |arr|, complexConsonantCount, complexVowelCount);
  }

  /** The stored profile of a word: its value, length, number of jamo and complexity flags. */
  datatype WordProfile = WordProfile(value: string, length: nat, count: nat, hasComplexConsonant: bool, hasComplexVowel: bool)

  /** The profile of a word as the word service derives it. */
  function Profile(word: string): WordProfile
  {
    var units := Decomposed(word);
    WordProfile(word, |word|, |Expanded(units)|, ComplexConsonantCount(units) > 0, ComplexVowelCount(units) > 0)
  }

  /** A new word's profile: the counters of the word check turned into flags. */
  method GetWordInfo(word: string) returns (w: WordProfile)
    ensures w == Profile(word)
  {
    var r := CheckWord(word);
    var hasComplexConsonant := r.complexConsonantCount > 0;
    var hasComplexVowel := r.complexVowelCount > 0;
    w := WordProfile(word, r.length, r.count, hasComplexConsonant, hasComplexVowel);
  }

  /**
   * What a profile means: a flag is set exactly when the word's jamo contain a
   * compound of that kind; the count is at least the length, and at most five
   * jamo per character (an initial is never compound).
   */
  lemma ProfileMeaning(word: string)
    ensures Profile(word).hasComplexConsonant <==>
      exists k | 0 <= k < |Decomposed(word)| :: IsComplexConsonant(Decomposed(word)[k])
    ensures Profile(word).hasComplexVowel <==>
      exists k | 0 <= k < |Decomposed(word)| :: IsComplexVowel(Decomposed(word)[k])
    ensures Profile(word).length <= Profile(word).count <= 5 * Profile(word).length
  {
    CountsPositive(Decomposed(word));
    ExpandedLength(Decomposed(word));
    CountBound(word);
  }

  /** At most five jamo per character once compounds are expanded. */
  lemma {:induction false} CountBound(s: seq<char>)
    ensures |s| <= |Expanded(Decomposed(s))| <= 5 * |s|
  {
    if s != [] {
      var s', c := s[..|s| - 1], s[|s| - 1];
      assert s == s' + [c];
      DecomposedSnoc(s', c);
      ExpandedAppend(Decomposed(s'), SyllableUnits(c));
      assert |Expanded(Decomposed(s))| == |Expanded(Decomposed(s'))| + |Expanded(SyllableUnits(c))|;
      CountBound(s');
      SyllableCountBound(c);
    }
  }

  /** One character expands to between one and five jamo. */
  lemma SyllableCountBound(c: char)
    ensures 1 <= |Expanded(SyllableUnits(c))| <= 5
  {
    var u := SyllableUnits(c);
    ExpandedLength(u);
    if InBlock(c) {
      assert !IsCompound(u[0]) by { InitialsNotCompound(); }
      assert u == [u[0]] + u[1..];
      ExpandedAppend([u[0]], u[1..]);
      ExpandedLength(u[1..]);
      ExpandedLength([u[0]]);
    }
  }

  /** A word of syllables without compounds has two jamo per syllable plus one per final. */
  lemma ProfileOfSimpleSyllables(word: string)
    requires forall k | 0 <= k < |word| :: InBlock(word[k])
    requires forall k | 0 <= k < |Decomposed(word)| :: !IsCompound(Decomposed(word)[k])
    ensures 2 * Profile(word).length <= Profile(word).count <= 3 * Profile(word).length
    ensures !Profile(word).hasComplexConsonant && !Profile(word).hasComplexVowel
  {
    DecomposedLength(word);
    AtomicUnitsUnchanged(Decomposed(word));
  }

  /** The jamo of 참외: 참 is ㅊ ㅏ ㅁ (final 16) and 외 is ㅇ ㅚ (no final). */
  lemma ChamoeJamo()
    ensures Decomposed("참외") == ['ㅊ', 'ㅏ', 'ㅁ', 'ㅇ', 'ㅚ']
  {
    var w := "참외";
    assert w[..1] == "참" && w[..1][..0] == [];
    assert Split('참') == SyllableIndices(14, 0, 16);
    assert SyllableUnits('참') == ['ㅊ', 'ㅏ', 'ㅁ'];
    assert Split('외') == SyllableIndices(11, 11, 0);
    assert SyllableUnits('외') == ['ㅇ', 'ㅚ'];
    assert Decomposed("참") == ['ㅊ', 'ㅏ', 'ㅁ'];
  }

  /** The expansion of the jamo of 참외: ㅚ becomes ㅗ ㅣ and it is the only compound. */
  lemma ChamoeExpanded(units: seq<char>)
    requires units == ['ㅊ', 'ㅏ', 'ㅁ', 'ㅇ', 'ㅚ']
    ensures Expanded(units) == ['ㅊ', 'ㅏ', 'ㅁ', 'ㅇ', 'ㅗ', 'ㅣ']
    ensures ComplexConsonantCount(units) == 0 && ComplexVowelCount(units) == 1
  {
    var plain: seq<char> := ['ㅊ', 'ㅏ', 'ㅁ', 'ㅇ'];
    assert plain + ['ㅚ'] == units;
    ExpandedSnoc(plain, 'ㅚ');
    AtomicUnitsUnchanged(plain);
  }

  /** The profile of 참외: two characters, six jamo, a compound vowel and no compound final. */
  lemma ChamoeProfile()
    ensures Profile("참외") == WordProfile("참외", 2, 6, false, true)
  {
    ChamoeJamo();
    ChamoeExpanded(Decomposed("참외"));
  }

  /** A compound jamo typed on its own is outside the syllable block yet still expanded and counted. */
  lemma BareCompoundJamoIsCounted()
    ensures Decomposed("ㄳ") == ['ㄳ']
    ensures Profile("ㄳ") == WordProfile("ㄳ", 1, 2, true, false)
  {
    var c := 'ㄳ';
    assert Offset(c) < 0;
    assert SyllableUnits(c) == [c];
    assert "ㄳ"[..0] == [];
    assert Decomposed("ㄳ") == Decomposed([]) + SyllableUnits(c);
    assert Expansion(c) == ['ㄱ', 'ㅅ'];
    assert IsComplexConsonant(c) && !IsComplexVowel(c);
    assert [c][..0] == [];
    assert Expanded([c]) == Expanded([]) + Expansion(c);
  }
}
