/**
 * The syllable arithmetic of the Unicode Standard, section 3.12 (Conjoining
 * Jamo Behavior): a precomposed Hangul syllable U+AC00..U+D7A3 is
 * 0xAC00 + 588 * initial + 28 * medial + final, with 19 initials, 21 medials
 * and 28 finals (final 0 = none). Jamo are written as compatibility jamo
 * (U+3131..U+3163), the form the word service emits and compares against.
 */
module Hangul {

  /** The 19 initial consonants, in Unicode order. */
  const INITIALS: seq<char> :=
    ['ㄱ', 'ㄲ', 'ㄴ', 'ㄷ', 'ㄸ', 'ㄹ', 'ㅁ', 'ㅂ', 'ㅃ', 'ㅅ',
     'ㅆ', 'ㅇ', 'ㅈ', 'ㅉ', 'ㅊ', 'ㅋ', 'ㅌ', 'ㅍ', 'ㅎ']

  /** The 21 medial vowels, in Unicode order. */
  const MEDIALS: seq<char> :=
    ['ㅏ', 'ㅐ', 'ㅑ', 'ㅒ', 'ㅓ', 'ㅔ', 'ㅕ', 'ㅖ', 'ㅗ', 'ㅘ',
     'ㅙ', 'ㅚ', 'ㅛ', 'ㅜ', 'ㅝ', 'ㅞ', 'ㅟ', 'ㅠ', 'ㅡ', 'ㅢ', 'ㅣ']

  /** The 28 finals as strings, in Unicode order; index 0 is the empty string ("no final"). */
  const FINALS: seq<string> :=
    ["", "ㄱ", "ㄲ", "ㄳ", "ㄴ", "ㄵ", "ㄶ", "ㄷ", "ㄹ", "ㄺ",
     "ㄻ", "ㄼ", "ㄽ", "ㄾ", "ㄿ", "ㅀ", "ㅁ", "ㅂ", "ㅄ", "ㅅ",
     "ㅆ", "ㅇ", "ㅈ", "ㅊ", "ㅋ", "ㅌ", "ㅍ", "ㅎ"]

  const SYLLABLE_BASE := 0xAC00
  /** Largest offset from SYLLABLE_BASE inside the syllable block (U+D7A3). */
  const LAST_OFFSET := 11171
  /** Syllables per initial: 21 medials times 28 finals. */
  const PER_INITIAL := 588
  /** Syllables per medial: one per final. */
  const PER_MEDIAL := 28

  /** Sizes of the three tables; final 0 is the empty string, every other final one jamo. */
  lemma TablesShape()
    ensures |INITIALS| == 19 && |MEDIALS| == 21 && |FINALS| == 28
    ensures FINALS[0] == "" && forall i | 1 <= i < 28 :: |FINALS[i]| == 1
    ensures 19 * 21 * 28 == LAST_OFFSET + 1
  {
  }

  /** No table lists an entry twice. */
  lemma TablesDistinct()
    ensures forall i, j | 0 <= i < j < |INITIALS| :: INITIALS[i] != INITIALS[j]
    ensures forall i, j | 0 <= i < j < |MEDIALS| :: MEDIALS[i] != MEDIALS[j]
    ensures forall i, j | 0 <= i < j < |FINALS| :: FINALS[i] != FINALS[j]
  {
    InitialsDistinct();
    MedialsDistinct();
    FinalsDistinct();
  }

  lemma InitialsDistinct()
    ensures forall i, j | 0 <= i < j < |INITIALS| :: INITIALS[i] != INITIALS[j]
  {
  }

  lemma MedialsDistinct()
    ensures forall i, j | 0 <= i < j < |MEDIALS| :: MEDIALS[i] != MEDIALS[j]
  {
  }

  lemma FinalsDistinct()
    ensures forall i, j | 0 <= i < j < |FINALS| :: FINALS[i] != FINALS[j]
  {
  }

  /** Distance of a code point from the start of the syllable block (may be negative). */
  function Offset(c: char): int
  {
    c as int - SYLLABLE_BASE
  }

  /** The range test of the decomposer: offset neither below 0 nor above 11171. */
  predicate InBlock(c: char)
  {
    0 <= Offset(c) <= LAST_OFFSET
  }

  /** Table positions of the three jamo of one syllable. */
  datatype SyllableIndices = SyllableIndices(initial: nat, medial: nat, final: nat)
  {
    predicate Valid()
    {
      initial < 19 && medial < 21 && final < 28
    }
  }

  /** Splits an in-block syllable into its table positions (floor division and remainder). */
  function Split(c: char): (t: SyllableIndices)
    requires InBlock(c)
    ensures t.Valid()
    ensures PER_INITIAL * t.initial + PER_MEDIAL * t.medial + t.final == Offset(c)
  {
    var code := Offset(c);
    SyllableIndices(code / PER_INITIAL, (code % PER_INITIAL) / PER_MEDIAL, code % PER_MEDIAL)
  }

  /** The syllable whose table positions are `t`. */
  function Compose(t: SyllableIndices): (c: char)
    requires t.Valid()
    ensures InBlock(c)
    ensures Offset(c) == PER_INITIAL * t.initial + PER_MEDIAL * t.medial + t.final
  {
    (SYLLABLE_BASE + PER_INITIAL * t.initial + PER_MEDIAL * t.medial + t.final) as char
  }

  /** Every one of the 19 x 21 x 28 triples is recovered from the syllable built from it. */
  lemma SplitCompose(t: SyllableIndices)
    requires t.Valid()
    ensures Split(Compose(t)) == t
  {
    var code := Offset(Compose(t));
    var rest := PER_MEDIAL * t.medial + t.final;
    assert 0 <= rest < PER_INITIAL;
    assert code / PER_INITIAL == t.initial && code % PER_INITIAL == rest;
    assert rest / PER_MEDIAL == t.medial && rest % PER_MEDIAL == t.final;
  }

  /** Every in-block syllable is rebuilt from its own triple. */
  lemma ComposeSplit(c: char)
    requires InBlock(c)
    ensures Compose(Split(c)) == c
  {
  }

  /** First position of `x` in `s`. */
  function IndexOf<T(==)>(s: seq<T>, x: T): (i: nat)
    requires x in s
    ensures i < |s| && s[i] == x && x !in s[..i]
  {
    if s[0] == x then 0
    else
      assert s == [s[0]] + s[1..];
      var j := IndexOf(s[1..], x);
      assert s[..j + 1] == [s[0]] + s[1..][..j];
      j + 1
  }

  /** In a sequence without repeats, the position of an element is its index. */
  lemma IndexOfDistinct<T>(s: seq<T>, i: nat)
    requires i < |s|
    requires forall a, b | 0 <= a < b < |s| :: s[a] != s[b]
    ensures IndexOf(s, s[i]) == i
  {
  }

  /**
   * The jamo the decomposer emits for one character: the character itself
   * when it lies outside the block; otherwise initial and medial, then the
   * final unless its table entry is the empty string.
   */
  function SyllableUnits(c: char): (r: seq<char>)
    ensures !InBlock(c) ==> r == [c]
    ensures InBlock(c) ==> |r| == (if Split(c).final == 0 then 2 else 3)
    ensures InBlock(c) ==> r[0] == INITIALS[Split(c).initial] && r[1] == MEDIALS[Split(c).medial]
    ensures InBlock(c) && |r| == 3 ==> [r[2]] == FINALS[Split(c).final]
  {
    if !InBlock(c) then [c]
    else
      JamoOf(Split(c))
  }

  /** The jamo a valid triple stands for: its initial, its medial and its final's string. */
  function JamoOf(t: SyllableIndices): (r: seq<char>)
    requires t.Valid()
    ensures |r| == (if t.final == 0 then 2 else 3)
    ensures r[0] == INITIALS[t.initial] && r[1] == MEDIALS[t.medial]
    ensures |r| == 3 ==> [r[2]] == FINALS[t.final]
  {
    TablesShape();
    [INITIALS[t.initial], MEDIALS[t.medial]] + FINALS[t.final]
  }

  /** A group of jamo that one syllable can emit: initial, medial and an optional final. */
  predicate IsSyllableGroup(r: seq<char>)
  {
    2 <= |r| <= 3 && r[0] in INITIALS && r[1] in MEDIALS && (|r| == 3 ==> [r[2]] in FINALS)
  }

  /**
   * Reassembles a group of jamo into the syllable they spell: the inverse of
   * the decomposer's table lookup, finding each jamo's position in its table.
   * It is a partner for the round-trip lemmas, not a model of the Hangul
   * library's own assemble function.
   */
  function Assemble(r: seq<char>): (c: char)
    requires IsSyllableGroup(r)
    ensures InBlock(c)
  {
    var f := if |r| == 3 then IndexOf(FINALS, [r[2]]) else 0;
    Compose(SyllableIndices(IndexOf(INITIALS, r[0]), IndexOf(MEDIALS, r[1]), f))
  }

  /** Decomposing a syllable and reassembling its jamo gives the syllable back. */
  lemma AssembleSyllableUnits(c: char)
    requires InBlock(c)
    ensures IsSyllableGroup(SyllableUnits(c))
    ensures Assemble(SyllableUnits(c)) == c
  {
    var t := Split(c);
    var r := SyllableUnits(c);
    TablesDistinct();
    IndexOfDistinct(INITIALS, t.initial);
    IndexOfDistinct(MEDIALS, t.medial);
    if t.final != 0 {
      IndexOfDistinct(FINALS, t.final);
    }
    ComposeSplit(c);
  }

  /** The table positions of a reassembled syllable point back at the jamo of the group. */
  lemma SplitAssemble(r: seq<char>)
    requires IsSyllableGroup(r)
    ensures INITIALS[Split(Assemble(r)).initial] == r[0]
    ensures MEDIALS[Split(Assemble(r)).medial] == r[1]
    ensures Split(Assemble(r)).final == 0 <==> |r| == 2
    ensures |r| == 3 ==> FINALS[Split(Assemble(r)).final] == [r[2]]
  {
    var f := if |r| == 3 then IndexOf(FINALS, [r[2]]) else 0;
    var t := SyllableIndices(IndexOf(INITIALS, r[0]), IndexOf(MEDIALS, r[1]), f);
    assert FINALS[0] == "";
    SplitCompose(t);
  }

  /** Reassembling a group of jamo and decomposing the syllable gives the group back. */
  lemma SyllableUnitsAssemble(r: seq<char>)
    requires IsSyllableGroup(r)
    ensures SyllableUnits(Assemble(r)) == r
  {
    SplitAssemble(r);
    UnitsFromIndices(Assemble(r), r);
  }

  /** A syllable's jamo are determined by what its table positions point at. */
  lemma UnitsFromIndices(c: char, r: seq<char>)
    requires InBlock(c) && 2 <= |r| <= 3
    requires INITIALS[Split(c).initial] == r[0] && MEDIALS[Split(c).medial] == r[1]
    requires Split(c).final == 0 <==> |r| == 2
    requires |r| == 3 ==> FINALS[Split(c).final] == [r[2]]
    ensures SyllableUnits(c) == r
  {
    var u := SyllableUnits(c);
    if |r| == 3 {
      assert u == [u[0], u[1], u[2]] && r == [r[0], r[1], r[2]];
    } else {
      assert u == [u[0], u[1]] && r == [r[0], r[1]];
    }
  }
}
