/**
 * The quiz service's statistics: a user's solved quizzes are folded into one
 * entry per tier holding how many were solved, their total number of
 * attempts, and how many were solved in each number of attempts.
 */
module QuizStats {
  import opened Difficulty

  /** A solved quiz as the repository returns it: its tier and its number of attempts. */
  datatype SolvedQuiz = SolvedQuiz(difficulty: QuizDifficulty, attempts: int)

  datatype QuizRawStats = QuizRawStats(totalSolved: nat, totalAttempts: int, attemptCounts: map<int, nat>)

  type Stats = map<QuizDifficulty, QuizRawStats>

  /** Counting one more quiz: its tier's entry is created if absent, then incremented. */
  function Count(stats: Stats, q: SolvedQuiz): Stats
  {
    var entry := if q.difficulty in stats then stats[q.difficulty] else QuizRawStats(0, 0, map[]);
    var n := if q.attempts in entry.attemptCounts then entry.attemptCounts[q.attempts] else 0;
    stats[q.difficulty := QuizRawStats(
      entry.totalSolved + 1,
      entry.totalAttempts + q.attempts,
      entry.attemptCounts[q.attempts := n + 1])]
  }

  /** The statistics of a list of quizzes, counted in list order. */
  function StatsOf(quizzes: seq<SolvedQuiz>): Stats
  {
    if quizzes == [] then map[] else Count(StatsOf(quizzes[..|quizzes| - 1]), quizzes[|quizzes| - 1])
  }

  /** Folds the solved quizzes into per-tier statistics. */
  method GetQuizStats(solvedQuizzes: seq<SolvedQuiz>) returns (result: Stats)
    ensures result == StatsOf(solvedQuizzes)
  {
    result := map[];
    for i := 0 to |solvedQuizzes|
      invariant result == StatsOf(solvedQuizzes[..i])
    {
      var difficulty, attempts := solvedQuizzes[i].difficulty, solvedQuizzes[i].attempts;
      assert solvedQuizzes[..i + 1][..i] == solvedQuizzes[..i];
      ghost var before := result;
      if difficulty !in result {
        result := result[difficulty := QuizRawStats(0, 0, map[])];
      }
      var entry := result[difficulty];
      entry := entry.(totalSolved := entry.totalSolved + 1, totalAttempts := entry.totalAttempts + attempts);
      if attempts !in entry.attemptCounts {
        entry := entry.(attemptCounts := entry.attemptCounts[attempts := 0]);
      }
      entry := entry.(attemptCounts := entry.attemptCounts[attempts := entry.attemptCounts[attempts] + 1]);
      ghost var counts := if difficulty in before then before[difficulty].attemptCounts else map[];
      assert entry.attemptCounts == counts[attempts := (if attempts in counts then counts[attempts] else 0) + 1];
      result := result[difficulty := entry];
      assert result == Count(before, solvedQuizzes[i]);
    }
    assert solvedQuizzes[..|solvedQuizzes|] == solvedQuizzes;
  }

  /** Positions of the quizzes of tier `d`. */
  ghost function OfTier(quizzes: seq<SolvedQuiz>, d: QuizDifficulty): set<nat>
  {
    set i: nat | i < |quizzes| && quizzes[i].difficulty == d
  }

  /** Positions of the quizzes of tier `d` solved in `a` attempts. */
  ghost function OfTierAndAttempts(quizzes: seq<SolvedQuiz>, d: QuizDifficulty, a: int): set<nat>
  {
    set i: nat | i < |quizzes| && quizzes[i] == SolvedQuiz(d, a)
  }

  /** Total attempts of the quizzes of tier `d`, summed from the front of the list. */
  function AttemptsOfTier(quizzes: seq<SolvedQuiz>, d: QuizDifficulty): int
  {
    if quizzes == [] then 0
    else (if quizzes[0].difficulty == d then quizzes[0].attempts else 0) + AttemptsOfTier(quizzes[1..], d)
  }

  lemma {:induction false} AttemptsOfTierAppend(quizzes: seq<SolvedQuiz>, q: SolvedQuiz, d: QuizDifficulty)
    ensures AttemptsOfTier(quizzes + [q], d) == AttemptsOfTier(quizzes, d) + (if q.difficulty == d then q.attempts else 0)
  {
    if quizzes == [] {
      assert ([q])[1..] == [];
    } else {
      assert (quizzes + [q])[1..] == quizzes[1..] + [q];
      AttemptsOfTierAppend(quizzes[1..], q, d);
    }
  }

  /** A tier has an entry exactly when some quiz has that tier. */
  lemma {:induction false} TierPresence(quizzes: seq<SolvedQuiz>, d: QuizDifficulty)
    ensures d in StatsOf(quizzes) <==> exists i | 0 <= i < |quizzes| :: quizzes[i].difficulty == d
  {
    if quizzes != [] {
      var n := |quizzes| - 1;
      var init := quizzes[..n];
      TierPresence(init, d);
      assert forall i | 0 <= i < n :: quizzes[i] == init[i];
    }
  }

  /** A tier's entry counts the quizzes of that tier. */
  lemma {:induction false} TierCount(quizzes: seq<SolvedQuiz>, d: QuizDifficulty)
    requires d in StatsOf(quizzes)
    ensures StatsOf(quizzes)[d].totalSolved == |OfTier(quizzes, d)|
  {
    var n := |quizzes| - 1;
    var init, q := quizzes[..n], quizzes[n];
    OfTierLast(quizzes, d);
    if d in StatsOf(init) {
      TierCount(init, d);
    } else {
      TierPresence(init, d);
      AbsentTier(init, d);
    }
  }

  /** The positions of a tier grow by the last position exactly when the last quiz has the tier. */
  lemma OfTierLast(quizzes: seq<SolvedQuiz>, d: QuizDifficulty)
    requires quizzes != []
    ensures |OfTier(quizzes, d)| ==
      |OfTier(quizzes[..|quizzes| - 1], d)| + (if quizzes[|quizzes| - 1].difficulty == d then 1 else 0)
  {
    var n := |quizzes| - 1;
    var init := quizzes[..n];
    var before, after := OfTier(init, d), OfTier(quizzes, d);
    var added: set<nat> := if quizzes[n].difficulty == d then {n} else {};
    forall i: nat ensures i in after <==> i in before + added {
      if i < n {
        assert quizzes[i] == init[i];
      }
    }
    assert after == before + added;
    assert n !in before;
  }

  /** A tier's entry sums the attempts of the quizzes of that tier. */
  lemma {:induction false} TierAttempts(quizzes: seq<SolvedQuiz>, d: QuizDifficulty)
    requires d in StatsOf(quizzes)
    ensures StatsOf(quizzes)[d].totalAttempts == AttemptsOfTier(quizzes, d)
  {
    var n := |quizzes| - 1;
    var init, q := quizzes[..n], quizzes[n];
    assert quizzes == init + [q];
    AttemptsOfTierAppend(init, q, d);
    if d in StatsOf(init) {
      TierAttempts(init, d);
    } else {
      TierPresence(init, d);
      AbsentTier(init, d);
    }
  }

  /** A tier no quiz has: no positions and no attempts. */
  lemma {:induction false} AbsentTier(quizzes: seq<SolvedQuiz>, d: QuizDifficulty)
    requires forall i | 0 <= i < |quizzes| :: quizzes[i].difficulty != d
    ensures OfTier(quizzes, d) == {}
    ensures forall a :: OfTierAndAttempts(quizzes, d, a) == {}
    ensures AttemptsOfTier(quizzes, d) == 0
  {
    if quizzes != [] {
      assert forall i | 0 <= i < |quizzes[1..]| :: quizzes[1..][i] == quizzes[i + 1];
      AbsentTier(quizzes[1..], d);
    }
  }

  /** A tier's attempt histogram counts, for each number of attempts, the quizzes of that tier solved in it. */
  lemma {:induction false} TierHistogram(quizzes: seq<SolvedQuiz>, d: QuizDifficulty, a: int)
    requires d in StatsOf(quizzes)
    ensures a in StatsOf(quizzes)[d].attemptCounts <==> exists i | 0 <= i < |quizzes| :: quizzes[i] == SolvedQuiz(d, a)
    ensures a in StatsOf(quizzes)[d].attemptCounts ==>
      StatsOf(quizzes)[d].attemptCounts[a] == |OfTierAndAttempts(quizzes, d, a)|
  {
    var n := |quizzes| - 1;
    var init, q := quizzes[..n], quizzes[n];
    assert quizzes == init + [q];
    OfTierAndAttemptsLast(quizzes, d, a);
    assert forall i | 0 <= i < n :: quizzes[i] == init[i];
    if d in StatsOf(init) {
      TierHistogram(init, d, a);
      if a !in StatsOf(init)[d].attemptCounts {
        assert OfTierAndAttempts(init, d, a) == {};
      }
    } else {
      assert q.difficulty == d;
      TierPresence(init, d);
      AbsentTier(init, d);
    }
  }

  /** The positions of a list with one more quiz: the old positions, plus the new one if it matches. */
  lemma OfTierAndAttemptsLast(quizzes: seq<SolvedQuiz>, d: QuizDifficulty, a: int)
    requires quizzes != []
    ensures var n := |quizzes| - 1;
      && OfTierAndAttempts(quizzes, d, a)
         == OfTierAndAttempts(quizzes[..n], d, a) + (if quizzes[n] == SolvedQuiz(d, a) then {n} else {})
      && n !in OfTierAndAttempts(quizzes[..n], d, a)
  {
  }

  /** A map with an entry has a key. */
  lemma HasKey(m: map<int, nat>)
    requires m != map[]
    ensures exists k :: k in m
  {
    if forall k :: k !in m {
      assert false;
    }
  }

  /** The sum of the values of a map. */
  ghost function SumValues(m: map<int, nat>): nat
    decreases |m|
  {
    if m == map[] then 0
    else
      HasKey(m);
      var k :| k in m;
      m[k] + SumValues(m - {k})
  }

  /** The sum can be taken apart at any key. */
  lemma {:induction false} SumValuesRemove(m: map<int, nat>, k: int)
    requires k in m
    ensures SumValues(m) == m[k] + SumValues(m - {k})
    decreases |m|
  {
    var j :| j in m && SumValues(m) == m[j] + SumValues(m - {j});
    if j != k {
      assert (m - {j})[k] == m[k] && (m - {k})[j] == m[j];
      SumValuesRemove(m - {j}, k);
      SumValuesRemove(m - {k}, j);
      assert m - {j} - {k} == m - {k} - {j};
    }
  }

  /** Counting one more occurrence of `a` adds one to the sum. */
  lemma SumValuesIncrement(m: map<int, nat>, a: int)
    ensures SumValues(m[a := (if a in m then m[a] else 0) + 1]) == SumValues(m) + 1
  {
    var m' := m[a := (if a in m then m[a] else 0) + 1];
    SumValuesRemove(m', a);
    assert m' - {a} == m - {a};
    if a in m {
      SumValuesRemove(m, a);
    } else {
      assert m - {a} == m;
    }
  }

  /** The histogram of every tier adds up to the number of quizzes of that tier. */
  lemma {:induction false} HistogramSumsToTotal(quizzes: seq<SolvedQuiz>, d: QuizDifficulty)
    requires d in StatsOf(quizzes)
    ensures SumValues(StatsOf(quizzes)[d].attemptCounts) == StatsOf(quizzes)[d].totalSolved
  {
    var n := |quizzes| - 1;
    var init, q := quizzes[..n], quizzes[n];
    if d in StatsOf(init) {
      HistogramSumsToTotal(init, d);
    }
    if q.difficulty == d {
      var counts := if d in StatsOf(init) then StatsOf(init)[d].attemptCounts else map[];
      SumValuesIncrement(counts, q.attempts);
    }
  }
}
