/**
 * The answer-scoring engine: a total function from a question and the
 * user's answer to a verdict, a non-negative score (at most 1 when the
 * user's list has no repeats) and a feedback message, with one rule per
 * question type.
 */
module Scoring {
  import opened Wrappers
  import opened Types
  import Strings

  datatype ScoreResult = ScoreResult(isCorrect: bool, score: real, partialCredit: Option<real>, feedback: string)

  /** `Math.max(0, x)`. */
  function Max0(x: real): real {
    if x < 0.0 then 0.0 else x
  }

  function Max(x: nat, y: nat): nat {
    if x < y then y else x
  }

  /** `a === b` on answer values: strings and booleans by value, arrays by reference, so never. */
  predicate StrictEquals(a: Answer, b: Answer) {
    !a.List? && a == b
  }

  /**
   * The canonical answer has the shape the type's rule dereferences. On
   * other shapes the source's rule throws or yields NaN, so the rules
   * below are stated for these shapes only.
   */
  predicate AnswerFitsType(q: Question) {
    match q.qtype
    case McqMulti => q.answer.List? && AllStr(q.answer.items)
    case Order => q.answer.List? && AllStr(q.answer.items)
    case ShortAnswer => q.answer.Text? || (q.answer.List? && AllStr(q.answer.items))
    case FillBlank => q.answer.Text? || (q.answer.List? && AllStr(q.answer.items))
    case Match => q.answer.List? && |q.answer.items| > 0
    case _ => true
  }

  /** Dispatches on the question type to one of the seven rules. */
  function ScoreQuestion(q: Question, user: Option<Answer>): (r: ScoreResult)
    requires AnswerFitsType(q)
    ensures r.isCorrect ==> r.score == 1.0 && r.partialCredit.None?
    ensures 0.0 <= r.score
    ensures r.partialCredit.Some? ==> r.score == r.partialCredit.value
  {
    match q.qtype
    case McqSingle => ScoreMcqSingle(q.answer, user)
    case McqMulti => ScoreMcqMulti(q.answer.items, user)
    case ShortAnswer => ScoreShortAnswer(q.answer, user)
    case TrueFalse => ScoreTrueFalse(q.answer, user)
    case FillBlank => ScoreFillBlank(q.answer, user)
    case Match => ScoreMatch(q.answer.items, user)
    case Order => ScoreOrder(q.answer.items, user)
    case Unrecognized(_) => ScoreResult(false, 0.0, None, "Unknown question type")
  }

  // ---------------------------------------------------------------- mcq_single

  /** `userAnswer === correctAnswer`: correct exactly when the answer is the canonical string or boolean. */
  function ScoreMcqSingle(correct: Answer, user: Option<Answer>): (r: ScoreResult)
    ensures r.isCorrect <==> user == Some(correct) && !correct.List?
    ensures r.score == (if r.isCorrect then 1.0 else 0.0) && r.partialCredit.None?
  {
    var isCorrect := user.Some? && StrictEquals(correct, user.value);
    ScoreResult(isCorrect, if isCorrect then 1.0 else 0.0, None,
                if isCorrect then "Correct!" else "Not quite right. Try again!")
  }

  // ----------------------------------------------------------------- counting

  /** `xs.filter(x => s.has(x)).length`. */
  function CountIn<T(==)>(xs: seq<T>, s: set<T>): (n: nat)
    ensures n <= |xs|
  {
    if |xs| == 0 then 0 else (if xs[0] in s then 1 else 0) + CountIn(xs[1..], s)
  }

  /** `xs.filter(x => !s.has(x)).length`. */
  function CountNotIn<T(==)>(xs: seq<T>, s: set<T>): (n: nat)
    ensures n <= |xs|
  {
    if |xs| == 0 then 0 else (if xs[0] in s then 0 else 1) + CountNotIn(xs[1..], s)
  }

  /** Every entry is counted by exactly one of the two filters. */
  lemma {:induction false} CountSplit<T>(xs: seq<T>, s: set<T>)
    ensures CountIn(xs, s) + CountNotIn(xs, s) == |xs|
  {
    if |xs| > 0 {
      CountSplit(xs[1..], s);
    }
  }

  /** Nothing falls outside `s` exactly when every entry is in `s`. */
  lemma {:induction false} CountNotInZero<T>(xs: seq<T>, s: set<T>)
    ensures CountNotIn(xs, s) == 0 <==> forall i :: 0 <= i < |xs| ==> xs[i] in s
  {
    if |xs| > 0 {
      CountNotInZero(xs[1..], s);
      assert forall i :: 1 <= i < |xs| ==> xs[i] == xs[1..][i - 1];
    }
  }

  /** Without duplicates, the entries in `s` are as many as the distinct values shared with `s`. */
  lemma {:induction false} CountInNoDup<T>(xs: seq<T>, s: set<T>)
    requires NoDup(xs)
    ensures CountIn(xs, s) == |(set x | x in xs) * s|
  {
    if |xs| == 0 {
      assert (set x | x in xs) == {};
    } else {
      var rest := xs[1..];
      assert NoDup(rest) by {
        forall i, j | 0 <= i < j < |rest| ensures rest[i] != rest[j] {
          assert rest[i] == xs[i + 1] && rest[j] == xs[j + 1];
        }
      }
      CountInNoDup(rest, s);
      assert xs[0] !in rest by {
        forall k | 0 <= k < |rest| ensures rest[k] != xs[0] {
          assert rest[k] == xs[k + 1];
        }
      }
      SharedCons(xs[0], rest, s);
      assert xs == [xs[0]] + rest;
    }
  }

  /** Putting a new value in front adds one shared value exactly when it is in `s`. */
  lemma SharedCons<T>(x: T, rest: seq<T>, s: set<T>)
    requires x !in rest
    ensures |(set y | y in [x] + rest) * s| == (if x in s then 1 else 0) + |(set y | y in rest) * s|
  {
    var head := {x} * s;
    var tail := (set y | y in rest) * s;
    assert (set y | y in [x] + rest) == {x} + (set y | y in rest);
    assert (set y | y in [x] + rest) * s == head + tail;
    assert head !! tail;
    if x in s {
      assert head == {x};
    } else {
      assert head == {};
    }
  }

  /** Without duplicates, no more entries are in `s` than `s` has elements. */
  lemma CountInAtMostCard<T>(xs: seq<T>, s: set<T>)
    requires NoDup(xs)
    ensures CountIn(xs, s) <= |s|
  {
    CountInNoDup(xs, s);
    SubsetCard((set x | x in xs) * s, s);
  }

  // ------------------------------------------------------------------ mcq_multi

  /**
   * Counts the user's entries inside and outside the canonical list; a
   * match pair in the user's list is never equal to a canonical string.
   */
  function ScoreMcqMulti(correct: seq<Elem>, user: Option<Answer>): (r: ScoreResult)
    requires AllStr(correct)
    ensures r.isCorrect ==> r.score == 1.0 && r.partialCredit.None?
    ensures 0.0 <= r.score
    ensures r.partialCredit.Some? ==> r.score == r.partialCredit.value
  {
    if user.None? || !user.value.List? then
      ScoreResult(false, 0.0, None, "Please select at least one answer.")
    else
      var items := user.value.items;
      var correctSet := set c | c in correct;
      var correctSelections := CountIn(items, correctSet);
      var incorrectSelections := CountNotIn(items, correctSet);
      var isCorrect := correctSelections == |correct| && incorrectSelections == 0;
      // With an empty canonical list the ratio is -Infinity or NaN in the source
      // and only reaches the result when the answer is wrong, where max(0, -Infinity) is 0.
      var partialCredit :=
        if |correct| == 0 then 0.0
        else Max0((correctSelections - incorrectSelections) as real / |correct| as real);
      ScoreResult(
        isCorrect,
        if isCorrect then 1.0 else partialCredit,
        if isCorrect then None else Some(partialCredit),
        if isCorrect then "Perfect! You got all the right answers!"
        else if partialCredit > 0.0 then
          "Good try! You got " + Strings.NatToString(correctSelections) + " out of "
          + Strings.NatToString(|correct|) + " correct."
        else "Not quite right. Try again!")
  }

  // ------------------------------------------------- short_answer, fill_blank

  /** `s.toLowerCase().trim()`. */
  function Normalize(s: string): (r: string)
    ensures |r| <= |s|
    ensures forall i :: 0 <= i < |r| ==> !('A' <= r[i] <= 'Z')
    ensures r == [] || (!Strings.IsSpace(r[0]) && !Strings.IsSpace(r[|r| - 1]))
  {
    TrimKeepsNoUpper(Strings.ToLower(s));
    Strings.Trim(Strings.ToLower(s))
  }

  /** Trimming a text without upper-case ASCII letters leaves none. */
  lemma TrimKeepsNoUpper(t: string)
    requires forall i :: 0 <= i < |t| ==> !('A' <= t[i] <= 'Z')
    ensures forall i :: 0 <= i < |Strings.Trim(t)| ==> !('A' <= Strings.Trim(t)[i] <= 'Z')
  {
    var r := Strings.Trim(t);
    var start := |t| - |Strings.TrimStart(t)|;
    forall i | 0 <= i < |r| ensures !('A' <= r[i] <= 'Z') {
      assert r[i] == t[start + i];
    }
  }

  /** The accepted answers: one string, or every string of a list. */
  function Accepted(correct: Answer): (r: seq<string>)
    requires correct.Text? || (correct.List? && AllStr(correct.items))
    ensures correct.Text? ==> r == [correct.s]
    ensures correct.List? ==> |r| == |correct.items|
    ensures correct.List? ==> forall i :: 0 <= i < |r| ==> correct.items[i] == Str(r[i])
  {
    if correct.Text? then [correct.s]
    else seq(|correct.items|, i requires 0 <= i < |correct.items| => correct.items[i].s)
  }

  function NormalizeAll(xs: seq<string>): (r: seq<string>)
    ensures |r| == |xs| && forall i :: 0 <= i < |xs| ==> r[i] == Normalize(xs[i])
  {
    seq(|xs|, i requires 0 <= i < |xs| => Normalize(xs[i]))
  }

  /**
   * `scoreShortAnswer`: a missing, empty or non-string answer is refused;
   * otherwise correct exactly when its normal form is that of an accepted answer.
   */
  function ScoreShortAnswer(correct: Answer, user: Option<Answer>): (r: ScoreResult)
    requires correct.Text? || (correct.List? && AllStr(correct.items))
    ensures user.None? || !user.value.Text? || user.value.s == "" ==>
              r == ScoreResult(false, 0.0, None, "Please provide an answer.")
    ensures r.isCorrect <==>
              (user.Some? && user.value.Text? && user.value.s != "" &&
               exists i :: 0 <= i < |Accepted(correct)| && Normalize(Accepted(correct)[i]) == Normalize(user.value.s))
    ensures r.score == (if r.isCorrect then 1.0 else 0.0) && r.partialCredit.None?
  {
    if user.None? || !user.value.Text? || user.value.s == "" then
      ScoreResult(false, 0.0, None, "Please provide an answer.")
    else
      var isCorrect := Normalize(user.value.s) in NormalizeAll(Accepted(correct));
      ScoreResult(isCorrect, if isCorrect then 1.0 else 0.0, None,
                  if isCorrect then "Excellent!"
                  else "Not quite right. Check your spelling and try again!")
  }

  /** `scoreFillBlank`: the short-answer rule. */
  function ScoreFillBlank(correct: Answer, user: Option<Answer>): (r: ScoreResult)
    requires correct.Text? || (correct.List? && AllStr(correct.items))
    ensures r.isCorrect <==>
              (user.Some? && user.value.Text? && user.value.s != "" &&
               exists i :: 0 <= i < |Accepted(correct)| && Normalize(Accepted(correct)[i]) == Normalize(user.value.s))
    ensures r.score == (if r.isCorrect then 1.0 else 0.0) && r.partialCredit.None?
  {
    ScoreShortAnswer(correct, user)
  }

  // ----------------------------------------------------------------- true_false

  /** `scoreTrueFalse`: a missing answer is refused; otherwise `===` with the canonical value. */
  function ScoreTrueFalse(correct: Answer, user: Option<Answer>): (r: ScoreResult)
    ensures user.None? ==> r == ScoreResult(false, 0.0, None, "Please select True or False.")
    ensures r.isCorrect <==> user == Some(correct) && !correct.List?
    ensures r.score == (if r.isCorrect then 1.0 else 0.0) && r.partialCredit.None?
  {
    if user.None? then
      ScoreResult(false, 0.0, None, "Please select True or False.")
    else
      var isCorrect := StrictEquals(correct, user.value);
      ScoreResult(isCorrect, if isCorrect then 1.0 else 0.0, None,
                  if isCorrect then "Correct!" else "Not quite right. Try again!")
  }

  // ---------------------------------------------------------------------- match

  /** The template string `${pair.leftId}-${pair.rightId}`; a string has neither property. */
  function PairKey(e: Elem): (k: string)
    ensures e.Str? ==> k == "undefined-undefined"
    ensures e.Pair? ==> |k| == |e.leftId| + 1 + |e.rightId| && k[..|e.leftId|] == e.leftId &&
                        k[|e.leftId|] == '-' && k[|e.leftId| + 1..] == e.rightId
  {
    match e
    case Pair(l, r) => l + "-" + r
    case Str(_) => "undefined-undefined"
  }

  function Keys(items: seq<Elem>): (r: seq<string>)
    ensures |r| == |items| && forall i :: 0 <= i < |items| ==> r[i] == PairKey(items[i])
  {
    seq(|items|, i requires 0 <= i < |items| => PairKey(items[i]))
  }

  function ScoreMatch(correct: seq<Elem>, user: Option<Answer>): (r: ScoreResult)
    requires |correct| > 0
    ensures r.isCorrect ==> r.score == 1.0 && r.partialCredit.None?
    ensures 0.0 <= r.score
    ensures r.partialCredit.Some? ==> r.score == r.partialCredit.value
  {
    if user.None? || !user.value.List? then
      ScoreResult(false, 0.0, None, "Please match all items.")
    else
      var items := user.value.items;
      var correctPairs := set k | k in Keys(correct);
      var correctMatches := CountIn(Keys(items), correctPairs);
      var isCorrect := correctMatches == |correct| && |items| == |correct|;
      var partialCredit := correctMatches as real / |correct| as real;
      RatioBounds(correctMatches, |correct|);
      ScoreResult(
        isCorrect,
        if isCorrect then 1.0 else partialCredit,
        if isCorrect then None else Some(partialCredit),
        if isCorrect then "Perfect matching!"
        else if partialCredit > 0.0 then
          "Good try! You got " + Strings.NatToString(correctMatches) + " out of "
          + Strings.NatToString(|correct|) + " matches correct."
        else "Try again! Look carefully at each item.")
  }

  // ---------------------------------------------------------------------- order

  function ScoreOrder(correct: seq<Elem>, user: Option<Answer>): (r: ScoreResult)
    ensures r.isCorrect ==> r.score == 1.0 && r.partialCredit.None?
    ensures 0.0 <= r.score
    ensures r.partialCredit.Some? ==> r.score == r.partialCredit.value
  {
    if user.None? || !user.value.List? then
      ScoreResult(false, 0.0, None, "Please arrange all items in order.")
    else if |user.value.items| != |correct| then
      ScoreResult(false, 0.0, None, "Please include all items in your answer.")
    else if forall i :: 0 <= i < |correct| ==> user.value.items[i] == correct[i] then
      ScoreResult(true, 1.0, None, "Perfect order!")
    else
      var partialCredit := Lcs(correct, user.value.items) as real / |correct| as real;
      RatioBounds(Lcs(correct, user.value.items), |correct|);
      ScoreResult(false, partialCredit, Some(partialCredit),
                  if partialCredit > 0.5 then "Close! You got some of the order right."
                  else "Not quite right. Think about the correct sequence.")
  }

  // ------------------------------------------------- longest common subsequence

  /** The dynamic-programming recurrence of the source, on the prefixes ending at the last elements. */
  function Lcs<T(==)>(a: seq<T>, b: seq<T>): (r: nat)
    ensures r <= |a| && r <= |b|
    decreases |a| + |b|
  {
    if |a| == 0 || |b| == 0 then 0
    else if a[|a| - 1] == b[|b| - 1] then Lcs(a[..|a| - 1], b[..|b| - 1]) + 1
    else Max(Lcs(a[..|a| - 1], b), Lcs(a, b[..|b| - 1]))
  }

  /**
   * `c` is a subsequence of `a`: the last element of `a` either supplies
   * the last element of `c` or is skipped.
   */
  ghost predicate IsSubseq<T>(c: seq<T>, a: seq<T>)
    decreases |a|
  {
    |c| == 0 ||
    (|a| > 0 &&
     ((c[|c| - 1] == a[|a| - 1] && IsSubseq(c[..|c| - 1], a[..|a| - 1])) ||
      IsSubseq(c, a[..|a| - 1])))
  }

  lemma SubseqOfLonger<T>(c: seq<T>, a: seq<T>)
    requires |a| > 0 && IsSubseq(c, a[..|a| - 1])
    ensures IsSubseq(c, a)
  {
  }

  lemma {:induction false} SubseqDropLast<T>(c: seq<T>, a: seq<T>)
    requires |c| > 0 && IsSubseq(c, a)
    ensures IsSubseq(c[..|c| - 1], a)
    decreases |a|
  {
    var a' := a[..|a| - 1];
    if c[|c| - 1] == a[|a| - 1] && IsSubseq(c[..|c| - 1], a') {
      SubseqOfLonger(c[..|c| - 1], a);
    } else {
      SubseqDropLast(c, a');
      SubseqOfLonger(c[..|c| - 1], a);
    }
  }

  /** Every common subsequence is at most as long as the recurrence says. */
  lemma {:induction false} LcsUpperBound<T>(c: seq<T>, a: seq<T>, b: seq<T>)
    requires IsSubseq(c, a) && IsSubseq(c, b)
    ensures |c| <= Lcs(a, b)
    decreases |a| + |b|
  {
    if |c| > 0 {
      var a', b', c' := a[..|a| - 1], b[..|b| - 1], c[..|c| - 1];
      if a[|a| - 1] == b[|b| - 1] {
        // Both prefixes still hold everything of c but its last element.
        if !(c[|c| - 1] == a[|a| - 1] && IsSubseq(c', a')) {
          SubseqDropLast(c, a');
        }
        if !(c[|c| - 1] == b[|b| - 1] && IsSubseq(c', b')) {
          SubseqDropLast(c, b');
        }
        LcsUpperBound(c', a', b');
      } else if c[|c| - 1] != a[|a| - 1] {
        LcsUpperBound(c, a', b);
      } else {
        LcsUpperBound(c, a, b');
      }
    }
  }

  /** A common subsequence of the length the recurrence gives, built along it. */
  function LcsWitness<T(==)>(a: seq<T>, b: seq<T>): seq<T>
    decreases |a| + |b|
  {
    if |a| == 0 || |b| == 0 then []
    else if a[|a| - 1] == b[|b| - 1] then LcsWitness(a[..|a| - 1], b[..|b| - 1]) + [a[|a| - 1]]
    else if Lcs(a[..|a| - 1], b) >= Lcs(a, b[..|b| - 1]) then LcsWitness(a[..|a| - 1], b)
    else LcsWitness(a, b[..|b| - 1])
  }

  lemma {:induction false} LcsWitnessIsCommon<T>(a: seq<T>, b: seq<T>)
    ensures IsSubseq(LcsWitness(a, b), a) && IsSubseq(LcsWitness(a, b), b)
    ensures |LcsWitness(a, b)| == Lcs(a, b)
    decreases |a| + |b|
  {
    if |a| > 0 && |b| > 0 {
      var a', b' := a[..|a| - 1], b[..|b| - 1];
      if a[|a| - 1] == b[|b| - 1] {
        LcsWitnessIsCommon(a', b');
        var w := LcsWitness(a', b');
        assert (w + [a[|a| - 1]])[..|w|] == w;
      } else if Lcs(a', b) >= Lcs(a, b') {
        LcsWitnessIsCommon(a', b);
        if |LcsWitness(a', b)| > 0 {
          SubseqOfLonger(LcsWitness(a', b), a);
        }
      } else {
        LcsWitnessIsCommon(a, b');
        if |LcsWitness(a, b')| > 0 {
          SubseqOfLonger(LcsWitness(a, b'), b);
        }
      }
    }
  }

  /** The recurrence computes the length of a longest common subsequence. */
  lemma LcsIsLongest<T>(a: seq<T>, b: seq<T>)
    ensures exists c :: IsSubseq(c, a) && IsSubseq(c, b) && |c| == Lcs(a, b)
    ensures forall c :: IsSubseq(c, a) && IsSubseq(c, b) ==> |c| <= Lcs(a, b)
  {
    LcsWitnessIsCommon(a, b);
    forall c | IsSubseq(c, a) && IsSubseq(c, b) ensures |c| <= Lcs(a, b) {
      LcsUpperBound(c, a, b);
    }
  }

  lemma LcsSymmetric<T>(a: seq<T>, b: seq<T>)
    ensures Lcs(a, b) == Lcs(b, a)
  {
    LcsWitnessIsCommon(a, b);
    LcsUpperBound(LcsWitness(a, b), b, a);
    LcsWitnessIsCommon(b, a);
    LcsUpperBound(LcsWitness(b, a), a, b);
  }

  lemma {:induction false} SubseqSelf<T>(a: seq<T>)
    ensures IsSubseq(a, a)
    decreases |a|
  {
    if |a| > 0 {
      SubseqSelf(a[..|a| - 1]);
    }
  }

  /** An element put in front of a subsequence may be put in front of the whole too. */
  lemma {:induction false} SubseqConsBoth<T>(x: T, c: seq<T>, a: seq<T>)
    requires IsSubseq(c, a)
    ensures IsSubseq([x] + c, [x] + a)
    decreases |a|
  {
    if |c| == 0 {
      assert [x] + c == [x];
      SingletonSubseq(x, a);
    } else {
      assert ([x] + c)[..|c|] == [x] + c[..|c| - 1];
      assert ([x] + a)[..|a|] == [x] + a[..|a| - 1];
      if c[|c| - 1] == a[|a| - 1] && IsSubseq(c[..|c| - 1], a[..|a| - 1]) {
        SubseqConsBoth(x, c[..|c| - 1], a[..|a| - 1]);
      } else {
        SubseqConsBoth(x, c, a[..|a| - 1]);
      }
    }
  }

  /** A one-element list is a subsequence of any list starting with that element. */
  lemma {:induction false} SingletonSubseq<T>(x: T, a: seq<T>)
    ensures IsSubseq([x], [x] + a)
    decreases |a|
  {
    if |a| > 0 {
      assert ([x] + a)[..|a|] == [x] + a[..|a| - 1];
      SingletonSubseq(x, a[..|a| - 1]);
    } else {
      assert [x] + a == [x];
      assert [x][..0] == [];
    }
  }

  /** A subsequence stays one when an element is put in front of the whole. */
  lemma {:induction false} SubseqConsRight<T>(x: T, c: seq<T>, a: seq<T>)
    requires IsSubseq(c, a)
    ensures IsSubseq(c, [x] + a)
    decreases |a|
  {
    if |c| > 0 {
      assert ([x] + a)[..|a|] == [x] + a[..|a| - 1];
      if c[|c| - 1] == a[|a| - 1] && IsSubseq(c[..|c| - 1], a[..|a| - 1]) {
        SubseqConsRight(x, c[..|c| - 1], a[..|a| - 1]);
      } else {
        SubseqConsRight(x, c, a[..|a| - 1]);
      }
    }
  }

  lemma LcsSelf<T>(a: seq<T>)
    ensures Lcs(a, a) == |a|
  {
    SubseqSelf(a);
    LcsUpperBound(a, a, a);
  }

  /** One step of the recurrence, stated on prefixes as the table indexes them. */
  lemma LcsPrefixStep<T>(a: seq<T>, b: seq<T>, i: nat, j: nat)
    requires 1 <= i <= |a| && 1 <= j <= |b|
    ensures Lcs(a[..i], b[..j]) ==
      if a[i - 1] == b[j - 1] then Lcs(a[..i - 1], b[..j - 1]) + 1
      else Max(Lcs(a[..i - 1], b[..j]), Lcs(a[..i], b[..j - 1]))
  {
    assert a[..i][..i - 1] == a[..i - 1];
    assert b[..j][..j - 1] == b[..j - 1];
  }

  /** The source's table-filling algorithm, proved to compute the recurrence. */
  method LongestCommonSubsequence<T(==)>(arr1: seq<T>, arr2: seq<T>) returns (r: nat)
    ensures r == Lcs(arr1, arr2)
  {
    var m, n := |arr1|, |arr2|;
    var dp := new nat[m + 1, n + 1]((i, j) => 0);
    for i := 1 to m + 1
      invariant forall x, y :: 0 <= x < i && 0 <= y <= n ==> dp[x, y] == Lcs(arr1[..x], arr2[..y])
      invariant forall x :: i <= x <= m ==> dp[x, 0] == 0
    {
      for j := 1 to n + 1
        invariant forall x, y :: 0 <= x < i && 0 <= y <= n ==> dp[x, y] == Lcs(arr1[..x], arr2[..y])
        invariant forall y :: 0 <= y < j ==> dp[i, y] == Lcs(arr1[..i], arr2[..y])
        invariant forall x :: i < x <= m ==> dp[x, 0] == 0
      {
        LcsPrefixStep(arr1, arr2, i, j);
        var cell: nat;
        if arr1[i - 1] == arr2[j - 1] {
          cell := dp[i - 1, j - 1] + 1;
        } else {
          cell := Max(dp[i - 1, j], dp[i, j - 1]);
        }
        assert cell == Lcs(arr1[..i], arr2[..j]);
        dp[i, j] := cell;
      }
    }
    assert arr1[..m] == arr1 && arr2[..n] == arr2;
    r := dp[m, n];
  }

  // --------------------------------------------------- properties of the rules

  lemma RatioBounds(x: int, n: int)
    requires 0 < n
    ensures x <= n ==> x as real / n as real <= 1.0
    ensures 0 <= x ==> 0.0 <= x as real / n as real
    ensures 0 < x ==> 0.0 < x as real / n as real
    ensures x < n ==> x as real / n as real < 1.0
    ensures x == n ==> x as real / n as real == 1.0
  {
    var r := x as real / n as real;
    assert r * n as real == x as real;
  }

  /** A question that only the type and the canonical answer distinguish, for worked examples. */
  function Probe(qtype: QuestionType, answer: Answer): Question {
    Question("q", Math, "", "", "", None, qtype, None, answer, None, None, None, None, None)
  }

  lemma UnknownTypeFallback(q: Question, u: Option<Answer>)
    requires q.qtype.Unrecognized?
    ensures ScoreQuestion(q, u) == ScoreResult(false, 0.0, None, "Unknown question type")
  {
  }

  /** Single choice: correct exactly when the answer is the canonical string (or boolean) itself. */
  lemma McqSingleRule(correct: Answer, u: Option<Answer>)
    ensures ScoreMcqSingle(correct, u).isCorrect <==> u == Some(correct) && !correct.List?
    ensures ScoreMcqSingle(correct, u).score == if ScoreMcqSingle(correct, u).isCorrect then 1.0 else 0.0
  {
  }

  lemma McqMultiNoList(correct: seq<Elem>, u: Option<Answer>)
    requires AllStr(correct)
    requires u.None? || !u.value.List?
    ensures ScoreMcqMulti(correct, u) == ScoreResult(false, 0.0, None, "Please select at least one answer.")
  {
  }

  /**
   * Multiple choice, without duplicates on either side: correct exactly
   * when the selected values are the canonical values.
   */
  lemma McqMultiExact(correct: seq<Elem>, items: seq<Elem>)
    requires AllStr(correct)
    requires NoDup(items) && NoDup(correct)
    ensures ScoreMcqMulti(correct, Some(List(items))).isCorrect <==>
            (set x | x in items) == (set c | c in correct)
  {
    var cs := set c | c in correct;
    var us := set x | x in items;
    CountSplit(items, cs);
    CountNotInZero(items, cs);
    CountInNoDup(items, cs);
    NoDupCard(correct);
    NoDupCard(items);
    if ScoreMcqMulti(correct, Some(List(items))).isCorrect {
      assert us <= cs;
      assert us * cs == us;
      SubsetSameCard(us, cs);
    }
    if us == cs {
      assert us * cs == cs;
      assert forall i :: 0 <= i < |items| ==> items[i] in cs;
    }
  }

  /** Multiple choice: the canonical values in any order are correct. */
  lemma McqMultiAnyOrder(correct: seq<Elem>, items: seq<Elem>)
    requires AllStr(correct)
    requires multiset(items) == multiset(correct)
    ensures ScoreMcqMulti(correct, Some(List(items))).isCorrect
    ensures ScoreMcqMulti(correct, Some(List(items))).score == 1.0
  {
    var cs := set c | c in correct;
    assert |items| == |multiset(items)| == |correct|;
    assert forall i :: 0 <= i < |items| ==> items[i] in cs by {
      forall i | 0 <= i < |items| ensures items[i] in cs {
        assert items[i] in multiset(correct);
      }
    }
    CountSplit(items, cs);
    CountNotInZero(items, cs);
  }

  /**
   * Multiple choice, no duplicate selections: a wrong answer scores
   * max(0, (selections inside - selections outside) / |canonical|), and
   * every score lies in [0, 1].
   */
  lemma McqMultiPartial(correct: seq<Elem>, items: seq<Elem>)
    requires AllStr(correct)
    requires NoDup(items)
    ensures var r := ScoreMcqMulti(correct, Some(List(items)));
      var cs := set c | c in correct;
      0.0 <= r.score <= 1.0 &&
      (!r.isCorrect && |correct| > 0 ==>
        r.partialCredit == Some(r.score) &&
        r.score == Max0((CountIn(items, cs) - CountNotIn(items, cs)) as real / |correct| as real))
  {
    var cs := set c | c in correct;
    CountInAtMostCard(items, cs);
    CardAtMostLength(correct);
    if |correct| > 0 {
      RatioBounds(CountIn(items, cs) - CountNotIn(items, cs), |correct|);
    }
  }

  /** Multiple choice: a proper, non-empty subset of the canonical values earns partial credit strictly between 0 and 1. */
  lemma McqMultiProperSubset(correct: seq<Elem>, items: seq<Elem>)
    requires AllStr(correct)
    requires NoDup(items) && NoDup(correct)
    requires |items| > 0 && (set x | x in items) < (set c | c in correct)
    ensures !ScoreMcqMulti(correct, Some(List(items))).isCorrect
    ensures 0.0 < ScoreMcqMulti(correct, Some(List(items))).score < 1.0
  {
    var cs := set c | c in correct;
    var us := set x | x in items;
    McqMultiExact(correct, items);
    assert forall i :: 0 <= i < |items| ==> items[i] in cs by {
      forall i | 0 <= i < |items| ensures items[i] in cs {
        assert items[i] in us;
      }
    }
    CountSplit(items, cs);
    CountNotInZero(items, cs);
    NoDupCard(items);
    NoDupCard(correct);
    SubsetCard(us, cs);
    if |us| == |cs| {
      SubsetSameCard(us, cs);
    }
    RatioBounds(|items|, |correct|);
  }

  /**
   * Multiple choice counts list entries, not distinct values: a repeated
   * selection can stand in for a missing one, or push the score above 1.
   */
  lemma McqMultiDuplicatesQuirk()
    ensures ScoreMcqMulti([Str("a"), Str("b")], Some(List([Str("a"), Str("a")]))).isCorrect
    ensures ScoreMcqMulti([Str("a"), Str("b")], Some(List([Str("a"), Str("a"), Str("a")]))).score == 1.5
  {
    var cs := set c | c in [Str("a"), Str("b")];
    assert Str("a") in cs;
    assert CountIn([Str("a"), Str("a")], cs) == 2;
    assert CountNotIn([Str("a"), Str("a")], cs) == 0;
    assert CountIn([Str("a"), Str("a"), Str("a")], cs) == 3;
    assert CountNotIn([Str("a"), Str("a"), Str("a")], cs) == 0;
  }

  lemma ShortAnswerNoText(correct: Answer, u: Option<Answer>)
    requires correct.Text? || (correct.List? && AllStr(correct.items))
    requires u.None? || !u.value.Text? || u.value.s == ""
    ensures ScoreShortAnswer(correct, u) == ScoreResult(false, 0.0, None, "Please provide an answer.")
  {
  }

  /**
   * Short answer: a non-empty answer is correct exactly when its lowercased,
   * trimmed form equals that of some accepted answer.
   */
  lemma ShortAnswerRule(correct: Answer, s: string)
    requires correct.Text? || (correct.List? && AllStr(correct.items))
    requires s != ""
    ensures ScoreShortAnswer(correct, Some(Text(s))).isCorrect <==>
            exists i :: 0 <= i < |Accepted(correct)| && Normalize(Accepted(correct)[i]) == Normalize(s)
    ensures ScoreShortAnswer(correct, Some(Text(s))).score ==
            if ScoreShortAnswer(correct, Some(Text(s))).isCorrect then 1.0 else 0.0
  {
    var acc := Accepted(correct);
    var norm := NormalizeAll(acc);
    if Normalize(s) in norm {
      var k :| 0 <= k < |norm| && norm[k] == Normalize(s);
      assert Normalize(acc[k]) == Normalize(s);
    }
    if exists i :: 0 <= i < |acc| && Normalize(acc[i]) == Normalize(s) {
      var k :| 0 <= k < |acc| && Normalize(acc[k]) == Normalize(s);
      assert norm[k] == Normalize(s);
    }
  }

  lemma ToLowerIdempotent(s: string)
    ensures Strings.ToLower(Strings.ToLower(s)) == Strings.ToLower(s)
  {
  }

  lemma ToLowerOfSpaces(s: string)
    requires forall i :: 0 <= i < |s| ==> Strings.IsSpace(s[i])
    ensures Strings.ToLower(s) == s
  {
    forall i | 0 <= i < |s| ensures Strings.LowerChar(s[i]) == s[i] {
      assert Strings.IsSpace(s[i]);
    }
  }

  /** Short answer: letter case and surrounding white space do not change the verdict. */
  lemma ShortAnswerIgnoresCaseAndSpace(correct: Answer, s: string, pre: string, post: string)
    requires correct.Text? || (correct.List? && AllStr(correct.items))
    requires s != ""
    requires forall i :: 0 <= i < |pre| ==> Strings.IsSpace(pre[i])
    requires forall i :: 0 <= i < |post| ==> Strings.IsSpace(post[i])
    ensures ScoreShortAnswer(correct, Some(Text(pre + Strings.ToLower(s) + post))) ==
            ScoreShortAnswer(correct, Some(Text(s)))
  {
    var low := Strings.ToLower(s);
    Strings.ToLowerAppend(pre + low, post);
    Strings.ToLowerAppend(pre, low);
    ToLowerOfSpaces(pre);
    ToLowerOfSpaces(post);
    ToLowerIdempotent(s);
    Strings.TrimPadded(pre, low, post);
    assert Normalize(pre + low + post) == Normalize(s);
  }

  /** Fill-in-the-blank is scored by the short-answer rule, unchanged. */
  lemma FillBlankSameAsShortAnswer(q: Question, u: Option<Answer>)
    requires q.qtype == FillBlank && AnswerFitsType(q)
    ensures ScoreQuestion(q, u) == ScoreQuestion(q.(qtype := ShortAnswer), u)
  {
  }

  /** True/false: a missing answer asks for a choice; otherwise correct exactly when it is the canonical boolean. */
  lemma TrueFalseRule(correct: bool, u: Option<Answer>)
    ensures u.None? ==> ScoreTrueFalse(Flag(correct), u) == ScoreResult(false, 0.0, None, "Please select True or False.")
    ensures u.Some? ==> (ScoreTrueFalse(Flag(correct), u).isCorrect <==> u.value == Flag(correct))
    ensures ScoreTrueFalse(Flag(correct), u).score == if ScoreTrueFalse(Flag(correct), u).isCorrect then 1.0 else 0.0
  {
  }

  lemma MatchNoList(correct: seq<Elem>, u: Option<Answer>)
    requires |correct| > 0
    requires u.None? || !u.value.List?
    ensures ScoreMatch(correct, u) == ScoreResult(false, 0.0, None, "Please match all items.")
  {
  }

  /** Match, without repeated keys on either side: correct exactly when the user's key set is the canonical key set. */
  lemma MatchExact(correct: seq<Elem>, items: seq<Elem>)
    requires |correct| > 0
    requires NoDup(Keys(items)) && NoDup(Keys(correct))
    ensures ScoreMatch(correct, Some(List(items))).isCorrect <==>
            (set k | k in Keys(items)) == (set k | k in Keys(correct))
  {
    var uk, ck := Keys(items), Keys(correct);
    var us, cs := set k | k in uk, set k | k in ck;
    CountInNoDup(uk, cs);
    NoDupCard(uk);
    NoDupCard(ck);
    if ScoreMatch(correct, Some(List(items))).isCorrect {
      assert us * cs <= cs;
      SubsetSameCard(us * cs, cs);
      assert cs <= us;
      SubsetSameCard(cs, us);
    }
    if us == cs {
      assert us * cs == cs;
    }
  }

  /** Match: the canonical pairs in any order are correct. */
  lemma MatchAnyOrder(correct: seq<Elem>, items: seq<Elem>)
    requires |correct| > 0
    requires multiset(items) == multiset(correct)
    ensures ScoreMatch(correct, Some(List(items))).isCorrect
  {
    var ks := set k | k in Keys(correct);
    assert |items| == |multiset(items)| == |correct|;
    assert forall i :: 0 <= i < |items| ==> Keys(items)[i] in ks by {
      forall i | 0 <= i < |items| ensures Keys(items)[i] in ks {
        assert items[i] in multiset(correct);
        var j :| 0 <= j < |correct| && correct[j] == items[i];
        assert Keys(correct)[j] == Keys(items)[i];
      }
    }
    CountSplit(Keys(items), ks);
    CountNotInZero(Keys(items), ks);
  }

  /** Match, no repeated user keys: the score lies in [0, 1]. */
  lemma MatchScoreBounds(correct: seq<Elem>, items: seq<Elem>)
    requires |correct| > 0
    requires NoDup(Keys(items))
    ensures 0.0 <= ScoreMatch(correct, Some(List(items))).score <= 1.0
  {
    var ks := set k | k in Keys(correct);
    CountInAtMostCard(Keys(items), ks);
    CardAtMostLength(Keys(correct));
    RatioBounds(CountIn(Keys(items), ks), |correct|);
  }

  /** Match compares `left-right` strings, so ids containing `-` can stand for a different pair. */
  lemma MatchKeyCollision()
    ensures Pair("a", "b-c") != Pair("a-b", "c")
    ensures ScoreMatch([Pair("a-b", "c")], Some(List([Pair("a", "b-c")]))).isCorrect
  {
    assert PairKey(Pair("a", "b-c")) == "a-b-c";
    assert PairKey(Pair("a-b", "c")) == "a-b-c";
    assert Keys([Pair("a", "b-c")]) == ["a-b-c"];
    assert Keys([Pair("a-b", "c")]) == ["a-b-c"];
    assert CountIn(["a-b-c"], {"a-b-c"}) == 1;
  }

  /** The match rule in terms of the number of user pairs whose key is a canonical key. */
  lemma MatchCountRule(correct: seq<Elem>, items: seq<Elem>)
    requires |correct| > 0
    ensures var n := CountIn(Keys(items), set k | k in Keys(correct));
      var r := ScoreMatch(correct, Some(List(items)));
      (r.isCorrect <==> n == |correct| && |items| == |correct|) &&
      (!r.isCorrect ==> r.score == n as real / |correct| as real)
  {
  }

  /** One of two canonical pairs earns half the credit. */
  lemma MatchHalfExample()
    ensures !ScoreMatch([Pair("l1", "r1"), Pair("l2", "r2")], Some(List([Pair("l1", "r1")]))).isCorrect
    ensures ScoreMatch([Pair("l1", "r1"), Pair("l2", "r2")], Some(List([Pair("l1", "r1")]))).score == 0.5
  {
    var correct := [Pair("l1", "r1"), Pair("l2", "r2")];
    var items := [Pair("l1", "r1")];
    assert PairKey(Pair("l1", "r1")) == "l1-r1";
    assert PairKey(Pair("l2", "r2")) == "l2-r2";
    var ck := Keys(correct);
    assert ck == ["l1-r1", "l2-r2"];
    assert Keys(items) == ["l1-r1"];
    assert CountIn(["l1-r1"], set k | k in ck) == 1;
    MatchCountRule(correct, items);
  }

  lemma SeqsDiffer<T>(a: seq<T>, b: seq<T>)
    requires |a| == |b| && a != b
    ensures !(forall i :: 0 <= i < |a| ==> a[i] == b[i])
  {
  }

  /**
   * Order: a non-list is refused, a list of the wrong length scores 0, the
   * canonical order scores 1, and any other arrangement scores LCS over the
   * canonical length, with the "Close!" message exactly when that exceeds one half.
   */
  lemma OrderRule(correct: seq<Elem>, u: Option<Answer>)
    ensures u.None? || !u.value.List? ==>
      ScoreOrder(correct, u) == ScoreResult(false, 0.0, None, "Please arrange all items in order.")
    ensures u.Some? && u.value.List? && |u.value.items| != |correct| ==>
      ScoreOrder(correct, u) == ScoreResult(false, 0.0, None, "Please include all items in your answer.")
    ensures u == Some(List(correct)) ==>
      ScoreOrder(correct, u).isCorrect && ScoreOrder(correct, u).score == 1.0
    ensures u.Some? && u.value.List? && |u.value.items| == |correct| && u.value.items != correct ==>
      var r := ScoreOrder(correct, u);
      !r.isCorrect &&
      r.score == Lcs(correct, u.value.items) as real / |correct| as real &&
      (r.feedback == "Close! You got some of the order right." <==> r.score > 0.5)
  {
    if u.Some? && u.value.List? && |u.value.items| == |correct| && u.value.items != correct {
      SeqsDiffer(u.value.items, correct);
    }
  }

  /** Order, list of the right length: the score is always LCS / |canonical|, the canonical order included. */
  lemma OrderScoreIsLcsRatio(correct: seq<Elem>, items: seq<Elem>)
    requires |items| == |correct| > 0
    ensures ScoreOrder(correct, Some(List(items))).score == Lcs(correct, items) as real / |correct| as real
  {
    var n := |correct|;
    var l := Lcs(correct, items);
    if forall i :: 0 <= i < n ==> items[i] == correct[i] {
      assert items == correct;
      LcsSelf(correct);
      assert l == n;
      RatioBounds(n, n);
    } else {
      assert ScoreOrder(correct, Some(List(items))).score == l as real / n as real;
    }
  }

  /** Swapping the first two of three items keeps a common subsequence of two: 2/3. */
  lemma OrderSwapExample()
    ensures ScoreOrder([Str("a"), Str("b"), Str("c")], Some(List([Str("b"), Str("a"), Str("c")]))).score == 2.0 / 3.0
  {
    var a, b := [Str("a"), Str("b"), Str("c")], [Str("b"), Str("a"), Str("c")];
    assert a[..2] == [Str("a"), Str("b")] && b[..2] == [Str("b"), Str("a")];
    assert a[..2][..1] == [Str("a")] && b[..2][..1] == [Str("b")];
    assert Lcs([Str("a")], [Str("b")]) == 0;
    assert Lcs([Str("a")], [Str("b"), Str("a")]) == 1 by {
      assert [Str("b"), Str("a")][..1] == [Str("b")];
      assert [Str("a")][..0] == [];
    }
    assert Lcs([Str("a"), Str("b")], [Str("b")]) == 1 by {
      assert [Str("a"), Str("b")][..1] == [Str("a")];
      assert [Str("b")][..0] == [];
    }
    assert Lcs(a[..2], b[..2]) == 1;
    assert Lcs(a, b) == 2;
    SeqsDiffer(b, a);
  }
}
