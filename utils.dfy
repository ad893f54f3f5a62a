/**
 * The helpers of src/lib/utils.ts: the Fisher-Yates shuffle, accuracy as a
 * rounded percentage, the star rating, the `m:ss` time format and the
 * colour lookups. `Math.random` becomes a sequence of picks supplied by the
 * caller, one index in [0, i] for every step i of the shuffle.
 */
module Utils {
  import Strings
  import opened Wrappers

  /** The random choices of a shuffle of `n` elements: step i may swap with any index in [0, i]. */
  predicate ValidPicks(picks: seq<nat>, n: nat) {
    |picks| >= n && forall i :: 0 <= i < n ==> picks[i] <= i
  }

  /**
   * Copies the input into a fresh array and, for i from the last index down
   * to 1, swaps position i with position picks[i]. The result is a
   * permutation of the input; the input is a value and cannot change.
   */
  method ShuffleArray<T>(a: seq<T>, picks: seq<nat>) returns (r: seq<T>)
    requires ValidPicks(picks, |a|)
    ensures |r| == |a|
    ensures multiset(r) == multiset(a)
  {
    if |a| == 0 {
      return [];
    }
    var shuffled := new T[|a|](k requires 0 <= k < |a| => a[k]);
    assert shuffled[..] == a;
    var i := |a| - 1;
    while i > 0
      invariant 0 <= i < |a|
      invariant multiset(shuffled[..]) == multiset(a)
      decreases i
    {
      var j := picks[i];
      ghost var before := shuffled[..];
      shuffled[i], shuffled[j] := shuffled[j], shuffled[i];
      assert shuffled[..] == before[i := before[j]][j := before[i]];
      i := i - 1;
    }
    r := shuffled[..];
  }

  /**
   * `Math.round(correct / total * 100)`, 0 when total is 0. `Math.round`
   * rounds halves upwards, so the result is the integer r with
   * r - 1/2 <= 100 * correct / total < r + 1/2.
   */
  function CalculateAccuracy(correct: nat, total: nat): (r: nat)
    ensures total == 0 ==> r == 0
    ensures total > 0 ==> 2 * r * total <= 200 * correct + total < 2 * (r + 1) * total
    ensures correct <= total ==> r <= 100
  {
    if total == 0 then 0
    else
      var r := (200 * correct + total) / (2 * total);
      assert correct <= total ==> 200 * correct + total < 2 * 101 * total;
      r
  }

  /** All correct is 100%; none correct is 0%. */
  lemma AccuracyExtremes(total: nat)
    requires total > 0
    ensures CalculateAccuracy(total, total) == 100
    ensures CalculateAccuracy(0, total) == 0
  {
    var all := CalculateAccuracy(total, total);
    CancelFactor(2 * all, 201, total);
    CancelFactorStrict(201, 2 * (all + 1), total);
    var none := CalculateAccuracy(0, total);
    CancelFactor(2 * none, 1, total);
  }

  lemma CancelFactor(x: int, y: int, t: int)
    requires t > 0 && x * t <= y * t
    ensures x <= y
  {
  }

  lemma CancelFactorStrict(x: int, y: int, t: int)
    requires t > 0 && x * t < y * t
    ensures x < y
  {
  }

  /** More correct answers out of the same total never lower the accuracy. */
  lemma AccuracyMonotone(c1: nat, c2: nat, total: nat)
    requires c1 <= c2
    ensures CalculateAccuracy(c1, total) <= CalculateAccuracy(c2, total)
  {
    if total > 0 {
      var r1, r2 := CalculateAccuracy(c1, total), CalculateAccuracy(c2, total);
      assert 200 * c1 + total <= 200 * c2 + total;
      CancelFactorStrict(2 * r1, 2 * (r2 + 1), total);
    }
  }

  /** Stars for an accuracy percentage: 3 from 90, 2 from 70, 1 from 50, else 0. */
  function GetScoreStars(accuracy: int): (stars: nat)
    ensures stars <= 3
    ensures stars == 3 <==> accuracy >= 90
    ensures stars >= 2 <==> accuracy >= 70
    ensures stars >= 1 <==> accuracy >= 50
  {
    if accuracy >= 90 then 3
    else if accuracy >= 70 then 2
    else if accuracy >= 50 then 1
    else 0
  }

  /** A higher accuracy never earns fewer stars. */
  lemma StarsMonotone(a1: int, a2: int)
    requires a1 <= a2
    ensures GetScoreStars(a1) <= GetScoreStars(a2)
  {
  }

  /** `secs.toString().padStart(2, '0')` for a seconds value below 60. */
  function PadTwo(n: nat): (s: string)
    requires n < 60
    ensures |s| == 2 && Strings.AllDigits(s)
    ensures Strings.DigitsValue(s) == n
  {
    var s := [Strings.DigitChar(n / 10), Strings.DigitChar(n % 10)];
    assert s[..1] == [Strings.DigitChar(n / 10)];
    assert s[..1][..0] == [];
    assert Strings.DigitsValue(s[..1]) == n / 10;
    assert Strings.DigitsValue(s) == (n / 10) * 10 + n % 10;
    s
  }

  /** `m:ss`, with m = seconds div 60 unpadded and ss = seconds mod 60 padded to two digits. */
  function FormatTime(seconds: nat): (t: string)
    ensures |t| >= 4 && t[|t| - 3] == ':'
    ensures Strings.AllDigits(t[..|t| - 3]) && Strings.AllDigits(t[|t| - 2..])
  {
    Strings.NatToString(seconds / 60) + ":" + PadTwo(seconds % 60)
  }

  /** Reading the two fields of a formatted time back gives the seconds it came from. */
  lemma FormatTimeParsesBack(seconds: nat)
    ensures var t := FormatTime(seconds);
      var mins := Strings.DigitsValue(t[..|t| - 3]);
      var secs := Strings.DigitsValue(t[|t| - 2..]);
      secs < 60 && mins * 60 + secs == seconds
  {
    var m := Strings.NatToString(seconds / 60);
    var t := FormatTime(seconds);
    assert t[..|t| - 3] == m;
    assert t[|t| - 2..] == PadTwo(seconds % 60);
    Strings.NatToStringRoundTrip(seconds / 60);
  }

  lemma FormatTimeExamples()
    ensures FormatTime(65) == "1:05"
    ensures FormatTime(600) == "10:00"
  {
    assert Strings.NatToString(1) == "1";
    assert Strings.NatToString(10) == "10" by {
      assert Strings.NatToString(1) == "1";
    }
  }

  /** The Tailwind background class for a subject name. */
  function GetSubjectColor(subject: string): (c: string)
    ensures c == "bg-gray-500" <==> subject !in {"math", "english", "science"}
    ensures subject == "math" ==> c == "bg-blue-500"
    ensures subject == "english" ==> c == "bg-green-500"
    ensures subject == "science" ==> c == "bg-purple-500"
  {
    if subject == "math" then "bg-blue-500"
    else if subject == "english" then "bg-green-500"
    else if subject == "science" then "bg-purple-500"
    else "bg-gray-500"
  }

  /** The Tailwind classes for an optional difficulty name; a missing one gets the default. */
  function GetDifficultyColor(difficulty: Option<string>): (c: string)
    ensures c == "bg-gray-100 text-gray-800" <==>
            difficulty.None? || difficulty.value !in {"easy", "medium", "hard"}
    ensures difficulty == Some("easy") ==> c == "bg-green-100 text-green-800"
    ensures difficulty == Some("medium") ==> c == "bg-yellow-100 text-yellow-800"
    ensures difficulty == Some("hard") ==> c == "bg-red-100 text-red-800"
  {
    if difficulty == Some("easy") then "bg-green-100 text-green-800"
    else if difficulty == Some("medium") then "bg-yellow-100 text-yellow-800"
    else if difficulty == Some("hard") then "bg-red-100 text-red-800"
    else "bg-gray-100 text-gray-800"
  }
}
