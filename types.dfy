/**
 * The data model of the quiz application: questions, sets, the uploaded
 * data file, and the progress records kept per child profile, with the
 * constraints the validation schemas put on them.
 */
module Types {
  import opened Wrappers

  datatype Subject = Math | English | Science

  /** The subject as it is spelled in the data files. */
  function SubjectName(s: Subject): string {
    match s
    case Math => "math"
    case English => "english"
    case Science => "science"
  }

  /**
   * The seven question kinds. `Unrecognized` stands for a type string
   * outside the enumeration, which the schema rejects but the scoring
   * engine still handles.
   */
  datatype QuestionType =
    | McqSingle | McqMulti | ShortAnswer | TrueFalse | FillBlank | Match | Order
    | Unrecognized(name: string)

  datatype Difficulty = Easy | Medium | Hard

  datatype RecommendedOrder = Fixed | Random

  datatype Theme = Light | Dark | HighContrast

  datatype Choice = Choice(id: string, text: string)

  datatype Media = Media(imageUrl: Option<string>, audioUrl: Option<string>)

  /** One element of a JSON array answer: a string, or a `{leftId, rightId}` match pair. */
  datatype Elem = Str(s: string) | Pair(leftId: string, rightId: string)

  /**
   * An answer value: a string, a boolean, or an array. JavaScript arrays are
   * untyped, so a string list and a pair list share one constructor.
   */
  datatype Answer = Text(s: string) | Flag(b: bool) | List(items: seq<Elem>)

  datatype Question = Question(
    id: string,
    subject: Subject,
    topic: string,
    skill: string,
    prompt: string,
    media: Option<Media>,
    qtype: QuestionType,
    choices: Option<seq<Choice>>,
    answer: Answer,
    explanation: Option<string>,
    hint: Option<string>,
    difficulty: Option<Difficulty>,
    tags: Option<seq<string>>,
    cambridgeRef: Option<string>)

  datatype QuestionSet = QuestionSet(
    id: string,
    title: string,
    subject: Subject,
    description: Option<string>,
    questionIds: seq<string>,
    recommendedOrder: Option<RecommendedOrder>,
    timeLimitSeconds: Option<real>)

  /** The complete data file: a question list and a set list, nothing else. */
  datatype AppData = AppData(questions: seq<Question>, sets: seq<QuestionSet>)

  /** Times are milliseconds since the epoch; `timeSpent` is in whole seconds. */
  datatype QuestionAttempt = QuestionAttempt(
    questionId: string,
    isCorrect: bool,
    userAnswer: Answer,
    timeSpent: int,
    hintsUsed: nat,
    timestamp: nat)

  datatype SetProgress = SetProgress(
    setId: string,
    attempts: seq<QuestionAttempt>,
    score: nat,
    totalQuestions: nat,
    completedAt: Option<nat>,
    timeSpent: int)

  datatype Preferences = Preferences(theme: Theme, dyslexiaFriendly: bool, audioEnabled: bool)

  datatype ChildProfile = ChildProfile(
    id: string,
    name: string,
    avatar: Option<string>,
    createdAt: nat,
    progress: seq<SetProgress>,
    preferences: Preferences)

  predicate AllStr(items: seq<Elem>) {
    forall i :: 0 <= i < |items| ==> items[i].Str?
  }

  predicate AllPair(items: seq<Elem>) {
    forall i :: 0 <= i < |items| ==> items[i].Pair?
  }

  /** The answer schema: a string, a string array, a boolean, or an array of match pairs. */
  predicate ValidAnswer(a: Answer) {
    a.List? ==> AllStr(a.items) || AllPair(a.items)
  }

  /**
   * The question schema. The subject, the difficulty and every field's
   * presence are already fixed by the datatype; the schema further admits
   * only the seven known types and a well-shaped answer, and does not tie
   * the answer's shape to the type. URL syntax of media links is not checked here.
   */
  predicate ValidQuestion(q: Question) {
    !q.qtype.Unrecognized? && ValidAnswer(q.answer)
  }

  /** The set schema: a time limit, when present, is strictly positive. */
  predicate ValidSet(s: QuestionSet) {
    s.timeLimitSeconds.Some? ==> s.timeLimitSeconds.value > 0.0
  }

  predicate ValidData(d: AppData) {
    (forall i :: 0 <= i < |d.questions| ==> ValidQuestion(d.questions[i])) &&
    (forall i :: 0 <= i < |d.sets| ==> ValidSet(d.sets[i]))
  }

  /** The ids of a list of questions, in order. */
  function QuestionIds(qs: seq<Question>): (ids: seq<string>)
    ensures |ids| == |qs|
    ensures forall i :: 0 <= i < |qs| ==> ids[i] == qs[i].id
  {
    seq(|qs|, i requires 0 <= i < |qs| => qs[i].id)
  }

  function SetIds(ss: seq<QuestionSet>): (ids: seq<string>)
    ensures |ids| == |ss|
    ensures forall i :: 0 <= i < |ss| ==> ids[i] == ss[i].id
  {
    seq(|ss|, i requires 0 <= i < |ss| => ss[i].id)
  }

  /** No value occurs twice. */
  predicate NoDup<T(==)>(xs: seq<T>) {
    forall i, j :: 0 <= i < j < |xs| ==> xs[i] != xs[j]
  }

  /** A duplicate-free list has as many distinct elements as entries. */
  lemma {:induction false} NoDupCard<T>(xs: seq<T>)
    requires NoDup(xs)
    ensures |set x | x in xs| == |xs|
  {
    if |xs| > 0 {
      var rest := xs[1..];
      NoDupCard(rest);
      assert (set x | x in xs) == (set x | x in rest) + {xs[0]};
      assert xs[0] !in rest by {
        forall k | 0 <= k < |rest| ensures rest[k] != xs[0] {
          assert rest[k] == xs[k + 1];
        }
      }
    } else {
      assert (set x | x in xs) == {};
    }
  }

  /** A list never has more distinct elements than entries. */
  lemma {:induction false} CardAtMostLength<T>(xs: seq<T>)
    ensures |set x | x in xs| <= |xs|
  {
    if |xs| > 0 {
      var rest := xs[1..];
      CardAtMostLength(rest);
      assert (set x | x in xs) == (set x | x in rest) + {xs[0]};
    } else {
      assert (set x | x in xs) == {};
    }
  }

  /** A subset is never larger than its superset. */
  lemma SubsetCard<T>(a: set<T>, b: set<T>)
    requires a <= b
    ensures |a| <= |b|
  {
    assert b == a + (b - a);
  }

  /** A subset as large as its superset is the superset. */
  lemma SubsetSameCard<T>(a: set<T>, b: set<T>)
    requires a <= b && |a| == |b|
    ensures a == b
  {
    assert b == a + (b - a);
    assert |b - a| == 0;
  }

  /** A schema-valid question may carry an answer of a shape its type does not use. */
  lemma SchemaDoesNotTieAnswerToType()
    ensures exists q: Question :: ValidQuestion(q) && q.qtype == TrueFalse && q.answer.Text?
  {
    var q := Question("q1", Math, "t", "s", "p", None, TrueFalse, None, Text("yes"),
                      None, None, None, None, None);
    assert ValidQuestion(q);
  }
}
