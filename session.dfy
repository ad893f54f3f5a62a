/**
 * The quiz session of src/components/play-client.tsx: the state one play of
 * a question set keeps, and the handlers that move it on. Time is a
 * millisecond count the caller supplies; the shuffle's random choices are
 * supplied the same way. Rendering and the toast messages are not modelled.
 */
module PlayClient {
  import opened Wrappers
  import opened Types
  import Scoring
  import Utils
  import Persistence

  /** `choices.find(c => c.id === id)`. */
  function FindChoice(choices: seq<Choice>, id: string): (r: Option<Choice>)
    ensures r.Some? ==> r.value in choices && r.value.id == id
    ensures r.None? <==> forall k :: 0 <= k < |choices| ==> choices[k].id != id
  {
    if |choices| == 0 then None
    else if choices[0].id == id then Some(choices[0])
    else FindChoice(choices[1..], id)
  }

  /**
   * The translation `handleAnswerChange` applies before storing: on a single
   * choice question a string equal to a choice id becomes that choice's
   * text; every other answer is kept as given.
   */
  function ProcessAnswer(q: Question, answer: Answer): (r: Answer)
    ensures r != answer ==> q.qtype == McqSingle && answer.Text? && q.choices.Some? && r.Text? &&
                            exists k :: 0 <= k < |q.choices.value| &&
                                        q.choices.value[k].id == answer.s && q.choices.value[k].text == r.s
  {
    if q.qtype == McqSingle && answer.Text? && q.choices.Some? then
      match FindChoice(q.choices.value, answer.s)
      case Some(c) => Text(c.text)
      case None => answer
    else answer
  }

  /** A choice id is translated to the text of the first choice carrying it. */
  lemma {:induction false} ProcessAnswerChoiceId(q: Question, k: nat)
    requires q.qtype == McqSingle && q.choices.Some? && k < |q.choices.value|
    requires forall m :: 0 <= m < k ==> q.choices.value[m].id != q.choices.value[k].id
    ensures ProcessAnswer(q, Text(q.choices.value[k].id)) == Text(q.choices.value[k].text)
  {
    FindChoiceFirst(q.choices.value, k);
  }

  lemma {:induction false} FindChoiceFirst(choices: seq<Choice>, k: nat)
    requires k < |choices|
    requires forall m :: 0 <= m < k ==> choices[m].id != choices[k].id
    ensures FindChoice(choices, choices[k].id) == Some(choices[k])
  {
    if k > 0 {
      FindChoiceFirst(choices[1..], k - 1);
    }
  }

  /** Booleans, arrays and strings other than single choice ids are stored untouched. */
  lemma ProcessAnswerKeepsOthers(q: Question, answer: Answer)
    requires q.qtype != McqSingle || !answer.Text? || q.choices.None?
    ensures ProcessAnswer(q, answer) == answer
  {
  }

  /**
   * JavaScript truthiness of a stored answer: a missing entry, the empty
   * string and `false` are falsy; any array, even an empty one, is truthy.
   */
  predicate Truthy(a: Option<Answer>) {
    match a
    case None => false
    case Some(Text(s)) => s != ""
    case Some(Flag(b)) => b
    case Some(List(_)) => true
  }

  /**
   * Because the guard tests truthiness, a true/false question answered
   * "False" can never be submitted.
   */
  lemma FalseAnswerIsRejected()
    ensures !Truthy(Some(Flag(false)))
    ensures !Truthy(Some(Text("")))
    ensures Truthy(Some(List([])))
    ensures Truthy(Some(Flag(true)))
  {
  }

  /** `Math.round(elapsed / 1000)`: round-half-up to whole seconds, for any sign of `elapsed`. */
  function RoundToSeconds(elapsed: int): (s: int)
    ensures 1000 * s - 500 <= elapsed < 1000 * s + 500
  {
    (elapsed + 500) / 1000
  }

  /** The ids of a question list, as a set. */
  function IdSet(questions: seq<Question>): set<string> {
    set x | x in QuestionIds(questions)
  }

  /**
   * The tally behind the completion summary: no more points than questions
   * whose feedback is showing, and feedback only ever shows for the
   * session's own questions.
   */
  lemma TallyBoundsAccuracy(score: nat, shown: set<string>, questions: seq<Question>)
    requires score <= |shown| && shown <= IdSet(questions) && |questions| > 0
    ensures score <= |questions|
    ensures Utils.CalculateAccuracy(score, |questions|) <= 100
  {
    Types.SubsetCard(shown, IdSet(questions));
    Types.CardAtMostLength(QuestionIds(questions));
  }

  /** The `QuizState` record and its handlers. */
  class QuizSession {
    const setId: string
    var questions: seq<Question>
    var currentIndex: nat
    var userAnswers: map<string, Answer>
    var attempts: map<string, QuestionAttempt>
    var showHint: map<string, bool>
    var showFeedback: map<string, bool>
    var feedback: map<string, string>
    var isCompleted: bool
    var score: nat
    var totalQuestions: nat
    var timeStarted: nat
    var questionStartTime: nat

    /**
     * The cursor is on a question, the question count is the list's length,
     * and every canonical answer has the shape its type's rule reads.
     */
    predicate Valid()
      reads this
    {
      0 <= currentIndex < |questions| && totalQuestions == |questions| &&
      forall i :: 0 <= i < |questions| ==> Scoring.AnswerFitsType(questions[i])
    }

    /** The score counts at most one point per question whose feedback is showing. */
    predicate ScoreTallied()
      reads this
    {
      score <= |showFeedback.Keys| && showFeedback.Keys <= IdSet(questions)
    }

    function CurrentQuestion(): (q: Question)
      reads this
      requires Valid()
      ensures q in questions && Scoring.AnswerFitsType(q)
    {
      questions[currentIndex]
    }

    /**
     * The initial state: the questions in the given order, or shuffled when
     * the set recommends a random order; cursor on the first question, every
     * map empty, nothing scored, both clocks at `now`.
     */
    constructor(questionSet: QuestionSet, initialQuestions: seq<Question>, picks: seq<nat>, now: nat)
      requires |initialQuestions| > 0
      requires forall i :: 0 <= i < |initialQuestions| ==> Scoring.AnswerFitsType(initialQuestions[i])
      requires Utils.ValidPicks(picks, |initialQuestions|)
      ensures Valid() && ScoreTallied()
      ensures setId == questionSet.id
      ensures questionSet.recommendedOrder != Some(Random) ==> questions == initialQuestions
      ensures multiset(questions) == multiset(initialQuestions)
      ensures currentIndex == 0 && !isCompleted && score == 0 && totalQuestions == |initialQuestions|
      ensures userAnswers == map[] && attempts == map[] && showHint == map[] && showFeedback == map[] && feedback == map[]
      ensures timeStarted == now && questionStartTime == now
    {
      var ordered := initialQuestions;
      if questionSet.recommendedOrder == Some(Random) {
        ordered := Utils.ShuffleArray(initialQuestions, picks);
        forall i | 0 <= i < |ordered| ensures Scoring.AnswerFitsType(ordered[i]) {
          assert ordered[i] in multiset(initialQuestions);
        }
      }
      setId := questionSet.id;
      questions := ordered;
      currentIndex := 0;
      userAnswers := map[];
      attempts := map[];
      showHint := map[];
      showFeedback := map[];
      feedback := map[];
      isCompleted := false;
      score := 0;
      totalQuestions := |ordered|;
      timeStarted := now;
      questionStartTime := now;
    }

    /** `handleAnswerChange`: stores the (translated) answer for the current question; nothing else changes. */
    method SetAnswer(answer: Answer)
      requires Valid()
      modifies this
      ensures userAnswers == old(userAnswers)[old(CurrentQuestion()).id := ProcessAnswer(old(CurrentQuestion()), answer)]
      ensures questions == old(questions) && currentIndex == old(currentIndex) && score == old(score)
      ensures attempts == old(attempts) && showHint == old(showHint) && showFeedback == old(showFeedback)
      ensures feedback == old(feedback) && isCompleted == old(isCompleted) && totalQuestions == old(totalQuestions)
      ensures timeStarted == old(timeStarted) && questionStartTime == old(questionStartTime)
      ensures Valid()
    {
      var q := questions[currentIndex];
      userAnswers := userAnswers[q.id := ProcessAnswer(q, answer)];
    }

    /**
     * `handleSubmitAnswer`. A falsy stored answer is refused and nothing
     * changes. Otherwise the answer is scored, an attempt is recorded for
     * the current question (and added to the current profile's progress,
     * when there is a current profile), its feedback is shown, and the score
     * rises by one exactly when the answer is correct. When the question's
     * feedback was not yet showing, the tally is kept.
     */
    method Submit(now: nat, store: Persistence.ProfileStore) returns (result: Option<Scoring.ScoreResult>)
      requires Valid()
      modifies this, store
      ensures Valid()
      ensures questions == old(questions) && currentIndex == old(currentIndex) && isCompleted == old(isCompleted)
      ensures userAnswers == old(userAnswers) && showHint == old(showHint) && totalQuestions == old(totalQuestions)
      ensures timeStarted == old(timeStarted) && questionStartTime == old(questionStartTime)
      ensures store.currentProfileId == old(store.currentProfileId)
      ensures var q := old(CurrentQuestion());
        result.None? <==> !Truthy(StoredAnswer(old(userAnswers), q.id))
      ensures result.None? ==>
        score == old(score) && attempts == old(attempts) && showFeedback == old(showFeedback) &&
        feedback == old(feedback) && store.profiles == old(store.profiles)
      ensures var q := old(CurrentQuestion());
        result.Some? ==> result.value == Scoring.ScoreQuestion(q, StoredAnswer(old(userAnswers), q.id))
      ensures var q := old(CurrentQuestion());
        result.Some? ==>
          score == old(score) + (if result.value.isCorrect then 1 else 0) &&
          showFeedback == old(showFeedback)[q.id := true] &&
          feedback == old(feedback)[q.id := result.value.feedback]
      ensures var q := old(CurrentQuestion());
        result.Some? ==>
          var attempt := MakeAttempt(q, old(userAnswers)[q.id], result.value.isCorrect,
                                     now - old(questionStartTime), q.id in old(showHint) && old(showHint)[q.id], now);
          attempts == old(attempts)[q.id := attempt] &&
          store.profiles == (match old(store.GetCurrentProfile())
                             case None => old(store.profiles)
                             case Some(p) => StoreWithAttempt(old(store.profiles), p.id, setId, attempt))
      ensures old(ScoreTallied()) && old(CurrentQuestion()).id !in old(showFeedback) ==> ScoreTallied()
    {
      var q := questions[currentIndex];
      var userAnswer := StoredAnswer(userAnswers, q.id);
      if !Truthy(userAnswer) {
        return None;
      }
      var scoreResult := Scoring.ScoreQuestion(q, userAnswer);
      var timeSpent := now - questionStartTime;
      var attempt := MakeAttempt(q, userAnswer.value, scoreResult.isCorrect, timeSpent,
                                 q.id in showHint && showHint[q.id], now);
      RecordAttempt(store, setId, attempt);
      ShowResult(attempt, scoreResult);
      result := Some(scoreResult);
    }

    /** The state half of a successful submission: record the attempt, show its feedback, add the point. */
    method ShowResult(attempt: QuestionAttempt, r: Scoring.ScoreResult)
      requires Valid() && attempt.questionId == CurrentQuestion().id
      modifies this
      ensures Valid()
      ensures questions == old(questions) && currentIndex == old(currentIndex) && isCompleted == old(isCompleted)
      ensures userAnswers == old(userAnswers) && showHint == old(showHint) && totalQuestions == old(totalQuestions)
      ensures timeStarted == old(timeStarted) && questionStartTime == old(questionStartTime)
      ensures score == old(score) + (if r.isCorrect then 1 else 0)
      ensures attempts == old(attempts)[attempt.questionId := attempt]
      ensures showFeedback == old(showFeedback)[attempt.questionId := true]
      ensures feedback == old(feedback)[attempt.questionId := r.feedback]
      ensures old(ScoreTallied()) && attempt.questionId !in old(showFeedback) ==> ScoreTallied()
    {
      var id := attempt.questionId;
      if ScoreTallied() && id !in showFeedback {
        TallyStep(score, showFeedback, questions, currentIndex, r.isCorrect);
      }
      attempts := attempts[id := attempt];
      showFeedback := showFeedback[id := true];
      feedback := feedback[id := r.feedback];
      score := score + (if r.isCorrect then 1 else 0);
    }

    /** `handleNextQuestion`: past the last question the session completes and the cursor stays; otherwise it advances and restarts the question clock. */
    method Next(now: nat)
      requires Valid()
      modifies this
      ensures Valid()
      ensures old(currentIndex) + 1 >= |questions| ==>
              isCompleted && currentIndex == old(currentIndex) && questionStartTime == old(questionStartTime)
      ensures old(currentIndex) + 1 < |questions| ==>
              currentIndex == old(currentIndex) + 1 && questionStartTime == now && isCompleted == old(isCompleted)
      ensures questions == old(questions) && score == old(score) && userAnswers == old(userAnswers)
      ensures attempts == old(attempts) && showHint == old(showHint) && showFeedback == old(showFeedback)
      ensures feedback == old(feedback) && totalQuestions == old(totalQuestions) && timeStarted == old(timeStarted)
    {
      var nextIndex := currentIndex + 1;
      if nextIndex >= |questions| {
        isCompleted := true;
      } else {
        currentIndex := nextIndex;
        questionStartTime := now;
      }
    }

    /** `handlePreviousQuestion`: steps back, restarting the question clock, unless already on the first question. */
    method Previous(now: nat)
      requires Valid()
      modifies this
      ensures Valid()
      ensures old(currentIndex) == 0 ==> currentIndex == 0 && questionStartTime == old(questionStartTime)
      ensures old(currentIndex) > 0 ==> currentIndex == old(currentIndex) - 1 && questionStartTime == now
      ensures questions == old(questions) && score == old(score) && userAnswers == old(userAnswers)
      ensures attempts == old(attempts) && showHint == old(showHint) && showFeedback == old(showFeedback)
      ensures feedback == old(feedback) && isCompleted == old(isCompleted)
      ensures totalQuestions == old(totalQuestions) && timeStarted == old(timeStarted)
    {
      if currentIndex > 0 {
        currentIndex := currentIndex - 1;
        questionStartTime := now;
      }
    }

    /** `handleShowHint`: marks the hint of the current question as shown; nothing else changes. */
    method RequestHint()
      requires Valid()
      modifies this
      ensures Valid()
      ensures showHint == old(showHint)[old(CurrentQuestion()).id := true]
      ensures questions == old(questions) && currentIndex == old(currentIndex) && score == old(score)
      ensures userAnswers == old(userAnswers) && attempts == old(attempts) && showFeedback == old(showFeedback)
      ensures feedback == old(feedback) && isCompleted == old(isCompleted) && totalQuestions == old(totalQuestions)
      ensures timeStarted == old(timeStarted) && questionStartTime == old(questionStartTime)
    {
      var q := questions[currentIndex];
      showHint := showHint[q.id := true];
    }

    /** `handleRestart`: back to the first question with every map empty and no score, keeping the question order. */
    method Restart(now: nat)
      requires Valid()
      modifies this
      ensures Valid() && ScoreTallied()
      ensures questions == old(questions) && totalQuestions == old(totalQuestions)
      ensures currentIndex == 0 && !isCompleted && score == 0
      ensures userAnswers == map[] && attempts == map[] && showHint == map[] && showFeedback == map[] && feedback == map[]
      ensures timeStarted == now && questionStartTime == now
    {
      currentIndex := 0;
      userAnswers := map[];
      attempts := map[];
      showHint := map[];
      showFeedback := map[];
      feedback := map[];
      isCompleted := false;
      score := 0;
      timeStarted := now;
      questionStartTime := now;
      assert showFeedback.Keys == {};
    }

    /** The completion summary's `Math.round(score / totalQuestions * 100)`. */
    function Accuracy(): (a: nat)
      reads this
      requires Valid()
      ensures score <= totalQuestions ==> a <= 100
      ensures score == totalQuestions ==> a == 100
    {
      if score == totalQuestions then
        Utils.AccuracyExtremes(totalQuestions);
        Utils.CalculateAccuracy(score, totalQuestions)
      else
        Utils.CalculateAccuracy(score, totalQuestions)
    }

    /** While the tally holds, the completion summary never shows more than 100%. */
    lemma AccuracyAtMost100()
      requires Valid() && ScoreTallied()
      ensures score <= totalQuestions && Accuracy() <= 100
    {
      TallyBoundsAccuracy(score, showFeedback.Keys, questions);
    }

    /** The completion summary's star rating. */
    function Stars(): (s: nat)
      reads this
      requires Valid()
      ensures s <= 3
      ensures s == 3 <==> Accuracy() >= 90
      ensures s >= 2 <==> Accuracy() >= 70
      ensures s >= 1 <==> Accuracy() >= 50
    {
      Utils.GetScoreStars(Accuracy())
    }
  }

  /** `userAnswers[id]`, None standing for `undefined`. */
  function StoredAnswer(userAnswers: map<string, Answer>, id: string): (a: Option<Answer>)
    ensures a.Some? <==> id in userAnswers
    ensures a.Some? ==> a.value == userAnswers[id]
  {
    if id in userAnswers then Some(userAnswers[id]) else None
  }

  /**
   * The attempt `handleSubmitAnswer` records: the elapsed milliseconds
   * rounded to whole seconds, one hint used exactly when the hint was shown.
   */
  function MakeAttempt(q: Question, answer: Answer, isCorrect: bool, elapsed: int, hintShown: bool,
                       now: nat): (a: QuestionAttempt)
    ensures a.questionId == q.id && a.isCorrect == isCorrect && a.userAnswer == answer
    ensures 1000 * a.timeSpent - 500 <= elapsed < 1000 * a.timeSpent + 500
    ensures a.hintsUsed == 1 <==> hintShown
    ensures a.hintsUsed <= 1 && a.timestamp == now
  {
    QuestionAttempt(q.id, isCorrect, answer, RoundToSeconds(elapsed), if hintShown then 1 else 0, now)
  }

  /** `getCurrentProfile()` and, when there is one, `addQuestionAttempt` for it. */
  method RecordAttempt(store: Persistence.ProfileStore, setId: string, attempt: QuestionAttempt)
    modifies store
    ensures store.currentProfileId == old(store.currentProfileId)
    ensures store.profiles == (match old(store.GetCurrentProfile())
                               case None => old(store.profiles)
                               case Some(p) => StoreWithAttempt(old(store.profiles), p.id, setId, attempt))
  {
    var profile := store.GetCurrentProfile();
    if profile.Some? {
      store.AddQuestionAttempt(profile.value.id, setId, attempt);
    }
  }

  /** Scoring a question whose feedback is not showing yet keeps the tally. */
  lemma TallyStep(score: nat, showFeedback: map<string, bool>, questions: seq<Question>, index: nat, correct: bool)
    requires index < |questions| && questions[index].id !in showFeedback
    requires score <= |showFeedback.Keys| && showFeedback.Keys <= IdSet(questions)
    ensures var shown := showFeedback[questions[index].id := true].Keys;
      score + (if correct then 1 else 0) <= |shown| && shown <= IdSet(questions)
  {
    var id := questions[index].id;
    assert showFeedback[id := true].Keys == showFeedback.Keys + {id};
    assert id in QuestionIds(questions) by {
      assert QuestionIds(questions)[index] == id;
    }
  }

  /** The profile list after `addQuestionAttempt(profileId, setId, attempt)`. */
  function StoreWithAttempt(profiles: seq<ChildProfile>, profileId: string, setId: string,
                            attempt: QuestionAttempt): (r: seq<ChildProfile>)
    ensures |r| == |profiles|
    ensures (forall m :: 0 <= m < |profiles| ==> profiles[m].id != profileId) ==> r == profiles
    ensures forall m :: 0 <= m < |profiles| ==>
              r[m] == profiles[m] ||
              (profiles[m].id == profileId &&
               r[m] == profiles[m].(progress := Persistence.AppendAttempt(profiles[m].progress, setId, attempt)))
  {
    match Persistence.FindIndex(profiles, Persistence.ProfileId, profileId)
    case None => profiles
    case Some(i) => profiles[i := profiles[i].(progress := Persistence.AppendAttempt(profiles[i].progress, setId, attempt))]
  }

  /** The rounding of an attempt's duration: 1.499 s rounds to 1, 1.5 s to 2, -0.5 s to 0. */
  lemma RoundToSecondsExamples()
    ensures RoundToSeconds(1499) == 1 && RoundToSeconds(1500) == 2 && RoundToSeconds(-500) == 0
  {
  }
}
