/**
 * `convertToAppFormat` of src/app/api/questions/route.ts: question files in
 * the legacy layout (options plus the index of the correct one) become
 * single choice questions whose canonical answer is the correct option's
 * text, and one question set per file. Reading the files is not modelled.
 */
module QuestionsRoute {
  import opened Wrappers
  import opened Types
  import Strings
  import Scoring
  import PlayClient
  import Dashboard

  /** A question of a legacy file; its own `type` field is ignored by the conversion. */
  datatype SourceQuestion = SourceQuestion(
    id: string,
    question: string,
    qtype: string,
    options: seq<string>,
    correct: int,
    explanation: string)

  datatype QuestionFile = QuestionFile(
    grade: nat,
    subject: Subject,
    title: string,
    description: string,
    questions: seq<SourceQuestion>)

  /** Every question's correct index names one of its options. */
  predicate WellIndexed(files: seq<QuestionFile>) {
    forall f, k :: 0 <= f < |files| && 0 <= k < |files[f].questions| ==>
      0 <= files[f].questions[k].correct < |files[f].questions[k].options|
  }

  /** Grades up to 2 are easy, up to 4 medium, higher ones hard. */
  function DifficultyFor(grade: nat): (d: Difficulty)
    ensures d == Easy <==> grade <= 2
    ensures d == Hard <==> grade > 4
  {
    if grade <= 2 then Easy else if grade <= 4 then Medium else Hard
  }

  /** `${qid}_choice_${index}`. */
  function ChoiceId(qid: string, index: nat): (c: string)
    ensures |c| > |qid| + 8 && c[..|qid| + 8] == qid + "_choice_"
    ensures Strings.AllDigits(c[|qid| + 8..]) && Strings.DigitsValue(c[|qid| + 8..]) == index
  {
    var c := qid + "_choice_" + Strings.NatToString(index);
    Strings.NatToStringRoundTrip(index);
    assert c[|qid| + 8..] == Strings.NatToString(index);
    c
  }

  /** Distinct option positions get distinct choice ids. */
  lemma ChoiceIdInjective(qid: string, i: nat, j: nat)
    requires ChoiceId(qid, i) == ChoiceId(qid, j)
    ensures i == j
  {
    var p := qid + "_choice_";
    assert ChoiceId(qid, i)[|p|..] == Strings.NatToString(i);
    assert ChoiceId(qid, j)[|p|..] == Strings.NatToString(j);
    Strings.NatToStringInjective(i, j);
  }

  /** The choices of a question: option order kept, ids numbered from 0. */
  function Choices(qid: string, options: seq<string>): (cs: seq<Choice>)
    ensures |cs| == |options|
    ensures forall i :: 0 <= i < |options| ==> cs[i] == Choice(ChoiceId(qid, i), options[i])
  {
    seq(|options|, i requires 0 <= i < |options| => Choice(ChoiceId(qid, i), options[i]))
  }

  /** One legacy question as an application question. */
  function ConvertQuestion(file: QuestionFile, q: SourceQuestion): (r: Question)
    requires 0 <= q.correct < |q.options|
    ensures r.id == q.id && r.subject == file.subject && r.qtype == McqSingle && r.prompt == q.question
    ensures r.topic == "Grade " + Strings.NatToString(file.grade)
    ensures r.skill == Strings.Capitalize(SubjectName(file.subject))
    ensures r.choices == Some(Choices(q.id, q.options))
    ensures r.answer == Text(q.options[q.correct])
    ensures r.difficulty == Some(DifficultyFor(file.grade))
    ensures r.tags == Some(["grade-" + Strings.NatToString(file.grade), SubjectName(file.subject)])
    ensures r.explanation == Some(q.explanation) && r.hint.None? && r.media.None? && r.cambridgeRef.None?
    ensures ValidQuestion(r) && Scoring.AnswerFitsType(r)
  {
    Question(q.id, file.subject, "Grade " + Strings.NatToString(file.grade),
             Strings.Capitalize(SubjectName(file.subject)), q.question, None, McqSingle,
             Some(Choices(q.id, q.options)), Text(q.options[q.correct]), Some(q.explanation), None,
             Some(DifficultyFor(file.grade)), Some(["grade-" + Strings.NatToString(file.grade), SubjectName(file.subject)]),
             None)
  }

  /** `file.questions.map(...)`. */
  function ConvertFileQuestions(file: QuestionFile): (qs: seq<Question>)
    requires forall k :: 0 <= k < |file.questions| ==> 0 <= file.questions[k].correct < |file.questions[k].options|
    ensures |qs| == |file.questions|
    ensures forall k :: 0 <= k < |qs| ==> qs[k] == ConvertQuestion(file, file.questions[k])
  {
    seq(|file.questions|, k requires 0 <= k < |file.questions| => ConvertQuestion(file, file.questions[k]))
  }

  /** The set made for a file: `grade-g-subject`, every converted question in order, random order, a minute each. */
  function ConvertSet(file: QuestionFile): (s: QuestionSet)
    ensures s.id == "grade-" + Strings.NatToString(file.grade) + "-" + SubjectName(file.subject)
    ensures s.title == file.title && s.subject == file.subject && s.description == Some(file.description)
    ensures |s.questionIds| == |file.questions|
    ensures forall k :: 0 <= k < |file.questions| ==> s.questionIds[k] == file.questions[k].id
    ensures s.recommendedOrder == Some(Random)
    ensures s.timeLimitSeconds == Some((60 * |file.questions|) as real)
  {
    QuestionSet("grade-" + Strings.NatToString(file.grade) + "-" + SubjectName(file.subject),
                file.title, file.subject, Some(file.description),
                seq(|file.questions|, k requires 0 <= k < |file.questions| => file.questions[k].id),
                Some(Random), Some((60 * |file.questions|) as real))
  }

  /**
   * The set schema asks for a strictly positive time limit, which the
   * conversion gives only to files with at least one question.
   */
  lemma ConvertedSetValidIffNonEmpty(file: QuestionFile)
    ensures ValidSet(ConvertSet(file)) <==> |file.questions| > 0
  {
  }

  /** All converted questions, file after file. */
  function AllQuestions(files: seq<QuestionFile>): (qs: seq<Question>)
    requires WellIndexed(files)
    ensures forall q :: q in qs ==> exists f :: 0 <= f < |files| && q in ConvertFileQuestions(files[f])
  {
    if |files| == 0 then []
    else
      var n := |files| - 1;
      var init := AllQuestions(files[..n]);
      var last := ConvertFileQuestions(files[n]);
      FromSomeFile(files, files[..n], init, last);
      init + last
  }

  /**
   * Questions that each come from one of the first files, followed by the
   * last file's converted questions, each come from some file.
   */
  lemma FromSomeFile(files: seq<QuestionFile>, pre: seq<QuestionFile>, init: seq<Question>, last: seq<Question>)
    requires WellIndexed(files) && |files| > 0 && pre == files[..|files| - 1]
    requires forall q :: q in init ==> exists f :: 0 <= f < |pre| && q in ConvertFileQuestions(pre[f])
    requires last == ConvertFileQuestions(files[|files| - 1])
    ensures forall q :: q in init + last ==> exists f :: 0 <= f < |files| && q in ConvertFileQuestions(files[f])
  {
    var n := |files| - 1;
    forall q | q in init + last ensures exists f :: 0 <= f < |files| && q in ConvertFileQuestions(files[f]) {
      if q in init {
        var f :| 0 <= f < |pre| && q in ConvertFileQuestions(pre[f]);
        assert pre[f] == files[f];
      } else {
        assert q in ConvertFileQuestions(files[n]);
      }
    }
  }

  /** The total number of legacy questions in the files. */
  function QuestionCount(files: seq<QuestionFile>): nat {
    if |files| == 0 then 0 else QuestionCount(files[..|files| - 1]) + |files[|files| - 1].questions|
  }

  /**
   * The `forEach` over the files, pushing each file's converted questions
   * and its set onto the two accumulators.
   */
  method ConvertToAppFormat(files: seq<QuestionFile>) returns (data: AppData)
    requires WellIndexed(files)
    ensures data == AppData(AllQuestions(files), ConvertedSets(files))
  {
    var questions: seq<Question> := [];
    var sets: seq<QuestionSet> := [];
    var f := 0;
    while f < |files|
      invariant 0 <= f <= |files|
      invariant questions == AllQuestions(files[..f])
      invariant sets == ConvertedSets(files[..f])
    {
      var file := files[f];
      var convertedQuestions := ConvertFileQuestions(file);
      questions := questions + convertedQuestions;
      sets := sets + [ConvertSet(file)];
      AllQuestionsStep(files, f);
      f := f + 1;
    }
    assert files[..f] == files;
    data := AppData(questions, sets);
  }

  /** One more file adds its converted questions at the end. */
  lemma AllQuestionsStep(files: seq<QuestionFile>, f: nat)
    requires WellIndexed(files) && f < |files|
    ensures WellIndexed(files[..f]) && WellIndexed(files[..f + 1])
    ensures AllQuestions(files[..f + 1]) == AllQuestions(files[..f]) + ConvertFileQuestions(files[f])
    ensures ConvertedSets(files[..f + 1]) == ConvertedSets(files[..f]) + [ConvertSet(files[f])]
  {
    assert files[..f + 1][..f] == files[..f];
  }

  /** As many questions as the files hold in total. */
  lemma {:induction false} AllQuestionsCount(files: seq<QuestionFile>)
    requires WellIndexed(files)
    ensures |AllQuestions(files)| == QuestionCount(files)
  {
    if |files| > 0 {
      AllQuestionsCount(files[..|files| - 1]);
    }
  }

  /** Every question of every file is among the converted questions. */
  lemma {:induction false} FileQuestionsIncluded(files: seq<QuestionFile>, f: nat, k: nat)
    requires WellIndexed(files) && f < |files| && k < |files[f].questions|
    ensures ConvertQuestion(files[f], files[f].questions[k]) in AllQuestions(files)
  {
    var n := |files| - 1;
    if f < n {
      FileQuestionsIncluded(files[..n], f, k);
    } else {
      assert ConvertFileQuestions(files[n])[k] == ConvertQuestion(files[f], files[f].questions[k]);
    }
  }

  /** The sets, one per file in file order. */
  function ConvertedSets(files: seq<QuestionFile>): (ss: seq<QuestionSet>)
    ensures |ss| == |files|
    ensures forall f :: 0 <= f < |files| ==> ss[f] == ConvertSet(files[f])
  {
    seq(|files|, f requires 0 <= f < |files| => ConvertSet(files[f]))
  }

  /** Each id a file's set lists is the id of a converted question. */
  lemma SetIdsKnown(files: seq<QuestionFile>, f: nat, x: string)
    requires WellIndexed(files) && f < |files| && x in ConvertSet(files[f]).questionIds
    ensures x in QuestionIds(AllQuestions(files))
  {
    var qs := AllQuestions(files);
    var ids := ConvertSet(files[f]).questionIds;
    var k :| 0 <= k < |ids| && ids[k] == x;
    FileQuestionsIncluded(files, f, k);
    var m :| 0 <= m < |qs| && qs[m] == ConvertQuestion(files[f], files[f].questions[k]);
    assert QuestionIds(qs)[m] == x;
  }

  /** Every id each produced set lists belongs to a produced question, so the result passes the upload's reference check. */
  lemma ConvertedReferencesResolve(files: seq<QuestionFile>)
    requires WellIndexed(files)
    ensures Dashboard.ReferencesResolve(AppData(AllQuestions(files), ConvertedSets(files)))
  {
    var d := AppData(AllQuestions(files), ConvertedSets(files));
    forall f | 0 <= f < |d.sets| ensures Dashboard.MissingIds(d.sets[f].questionIds, Dashboard.KnownIds(d)) == [] {
      forall x | x in d.sets[f].questionIds ensures x in Dashboard.KnownIds(d) {
        SetIdsKnown(files, f, x);
      }
      Dashboard.MissingIdsEmpty(d.sets[f].questionIds, Dashboard.KnownIds(d));
    }
  }

  /**
   * The reason the session translates choice ids: picking choice i of a
   * converted question stores option i's text, which is scored correct
   * exactly when it equals the correct option's text (so an option that
   * repeats the correct text is accepted too).
   */
  lemma PickingChoiceScores(file: QuestionFile, q: SourceQuestion, i: nat)
    requires 0 <= q.correct < |q.options| && i < |q.options|
    ensures var cq := ConvertQuestion(file, q);
      var stored := PlayClient.ProcessAnswer(cq, Text(ChoiceId(q.id, i)));
      stored == Text(q.options[i]) &&
      (Scoring.ScoreQuestion(cq, Some(stored)).isCorrect <==> q.options[i] == q.options[q.correct])
  {
    var cq := ConvertQuestion(file, q);
    var cs := cq.choices.value;
    forall m | 0 <= m < i ensures cs[m].id != cs[i].id {
      assert cs[m].id == ChoiceId(q.id, m) && cs[i].id == ChoiceId(q.id, i);
    }
    PlayClient.ProcessAnswerChoiceId(cq, i);
  }
}
