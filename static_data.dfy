/**
 * The selections src/lib/static-data.ts makes over already loaded data:
 * a set with (at most twenty of) its questions, the per-subject buckets,
 * and the lists of subjects and set ids. Reading the data files, schema
 * parsing and the cache are not modelled.
 */
module StaticData {
  import opened Wrappers
  import opened Types
  import Scoring
  import Utils

  // ------------------------------------------------------------- helpers

  /** `[...new Set(xs)]`: each value once, in order of first occurrence. */
  function Unique<T(==,!new)>(xs: seq<T>): (r: seq<T>)
    ensures NoDup(r)
    ensures forall x :: x in r <==> x in xs
    ensures |r| <= |xs|
  {
    if |xs| == 0 then []
    else
      var init := Unique(xs[..|xs| - 1]);
      var last := xs[|xs| - 1];
      assert forall x :: x in xs <==> x in xs[..|xs| - 1] || x == last;
      if last in xs[..|xs| - 1] then init else init + [last]
  }

  /** A list with no repeats is its own de-duplication. */
  lemma {:induction false} UniqueOfNoDup<T(!new)>(xs: seq<T>)
    requires NoDup(xs)
    ensures Unique(xs) == xs
  {
    if |xs| > 0 {
      var init := xs[..|xs| - 1];
      UniqueOfNoDup(init);
      assert xs == init + [xs[|xs| - 1]];
    }
  }

  /** De-duplication keeps the order of first occurrence: its result is a subsequence of the input. */
  lemma {:induction false} UniqueKeepsOrder<T(!new)>(xs: seq<T>)
    ensures Scoring.IsSubseq(Unique(xs), xs)
  {
    if |xs| > 0 {
      var init := xs[..|xs| - 1];
      UniqueKeepsOrder(init);
      var r := Unique(xs);
      if xs[|xs| - 1] in init {
        Scoring.SubseqOfLonger(r, xs);
      } else {
        assert r[..|r| - 1] == Unique(init);
      }
    }
  }

  // ------------------------------------------------------------ getSetData

  /** `sets.find(s => s.id === setId)`. */
  function FindSet(sets: seq<QuestionSet>, setId: string): (r: Option<QuestionSet>)
    ensures r.Some? ==> r.value in sets && r.value.id == setId
    ensures r.Some? ==> exists k :: 0 <= k < |sets| && sets[k] == r.value &&
                                    forall m :: 0 <= m < k ==> sets[m].id != setId
    ensures r.None? <==> forall k :: 0 <= k < |sets| ==> sets[k].id != setId
  {
    if |sets| == 0 then None
    else if sets[0].id == setId then Some(sets[0])
    else
      var r := FindSet(sets[1..], setId);
      if r.Some? then
        var k :| 0 <= k < |sets[1..]| && sets[1..][k] == r.value &&
                 forall m :: 0 <= m < k ==> sets[1..][m].id != setId;
        assert sets[k + 1] == r.value;
        assert forall m :: 0 <= m < k + 1 ==> sets[m].id != setId by {
          forall m | 0 <= m < k + 1 ensures sets[m].id != setId {
            if m > 0 { assert sets[m] == sets[1..][m - 1]; }
          }
        }
        r
      else r
  }

  /** `questions.filter(q => ids.includes(q.id))`: the repository's order, not the set's. */
  function QuestionsIn(questions: seq<Question>, ids: seq<string>): (r: seq<Question>)
    ensures |r| <= |questions|
    ensures forall q :: q in r <==> q in questions && q.id in ids
  {
    if |questions| == 0 then []
    else
      var last := questions[|questions| - 1];
      assert forall q :: q in questions <==> q in questions[..|questions| - 1] || q == last;
      QuestionsIn(questions[..|questions| - 1], ids) + (if last.id in ids then [last] else [])
  }

  /** The filter keeps the repository order: its result is a subsequence of the repository. */
  lemma {:induction false} QuestionsInKeepsOrder(questions: seq<Question>, ids: seq<string>)
    ensures Scoring.IsSubseq(QuestionsIn(questions, ids), questions)
  {
    if |questions| > 0 {
      var init := questions[..|questions| - 1];
      var r := QuestionsIn(questions, ids);
      QuestionsInKeepsOrder(init, ids);
      if questions[|questions| - 1].id in ids {
        assert r[..|r| - 1] == QuestionsIn(init, ids);
      } else {
        assert r == QuestionsIn(init, ids);
      }
    }
  }

  /** A duplicate-free repository yields duplicate-free candidates. */
  lemma {:induction false} QuestionsInNoDup(questions: seq<Question>, ids: seq<string>)
    requires NoDup(questions)
    ensures NoDup(QuestionsIn(questions, ids))
  {
    if |questions| > 0 {
      var init := questions[..|questions| - 1];
      var last := questions[|questions| - 1];
      assert NoDup(init);
      QuestionsInNoDup(init, ids);
      assert last !in init;
    }
  }

  /** The cap on the number of questions one play of a set shows. */
  const MaxQuestions: nat := 20

  datatype SetData = SetData(questionSet: QuestionSet, questions: seq<Question>)

  /**
   * `getSetData`: the set with the id, and its questions taken from the
   * repository in repository order; over twenty of them are shuffled and
   * the first twenty kept. The returned set lists exactly the returned
   * questions' ids.
   */
  method GetSetData(data: AppData, setId: string, picks: seq<nat>) returns (r: Option<SetData>)
    requires Utils.ValidPicks(picks, |data.questions|)
    ensures r.None? <==> FindSet(data.sets, setId).None?
    ensures r.Some? ==>
      var found := FindSet(data.sets, setId).value;
      var candidates := QuestionsIn(data.questions, found.questionIds);
      r.value.questionSet == found.(questionIds := QuestionIds(r.value.questions)) &&
      (|candidates| <= MaxQuestions ==> r.value.questions == candidates) &&
      (|candidates| > MaxQuestions ==> |r.value.questions| == MaxQuestions &&
                                       multiset(r.value.questions) <= multiset(candidates))
  {
    var found := FindSet(data.sets, setId);
    if found.None? {
      return None;
    }
    var questionSet := found.value;
    var allQuestions := QuestionsIn(data.questions, questionSet.questionIds);
    var questions: seq<Question>;
    if |allQuestions| <= MaxQuestions {
      questions := allQuestions;
    } else {
      var shuffled := Utils.ShuffleArray(allQuestions, picks);
      questions := shuffled[..MaxQuestions];
      assert shuffled == questions + shuffled[MaxQuestions..];
      assert multiset(shuffled) == multiset(questions) + multiset(shuffled[MaxQuestions..]);
    }
    return Some(SetData(questionSet.(questionIds := QuestionIds(questions)), questions));
  }

  /** In a duplicate-free list every value occurs at most once. */
  lemma {:induction false} NoDupCounts<T>(s: seq<T>)
    requires NoDup(s)
    ensures forall x :: multiset(s)[x] <= 1
  {
    if |s| > 0 {
      var init := s[..|s| - 1];
      assert NoDup(init);
      NoDupCounts(init);
      assert s == init + [s[|s| - 1]];
      assert s[|s| - 1] !in init;
    }
  }

  /** A value at two positions occurs at least twice. */
  lemma RepeatCounts<T>(s: seq<T>, i: nat, j: nat)
    requires i < j < |s| && s[i] == s[j]
    ensures multiset(s)[s[i]] >= 2
  {
    assert s == s[..j] + [s[j]] + s[j + 1..];
    assert s[i] in s[..j];
  }

  /** Taking part of a permutation of a duplicate-free list gives distinct elements. */
  lemma SubMultisetNoDup<T>(part: seq<T>, whole: seq<T>)
    requires NoDup(whole) && multiset(part) <= multiset(whole)
    ensures NoDup(part)
  {
    NoDupCounts(whole);
    forall i, j | 0 <= i < j < |part| ensures part[i] != part[j] {
      if part[i] == part[j] {
        RepeatCounts(part, i, j);
        assert false;
      }
    }
  }

  /** With distinct repository entries, the questions of one play are distinct. */
  lemma SetDataDistinct(data: AppData, found: QuestionSet, shown: seq<Question>)
    requires NoDup(data.questions)
    requires multiset(shown) <= multiset(QuestionsIn(data.questions, found.questionIds))
    ensures NoDup(shown)
  {
    QuestionsInNoDup(data.questions, found.questionIds);
    SubMultisetNoDup(shown, QuestionsIn(data.questions, found.questionIds));
  }

  // ------------------------------------------------------------ subjects

  /** `questions.filter(q => q.subject === s)`. */
  function QuestionsOf(questions: seq<Question>, s: Subject): (r: seq<Question>)
    ensures forall q :: q in r <==> q in questions && q.subject == s
  {
    if |questions| == 0 then []
    else
      var last := questions[|questions| - 1];
      assert forall q :: q in questions <==> q in questions[..|questions| - 1] || q == last;
      QuestionsOf(questions[..|questions| - 1], s) + (if last.subject == s then [last] else [])
  }

  /** The subject filter keeps the repository order. */
  lemma {:induction false} QuestionsOfKeepsOrder(questions: seq<Question>, s: Subject)
    ensures Scoring.IsSubseq(QuestionsOf(questions, s), questions)
  {
    if |questions| > 0 {
      var init := questions[..|questions| - 1];
      var r := QuestionsOf(questions, s);
      QuestionsOfKeepsOrder(init, s);
      if questions[|questions| - 1].subject == s {
        assert r[..|r| - 1] == QuestionsOf(init, s);
      } else {
        assert r == QuestionsOf(init, s);
      }
    }
  }

  /** `sets.filter(x => x.subject === s)`. */
  function SetsOf(sets: seq<QuestionSet>, s: Subject): (r: seq<QuestionSet>)
    ensures forall x :: x in r <==> x in sets && x.subject == s
  {
    if |sets| == 0 then []
    else
      var last := sets[|sets| - 1];
      assert forall x :: x in sets <==> x in sets[..|sets| - 1] || x == last;
      SetsOf(sets[..|sets| - 1], s) + (if last.subject == s then [last] else [])
  }

  /** The subject filter keeps the order of the sets. */
  lemma {:induction false} SetsOfKeepsOrder(sets: seq<QuestionSet>, s: Subject)
    ensures Scoring.IsSubseq(SetsOf(sets, s), sets)
  {
    if |sets| > 0 {
      var init := sets[..|sets| - 1];
      var r := SetsOf(sets, s);
      SetsOfKeepsOrder(init, s);
      if sets[|sets| - 1].subject == s {
        assert r[..|r| - 1] == SetsOf(init, s);
      } else {
        assert r == SetsOf(init, s);
      }
    }
  }

  /** The topics of some questions, each once, in order of first occurrence. */
  function Topics(questions: seq<Question>): (ts: seq<string>)
    ensures NoDup(ts)
    ensures forall t :: t in ts <==> exists k :: 0 <= k < |questions| && questions[k].topic == t
  {
    var all := seq(|questions|, k requires 0 <= k < |questions| => questions[k].topic);
    assert forall t :: t in all <==> exists k :: 0 <= k < |questions| && questions[k].topic == t by {
      forall t ensures t in all <==> exists k :: 0 <= k < |questions| && questions[k].topic == t {
        if t in all {
          var k :| 0 <= k < |all| && all[k] == t;
          assert questions[k].topic == t;
        }
        if exists k :: 0 <= k < |questions| && questions[k].topic == t {
          var k :| 0 <= k < |questions| && questions[k].topic == t;
          assert all[k] == t;
        }
      }
    }
    Unique(all)
  }

  datatype SubjectBucket = SubjectBucket(questions: seq<Question>, sets: seq<QuestionSet>, topics: seq<string>)

  datatype SubjectData = SubjectData(math: SubjectBucket, english: SubjectBucket, science: SubjectBucket)

  function BucketOf(data: AppData, s: Subject): (b: SubjectBucket)
    ensures forall q :: q in b.questions <==> q in data.questions && q.subject == s
    ensures forall x :: x in b.sets <==> x in data.sets && x.subject == s
    ensures NoDup(b.topics)
    ensures forall t :: t in b.topics <==> exists q :: q in data.questions && q.subject == s && q.topic == t
  {
    var questions := QuestionsOf(data.questions, s);
    var topics := Topics(questions);
    assert forall t :: t in topics <==> exists q :: q in data.questions && q.subject == s && q.topic == t by {
      forall t ensures t in topics <==> exists q :: q in data.questions && q.subject == s && q.topic == t {
        if t in topics {
          var k :| 0 <= k < |questions| && questions[k].topic == t;
          assert questions[k] in questions;
        }
        if exists q :: q in data.questions && q.subject == s && q.topic == t {
          var q :| q in data.questions && q.subject == s && q.topic == t;
          var k :| 0 <= k < |questions| && questions[k] == q;
        }
      }
    }
    SubjectBucket(questions, SetsOf(data.sets, s), topics)
  }

  /** `getSubjectData`: one bucket per subject. */
  function GetSubjectData(data: AppData): (r: SubjectData)
    ensures forall q :: q in data.questions ==>
      (q in r.math.questions <==> q.subject == Math) &&
      (q in r.english.questions <==> q.subject == English) &&
      (q in r.science.questions <==> q.subject == Science)
    ensures forall x :: x in data.sets ==>
      (x in r.math.sets <==> x.subject == Math) &&
      (x in r.english.sets <==> x.subject == English) &&
      (x in r.science.sets <==> x.subject == Science)
    ensures NoDup(r.math.topics) && NoDup(r.english.topics) && NoDup(r.science.topics)
    ensures forall t ::
      (t in r.math.topics <==> exists q :: q in data.questions && q.subject == Math && q.topic == t) &&
      (t in r.english.topics <==> exists q :: q in data.questions && q.subject == English && q.topic == t) &&
      (t in r.science.topics <==> exists q :: q in data.questions && q.subject == Science && q.topic == t)
  {
    SubjectData(BucketOf(data, Math), BucketOf(data, English), BucketOf(data, Science))
  }

  /** The three question buckets partition the questions: their sizes add up to the whole. */
  lemma {:induction false} QuestionBucketsPartition(questions: seq<Question>)
    ensures |QuestionsOf(questions, Math)| + |QuestionsOf(questions, English)| + |QuestionsOf(questions, Science)| == |questions|
  {
    if |questions| > 0 {
      QuestionBucketsPartition(questions[..|questions| - 1]);
    }
  }

  /** The three set buckets partition the sets. */
  lemma {:induction false} SetBucketsPartition(sets: seq<QuestionSet>)
    ensures |SetsOf(sets, Math)| + |SetsOf(sets, English)| + |SetsOf(sets, Science)| == |sets|
  {
    if |sets| > 0 {
      SetBucketsPartition(sets[..|sets| - 1]);
    }
  }

  /** `getAvailableSubjects`: the subject names the questions use, each once. */
  function GetAvailableSubjects(data: AppData): (r: seq<string>)
    ensures NoDup(r) && |r| <= 3
    ensures forall s :: s in r <==> exists k :: 0 <= k < |data.questions| && SubjectName(data.questions[k].subject) == s
  {
    var names := seq(|data.questions|, k requires 0 <= k < |data.questions| => SubjectName(data.questions[k].subject));
    var r := Unique(names);
    assert forall s :: s in names <==> exists k :: 0 <= k < |data.questions| && SubjectName(data.questions[k].subject) == s by {
      forall s ensures s in names <==> exists k :: 0 <= k < |data.questions| && SubjectName(data.questions[k].subject) == s {
        if s in names {
          var k :| 0 <= k < |names| && names[k] == s;
          assert SubjectName(data.questions[k].subject) == s;
        }
        if exists k :: 0 <= k < |data.questions| && SubjectName(data.questions[k].subject) == s {
          var k :| 0 <= k < |data.questions| && SubjectName(data.questions[k].subject) == s;
          assert names[k] == s;
        }
      }
    }
    assert (set x | x in r) <= {"math", "english", "science"};
    Types.SubsetCard(set x | x in r, {"math", "english", "science"});
    Types.NoDupCard(r);
    r
  }

  /** `getAvailableSetIds`: every set's id, in order. */
  function GetAvailableSetIds(data: AppData): (r: seq<string>)
    ensures |r| == |data.sets|
    ensures forall k :: 0 <= k < |data.sets| ==> r[k] == data.sets[k].id
  {
    SetIds(data.sets)
  }
}
