/**
 * The upload checks and the merge of `handleFileUpload` in
 * src/app/dashboard/page.tsx. Reading the file, JSON parsing, the schema
 * library and the confirmation dialog are not modelled: the parsed data
 * (None when parsing failed) and the user's answer to the dialog are
 * parameters, and the stored data and upload history are values passed
 * in and returned.
 */
module Dashboard {
  import opened Wrappers
  import opened Types

  // ------------------------------------------------------------ duplicate ids

  /** `ids.indexOf(x)` for an x that occurs. */
  function IndexOf(ids: seq<string>, x: string): (i: nat)
    requires x in ids
    ensures i < |ids| && ids[i] == x
    ensures forall k :: 0 <= k < i ==> ids[k] != x
  {
    if ids[0] == x then 0 else IndexOf(ids[1..], x) + 1
  }

  /** `ids.filter((id, index) => ids.indexOf(id) !== index)`, over the first n ids. */
  function DuplicatesIn(ids: seq<string>, n: nat): (r: seq<string>)
    requires n <= |ids|
    ensures |r| <= n
    ensures forall x :: x in r ==> x in ids[..n]
  {
    if n == 0 then []
    else DuplicatesIn(ids, n - 1) + (if IndexOf(ids, ids[n - 1]) != n - 1 then [ids[n - 1]] else [])
  }

  /** The duplicate report for a whole id list. */
  function DuplicateIds(ids: seq<string>): (r: seq<string>)
    ensures |r| <= |ids|
    ensures forall x :: x in r <==> exists i, j :: 0 <= i < j < |ids| && ids[i] == x && ids[j] == x
  {
    forall x ensures x in DuplicatesIn(ids, |ids|) <==> exists i, j :: 0 <= i < j < |ids| && ids[i] == x && ids[j] == x {
      DuplicatesInIff(ids, |ids|, x);
    }
    DuplicatesIn(ids, |ids|)
  }

  /** An id is reported exactly when it occurs at two different positions. */
  lemma {:induction false} DuplicatesInIff(ids: seq<string>, n: nat, x: string)
    requires n <= |ids|
    ensures x in DuplicatesIn(ids, n) <==> exists i, j :: 0 <= i < j < n && ids[i] == x && ids[j] == x
  {
    if n > 0 {
      DuplicatesInIff(ids, n - 1, x);
      var last := ids[n - 1];
      var k := IndexOf(ids, last);
      if x in DuplicatesIn(ids, n) && x !in DuplicatesIn(ids, n - 1) {
        assert x == last && k != n - 1;
        assert k < n - 1;
        assert ids[k] == x && ids[n - 1] == x;
      }
      if (exists i, j :: 0 <= i < j < n && ids[i] == x && ids[j] == x) &&
         !(exists i, j :: 0 <= i < j < n - 1 && ids[i] == x && ids[j] == x) {
        var i, j :| 0 <= i < j < n && ids[i] == x && ids[j] == x;
        assert j == n - 1;
        assert k <= i;
      }
    }
  }

  /** No report at all exactly when the list has no duplicates. */
  lemma NoDuplicatesIffNoDup(ids: seq<string>)
    ensures DuplicateIds(ids) == [] <==> NoDup(ids)
  {
    if DuplicateIds(ids) == [] {
      forall i, j | 0 <= i < j < |ids| ensures ids[i] != ids[j] {
        if ids[i] == ids[j] {
          DuplicatesInIff(ids, |ids|, ids[i]);
        }
      }
    } else {
      var x := DuplicateIds(ids)[0];
      DuplicatesInIff(ids, |ids|, x);
    }
  }

  // ------------------------------------------------------------- references

  /** `ids.filter(id => !known.has(id))`. */
  function MissingIds(ids: seq<string>, known: set<string>): (r: seq<string>)
    ensures |r| <= |ids|
    ensures forall x :: x in r <==> x in ids && x !in known
  {
    if |ids| == 0 then []
    else (if ids[0] in known then [] else [ids[0]]) + MissingIds(ids[1..], known)
  }

  /** Nothing is missing exactly when every id is known. */
  lemma MissingIdsEmpty(ids: seq<string>, known: set<string>)
    ensures MissingIds(ids, known) == [] <==> forall x :: x in ids ==> x in known
  {
    var r := MissingIds(ids, known);
    if r != [] {
      assert r[0] in r;
    }
  }

  /** The ids of the uploaded questions, as a set. */
  function KnownIds(data: AppData): set<string> {
    set x | x in QuestionIds(data.questions)
  }

  /** Every question id every set names is among the uploaded questions. */
  predicate ReferencesResolve(data: AppData) {
    forall k :: 0 <= k < |data.sets| ==> MissingIds(data.sets[k].questionIds, KnownIds(data)) == []
  }

  /** The first set that names a question the upload does not contain, with the ids it is missing. */
  datatype MissingReference = MissingReference(title: string, missing: seq<string>)

  /**
   * The `for` loop over the uploaded sets: stops at the first set with
   * unknown question ids and reports its title and those ids.
   */
  method FindMissingReference(data: AppData) returns (r: Option<MissingReference>)
    ensures r.None? <==> ReferencesResolve(data)
    ensures r.Some? ==> r.value.missing != []
    ensures r.Some? ==> exists k :: (0 <= k < |data.sets| &&
      (forall m :: 0 <= m < k ==> MissingIds(data.sets[m].questionIds, KnownIds(data)) == []) &&
      r.value == MissingReference(data.sets[k].title, MissingIds(data.sets[k].questionIds, KnownIds(data))))
  {
    var allQuestionIds := KnownIds(data);
    var k := 0;
    while k < |data.sets|
      invariant 0 <= k <= |data.sets|
      invariant forall m :: 0 <= m < k ==> MissingIds(data.sets[m].questionIds, allQuestionIds) == []
    {
      var missingQuestions := MissingIds(data.sets[k].questionIds, allQuestionIds);
      if |missingQuestions| > 0 {
        return Some(MissingReference(data.sets[k].title, missingQuestions));
      }
      k := k + 1;
    }
    return None;
  }

  // ----------------------------------------------------------------- merging

  /** `xs.filter(x => !ids.has(key(x)))`. */
  function KeepOutside<T>(xs: seq<T>, key: T -> string, ids: set<string>): (r: seq<T>)
    ensures |r| <= |xs|
    ensures forall k :: 0 <= k < |r| ==> key(r[k]) !in ids && r[k] in xs
    ensures forall k :: 0 <= k < |xs| && key(xs[k]) !in ids ==> xs[k] in r
  {
    if |xs| == 0 then []
    else (if key(xs[0]) in ids then [] else [xs[0]]) + KeepOutside(xs[1..], key, ids)
  }

  function QuestionKey(q: Question): string { q.id }

  function SetKey(s: QuestionSet): string { s.id }

  /** Some uploaded question or set has an id the stored data already uses. */
  predicate HasConflicts(current: AppData, upload: AppData): (b: bool)
    ensures b <==> (exists q, c :: q in upload.questions && c in current.questions && q.id == c.id) ||
                   (exists x, y :: x in upload.sets && y in current.sets && x.id == y.id)
  {
    QuestionConflictsByMember(current.questions, upload.questions);
    SetConflictsByMember(current.sets, upload.sets);
    (exists k :: 0 <= k < |upload.questions| && upload.questions[k].id in QuestionIds(current.questions)) ||
    (exists k :: 0 <= k < |upload.sets| && upload.sets[k].id in SetIds(current.sets))
  }

  /** The index form of the question conflict test agrees with the member form. */
  lemma QuestionConflictsByMember(current: seq<Question>, upload: seq<Question>)
    ensures (exists k :: 0 <= k < |upload| && upload[k].id in QuestionIds(current)) <==>
            (exists q, c :: q in upload && c in current && q.id == c.id)
  {
    if exists k :: 0 <= k < |upload| && upload[k].id in QuestionIds(current) {
      var k :| 0 <= k < |upload| && upload[k].id in QuestionIds(current);
      var m :| 0 <= m < |QuestionIds(current)| && QuestionIds(current)[m] == upload[k].id;
      assert current[m] in current;
    }
    if exists q, c :: q in upload && c in current && q.id == c.id {
      var q, c :| q in upload && c in current && q.id == c.id;
      var m :| 0 <= m < |current| && current[m] == c;
      assert QuestionIds(current)[m] == c.id;
    }
  }

  /** The index form of the set conflict test agrees with the member form. */
  lemma SetConflictsByMember(current: seq<QuestionSet>, upload: seq<QuestionSet>)
    ensures (exists k :: 0 <= k < |upload| && upload[k].id in SetIds(current)) <==>
            (exists x, y :: x in upload && y in current && x.id == y.id)
  {
    if exists k :: 0 <= k < |upload| && upload[k].id in SetIds(current) {
      var k :| 0 <= k < |upload| && upload[k].id in SetIds(current);
      var m :| 0 <= m < |SetIds(current)| && SetIds(current)[m] == upload[k].id;
      assert current[m] in current;
    }
    if exists x, y :: x in upload && y in current && x.id == y.id {
      var x, y :| x in upload && y in current && x.id == y.id;
      var m :| 0 <= m < |current| && current[m] == y;
      assert SetIds(current)[m] == y.id;
    }
  }


  /** Either new stored data, or nothing stored because the user declined to replace. */
  datatype MergeOutcome = Stored(data: AppData) | Declined

  /**
   * With nothing stored, the upload is stored as it is. Without conflicts
   * the upload is appended. With conflicts the user is asked: on yes the
   * stored items whose ids the upload uses are dropped and the upload is
   * appended, on no nothing is stored.
   */
  function Merge(current: Option<AppData>, upload: AppData, confirmReplace: bool): (r: MergeOutcome)
    ensures r.Declined? <==> current.Some? && HasConflicts(current.value, upload) && !confirmReplace
  {
    match current
    case None => Stored(upload)
    case Some(cur) =>
      if HasConflicts(cur, upload) then
        if !confirmReplace then Declined
        else
          var qIds := set x | x in QuestionIds(upload.questions);
          var sIds := set x | x in SetIds(upload.sets);
          Stored(AppData(KeepOutside(cur.questions, QuestionKey, qIds) + upload.questions,
                         KeepOutside(cur.sets, SetKey, sIds) + upload.sets))
      else
        Stored(AppData(cur.questions + upload.questions, cur.sets + upload.sets))
  }

  lemma MergeIntoNothing(upload: AppData, confirmReplace: bool)
    ensures Merge(None, upload, confirmReplace) == Stored(upload)
  {
  }

  /** Without conflicts the stored lists are the old ones followed by the uploaded ones, whatever the user would answer. */
  lemma MergeWithoutConflicts(current: AppData, upload: AppData, confirmReplace: bool)
    requires !HasConflicts(current, upload)
    ensures Merge(Some(current), upload, confirmReplace) ==
            Stored(AppData(current.questions + upload.questions, current.sets + upload.sets))
  {
  }

  /**
   * Replacing: every uploaded item is stored, no stored item whose id the
   * upload uses survives, and every other stored item is kept.
   */
  lemma MergeReplace(current: AppData, upload: AppData)
    requires HasConflicts(current, upload)
    ensures Merge(Some(current), upload, true).Stored?
    ensures var d := Merge(Some(current), upload, true).data;
      (forall q :: q in upload.questions ==> q in d.questions) &&
      (forall s :: s in upload.sets ==> s in d.sets) &&
      (forall q :: q in current.questions ==> (q in d.questions <==> q in upload.questions || q.id !in QuestionIds(upload.questions))) &&
      (forall s :: s in current.sets ==> (s in d.sets <==> s in upload.sets || s.id !in SetIds(upload.sets)))
  {
    var qIds := set x | x in QuestionIds(upload.questions);
    var sIds := set x | x in SetIds(upload.sets);
    ReplaceMembers(current.questions, QuestionKey, qIds, upload.questions);
    ReplaceMembers(current.sets, SetKey, sIds, upload.sets);
  }

  /** An old item is in the replaced list iff it is uploaded again or its key is not uploaded. */
  lemma ReplaceMembers<T>(xs: seq<T>, key: T -> string, ids: set<string>, ys: seq<T>)
    ensures forall y :: y in ys ==> y in KeepOutside(xs, key, ids) + ys
    ensures forall x :: x in xs ==> (x in KeepOutside(xs, key, ids) + ys <==> x in ys || key(x) !in ids)
  {
    var kept := KeepOutside(xs, key, ids);
    forall x | x in xs && x in kept + ys && x !in ys
      ensures key(x) !in ids
    {
      var k :| 0 <= k < |kept| && kept[k] == x;
    }
    forall x | x in xs && key(x) !in ids
      ensures x in kept
    {
      var k :| 0 <= k < |xs| && xs[k] == x;
    }
  }


  /** Declining a conflicting upload stores nothing. */
  lemma MergeDeclined(current: AppData, upload: AppData)
    requires HasConflicts(current, upload)
    ensures Merge(Some(current), upload, false) == Declined
  {
  }

  /** No two entries share a key. */
  predicate UniqueKeys<T>(xs: seq<T>, key: T -> string) {
    forall i, j :: 0 <= i < j < |xs| ==> key(xs[i]) != key(xs[j])
  }

  lemma UniqueQuestionKeys(qs: seq<Question>)
    ensures NoDup(QuestionIds(qs)) <==> UniqueKeys(qs, QuestionKey)
  {
    var ids := QuestionIds(qs);
    assert forall i :: 0 <= i < |qs| ==> ids[i] == QuestionKey(qs[i]);
  }

  /** Keeping only keys outside a set keeps a list's keys unique. */
  lemma {:induction false} KeepOutsideUnique<T>(xs: seq<T>, key: T -> string, ids: set<string>)
    requires UniqueKeys(xs, key)
    ensures UniqueKeys(KeepOutside(xs, key, ids), key)
  {
    if |xs| > 0 {
      var tail := xs[1..];
      assert UniqueKeys(tail, key) by {
        forall i, j | 0 <= i < j < |tail| ensures key(tail[i]) != key(tail[j]) {
          assert tail[i] == xs[i + 1] && tail[j] == xs[j + 1];
        }
      }
      KeepOutsideUnique(tail, key, ids);
      var rest := KeepOutside(tail, key, ids);
      forall k | 0 <= k < |rest| ensures key(rest[k]) != key(xs[0]) {
        var m :| 0 <= m < |tail| && tail[m] == rest[k];
        assert xs[m + 1] == rest[k];
      }
      if key(xs[0]) !in ids {
        var r := KeepOutside(xs, key, ids);
        assert r == [xs[0]] + rest;
        forall i, j | 0 <= i < j < |r| ensures key(r[i]) != key(r[j]) {
          if i == 0 {
            assert r[j] == rest[j - 1];
          } else {
            assert r[i] == rest[i - 1] && r[j] == rest[j - 1];
          }
        }
      }
    }
  }

  /** Two lists with unique keys and no key in common concatenate to a list with unique keys. */
  lemma AppendUnique<T>(a: seq<T>, b: seq<T>, key: T -> string)
    requires UniqueKeys(a, key) && UniqueKeys(b, key)
    requires forall i, j :: 0 <= i < |a| && 0 <= j < |b| ==> key(a[i]) != key(b[j])
    ensures UniqueKeys(a + b, key)
  {
    var c := a + b;
    forall i, j | 0 <= i < j < |c| ensures key(c[i]) != key(c[j]) {
      if j < |a| {
        assert c[i] == a[i] && c[j] == a[j];
      } else if i >= |a| {
        assert c[i] == b[i - |a|] && c[j] == b[j - |a|];
      } else {
        assert c[i] == a[i] && c[j] == b[j - |a|];
      }
    }
  }

  /**
   * When the stored data and the upload each have unique question ids, so
   * does the stored result of a merge: replacing removes every clash, and
   * a merge without conflicts has none to remove.
   */
  lemma MergeKeepsQuestionIdsUnique(current: AppData, upload: AppData, confirmReplace: bool)
    requires NoDup(QuestionIds(current.questions)) && NoDup(QuestionIds(upload.questions))
    ensures var r := Merge(Some(current), upload, confirmReplace);
      r.Stored? ==> NoDup(QuestionIds(r.data.questions))
  {
    var r := Merge(Some(current), upload, confirmReplace);
    if r.Stored? {
      UniqueQuestionKeys(current.questions);
      UniqueQuestionKeys(upload.questions);
      UniqueQuestionKeys(r.data.questions);
      var uploaded := set x | x in QuestionIds(upload.questions);
      assert forall j :: 0 <= j < |upload.questions| ==> QuestionKey(upload.questions[j]) in uploaded by {
        forall j | 0 <= j < |upload.questions| ensures QuestionKey(upload.questions[j]) in uploaded {
          assert QuestionIds(upload.questions)[j] == upload.questions[j].id;
        }
      }
      if HasConflicts(current, upload) {
        var kept := KeepOutside(current.questions, QuestionKey, uploaded);
        KeepOutsideUnique(current.questions, QuestionKey, uploaded);
        AppendUnique(kept, upload.questions, QuestionKey);
      } else {
        forall i, j | 0 <= i < |current.questions| && 0 <= j < |upload.questions|
          ensures QuestionKey(current.questions[i]) != QuestionKey(upload.questions[j])
        {
          assert QuestionIds(current.questions)[i] == current.questions[i].id;
        }
        AppendUnique(current.questions, upload.questions, QuestionKey);
      }
    }
  }

  // ------------------------------------------------------------ the handler

  /** `xs.join(', ')`. */
  function JoinComma(xs: seq<string>): (r: string)
    ensures xs == [] ==> r == ""
    ensures |xs| == 1 ==> r == xs[0]
    ensures |xs| >= 2 ==> r == xs[0] + ", " + JoinComma(xs[1..])
  {
    if |xs| == 0 then "" else if |xs| == 1 then xs[0] else xs[0] + ", " + JoinComma(xs[1..])
  }

  /** Joining one more id appends the separator and that id. */
  lemma {:induction false} JoinCommaSnoc(xs: seq<string>, x: string)
    requires |xs| > 0
    ensures JoinComma(xs + [x]) == JoinComma(xs) + ", " + x
  {
    if |xs| > 1 {
      assert (xs + [x])[1..] == xs[1..] + [x];
      JoinCommaSnoc(xs[1..], x);
    }
  }

  /** The joined text is as long as the ids together plus two characters per separator. */
  lemma {:induction false} JoinCommaLength(xs: seq<string>)
    ensures |xs| > 0 ==> |JoinComma(xs)| == TotalLength(xs) + 2 * (|xs| - 1)
  {
    if |xs| > 1 {
      JoinCommaLength(xs[1..]);
    }
  }

  /** The summed length of some strings. */
  function TotalLength(xs: seq<string>): nat {
    if |xs| == 0 then 0 else |xs[0]| + TotalLength(xs[1..])
  }

  /** What an upload ends in: an error message, a cancellation, or the new stored data and upload history. */
  datatype UploadOutcome =
    | Rejected(message: string)
    | Cancelled
    | Saved(data: AppData, history: seq<AppData>)

  /** The checks an upload must pass before it is merged: schema, unique ids, resolvable references. */
  predicate Acceptable(upload: AppData): (b: bool)
    ensures b <==> ValidData(upload) && DuplicateIds(QuestionIds(upload.questions)) == [] &&
                   DuplicateIds(SetIds(upload.sets)) == [] && ReferencesResolve(upload)
  {
    NoDuplicatesIffNoDup(QuestionIds(upload.questions));
    NoDuplicatesIffNoDup(SetIds(upload.sets));
    ValidData(upload) &&
    NoDup(QuestionIds(upload.questions)) && NoDup(SetIds(upload.sets)) &&
    ReferencesResolve(upload)
  }

  /**
   * `handleFileUpload` from parsed data on: the schema, the duplicate ids
   * (questions then sets, in one message), the references set by set, and
   * then the merge, after which the upload joins the history.
   */
  method HandleFileUpload(parsed: Option<AppData>, current: Option<AppData>, history: seq<AppData>,
                          confirmReplace: bool) returns (outcome: UploadOutcome)
    ensures outcome.Rejected? <==> parsed.None? || !Acceptable(parsed.value)
    ensures outcome.Cancelled? <==> parsed.Some? && Acceptable(parsed.value) && Merge(current, parsed.value, confirmReplace).Declined?
    ensures outcome.Saved? ==>
              parsed.Some? && Merge(current, parsed.value, confirmReplace) == Stored(outcome.data) &&
              outcome.history == history + [parsed.value]
    ensures parsed.None? ==> outcome == Rejected("Invalid JSON file - please check the file format")
    ensures parsed.Some? && !ValidData(parsed.value) ==>
              outcome == Rejected("Validation failed - please check the errors below")
    ensures parsed.Some? && ValidData(parsed.value) &&
            (!NoDup(QuestionIds(parsed.value.questions)) || !NoDup(SetIds(parsed.value.sets))) ==>
              outcome == Rejected("Duplicate IDs found: " + JoinComma(DuplicateIds(QuestionIds(parsed.value.questions)) +
                                                                      DuplicateIds(SetIds(parsed.value.sets))))
    ensures parsed.Some? && ValidData(parsed.value) &&
            NoDup(QuestionIds(parsed.value.questions)) && NoDup(SetIds(parsed.value.sets)) &&
            !ReferencesResolve(parsed.value) ==>
              var sets := parsed.value.sets;
              var known := KnownIds(parsed.value);
              exists k :: 0 <= k < |sets| &&
                (forall m :: 0 <= m < k ==> MissingIds(sets[m].questionIds, known) == []) &&
                MissingIds(sets[k].questionIds, known) != [] &&
                outcome == Rejected("Set \"" + sets[k].title + "\" references non-existent questions: " +
                                    JoinComma(MissingIds(sets[k].questionIds, known)))
  {
    if parsed.None? {
      return Rejected("Invalid JSON file - please check the file format");
    }
    var validatedData := parsed.value;
    if !ValidData(validatedData) {
      return Rejected("Validation failed - please check the errors below");
    }
    var questionIds := QuestionIds(validatedData.questions);
    var setIds := SetIds(validatedData.sets);
    var duplicateQuestionIds := DuplicateIds(questionIds);
    var duplicateSetIds := DuplicateIds(setIds);
    NoDuplicatesIffNoDup(questionIds);
    NoDuplicatesIffNoDup(setIds);
    if |duplicateQuestionIds| > 0 || |duplicateSetIds| > 0 {
      return Rejected("Duplicate IDs found: " + JoinComma(duplicateQuestionIds + duplicateSetIds));
    }
    var missing := FindMissingReference(validatedData);
    if missing.Some? {
      return Rejected("Set \"" + missing.value.title + "\" references non-existent questions: " +
                      JoinComma(missing.value.missing));
    }
    match Merge(current, validatedData, confirmReplace)
    case Declined =>
      return Cancelled;
    case Stored(merged) =>
      return Saved(merged, history + [validatedData]);
  }
}
