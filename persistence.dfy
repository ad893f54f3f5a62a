/**
 * The profile store of src/lib/persistence.ts, over the profile list held in
 * memory. Reading and writing browser storage and the JSON encoding are not
 * modelled: the store's fields are the decoded profile list and the id of
 * the current profile.
 */
module Persistence {
  import opened Wrappers
  import opened Types
  import Scoring

  // ------------------------------------------------------------ searching

  /** `xs.findIndex(x => key(x) === id)`, with None for -1. */
  function FindIndex<T>(xs: seq<T>, key: T -> string, id: string): (r: Option<nat>)
    ensures r.Some? ==> r.value < |xs| && key(xs[r.value]) == id
    ensures r.Some? ==> forall k :: 0 <= k < r.value ==> key(xs[k]) != id
    ensures r.None? <==> forall k :: 0 <= k < |xs| ==> key(xs[k]) != id
  {
    if |xs| == 0 then None
    else if key(xs[0]) == id then Some(0)
    else
      match FindIndex(xs[1..], key, id)
      case None => None
      case Some(k) => Some(k + 1)
  }

  /** The key `findIndex` compares on a profile. */
  function ProfileId(p: ChildProfile): string { p.id }

  /** The key `findIndex` compares on a progress record. */
  function ProgressSetId(p: SetProgress): string { p.setId }

  /** At most one progress record per set. */
  predicate UniqueSetIds(progress: seq<SetProgress>) {
    forall i, j :: 0 <= i < j < |progress| ==> progress[i].setId != progress[j].setId
  }

  // ------------------------------------------------------- the progress rules

  /** `attempts.filter(a => a.isCorrect).length`. */
  function CountCorrect(attempts: seq<QuestionAttempt>): (n: nat)
    ensures n <= |attempts|
  {
    if |attempts| == 0 then 0
    else CountCorrect(attempts[..|attempts| - 1]) + (if attempts[|attempts| - 1].isCorrect then 1 else 0)
  }

  /** The positions of the correct attempts. */
  function CorrectPositions(attempts: seq<QuestionAttempt>): set<nat> {
    set i: nat | i < |attempts| && attempts[i].isCorrect
  }

  /** The correct positions of a list are those of all but its last attempt, plus the last one if it is correct. */
  lemma CorrectPositionsStep(attempts: seq<QuestionAttempt>)
    requires |attempts| > 0
    ensures var n := |attempts| - 1;
      CorrectPositions(attempts) ==
      CorrectPositions(attempts[..n]) + (if attempts[n].isCorrect then {n} else {})
  {
    var n := |attempts| - 1;
    var init := attempts[..n];
    forall i: nat ensures i in CorrectPositions(attempts) <==>
                          i in CorrectPositions(init) + (if attempts[n].isCorrect then {n} else {}) {
      if i < n {
        assert attempts[i] == init[i];
      }
    }
  }

  /** The count is the number of positions holding a correct attempt. */
  lemma {:induction false} CountCorrectIsPositionCount(attempts: seq<QuestionAttempt>)
    ensures CountCorrect(attempts) == |CorrectPositions(attempts)|
  {
    if |attempts| > 0 {
      var n := |attempts| - 1;
      var init := attempts[..n];
      CountCorrectIsPositionCount(init);
      CorrectPositionsStep(attempts);
      assert n !in CorrectPositions(init);
    } else {
      assert CorrectPositions(attempts) == {};
    }
  }

  /** The record `addQuestionAttempt` creates for a set the profile has not started. */
  function FreshProgress(setId: string): (sp: SetProgress)
    ensures sp.setId == setId && sp.attempts == [] && sp.completedAt.None?
    ensures sp.score == 0 && sp.totalQuestions == 0 && sp.timeSpent == 0
  {
    SetProgress(setId, [], 0, 0, None, 0)
  }

  /**
   * One profile's progress list after `addQuestionAttempt`: the first record
   * for the set (created at the end if there is none) gets the attempt
   * appended, its score recounted from all its attempts and its time
   * increased by the attempt's time.
   */
  function AppendAttempt(progress: seq<SetProgress>, setId: string, attempt: QuestionAttempt): (r: seq<SetProgress>)
    ensures |r| == |progress| || |r| == |progress| + 1
  {
    var list := if FindIndex(progress, ProgressSetId, setId).None? then progress + [FreshProgress(setId)] else progress;
    var k := if FindIndex(progress, ProgressSetId, setId).None? then |progress| else FindIndex(progress, ProgressSetId, setId).value;
    var attempts := list[k].attempts + [attempt];
    list[k := list[k].(attempts := attempts, score := CountCorrect(attempts),
                       timeSpent := list[k].timeSpent + attempt.timeSpent)]
  }

  /** With no record for the set, a fresh one holding just this attempt is added at the end. */
  lemma AppendAttemptNewSet(progress: seq<SetProgress>, setId: string, attempt: QuestionAttempt)
    requires FindIndex(progress, ProgressSetId, setId).None?
    ensures AppendAttempt(progress, setId, attempt) ==
            progress + [SetProgress(setId, [attempt], if attempt.isCorrect then 1 else 0, 0, None, attempt.timeSpent)]
  {
    assert [attempt][..0] == [];
  }

  /**
   * With a record for the set, only that record changes: the attempt is
   * appended after the earlier ones, the score is the number of correct
   * attempts, and the time grows by exactly the attempt's time.
   */
  lemma AppendAttemptExistingSet(progress: seq<SetProgress>, setId: string, attempt: QuestionAttempt)
    requires FindIndex(progress, ProgressSetId, setId).Some?
    ensures var k := FindIndex(progress, ProgressSetId, setId).value;
      var r := AppendAttempt(progress, setId, attempt);
      |r| == |progress| &&
      (forall m :: 0 <= m < |r| && m != k ==> r[m] == progress[m]) &&
      r[k].setId == setId &&
      r[k].attempts == progress[k].attempts + [attempt] &&
      r[k].score == CountCorrect(progress[k].attempts) + (if attempt.isCorrect then 1 else 0) &&
      r[k].timeSpent == progress[k].timeSpent + attempt.timeSpent &&
      r[k].totalQuestions == progress[k].totalQuestions &&
      r[k].completedAt == progress[k].completedAt
  {
    var k := FindIndex(progress, ProgressSetId, setId).value;
    assert (progress[k].attempts + [attempt])[..|progress[k].attempts|] == progress[k].attempts;
  }

  /** Whichever branch is taken, the stored score is the number of correct attempts in the record. */
  lemma AppendAttemptScoreIsCorrectCount(progress: seq<SetProgress>, setId: string, attempt: QuestionAttempt)
    ensures var r := AppendAttempt(progress, setId, attempt);
      var k := FindIndex(r, ProgressSetId, setId);
      k.Some? && r[k.value].score == |CorrectPositions(r[k.value].attempts)| &&
      |r[k.value].attempts| > 0 && r[k.value].attempts[|r[k.value].attempts| - 1] == attempt
  {
    var r := AppendAttempt(progress, setId, attempt);
    var i := FindIndex(progress, ProgressSetId, setId);
    var k := if i.None? then |progress| else i.value;
    assert r[k].setId == setId;
    assert forall m :: 0 <= m < k ==> r[m].setId != setId;
    CountCorrectIsPositionCount(r[k].attempts);
  }

  /** Adding an attempt keeps at most one record per set. */
  lemma AppendAttemptKeepsUnique(progress: seq<SetProgress>, setId: string, attempt: QuestionAttempt)
    requires UniqueSetIds(progress)
    ensures UniqueSetIds(AppendAttempt(progress, setId, attempt))
  {
    var r := AppendAttempt(progress, setId, attempt);
    assert forall m :: 0 <= m < |progress| ==> r[m].setId == progress[m].setId;
  }

  /** `saveSetProgress` on one profile's list: overwrite the first record for the set, or append. */
  function UpsertProgress(progress: seq<SetProgress>, sp: SetProgress): (r: seq<SetProgress>)
    ensures sp in r
    ensures |r| == |progress| + 1 <==> forall m :: 0 <= m < |progress| ==> progress[m].setId != sp.setId
    ensures |r| == |progress| || |r| == |progress| + 1
    ensures forall m :: 0 <= m < |progress| && progress[m].setId != sp.setId ==> r[m] == progress[m]
  {
    match FindIndex(progress, ProgressSetId, sp.setId)
    case None => progress + [sp]
    case Some(k) => assert progress[k := sp][k] == sp; progress[k := sp]
  }

  /** After saving, looking the set up finds exactly the saved record, and every other record is kept in place. */
  lemma UpsertThenFind(progress: seq<SetProgress>, sp: SetProgress)
    ensures var r := UpsertProgress(progress, sp);
      var k := FindIndex(r, ProgressSetId, sp.setId);
      k.Some? && r[k.value] == sp &&
      (forall m :: 0 <= m < |progress| && progress[m].setId != sp.setId ==> r[m] == progress[m])
  {
    var r := UpsertProgress(progress, sp);
    var i := FindIndex(progress, ProgressSetId, sp.setId);
    var k := if i.None? then |progress| else i.value;
    assert r[k] == sp;
    assert forall m :: 0 <= m < k ==> r[m].setId != sp.setId;
  }

  /** Saving keeps at most one record per set, and grows the list only for a new set. */
  lemma UpsertKeepsUnique(progress: seq<SetProgress>, sp: SetProgress)
    requires UniqueSetIds(progress)
    ensures UniqueSetIds(UpsertProgress(progress, sp))
    ensures |UpsertProgress(progress, sp)| ==
            if FindIndex(progress, ProgressSetId, sp.setId).None? then |progress| + 1 else |progress|
  {
  }

  // ---------------------------------------------------------- profile edits

  /** `Partial<ChildProfile>`: every field may be supplied or left out. */
  datatype ProfileUpdate = ProfileUpdate(
    id: Option<string>,
    name: Option<string>,
    avatar: Option<Option<string>>,
    createdAt: Option<nat>,
    progress: Option<seq<SetProgress>>,
    preferences: Option<Preferences>)

  /** `{ ...profile, ...updates }`: a supplied field wins, every other field is kept. */
  function ApplyUpdate(p: ChildProfile, u: ProfileUpdate): (r: ChildProfile)
    ensures r.id == u.id.GetOr(p.id) && r.name == u.name.GetOr(p.name)
    ensures r.avatar == u.avatar.GetOr(p.avatar) && r.createdAt == u.createdAt.GetOr(p.createdAt)
    ensures r.progress == u.progress.GetOr(p.progress) && r.preferences == u.preferences.GetOr(p.preferences)
  {
    ChildProfile(u.id.GetOr(p.id), u.name.GetOr(p.name), u.avatar.GetOr(p.avatar),
                 u.createdAt.GetOr(p.createdAt), u.progress.GetOr(p.progress),
                 u.preferences.GetOr(p.preferences))
  }

  /** An update that supplies nothing changes nothing. */
  lemma EmptyUpdateIsIdentity(p: ChildProfile)
    ensures ApplyUpdate(p, ProfileUpdate(None, None, None, None, None, None)) == p
  {
  }

  /** `profiles.filter(p => p.id !== id)`. */
  function RemoveProfile(profiles: seq<ChildProfile>, id: string): (r: seq<ChildProfile>)
    ensures |r| <= |profiles|
    ensures forall k :: 0 <= k < |r| ==> r[k].id != id && r[k] in profiles
    ensures forall k :: 0 <= k < |profiles| && profiles[k].id != id ==> profiles[k] in r
  {
    if |profiles| == 0 then []
    else if profiles[0].id == id then RemoveProfile(profiles[1..], id)
    else [profiles[0]] + RemoveProfile(profiles[1..], id)
  }

  /** The filter keeps the remaining profiles in their order. */
  lemma {:induction false} RemoveProfileKeepsOrder(profiles: seq<ChildProfile>, id: string)
    ensures Scoring.IsSubseq(RemoveProfile(profiles, id), profiles)
  {
    if |profiles| > 0 {
      RemoveProfileKeepsOrder(profiles[1..], id);
      assert profiles == [profiles[0]] + profiles[1..];
      if profiles[0].id == id {
        Scoring.SubseqConsRight(profiles[0], RemoveProfile(profiles[1..], id), profiles[1..]);
      } else {
        Scoring.SubseqConsBoth(profiles[0], RemoveProfile(profiles[1..], id), profiles[1..]);
      }
    } else {
      assert RemoveProfile(profiles, id) == [];
    }
  }

  /** Removing an id no profile has keeps the list as it is. */
  lemma {:induction false} RemoveAbsentProfile(profiles: seq<ChildProfile>, id: string)
    requires FindIndex(profiles, ProfileId, id).None?
    ensures RemoveProfile(profiles, id) == profiles
  {
    if |profiles| > 0 {
      RemoveAbsentProfile(profiles[1..], id);
    }
  }

  /** The profile list and the current-profile pointer of the browser's storage. */
  class ProfileStore {
    var profiles: seq<ChildProfile>
    var currentProfileId: Option<string>

    constructor(profiles: seq<ChildProfile>, currentProfileId: Option<string>)
      ensures this.profiles == profiles && this.currentProfileId == currentProfileId
    {
      this.profiles := profiles;
      this.currentProfileId := currentProfileId;
    }

    /**
     * `getCurrentProfile`: the first profile with the current id. A missing
     * pointer and the empty id are both falsy, so both give no profile.
     */
    function GetCurrentProfile(): (r: Option<ChildProfile>)
      reads this
      ensures currentProfileId.None? || currentProfileId.value == "" ==> r.None?
      ensures r.Some? ==> r.value in profiles && Some(r.value.id) == currentProfileId
      ensures currentProfileId.Some? && currentProfileId.value != "" && r.None? ==>
              forall k :: 0 <= k < |profiles| ==> profiles[k].id != currentProfileId.value
      ensures r.Some? ==> exists i :: 0 <= i < |profiles| && profiles[i] == r.value &&
                                      forall k :: 0 <= k < i ==> profiles[k].id != r.value.id
    {
      if currentProfileId.None? || currentProfileId.value == "" then None
      else
        match FindIndex(profiles, ProfileId, currentProfileId.value)
        case None => None
        case Some(i) => Some(profiles[i])
    }

    /** `getSetProgress`: the first record for the set in the first profile with the id, or null. */
    function GetSetProgress(profileId: string, setId: string): (r: Option<SetProgress>)
      reads this
      ensures r.Some? ==> r.value.setId == setId
      ensures r.Some? ==> exists i, k :: 0 <= i < |profiles| && 0 <= k < |profiles[i].progress| &&
                                         (forall m :: 0 <= m < i ==> profiles[m].id != profileId) &&
                                         (forall m :: 0 <= m < k ==> profiles[i].progress[m].setId != setId) &&
                                         profiles[i].id == profileId && r.value == profiles[i].progress[k]
      ensures r.Some? <==> exists i :: 0 <= i < |profiles| && FindIndex(profiles, ProfileId, profileId) == Some(i) &&
                                       FindIndex(profiles[i].progress, ProgressSetId, setId).Some?
    {
      match FindIndex(profiles, ProfileId, profileId)
      case None => None
      case Some(i) =>
        match FindIndex(profiles[i].progress, ProgressSetId, setId)
        case None => None
        case Some(k) => Some(profiles[i].progress[k])
    }

    /** `setCurrentProfile`. */
    method SetCurrentProfile(profileId: string)
      modifies this
      ensures currentProfileId == Some(profileId) && profiles == old(profiles)
    {
      currentProfileId := Some(profileId);
    }

    /** `updateProfile`: the first profile with the id gets the supplied fields; no profile with it, no change. */
    method UpdateProfile(profileId: string, updates: ProfileUpdate)
      modifies this
      ensures currentProfileId == old(currentProfileId)
      ensures FindIndex(old(profiles), ProfileId, profileId).None? ==> profiles == old(profiles)
      ensures FindIndex(old(profiles), ProfileId, profileId).Some? ==>
              var i := FindIndex(old(profiles), ProfileId, profileId).value;
              profiles == old(profiles)[i := ApplyUpdate(old(profiles)[i], updates)]
    {
      var index := FindIndex(profiles, ProfileId, profileId);
      if index.None? {
        return;
      }
      profiles := profiles[index.value := ApplyUpdate(profiles[index.value], updates)];
    }

    /** `deleteProfile`: every profile with the id goes; the current pointer is cleared exactly when it named that id. */
    method DeleteProfile(profileId: string)
      modifies this
      ensures profiles == RemoveProfile(old(profiles), profileId)
      ensures currentProfileId == if old(currentProfileId) == Some(profileId) then None else old(currentProfileId)
    {
      profiles := RemoveProfile(profiles, profileId);
      if currentProfileId == Some(profileId) {
        currentProfileId := None;
      }
    }

    /** `saveSetProgress`: in the first profile with the id, replace the set's record or append it. */
    method SaveSetProgress(profileId: string, setProgress: SetProgress)
      modifies this
      ensures currentProfileId == old(currentProfileId)
      ensures FindIndex(old(profiles), ProfileId, profileId).None? ==> profiles == old(profiles)
      ensures FindIndex(old(profiles), ProfileId, profileId).Some? ==>
              var i := FindIndex(old(profiles), ProfileId, profileId).value;
              profiles == old(profiles)[i := old(profiles)[i].(progress := UpsertProgress(old(profiles)[i].progress, setProgress))]
    {
      var index := FindIndex(profiles, ProfileId, profileId);
      if index.None? {
        return;
      }
      var profile := profiles[index.value];
      var progress := profile.progress;
      var existingIndex := FindIndex(progress, ProgressSetId, setProgress.setId);
      if existingIndex.None? {
        progress := progress + [setProgress];
      } else {
        progress := progress[existingIndex.value := setProgress];
      }
      profiles := profiles[index.value := profile.(progress := progress)];
    }

    /**
     * `addQuestionAttempt`: in the first profile with the id, find or create
     * the set's record, append the attempt, recount the score and add the time.
     */
    method AddQuestionAttempt(profileId: string, setId: string, attempt: QuestionAttempt)
      modifies this
      ensures currentProfileId == old(currentProfileId)
      ensures FindIndex(old(profiles), ProfileId, profileId).None? ==> profiles == old(profiles)
      ensures FindIndex(old(profiles), ProfileId, profileId).Some? ==>
              var i := FindIndex(old(profiles), ProfileId, profileId).value;
              profiles == old(profiles)[i := old(profiles)[i].(progress := AppendAttempt(old(profiles)[i].progress, setId, attempt))]
    {
      var index := FindIndex(profiles, ProfileId, profileId);
      if index.None? {
        return;
      }
      var profile := profiles[index.value];
      var progress := profile.progress;
      var k := FindIndex(progress, ProgressSetId, setId);
      var at: nat;
      if k.None? {
        progress := progress + [SetProgress(setId, [], 0, 0, None, 0)];
        at := |progress| - 1;
      } else {
        at := k.value;
      }
      var setProgress := progress[at];
      setProgress := setProgress.(attempts := setProgress.attempts + [attempt]);
      setProgress := setProgress.(score := CountCorrect(setProgress.attempts));
      setProgress := setProgress.(timeSpent := setProgress.timeSpent + attempt.timeSpent);
      progress := progress[at := setProgress];
      profiles := profiles[index.value := profile.(progress := progress)];
    }
  }

  /** Every profile other than the one updated is left as it was. */
  lemma UpdateTouchesOneProfile(profiles: seq<ChildProfile>, profileId: string, u: ProfileUpdate)
    requires FindIndex(profiles, ProfileId, profileId).Some?
    ensures var i := FindIndex(profiles, ProfileId, profileId).value;
      var r := profiles[i := ApplyUpdate(profiles[i], u)];
      |r| == |profiles| && r[i].name == u.name.GetOr(profiles[i].name) &&
      forall m :: 0 <= m < |profiles| && m != i ==> r[m] == profiles[m]
  {
  }
}
