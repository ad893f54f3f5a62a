# yaya-practice — a Dafny model of the quiz core

yaya-practice is a children's practice app for maths, English and science.
The project models the parts of it that decide things:

- **Scoring engine.** It grades one answer to one question under seven rules:
  single choice, multiple choice, short answer, fill in the blank, true/false,
  matching and ordering. Ordering gives partial credit through a
  longest-common-subsequence table.
- **Quiz session.** This state machine runs one play of a question set:
  answer, submit, hint, next, previous, restart and the completion summary.
- **Per-profile progress store.** It holds child profiles, their per-set
  progress records and the current-profile pointer.
- **Upload check and merge.** The dashboard runs these on an uploaded data
  file: duplicate ids, references to missing questions, and merge or replace
  against the stored data.
- **Conversion of legacy question files.** Files in the options-plus-correct-index
  layout become single-choice questions and one set per file.
- **Set selection over loaded data.** This covers a set with at most twenty of
  its questions, the per-subject buckets, and the subject and set-id lists.
- **Helpers.** Shuffle, accuracy, stars, time formatting and colour lookup.

Modules, one per source file:

| module | file | source |
|---|---|---|
| `Wrappers` | wrappers.dfy | `Option` |
| `Strings` | strings.dfy | the JavaScript string built-ins the source relies on: `toLowerCase`, `trim`, number-to-text, `charAt(0).toUpperCase()` |
| `Types` | types.dfy | src/types/index.ts: the records and the schema constraints as predicates |
| `Scoring` | scoring.dfy | src/lib/scoring.ts |
| `Utils` | utils.dfy | src/lib/utils.ts; also the copies of `getScoreStars`/`formatTime` in play-client.tsx and of `shuffleArray` in static-data.ts |
| `Persistence` | persistence.dfy | src/lib/persistence.ts; class `ProfileStore` holds the profile list and the current-profile pointer |
| `PlayClient` | session.dfy | src/components/play-client.tsx; class `QuizSession` holds the quiz state |
| `Dashboard` | upload.dfy | the checks and merge inside `handleFileUpload` of src/app/dashboard/page.tsx |
| `QuestionsRoute` | convert.dfy | `convertToAppFormat` of src/app/api/questions/route.ts |
| `StaticData` | static_data.dfy | src/lib/static-data.ts over already loaded data |

JavaScript values are modelled as follows:

- **Answers.** A user answer is an `Option<Answer>`, where `None` stands for
  `undefined`/`null`. `Answer` is a string, a boolean or a list. A list holds
  strings or `{leftId, rightId}` pairs.
- **Equality.** `===` on two arrays compares references, so two lists are
  never strictly equal (`Scoring.StrictEquals`).
- **Scores.** Scores are exact rationals (`real`). `Math.round` is
  round-half-up on those rationals.
- **Clocks and randomness.** Clock readings are natural-number parameters.
  Each `Math.random` choice of a Fisher–Yates shuffle is a parameter
  `picks[i] <= i`.

## Model

| member | source | states |
|---|---|---|
| Strings.NatToString | src/app/api/questions/route.ts:41 | the decimal text of a number is non-empty, all digits, has no leading zero unless it is 0 |
| Strings.NatToStringRoundTrip | src/app/api/questions/route.ts:41 | reading the decimal text back gives the number |
| Strings.NatToStringInjective | src/app/api/questions/route.ts:46 | distinct numbers have distinct decimal texts |
| Strings.ToLower | src/lib/scoring.ts:96 | lower-casing keeps the length and maps each letter position-wise; no upper-case ASCII letter remains |
| Strings.Capitalize | src/app/api/questions/route.ts:42 | only the first character is upper-cased, the rest kept |
| Strings.Trim | src/lib/scoring.ts:96 | the result is the slice of the input left after removing exactly the leading and trailing white-space runs; it neither starts nor ends with white space |
| Strings.TrimIsInfix | src/lib/scoring.ts:96 | trimming the end of the trimmed start leaves a slice of the input followed only by white space |
| Strings.TrimStart | src/lib/scoring.ts:96 | removes exactly the leading white-space run: the result is a suffix and everything removed is space |
| Strings.TrimEnd | src/lib/scoring.ts:96 | removes exactly the trailing white-space run: the result is a prefix and everything removed is space |
| Strings.TrimPadded | src/lib/scoring.ts:96 | trimming a string padded with spaces on both sides gives the trim of the unpadded string |
| Strings.ToLowerAppend | src/lib/scoring.ts:96 | lower-casing distributes over concatenation |
| Types.QuestionIds | src/app/dashboard/page.tsx:61 | the id list has one entry per question, position by position |
| Types.SetIds | src/app/dashboard/page.tsx:62 | the id list has one entry per set, position by position |
| Types.NoDupCard | src/app/dashboard/page.tsx:63-64 | a list without repeats has as many distinct values as entries |
| Types.SchemaDoesNotTieAnswerToType | src/types/index.ts:31-51 | the question schema admits a true/false question whose answer is a string |
| Scoring.ScoreQuestion | src/lib/scoring.ts:10-45 | a correct result scores exactly 1 with no partial credit; scores are never negative; partial credit, when present, is the score |
| Scoring.UnknownTypeFallback | src/lib/scoring.ts:38-43 | an unrecognised type scores 0 with "Unknown question type" |
| Scoring.ScoreMcqSingle | src/lib/scoring.ts:47-54 | correct iff the answer is the canonical string or boolean itself; score 1 iff correct, else 0, with no partial credit |
| Scoring.McqSingleRule | src/lib/scoring.ts:47-53 | correct iff the answer is the canonical string or boolean itself (a list never matches); score 1 iff correct, else 0 |
| Scoring.ScoreMcqMulti | src/lib/scoring.ts:56-85 | a correct answer scores exactly 1 with no partial credit; the score is never negative and equals the partial credit when there is one (exact and partial rules in the McqMulti lemmas) |
| Scoring.McqMultiNoList | src/lib/scoring.ts:57-63 | a missing or non-list answer scores 0 with "Please select at least one answer." |
| Scoring.McqMultiExact | src/lib/scoring.ts:65-72 | without repeats, correct iff the selected set equals the correct set |
| Scoring.McqMultiAnyOrder | src/lib/scoring.ts:65-77 | any rearrangement of the correct list is correct with score 1 |
| Scoring.McqMultiPartial | src/lib/scoring.ts:68-78 | without repeats the score lies in [0,1]; when wrong, score = partial credit = max(0, (in − out)/|correct|) |
| Scoring.McqMultiProperSubset | src/lib/scoring.ts:68-77 | a non-empty proper subset of the correct set is wrong but scores strictly between 0 and 1 |
| Scoring.McqMultiDuplicatesQuirk | src/lib/scoring.ts:68-73 | repeating one correct option is accepted as correct and can score 1.5 |
| Scoring.CountSplit | src/lib/scoring.ts:68-69 | in-set and out-of-set counts add up to the list length |
| Scoring.CountInNoDup | src/lib/scoring.ts:68 | without repeats the in-set count is the size of the intersection |
| Scoring.ShortAnswerNoText | src/lib/scoring.ts:88-94 | a missing, empty or non-string answer scores 0 with "Please provide an answer." |
| Scoring.Normalize | src/lib/scoring.ts:96 | the normal form is no longer than the text, has no upper-case ASCII letter, and neither starts nor ends with white space |
| Scoring.ScoreShortAnswer | src/lib/scoring.ts:87-109 | a missing, empty or non-string answer gets "Please provide an answer."; otherwise correct iff its normal form equals that of some accepted answer; score 1 iff correct, else 0 |
| Scoring.ShortAnswerRule | src/lib/scoring.ts:96-108 | correct iff the normalised answer equals some normalised accepted answer (a single string is a one-element list); score 1 iff correct |
| Scoring.Accepted | src/lib/scoring.ts:98-100 | a single canonical string is a one-element accepted list; a list is taken as it is |
| Scoring.ShortAnswerIgnoresCaseAndSpace | src/lib/scoring.ts:96 | surrounding white space and upper/lower case of the answer do not change the result |
| Scoring.ToLowerIdempotent | src/lib/scoring.ts:96 | lower-casing twice is lower-casing once |
| Scoring.ScoreFillBlank | src/lib/scoring.ts:128-130 | correct iff the answer is a non-empty string whose normal form equals that of some accepted answer; score 1 iff correct, else 0 |
| Scoring.FillBlankSameAsShortAnswer | src/lib/scoring.ts:128-130 | a fill-in-the-blank question scores exactly as the same question as short answer |
| Scoring.ScoreTrueFalse | src/lib/scoring.ts:111-126 | a missing answer gets "Please select True or False."; otherwise correct iff it is the canonical value itself; score 1 iff correct, else 0 |
| Scoring.TrueFalseRule | src/lib/scoring.ts:111-125 | a missing answer scores 0 with "Please select True or False."; otherwise correct iff it is the canonical boolean; score 1 iff correct |
| Scoring.PairKey | src/lib/scoring.ts:144 | a pair's key is its left id, "-", then its right id; a string element gives "undefined-undefined" |
| Scoring.Keys | src/lib/scoring.ts:144-145 | one `left-right` key per pair, position by position |
| Scoring.ScoreMatch | src/lib/scoring.ts:132-164 | a correct answer scores exactly 1 with no partial credit; the score is never negative and equals the partial credit when there is one (the count rule in MatchCountRule) |
| Scoring.MatchNoList | src/lib/scoring.ts:136-142 | a missing or non-list answer scores 0 with "Please match all items." |
| Scoring.MatchExact | src/lib/scoring.ts:144-151 | without repeated keys, correct iff the user's key set equals the correct key set |
| Scoring.MatchAnyOrder | src/lib/scoring.ts:147-151 | any rearrangement of the correct pairs is correct |
| Scoring.MatchScoreBounds | src/lib/scoring.ts:147-156 | without repeated keys the score lies in [0,1] |
| Scoring.MatchKeyCollision | src/lib/scoring.ts:144-148 | two different pairs can share a key, so a wrong pair can be accepted |
| Scoring.MatchCountRule | src/lib/scoring.ts:147-156 | correct iff the count of user pairs with a canonical key equals the canonical length and the lengths agree; otherwise the score is that count over the canonical length |
| Scoring.MatchHalfExample | src/lib/scoring.ts:147-157 | one of two pairs matched is wrong with score 1/2 |
| Scoring.ScoreOrder | src/lib/scoring.ts:166-205 | a correct answer scores exactly 1 with no partial credit; the score is never negative and equals the partial credit when there is one (the four branches in OrderRule) |
| Scoring.OrderRule | src/lib/scoring.ts:166-205 | non-list → 0 "Please arrange all items in order."; length mismatch → 0 "Please include all items in your answer."; the exact order → correct, 1; otherwise wrong with score LCS/|correct| and "Close!" feedback iff the score exceeds 1/2 |
| Scoring.OrderScoreIsLcsRatio | src/lib/scoring.ts:183-199 | for an answer of the right length the score is always LCS/|correct|, the exact order included |
| Scoring.OrderSwapExample | src/lib/scoring.ts:194-199 | swapping the first two of three items scores 2/3 |
| Scoring.Lcs | src/lib/scoring.ts:207-223 | the LCS length is at most either length |
| Scoring.LcsIsLongest | src/lib/scoring.ts:207-223 | some common subsequence has the LCS length, and none is longer |
| Scoring.LcsUpperBound | src/lib/scoring.ts:207-223 | every common subsequence is at most the LCS length |
| Scoring.LcsWitnessIsCommon | src/lib/scoring.ts:207-223 | the reconstructed witness is a common subsequence of the LCS length |
| Scoring.LcsSymmetric | src/lib/scoring.ts:207-223 | the LCS length does not depend on argument order |
| Scoring.LcsSelf | src/lib/scoring.ts:207-223 | a list's LCS with itself is its length |
| Scoring.LcsPrefixStep | src/lib/scoring.ts:214-218 | the table recurrence: +1 on equal last items, else the larger neighbour |
| Scoring.LongestCommonSubsequence | src/lib/scoring.ts:207-223 | the nested-loop table fill returns the LCS length |
| Utils.ShuffleArray | src/lib/utils.ts:12-19 | the result is a permutation of the input (same length and multiset); the input is a value and stays unchanged |
| Utils.CalculateAccuracy | src/lib/utils.ts:27-30 | 0 for no questions; otherwise 100·correct/total rounded half up; at most 100 when correct ≤ total |
| Utils.AccuracyExtremes | src/lib/utils.ts:27-30 | all correct gives 100, none gives 0 |
| Utils.AccuracyMonotone | src/lib/utils.ts:27-30 | more correct answers never lower the accuracy |
| Utils.GetScoreStars | src/lib/utils.ts:32-37 | at most 3 stars: 3 iff ≥ 90, at least 2 iff ≥ 70, at least 1 iff ≥ 50 |
| Utils.StarsMonotone | src/components/play-client.tsx:38-43 | a higher accuracy never earns fewer stars |
| Utils.PadTwo | src/lib/utils.ts:24 | two digits whose value is the number |
| Utils.FormatTime | src/lib/utils.ts:21-25 | digits, a colon, then exactly two digits |
| Utils.FormatTimeParsesBack | src/lib/utils.ts:21-25 | minutes = s div 60 and the two-digit field = s mod 60, so minutes·60 + seconds = s |
| Utils.FormatTimeExamples | src/components/play-client.tsx:45-49 | 65 s shows as "1:05", 600 s as "10:00" |
| Utils.GetSubjectColor | src/lib/utils.ts:47-58 | each subject has its colour; grey iff the input is not one of the three |
| Utils.GetDifficultyColor | src/lib/utils.ts:60-71 | each difficulty has its colour; grey iff the input is absent or unlisted |
| Persistence.FindIndex | src/lib/persistence.ts:93 | `findIndex` over profiles by id and, at line 119, over progress records by set id: the first position whose key is the id, or none iff no element has it |
| Persistence.CountCorrect | src/lib/persistence.ts:155 | the number of correct attempts is at most the number of attempts |
| Persistence.CountCorrectIsPositionCount | src/lib/persistence.ts:155 | it equals the number of positions holding a correct attempt |
| Persistence.FreshProgress | src/lib/persistence.ts:144-150 | a new record has the set id, no attempts and zero score, total and time |
| Persistence.AppendAttempt | src/lib/persistence.ts:141-156 | at most one record is added |
| Persistence.AppendAttemptNewSet | src/lib/persistence.ts:141-156 | without a record for the set, one fresh record is appended holding just the attempt, score 1 or 0 by correctness, and the attempt's time |
| Persistence.AppendAttemptExistingSet | src/lib/persistence.ts:154-156 | with a record, only that record changes: attempt appended at the end, score recounted, time increased by the attempt's time |
| Persistence.AppendAttemptScoreIsCorrectCount | src/lib/persistence.ts:154-155 | afterwards the set's record ends with the attempt and its score is the number of correct attempts |
| Persistence.AppendAttemptKeepsUnique | src/lib/persistence.ts:141-154 | at most one record per set id is preserved |
| Persistence.UpsertProgress | src/lib/persistence.ts:119-125 | the saved record is in the list; the list grows by one iff no record had the set, otherwise keeps its length; every record of another set keeps its position |
| Persistence.UpsertThenFind | src/lib/persistence.ts:119-125 | after the upsert the first record for the set is the saved one, and every record of another set keeps its position |
| Persistence.UpsertKeepsUnique | src/lib/persistence.ts:119-125 | at most one record per set id is preserved; the length grows only for a new set |
| Persistence.ApplyUpdate | src/lib/persistence.ts:97 | each supplied field overwrites, each absent field is kept |
| Persistence.EmptyUpdateIsIdentity | src/lib/persistence.ts:97 | an update with no fields changes nothing |
| Persistence.RemoveProfile | src/lib/persistence.ts:103 | no profile with the id remains; every other profile remains |
| Persistence.RemoveProfileKeepsOrder | src/lib/persistence.ts:103 | the remaining profiles keep their order: the result is a subsequence of the list |
| Persistence.RemoveAbsentProfile | src/lib/persistence.ts:103 | removing an absent id leaves the list unchanged |
| Persistence.UpdateTouchesOneProfile | src/lib/persistence.ts:91-99 | only the first matching profile changes, all others are kept |
| Persistence.ProfileStore.GetCurrentProfile | src/lib/persistence.ts:48-61 | none when the pointer is missing or the empty id; otherwise the first profile with the pointed id, none iff there is none |
| Persistence.ProfileStore.GetSetProgress | src/lib/persistence.ts:130-133 | the first record for the set in the first profile with the id: every earlier profile and record has another id; none iff either is absent |
| Persistence.ProfileStore.SetCurrentProfile | src/lib/persistence.ts:63-67 | sets the pointer, profiles untouched |
| Persistence.ProfileStore.UpdateProfile | src/lib/persistence.ts:91-99 | an unknown id changes nothing; otherwise the first match becomes the updated profile and nothing else changes |
| Persistence.ProfileStore.DeleteProfile | src/lib/persistence.ts:101-110 | profiles with the id are filtered out; the pointer is cleared iff it named that id |
| Persistence.ProfileStore.SaveSetProgress | src/lib/persistence.ts:113-128 | an unknown profile changes nothing; otherwise only that profile's progress becomes the upsert |
| Persistence.ProfileStore.AddQuestionAttempt | src/lib/persistence.ts:135-159 | an unknown profile changes nothing; otherwise only that profile's progress becomes the find-or-create-then-append result |
| PlayClient.FindChoice | src/components/play-client.tsx:85-90 | the first choice with the id, or none iff no choice has it |
| PlayClient.ProcessAnswer | src/components/play-client.tsx:80-101 | the answer changes only for a single-choice question whose string names a choice id, and then becomes that choice's text |
| PlayClient.ProcessAnswerChoiceId | src/components/play-client.tsx:85-90 | a choice's id is translated to its text |
| PlayClient.ProcessAnswerKeepsOthers | src/components/play-client.tsx:84-100 | answers to other question types, and non-strings, are stored unchanged |
| PlayClient.FalseAnswerIsRejected | src/components/play-client.tsx:109-112 | `false` and `''` are falsy and cannot be submitted; an empty list and `true` can |
| PlayClient.RoundToSeconds | src/components/play-client.tsx:122 | round(elapsed/1000): within half a second of the elapsed time |
| PlayClient.RoundToSecondsExamples | src/components/play-client.tsx:122 | 1499 ms → 1 s, 1500 ms → 2 s, −500 ms → 0 s (half rounds up) |
| PlayClient.TallyBoundsAccuracy | src/components/play-client.tsx:243-354 | if each question scored at most once, score ≤ total and accuracy ≤ 100 |
| PlayClient.MakeAttempt | src/components/play-client.tsx:115-125 | the attempt records the question, answer and verdict; hintsUsed is 1 iff the hint was shown; time is the rounded elapsed seconds |
| PlayClient.StoredAnswer | src/components/play-client.tsx:106 | the stored answer for the id, absent iff none was given |
| PlayClient.QuizSession.CurrentQuestion | src/components/play-client.tsx:79 | the question under the cursor, one of the session's questions |
| PlayClient.QuizSession.constructor | src/components/play-client.tsx:55-78 | a permutation of the questions (shuffled only for random order), cursor 0, empty maps, zero score, both clocks at the start time |
| PlayClient.QuizSession.SetAnswer | src/components/play-client.tsx:80-101 | only the current question's stored answer changes, to the processed answer |
| PlayClient.QuizSession.Submit | src/components/play-client.tsx:103-159 | rejected and nothing changes iff the stored answer is falsy; otherwise the result is the scoring of it, the attempt is recorded in the current profile, feedback is shown for the current question only, and the score rises by 1 iff correct |
| PlayClient.QuizSession.ShowResult | src/components/play-client.tsx:134-149 | the attempt, feedback flag and message are set for the one question; score +1 iff correct, never by partial credit |
| PlayClient.StoreWithAttempt | src/lib/persistence.ts:135-159 | the profile list keeps its length; without a profile of that id it is unchanged; each profile is either unchanged or has that id and the attempt added to its progress |
| PlayClient.RecordAttempt | src/components/play-client.tsx:128-131 | the attempt is appended to the current profile's progress for the set; no current profile, no change |
| PlayClient.TallyStep | src/components/play-client.tsx:134-149 | scoring a question not yet shown keeps score ≤ number of shown questions ⊆ session questions |
| PlayClient.QuizSession.Next | src/components/play-client.tsx:161-178 | at the last question completes and keeps the cursor; otherwise moves on and restarts the question clock; the cursor stays in range |
| PlayClient.QuizSession.Previous | src/components/play-client.tsx:180-191 | moves back and restarts the question clock only when not at the first question |
| PlayClient.QuizSession.RequestHint | src/components/play-client.tsx:193-204 | only sets the current question's hint flag to true |
| PlayClient.QuizSession.Restart | src/components/play-client.tsx:206-222 | cursor 0, all five maps empty, score 0, not completed, same questions, both clocks reset |
| PlayClient.QuizSession.Accuracy | src/components/play-client.tsx:243 | at most 100 when score ≤ total, 100 when all correct |
| PlayClient.QuizSession.AccuracyAtMost100 | src/components/play-client.tsx:243-354 | with each question scored at most once, score ≤ total and accuracy ≤ 100 |
| PlayClient.QuizSession.Stars | src/components/play-client.tsx:38-43 | the summary's stars: at most 3; 3 iff accuracy ≥ 90, at least 2 iff ≥ 70, at least 1 iff ≥ 50 |
| Dashboard.DuplicateIds | src/app/dashboard/page.tsx:63-64 | an id is reported iff it occurs at two different positions |
| Dashboard.IndexOf | src/app/dashboard/page.tsx:63-64 | the first position of the id |
| Dashboard.DuplicatesIn | src/app/dashboard/page.tsx:63-64 | reported ids come from the scanned prefix |
| Dashboard.DuplicatesInIff | src/app/dashboard/page.tsx:63-64 | an id is reported iff it occurs at two positions |
| Dashboard.NoDuplicatesIffNoDup | src/app/dashboard/page.tsx:63-66 | nothing is reported iff the id list has no repeats |
| Dashboard.MissingIds | src/app/dashboard/page.tsx:73 | an id is reported iff the set lists it and no uploaded question has it |
| Dashboard.MissingIdsEmpty | src/app/dashboard/page.tsx:73-74 | nothing is missing iff every listed id is known |
| Dashboard.FindMissingReference | src/app/dashboard/page.tsx:71-77 | none iff every set's references resolve; otherwise the first offending set's title and its non-empty missing ids |
| Dashboard.KeepOutside | src/app/dashboard/page.tsx:100-105 | keeps exactly the items whose id is not uploaded |
| Dashboard.HasConflicts | src/app/dashboard/page.tsx:83-89 | true iff some uploaded question shares its id with a stored question, or some uploaded set with a stored set |
| Dashboard.Merge | src/app/dashboard/page.tsx:80-128 | declined iff there is stored data, it conflicts, and the user refuses |
| Dashboard.MergeIntoNothing | src/app/dashboard/page.tsx:124-127 | with no stored data the upload is stored as it is |
| Dashboard.MergeWithoutConflicts | src/app/dashboard/page.tsx:114-122 | without conflicts, stored ++ uploaded, for questions and for sets |
| Dashboard.MergeReplace | src/app/dashboard/page.tsx:99-110 | on accepted replace every uploaded item is present, and an old item survives iff its id is not uploaded |
| Dashboard.ReplaceMembers | src/app/dashboard/page.tsx:100-109 | after filtering and appending, every uploaded item is present and an old item remains iff it is uploaded again or its id is not uploaded |
| Dashboard.MergeDeclined | src/app/dashboard/page.tsx:89-97 | conflicts plus refusal store nothing |
| Dashboard.KeepOutsideUnique | src/app/dashboard/page.tsx:100-105 | filtering keeps ids unique |
| Dashboard.AppendUnique | src/app/dashboard/page.tsx:107-109 | joining two id-disjoint unique lists keeps ids unique |
| Dashboard.MergeKeepsQuestionIdsUnique | src/app/dashboard/page.tsx:80-128 | merging two lists of unique question ids yields unique ids |
| Dashboard.JoinComma | src/app/dashboard/page.tsx:67 | the empty list joins to "", one id to itself, and a longer list is its first id, ", " and the join of the rest |
| Dashboard.JoinCommaSnoc | src/app/dashboard/page.tsx:67 | joining one more id appends ", " and that id |
| Dashboard.JoinCommaLength | src/app/dashboard/page.tsx:67 | the joined text is the ids' total length plus two characters per separator |
| Dashboard.Acceptable | src/app/dashboard/page.tsx:58-77 | an upload passes iff it meets the schema, both duplicate reports are empty and every set's question ids resolve |
| Dashboard.HandleFileUpload | src/app/dashboard/page.tsx:61-150 | rejected iff unparsable or failing schema, duplicate or reference checks, with each check's message: the question and set duplicates joined after "Duplicate IDs found: ", and the first failing set's title and missing ids; cancelled iff the merge is declined; otherwise stored as the merge says and the upload appended to the history |
| QuestionsRoute.DifficultyFor | src/app/api/questions/route.ts:51-52 | easy iff grade ≤ 2, hard iff grade > 4, else medium |
| QuestionsRoute.ChoiceId | src/app/api/questions/route.ts:46 | the id is the question id, "_choice_", then decimal digits that read back as the option index |
| QuestionsRoute.ChoiceIdInjective | src/app/api/questions/route.ts:46 | distinct positions give distinct choice ids |
| QuestionsRoute.Choices | src/app/api/questions/route.ts:45-48 | option order kept; choice i is `<qid>_choice_i` with text option i |
| QuestionsRoute.ConvertQuestion | src/app/api/questions/route.ts:38-54 | single choice, file subject, topic "Grade g", capitalised skill, answer = text of the correct option, difficulty by grade, tags `grade-g` and the subject; schema-valid |
| QuestionsRoute.ConvertFileQuestions | src/app/api/questions/route.ts:38 | one converted question per source question, in order |
| QuestionsRoute.ConvertSet | src/app/api/questions/route.ts:58-68 | id `grade-g-subject`, the question ids in order, random order, 60 s per question |
| QuestionsRoute.ConvertedSetValidIffNonEmpty | src/app/api/questions/route.ts:67 | the set meets the positive-time-limit schema iff the file has a question |
| QuestionsRoute.ConvertToAppFormat | src/app/api/questions/route.ts:32-72 | the loop's accumulators end as all converted questions file after file, and one set per file in order |
| QuestionsRoute.AllQuestions | src/app/api/questions/route.ts:36-56 | every produced question is among the converted questions of some file (FileQuestionsIncluded gives the converse) |
| QuestionsRoute.AllQuestionsStep | src/app/api/questions/route.ts:56-68 | one more file appends its converted questions and its set at the end |
| QuestionsRoute.AllQuestionsCount | src/app/api/questions/route.ts:36-56 | the question count is the sum of the per-file counts |
| QuestionsRoute.ConvertedSets | src/app/api/questions/route.ts:58-68 | one set per file, in file order |
| QuestionsRoute.FileQuestionsIncluded | src/app/api/questions/route.ts:56 | every file's every question is converted into the output |
| QuestionsRoute.SetIdsKnown | src/app/api/questions/route.ts:65 | each id a set lists is a converted question's id |
| QuestionsRoute.ConvertedReferencesResolve | src/app/api/questions/route.ts:32-72 | the conversion output passes the upload's reference check |
| QuestionsRoute.PickingChoiceScores | src/app/api/questions/route.ts:45-49 | picking choice i stores option i's text, scored correct iff it equals the correct option's text |
| StaticData.FindSet | src/lib/static-data.ts:156-158 | the first set with the id: every earlier set has another id; none iff no set has it |
| StaticData.QuestionsIn | src/lib/static-data.ts:161 | exactly the repository questions whose id the set lists |
| StaticData.QuestionsInKeepsOrder | src/lib/static-data.ts:161 | the candidates are a subsequence of the repository (repository order, not the set's) |
| StaticData.QuestionsInNoDup | src/lib/static-data.ts:161 | distinct repository entries give distinct candidates |
| StaticData.GetSetData | src/lib/static-data.ts:154-176 | none iff no set has the id; ≤ 20 candidates are kept unchanged, more give 20 of them (a sub-multiset); the returned set lists exactly the returned questions' ids |
| StaticData.SetDataDistinct | src/lib/static-data.ts:164-166 | with distinct repository entries, the returned questions are distinct |
| StaticData.SubMultisetNoDup | src/lib/static-data.ts:166 | part of a permutation of a repeat-free list has no repeats |
| StaticData.Unique | src/lib/static-data.ts:114 | `[...new Set(xs)]`: no repeats and exactly the values of the input |
| StaticData.UniqueKeepsOrder | src/lib/static-data.ts:114 | de-duplication keeps the order of first occurrence: the result is a subsequence of the input |
| StaticData.UniqueOfNoDup | src/lib/static-data.ts:114 | de-duplicating a repeat-free list changes nothing |
| StaticData.QuestionsOf | src/lib/static-data.ts:112 | exactly the questions of the subject |
| StaticData.QuestionsOfKeepsOrder | src/lib/static-data.ts:112 | the subject filter keeps the repository order |
| StaticData.SetsOf | src/lib/static-data.ts:113 | exactly the sets of the subject |
| StaticData.SetsOfKeepsOrder | src/lib/static-data.ts:113 | the subject filter keeps the order of the sets |
| StaticData.Topics | src/lib/static-data.ts:114 | each topic of the questions exactly once |
| StaticData.BucketOf | src/lib/static-data.ts:110-125 | a subject's questions and sets, and its topics: each topic of that subject's questions, listed once |
| StaticData.GetSubjectData | src/lib/static-data.ts:107-129 | each question and set is in its own subject's bucket and no other; each bucket lists exactly its subject's topics, once each |
| StaticData.QuestionBucketsPartition | src/lib/static-data.ts:112-122 | the three question buckets' sizes add up to the question count |
| StaticData.SetBucketsPartition | src/lib/static-data.ts:113-123 | the three set buckets' sizes add up to the set count |
| StaticData.GetAvailableSubjects | src/lib/static-data.ts:132-135 | each subject used by some question, exactly once, at most three |
| StaticData.GetAvailableSetIds | src/lib/static-data.ts:138-141 | every set's id, in order |

## Left out

- Floating point: scores, accuracy and time rounding are exact rationals. A ratio such as 29/200 rounds half up here, while in doubles it may round down.
- Unicode case mapping: `toLowerCase` and `toUpperCase` are modelled on ASCII letters only. `trim` uses the full JavaScript white-space set.
- Scoring.ScoreQuestion: requires `AnswerFitsType`, the canonical-answer shape each rule is written for. The source throws or computes NaN for some other shapes, such as a string canonical answer for multiple choice, an order question whose string canonical answer has the user's length, or an empty canonical list for matching against a non-empty user list (0/0). An empty canonical list against an empty user list is scored correct, 1, "Perfect matching!", and is excluded too. It handles three other shapes without error, and the model excludes them too: multiple choice with a list of pairs as canonical answer (score 0), ordering with a list of pairs of the user's length (LCS 0, score 0), and ordering with a boolean canonical answer or a string one of another length ("Please include all items in your answer.").
- PlayClient.QuizSession.constructor: requires at least one question. The source builds its state from an empty list too and fails only when it renders the current question (play-client.tsx:235-236), so a session over no questions is not modelled. It also requires every question to have the canonical-answer shape of its type (`AnswerFitsType`), the exclusion described for Scoring.ScoreQuestion.
- Scoring.LongestCommonSubsequence: the table is a Dafny `array2` of naturals. JavaScript's array of arrays and `Math.max` on doubles are not modelled.
- PlayClient.QuizSession.Submit: the invariant "score ≤ number of questions shown with feedback" is kept only when the current question has not been submitted yet. The user interface enforces this by disabling input while feedback shows (play-client.tsx:354). The model states it as a precondition of that ensures, not as a guard in Submit.
- PlayClient.QuizSession.Submit: when a user answers "False" to a true/false question, the stored `false` is rejected by the truthiness guard, so such an answer cannot be submitted. This is modelled as written (PlayClient.FalseAnswerIsRejected).
- Persistence.ApplyUpdate: a field present in the update but explicitly `undefined` overwrites with `undefined` in the source. Here every field is either supplied or absent.
- Storage: `localStorage`, JSON (de)serialisation and the `typeof window` guards are not modelled. The profile list and the stored data are fields or parameters.
- `getProfiles`, `saveProfiles`, `createProfile`, `generateProfileId`, `generateId`, `exportProfile`, `importProfile`, `clearAllData`, `getAppData`, `saveAppData`, `getUploadedData` and `addUploadedData` are not modelled, because they are storage I/O or random id generation. The upload history is a parameter of Dashboard.HandleFileUpload.
- Zod parsing internals are not modelled. Only the constraints the schemas state are modelled (Types.ValidQuestion, Types.ValidSet), and media URL syntax is not checked. Parsing and schema validation are inputs of Dashboard.HandleFileUpload (`None` for invalid JSON, `ValidData` for the schema).
- The dashboard's `confirm()` dialog is the boolean `confirmReplace`. Toasts, validation-error display and React state setters are not modelled.
- QuestionsRoute.ConvertQuestion: requires 0 ≤ correct < |options|. With an index outside that range, the source stores `undefined` as the answer, which the model does not represent.
- QuestionsRoute: grades are natural numbers; negative grades and non-integer grades are not modelled. `loadQuestionFile` and `GET` read files and are not modelled. The legacy question's own `type` field is ignored, as in the source.
- StaticData: `getStaticAppData`, its cache, the file-system reads, and `getAvailableGrades`/`getGradeData`/`getGradeMetadata` are not modelled, because they are file I/O. All selections run over a given data value.
- StaticData.GetSetData: over twenty candidates it promises a twenty-element sub-multiset of the candidates, not which twenty. The pick is random in the source.
- Randomness: every `Math.random` call is a parameter (`picks`). The quiz session shuffles only when the set asks for random order.
- Clocks: `Date.now()` and `new Date()` are natural-number parameters. A question attempt's `timestamp` is a number rather than a `Date`.
- `formatDate`, `speakText`, `stopSpeaking`, `cn`, `getPersonalizedMessage` and all rendering are not modelled, because they are locale formatting, browser APIs, a class-name library, random message choice and UI.
