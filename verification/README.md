# Verified model of the evidence service and its evaluation tools

This project models the hardest parts of a service that checks the factual claims of short videos,
and of the tools that evaluate it, and proves what they promise. It covers:

- **Scoring** (`evaluation/benchmark.py`, `evaluation/asr_experiment.py`): the edit-distance program with
  its flat trace array, the error counts and entity spans read off it, subtitle anchors, greedy box
  matching and track linking.
- **Speech** (`backend/services/asr`, `backend/services/provider_budgets.py`, `evaluation/asr_policy.py`):
  the quota ledger with its rolling windows, the two-model run as a crash-tolerant protocol, the reported
  recovery time, and the agreement of the production run with the reference policy.
- **Reports** (`backend/services/reports.py`, `reanalysis.py`, `evidence/assessment.py`,
  `evidence/stages.py`): citations, the three ways a version is built from the latest one, the races
  between them, and the chain of jobs behind a reanalysis.
- **Captures and audio** (`backend/services/captures.py`, its routes, and `pcm_audio`): the manifest that
  accounts for every millisecond, and the buffer that places decoded samples.
- **Checks on data** (`packages/contracts/validate.py`, `evaluation/validate.py`): the schema interpreter
  and the isolation of the dev and test splits.
- **Selection** (`evaluation/ocr_experiment.py`, `backend/services/evidence/retrieval.py`, `bm25.py`): frame
  sampling and the ranking of papers.

Code that changes things step by step is a method or a class here, with loops and invariants, and is
tied to a specification by its contract; the properties are lemmas about that specification. Code that
copies and computes is a function.

`dafny verify dfyconfig.toml` checks the whole project.

## What the proofs found

Where the code does less than a reader might expect, a lemma gives an input and another says exactly
when the code does meet the expectation:

- A worker that stalls between its heartbeat and its request may send the primary model after another
  worker has finished the same run (`SpeechProtocol.StalledWorkerSendsLate`): exactly when the run has a
  result already, or is the current run of a job that has not ended and its fallback has no row yet or
  one that the holder of the lease is working on (`SpeechProtocol.LateSendIff`). A fallback request is
  never late.
- Production and reference speech policies agree exactly unless the fallback alone is marked; then
  production sends nothing and the reference calls the primary (`SpeechPolicy.AgreeUnlessOnlyFallbackMarked`,
  and for the two methods themselves `SpeechPolicy.TranscribeBoth`).
- A second expansion by the same version of a full video is refused unless that version has neither
  evidence nor assessments; then it succeeds and repeats every claim identifier, which the citation check
  does not look at (`Expansion.SecondExpansion`, `Expansion.SecondExpansionRepeatsClaims`). No wording is
  lost by that (`ReportHistory.RunKeepsWording`), but from then on a run that assesses every claim is
  refused (`EvidenceMerge.RepeatedClaimsAreRefused`).
- Relaxed validation may refuse what strict validation accepts, below `oneOf` and below `not`
  (`SchemaValidator.RelaxedOneOfRefuses`, `SchemaValidator.RelaxedNotRefuses`).
- An accepted sampling pass may leave four seconds without a probe, because the check of the last decoded
  frame also accepts a frame past the end (`VideoSampling.FourSecondsMissed`, `VideoSampling.MissedSeconds`).
- Of several hits of one work the newest version is kept exactly when one of the newest carries a summary
  or nothing with a summary was found after the last of them (`Retrieval.HighestKeptIff`); the
  documentation string of `dedupe` promises the latest version without that condition.

## Model

| member | source | states |
|---|---|---|
| `Alignment.Align` | evaluation/benchmark.py:190-227 | fails exactly above 5000 tokens; otherwise the script consumes every position of both texts once, in order, with right labels, no script has fewer edits, and of those with as few it is the one that prefers, reading from the end, equal or substituted over deleted over inserted |
| `Alignment.ChosenIsUnique` | evaluation/benchmark.py:205-227 | only one script has these properties |
| `Alignment.ScriptIsChosen` | evaluation/benchmark.py:205-227 | the script read off the table has them: at the last place where it differs from an equally short one, its edit comes first in that order |
| `Alignment.FillRow` | evaluation/benchmark.py:201-213 | one pass of the inner loop writes that row's operations into the trace, leaves earlier rows alone and returns the next row of distances |
| `Alignment.CreateTrace` | evaluation/benchmark.py:196-200 | the zeroed trace gets the insertions of its top row; the first distances count insertions |
| `Alignment.FillTrace` | evaluation/benchmark.py:196-213 | the finished trace holds, cell by cell, the first cheapest operation |
| `Alignment.WalkBack` | evaluation/benchmark.py:214-227 | the reversed walk is the script of the distance table |
| `Alignment.CellPosition` | evaluation/benchmark.py:212-217 | the flat position of a cell is inside the trace and holds that cell's operation |
| `Alignment.IsScriptIffAligns` | evaluation/benchmark.py:214-227 | the two readings of what an alignment is, position lists and recursion, agree |
| `Alignment.LeastScript` | evaluation/benchmark.py:190-227 | the script is an alignment and no alignment of the texts has fewer edits that are not "equal" |
| `Alignment.DistIsLowerBound` | evaluation/benchmark.py:205-211 | no alignment of two prefixes is cheaper than their table cell |
| `Alignment.ScriptIsOptimal` | evaluation/benchmark.py:205-227 | the script read off the table is an alignment and costs exactly the table cell |
| `Alignment.ReplayGivesHypothesis` | evaluation/benchmark.py:214-227 | applying any alignment to the reference gives the hypothesis |
| `Alignment.ErrorsAreAMetric` | evaluation/benchmark.py:230-242 | the total number of errors is zero exactly for equal texts, symmetric, and obeys the triangle inequality |
| `Alignment.DistTriangle` | evaluation/benchmark.py:205-211 | the triangle inequality for every three prefixes |
| `Alignment.DistLength` | evaluation/benchmark.py:205-211 | a distance is at least the difference in length and at most the sum |
| `Scoring.ErrorCounts` | evaluation/benchmark.py:230-242 | the three counts are those of the edits of the preferred shortest script; they add up to the least number of edits, deletions exceed insertions by the difference in length, and the rate divides by the reference or is absent |
| `Scoring.LengthDifference` | evaluation/benchmark.py:232-236 | for any alignment, deletions less insertions is the difference in length |
| `Scoring.EntityCorrect` | evaluation/benchmark.py:327-342 | a span is reported correct exactly when the script keeps it as one contiguous run of the hypothesis, and that run spells the same words |
| `Scoring.SpanKept` | evaluation/benchmark.py:336-340 | the test on edits is equivalent to a constant shift of the whole span |
| `Scoring.ScoreEntities` | evaluation/benchmark.py:325-348 | fails exactly on an invalid or repeated span; otherwise counts per category its spans and its incorrect ones, and gives the share of incorrect ones or none |
| `SubtitleAnchors.SubtitleTiming` | evaluation/asr_experiment.py:119-172 | fails exactly when a segment has no proper times or a text is too long; otherwise the matches are, in order, exactly the segments that the script maps to a run of whole cues, timed by the first and last cue |
| `SubtitleAnchors.ReadCues` | evaluation/asr_experiment.py:121-126 | the words of all cues, and by word position the times at which cues start and end, the last cue winning where several meet |
| `SubtitleAnchors.ReadChunks` | evaluation/asr_experiment.py:127-152 | stops exactly when some segment's times are reversed or not finite numbers; otherwise the hypothesis, each segment's token range and rounded times on the capture clock, and the rows whose times leave their chunk |
| `SubtitleAnchors.SegmentReported` | evaluation/asr_experiment.py:127-152 | every segment of every chunk has its row, with its own words, its times on the capture clock to half a millisecond, listed as outside when it leaves its chunk |
| `SubtitleAnchors.TimedIffProper` | evaluation/asr_experiment.py:130-138 | the reading succeeds exactly when every segment of every chunk has finite times in order |
| `SubtitleAnchors.RowTimes` | evaluation/asr_experiment.py:142-149 | every row's times are in order and within half a millisecond of those reported |
| `SubtitleAnchors.ReadMapping` | evaluation/asr_experiment.py:153 | the reference position of every hypothesis position that the script keeps |
| `SubtitleAnchors.MatchRow` | evaluation/asr_experiment.py:155-171 | one segment yields its match exactly when it is anchored |
| `SubtitleAnchors.ConsecutiveIffKept` | evaluation/asr_experiment.py:157-162 | the test on mapped positions holds exactly for a nonempty segment kept as one run, and for one shift only |
| `SubtitleAnchors.AnchorIsWholeCues` | evaluation/asr_experiment.py:160-171 | a matched segment says word for word what a run of whole cues says |
| `SubtitleAnchors.AnchorsInOrder` | evaluation/asr_experiment.py:154-171 | of two matched segments the earlier ends, in the cues, before the later starts |
| `SubtitleAnchors.EqualsInOrder` | evaluation/asr_experiment.py:153 | kept tokens never cross |
| `SubtitleAnchors.MatchesRepeatCues` | evaluation/asr_experiment.py:153-171 | the matches reported for any input repeat runs of whole cues word for word, with the times of their first and last cue, and the runs of different matches are disjoint and in order |
| `BoxMatching.IouMeaning` | evaluation/benchmark.py:411-421 | overlap is between 0 and 1, symmetric, 1 exactly for equal boxes, 0 exactly for boxes that share no interior |
| `BoxMatching.IouCountsCells` | evaluation/benchmark.py:415-421 | overlap is the number of unit cells inside both boxes over the number inside either |
| `BoxMatching.Candidates` | evaluation/benchmark.py:481-486 | exactly the pairs at or above the threshold, by falling overlap and then by position |
| `BoxMatching.MatchBoxes` | evaluation/benchmark.py:481-491 | the matching is one-to-one, made of pairs at or above the threshold, and every such pair left out has a side matched by a pair of larger overlap or equal overlap and earlier position; the used detections are those matched |
| `BoxMatching.StableIsUnique` | evaluation/benchmark.py:487-491 | only one matching satisfies that |
| `TrackLinking.LinkTracks` | evaluation/benchmark.py:455-533 | every detection is in one track, and each continues the first of the best linkable tracks of the frame before that are still free, or opens the next one |
| `TrackLinking.LinkDetection` | evaluation/benchmark.py:507-532 | one detection keeps all of that for the tracks so far |
| `TrackLinking.ChooseTrack` | evaluation/benchmark.py:509-523 | the first of the best overlapping free tracks with the same tokens, or none |
| `TrackLinking.EachDetectionOnce` | evaluation/benchmark.py:506-533 | every detection sits at one place of one track; neighbours in a track lie in consecutive frames, have equal tokens and overlap at or above the threshold |
| `TrackLinking.LinkingIsUnique` | evaluation/benchmark.py:506-533 | these rules determine the tracks of all detections completely, numbers included |
| `SpeechLedger.Ledger.constructor` | backend/services/asr/reservations.py:123-130 | an empty ledger keeps every cap |
| `SpeechLedger.Ledger.ReserveIn` | backend/services/asr/reservations.py:161-201 | reserves exactly when all four limits are configured and each of the last minute, hour and day, counted without an upper time bound, has room for the billable seconds; keeps every cap; otherwise changes nothing |
| `SpeechLedger.AdmissibleIffRoom` | backend/services/asr/reservations.py:122-184 | those four conditions are the loop over the configured windows |
| `SpeechLedger.BillableSeconds` | backend/services/asr/reservations.py:178 | the fewest whole seconds that cover the duration, one second and the configured minimum |
| `SpeechLedger.Ledger.Mark` | backend/services/asr/reservations.py:85-90 | claiming a reserved row changes nothing that counts |
| `SpeechLedger.Ledger.Report` | backend/services/asr/reservations.py:204-226 | recording how a request ended changes nothing that counts, and a recorded wait is one the adapter accepts |
| `SpeechLedger.WaitOf` | backend/services/asr/groq.py:215-228 | a wait is recorded exactly for a rate limit without a quota code and with a wait of at most the configured backoff, rounded up, so never more than an hour |
| `SpeechLedger.OutcomeOf` | backend/services/asr/groq.py:215-228 | a refusal is stored as a rate limit exactly when its wait is passed on, otherwise as exhausted quota; a row is completed exactly when an answer is stored |
| `SpeechLedger.AdmissionKeepsCaps` | backend/services/asr/reservations.py:133-184 | an admitted row keeps every window of every length within its limit, whatever the order of timestamps |
| `SpeechLedger.EveryRunIsCapped` | backend/services/asr/reservations.py:133-201 | over any history of reservations by any accounts, claims and reports, each half-open window holds at most its limit for every account and model, and no recorded wait is longer than an hour |
| `SpeechLedger.EveryLimitHolds` | backend/services/asr/reservations.py:122-201 | after any history, in any minute, hour or day, the rows of an account and model and their billed seconds stay within the configured requests per minute and day and seconds per hour and day |
| `SpeechLedger.CountingOnlyThePastIsNotEnough` | backend/services/asr/reservations.py:137-141 | with an upper time bound two reservations committed out of order would break a limit of one |
| `SpeechRecovery.WindowStatus` | backend/services/provider_budgets.py:105-131 | limit, what is available, reserve, and as recovery time exactly the least wait after which, with no new rows, usage is at most the limit less the reserve, equal timestamps included |
| `SpeechRecovery.LeastWait` | backend/services/provider_budgets.py:120-129 | the row whose release first covers the excess decides that time |
| `SpeechRecovery.AsrHold` | backend/services/provider_budgets.py:134-144 | the longest wait recorded by a rate-limited row of the last day |
| `SpeechRecovery.HoldExact` | backend/services/provider_budgets.py:134-144 | some wait is in force at a time exactly before the longest one ends: none outlasts the day for which its row is read |
| `SpeechRecovery.RefusalHolds` | backend/services/provider_budgets.py:134-144 | a refused request of the primary of this account holds the provider until exactly the end of the wait passed on |
| `SpeechRecovery.GroqStatus` | backend/services/provider_budgets.py:105-144 | one exact status per configured window and the hold; the provider is exhausted at a later time exactly before the reported pause ends |
| `SpeechRecovery.PauseIsLeast` | backend/services/provider_budgets.py:66-72 | the reported pause is exactly the least one: short windows or a hold in force at a later time mean that the pause is not over, and conversely |
| `SpeechRecovery.PauseEndsNearExhaustion` | backend/services/provider_budgets.py:66-72 | over every history, a status computed later shows near exhaustion exactly before the end of the pause reported earlier |
| `SpeechProtocol.RunIndexInjective` | backend/services/asr/reservations.py:26-27 | owner retries and scheduled retries never share a run index within the configured caps |
| `SpeechProtocol.RunKeepsInv` | backend/services/asr/fallback.py:61-106 | every interleaving of claims, lost leases, re-claims, crashes, ended and cancelled jobs, owner retries and model steps keeps the protocol's invariant |
| `SpeechProtocol.StepKeepsInv` | backend/services/asr/fallback.py:61-106 | each single step keeps it |
| `SpeechProtocol.AtMostOneSend` | backend/services/asr/fallback.py:69-106 | one run sends each model at most one request, each behind a ledger row that says it may have been sent |
| `SpeechProtocol.NoSendAfterCompletion` | backend/services/asr/fallback.py:61-93 | a worker about to send the fallback never meets a stored result of its run, with or without its lease; one about to send the primary does not while it holds its lease |
| `SpeechProtocol.LateSendIff` | backend/services/asr/fallback.py:83-93 | a request may go out after its run got a result exactly when it is for the primary and the run has a result, or is the current one of a job that has not ended, with no fallback row or one under way under the lease |
| `SpeechProtocol.FallbackOnlyAfterPrimary` | backend/services/asr/fallback.py:69-82 | the fallback is sent only in a run whose primary was refused quota or has a row that is not completed |
| `SpeechProtocol.StalledWorkerSendsLate` | backend/services/asr/fallback.py:83-93 | some run ends with a worker sending although its run has a result |
| `SpeechProtocol.MarkReservedKeepsInv` | backend/services/asr/reservations.py:70-90 | claiming the row of an owner retry keeps the invariant |
| `SpeechProtocol.MarkNewKeepsInv` | backend/services/asr/reservations.py:91-100 | reserving and marking a new row before the request keeps it |
| `SpeechProtocol.AnswerKeepsInv` | backend/services/asr/reservations.py:204-226 | recording an answer under the lease keeps it; without the lease nothing is written |
| `SpeechProtocol.OwnerRetryKeepsInv` | backend/services/api/routes/speech_retry.py:110-172 | an owner retry, allowed only when no model may have processed the audio, keeps it |
| `SpeechPolicy.Begin` | backend/services/asr/reservations.py:55-100 | refused as unavailable exactly when the first reservation of this run and model is of another account, for quota exactly when there is none and some window has no room; otherwise its row, claimed or new, says "uncertain"; nothing else changes |
| `SpeechPolicy.SendTo` | backend/services/asr/fallback.py:78-105 | an admitted model is sent and its row records how that ended; one that is not admitted is not sent and nothing changes |
| `SpeechPolicy.SentKeepsAdmission` | backend/services/asr/reservations.py:133-184 | a request of one model changes nothing about the admission of another |
| `SpeechPolicy.Transcribe` | backend/services/asr/fallback.py:49-106 | a stored result or an unknown request answers without a call; otherwise a model of the order is called exactly when the ledger as it was has no sent row of it, none of a later model in its stead, room for it, and no earlier model ended the run; the end is the first answer or the reason of the last model; the ledger gains the record of exactly the requests sent |
| `SpeechPolicy.ProductionRunsThrough` | backend/services/asr/fallback.py:69-106 | the calls and the end of the loop over the model order are those, whatever the ledger and the answers |
| `SpeechPolicy.CallsDiffer` | backend/services/asr/fallback.py:69-82 | a model is called at most once |
| `SpeechPolicy.FullPrimaryGoesToFallback` | backend/services/asr/fallback.py:74-106 | a fresh run whose primary has no room calls the fallback if that has room, and ends with its answer or its failure |
| `SpeechPolicy.AttemptsAreNewest` | backend/services/asr/reservations.py:38-52 | a run sees, of each model, exactly its newest row, if it has one |
| `SpeechPolicy.EveryCallIsRecorded` | backend/services/asr/fallback.py:94-105 | after a run every call has a row with its outcome, wait and result, and every row that is not a reservation of a called model stands as it was |
| `SpeechPolicy.TranscribeChunk` | evaluation/asr_policy.py:147-189 | the reference run for usable audio, and exactly which recognizers its ledger gains |
| `SpeechPolicy.AgreeUnlessOnlyFallbackMarked` | backend/services/asr/fallback.py:1-13 | with room for both models, no reservation of the run and some interrupted sends marked in the ledger, production calls the same models and ends the same way as the reference, exactly unless only the fallback is marked |
| `SpeechPolicy.TranscribeBoth` | backend/services/asr/fallback.py:1-13 | the same for the production method and the reference method run on one chunk |
| `Reports.ValidateCitations` | backend/services/evidence/assessment.py:266-287 | passes exactly the versions whose evidence ids and assessed claims are distinct, whose references stay inside the version and its claim, and whose empty assessments abstain |
| `Reports.IndexEvidence` | backend/services/evidence/assessment.py:269-271 | the index is shorter than the list exactly when an identifier repeats |
| `Reports.CheckAssessments` | backend/services/evidence/assessment.py:275-287 | passes exactly when no claim is unknown or repeated and every assessment is sound |
| `Reports.CheckAssessment` | backend/services/evidence/assessment.py:279-287 | passes exactly the assessments that carry the version, cite evidence of their own claim and abstain without any |
| `Assessing.OverallLabel` | backend/services/evidence/assessment.py:119-135 | each label by an exact condition on the relations present: mixed when one is mixed or a challenge meets support or qualification; challenged, qualified and supported when that is the strongest one left; insufficient exactly when nothing settles anything |
| `Assessing.CheckReply` | backend/services/evidence/assessment.py:88-103 | accepts exactly the replies whose items and passages name each other one to one |
| `Assessing.Assess` | backend/services/evidence/assessment.py:208-263 | an outcome has an assessment exactly when the claim was retrieved and, unless nothing was found, answered acceptably; its relations follow the passages and cite the evidence made from them, and its label is determined by what the reply says of the passages that count |
| `Assessing.AssessedSays` | backend/services/evidence/assessment.py:119-135 | relations and label are exactly those that the reply's words for the unretracted passages call for |
| `Assessing.RetractedNeverCounts` | backend/services/evidence/assessment.py:237-246 | what is said about retracted or withdrawn sources makes no difference to relations or label |
| `Assessing.AbstainsWhenNothingCounts` | backend/services/evidence/assessment.py:119-135 | the label abstains exactly when every relation is insufficient |
| `Corrections.CorrectionKeepsCitations` | backend/services/reanalysis.py:92-129 | the corrected version has valid citations although this path never checks them |
| `Corrections.CorrectionTouchesOneClaim` | backend/services/reanalysis.py:92-129 | one claim gets the new proposition and a record of the old one and loses its evidence and assessment; every other claim, everything about it and every original wording stays, assessments restamped |
| `Corrections.CorrectionCanBeTakenBack` | backend/services/reanalysis.py:95-109 | correcting back to the superseded proposition succeeds and restores every proposition |
| `EvidenceMerge.MergedVersion` | backend/services/evidence/stages.py:569-640 | builds the merge and returns it exactly when its citations are valid |
| `EvidenceMerge.AssessedSet` | backend/services/evidence/stages.py:579-599 | the assessed claims are exactly those assessed before and those newly assessed |
| `EvidenceMerge.OthersKept` | backend/services/evidence/stages.py:580-585 | a claim this run did not assess keeps its evidence, relations and label |
| `EvidenceMerge.OutcomeReplaces` | backend/services/evidence/stages.py:587-598 | of a claim this run assessed the merge holds exactly the new evidence, and exactly the new assessment with the new version and provisional while the capture is open |
| `EvidenceMerge.MergedStaysProvisionalIff` | backend/services/evidence/stages.py:600-636 | the merge stays provisional exactly while the capture is open or, after a provisional version, a claim that was not superseded has neither been assessed nor tried |
| `EvidenceMerge.RefusedOnlyForEvidenceIds` | backend/services/evidence/stages.py:637 | the final check can refuse a merge only for a repeated evidence identifier |
| `EvidenceMerge.RefusedOnlyForRepeats` | backend/services/evidence/stages.py:437-474 | with digests that never collide and evidence named by its digest or by a prefix, the outcomes of the assessor are refused exactly when a claim identifier was assessed twice |
| `EvidenceMerge.RepeatedClaimsAreRefused` | backend/services/evidence/stages.py:345-365 | when a version repeats a claim identifier, a run that assesses every claim is always refused |
| `EvidenceMerge.NeverRefused` | backend/services/evidence/stages.py:459-461 | outcomes that assess no identifier twice are never refused |
| `EvidenceMerge.AssessorIsWellMade` | backend/services/evidence/assessment.py:235-263 | what the assessor returns cites its own evidence, abstains when empty and has distinct identifiers |
| `Expansion.ExpandedVersion` | backend/services/evidence/stages.py:647-704 | builds the expansion and returns it exactly when its citations are valid |
| `Expansion.RefusedExactlyForCollisions` | backend/services/evidence/stages.py:651-703 | two valid versions expand exactly when no renamed identifier meets another one |
| `Expansion.FittingIdsMeetOnlyTheClips` | backend/services/evidence/stages.py:643-681 | with identifiers short enough not to be cut, only the clip's own identifiers can collide |
| `Expansion.VersionsNeverCollide` | backend/services/evidence/stages.py:643-651 | identifiers prefixed for different versions are never equal |
| `Expansion.PrefixKeepsApart` | backend/services/evidence/stages.py:643-644 | the prefix keeps identifiers apart that are not cut |
| `Expansion.ClaimsStayDistinctIff` | backend/services/evidence/stages.py:651-661 | claims that fit behind the prefix stay distinct exactly when none meets a claim of the clip |
| `Expansion.SecondExpansion` | backend/services/evidence/stages.py:647-704 | expanding again by the same version is accepted exactly if it has no evidence and no assessments |
| `Expansion.SecondExpansionRepeatsClaims` | backend/services/evidence/stages.py:652-660 | such an expansion repeats claim identifiers |
| `Expansion.ExpansionKeepsTheClip` | backend/services/evidence/stages.py:683-702 | the clip's claims, and everything said about them, are kept; the added claims keep their wording |
| `Expansion.ExpansionKeepsTheFullVideo` | backend/services/evidence/stages.py:651-703 | every claim, piece of evidence, relation and label of the full video comes in after the clip's, changed only by prefix and version; the result is provisional when either was |
| `ReportHistory.RunKeepsInv` | backend/services/reports.py:47-91 | any interleaving of requests, assessment runs and expansions keeps versions 1 to n, each superseding and built on the one before, all with valid citations, and never changes one |
| `ReportHistory.StepKeepsInv` | backend/services/reports.py:56-91 | each single step keeps that and only appends |
| `ReportHistory.RunKeepsWording` | backend/services/evidence/stages.py:462-704 | over any run of corrections, assessments and expansions, later versions never reword, drop or move a claim, also where identifiers repeat, and every claim carries the words it was extracted with |
| `ReportHistory.ExtractedWordingStays` | backend/services/pipeline/extraction.py:184-214 | the same over any run that starts from the version extraction published |
| `ReportHistory.RunKeepsDistinctIff` | backend/services/evidence/stages.py:644-704 | no version repeats a claim identifier exactly when no published expansion brings in one that the report already has |
| `ReportHistory.CorrectionKeepsWording` | backend/services/reanalysis.py:92-129 | a correction of any report whose claims are named that way keeps every quoted wording |
| `ClaimNames.OneWording` | backend/services/pipeline/extraction.py:184-196 | an identifier, behind any number of prefixes, stands for one wording only |
| `ClaimNames.ExpansionStaysQuoted` | backend/services/evidence/stages.py:643-661 | an expansion adds claims under identifiers that still stand for their words |
| `ReportHistory.CorrectionKeepsWordingIff` | backend/services/reanalysis.py:92-129 | a correction keeps every quoted wording exactly when all claims of its identifier were quoted alike |
| `ReportHistory.RunPublishesIff` | backend/services/evidence/stages.py:459-474 | over every history whose evidence started out named that way, a run that ends on the version it read publishes exactly when it assessed no claim identifier twice |
| `ReportHistory.ExpansionPublishesIff` | backend/services/evidence/stages.py:537-566 | in every state a history can reach, an expansion publishes exactly when its version is still the latest and no renamed identifier collides |
| `ReportHistory.LateRunPublishesNothing` | backend/services/evidence/stages.py:462-470 | an assessment run overtaken by any other publication changes nothing, ever |
| `ReportHistory.ReplayChangesNothing` | backend/services/reanalysis.py:181-219 | a repeated request is answered the same after any further history and changes nothing |
| `ReportHistory.History.constructor` | backend/services/reports.py:64-70 | a first version with valid citations starts a good history |
| `ReportHistory.History.Publish` | backend/services/reports.py:71-91 | appends exactly a version that carries the identity it was given, labelled as told |
| `ReportHistory.History.Reanalyse` | backend/services/reanalysis.py:204-290 | a repeated key replays its receipt or is refused for another body; a new one succeeds exactly when confirmed if it must be, made for the latest version and, for a correction, for a claim there with another proposition; which refusal comes first; a success stores its receipt and a correction publishes one version |
| `ReportHistory.History.BeginRun` | backend/services/evidence/stages.py:431-438 | a run reads the latest version exactly if it is still the one it was queued for, and nothing else changes |
| `ReportHistory.History.FinishRun` | backend/services/evidence/stages.py:459-487 | publishes exactly when no other version came first and the citations are valid; keeps the fixture mark |
| `ReportHistory.History.FinishExpansion` | backend/services/evidence/stages.py:537-566 | publishes exactly when the clip's version is still the latest and the citations are valid; marked as a fixture when either was |
| `EvidenceChain.RunKeepsInv` | backend/services/evidence/stages.py:160-227 | whatever is claimed, lost, failed, cancelled and published: a job exists only because an earlier one published a result that called for it, every such call has its job, keys are never shared, a request points at its newest job |
| `EvidenceChain.StepKeepsInv` | backend/services/evidence/stages.py:160-227 | each single step keeps that |
| `EvidenceChain.SuccessorIsNew` | backend/services/evidence/stages.py:76-110 | when a job publishes, nobody holds the stage key of its successor yet |
| `EvidenceChain.CancelReachesTheChain` | backend/services/api/routes/jobs.py:70-106 | cancelling any job of a chain stops the job its request points at |
| `EvidenceChain.CancelledForGood` | backend/services/api/routes/jobs.py:70-106 | after that no job is ever added to the chain |
| `EvidenceChain.ChainsAreShort` | backend/services/evidence/stages.py:199-218 | a chain has at most thirteen checks, a retrieval and an assessment |
| `EvidenceChain.TotalDelayIs` | backend/services/evidence/stages.py:139-140 | the waits of the first checks of an expansion add up to 930 seconds for five and 600 more for each further one |
| `EvidenceChain.JobTables.Queue` | backend/services/jobs/queue.py:144-185 | inserts a job exactly when no job of the same task exists, and returns the one that does |
| `EvidenceChain.JobTables.RecordResult` | backend/services/jobs/queue.py:311-373 | records a result exactly under the current lease of a job that is not being cancelled |
| `EvidenceChain.JobTables.PublishEvidenceStage` | backend/services/evidence/stages.py:160-227 | publishes exactly under the current lease of a job not being cancelled: a retrieval with claims that was not superseded adds exactly its assessment, a plan its retrieval, a waiting check the next check, an end nothing; the request points at the added job; otherwise nothing changes |
| `EvidenceChain.PublishingAdds` | backend/services/evidence/stages.py:186-227 | the same for publication as a step of any run |
| `EvidenceChain.LostLeaseNeverPublishes` | backend/services/jobs/queue.py:311-373 | a lost lease never publishes, whatever happens later |
| `EvidenceChain.CancelledIsNeverClaimed` | backend/services/jobs/queue.py:187-230 | a job with a cancellation request that is no longer queued is never leased again, whatever happens later |
| `EvidenceChain.JobTables.CancelOwnedJob` | backend/services/api/routes/jobs.py:70-106 | a queued job is cancelled, a leased one told to stop, and the request's current job with it; no other job changes; a repeated call replays its receipt |
| `Captures.Gaps` | backend/services/captures.py:96-103 | the maximal runs of exactly the sequence numbers that are absent below the highest |
| `Captures.RunsAreUnique` | backend/services/captures.py:96-103 | there is only one list of maximal runs for a set |
| `Captures.BuildManifest` | backend/services/captures.py:126-153 | received and missing spans tile the capture from zero to its duration; received and missing milliseconds add up to it; the declared coverage holds, of each modality, exactly the milliseconds of the received chunks that carry it |
| `Captures.SortMedia` | backend/services/captures.py:121 | the received milliseconds do not depend on the order of chunks |
| `Captures.GridGrows` | backend/services/api/routes/captures.py:247-252 | comparing a new chunk with each held one is enough to keep the grid rule |
| `Captures.CaptureSession.Reserve` | backend/services/api/routes/captures.py:211-272 | reserves exactly repeats of what is held and new chunks on the grid of an open session |
| `Captures.CaptureSession.Receive` | backend/services/api/routes/captures.py:293-336 | marks one chunk received; it is "stored" exactly when all before it and no others were received, "duplicate" when it already was |
| `Captures.CaptureSession.Close` | backend/services/api/routes/captures.py:339-378 | closes exactly when the duration covers what was received and ends with a short chunk; a repeated close must agree |
| `Captures.CaptureSession.Describe` | backend/services/captures.py:126-153 | in every state a session can reach, the manifest accounts for every millisecond |
| `Captures.NoGapsMeansAllBefore` | backend/services/api/routes/captures.py:323-325 | distinct sequence numbers without a gap are the first so many |
| `PcmAssembly.PcmAudio` | evaluation/asr_experiment.py:207-255 | succeeds exactly when frames are timed, do not overlap and one sounds; each byte is the covering frame's or zero; copied and zero-filled samples fill the buffer; copied and removed are all that was decoded |
| `PcmAssembly.Assembler.Consume` | evaluation/asr_experiment.py:219-238 | places one frame in place and keeps both counts; fails exactly on a missing time stamp or an overlap |
| `PcmAssembly.Assembler.constructor` | evaluation/asr_experiment.py:210-214 | the zeroed buffer satisfies all of that for no frames |
| `PcmAssembly.EverySampleOnce` | evaluation/asr_experiment.py:231-238 | frames that follow each other fill each covered place exactly once |
| `PcmAssembly.SourceClock` | evaluation/asr_experiment.py:196-204 | positions are a gapless clock from the first time stamp; fails exactly when one strays by more than its rounding; reports the largest stray |
| `SchemaValidator.EqualIsReflexive` | packages/contracts/validate.py:148-157 | equality of values is reflexive |
| `SchemaValidator.EqualIsSymmetric` | packages/contracts/validate.py:148-157 | and symmetric |
| `SchemaValidator.EqualIsTransitive` | packages/contracts/validate.py:148-157 | and transitive, across whole and decimal numbers |
| `SchemaValidator.HereDescends` | packages/contracts/validate.py:291-359 | without cycles of references and combinators at one place, each step there leaves fewer nodes to reach, so validation terminates |
| `SchemaValidator.AcyclicIffNumbered` | packages/contracts/validate.py:294-296 | a table is free of such cycles exactly when its nodes can be numbered downwards |
| `SchemaValidator.AcyclicIffNeverEndless` | packages/contracts/validate.py:291-359 | steps at one place of the value always end in tables without such cycles, and in no other table |
| `SchemaValidator.ReferencesNeverEnd` | packages/contracts/validate.py:294-296 | in a cycle of references descent goes on for ever, whatever the payload |
| `SchemaValidator.Validate` | packages/contracts/validate.py:291-359 | accepts exactly the values that fit the node: an object every required field and, if closed, no other; an array its item bounds and, if asked, no equal items; a string its lengths and pattern; a number its bounds; the kind asked for, a boolean being no number; constants and enumerations in strict mode; and parts, reference and combinators |
| `SchemaValidator.AcceptsIffFits` | packages/contracts/validate.py:291-374 | the recursive definition that the other lemmas speak of accepts exactly those values |
| `SchemaValidator.EqualIffSameCanonical` | packages/contracts/validate.py:148-157 | two values are equal exactly when they are the same once every number is written as a decimal |
| `SchemaValidator.ValidateParts` | packages/contracts/validate.py:312-327 | fields and items are accepted at their own nodes |
| `SchemaValidator.ValidateAll` | packages/contracts/validate.py:294-351 | the reference and every branch of `allOf` accept |
| `SchemaValidator.ValidateOne` | packages/contracts/validate.py:352-359 | exactly one branch of `oneOf` accepts and `not` does not |
| `SchemaValidator.OneOf` | packages/contracts/validate.py:361-374 | the count is one exactly when one branch and no other accepts |
| `SchemaValidator.StrictImpliesRelaxed` | packages/contracts/validate.py:301-311 | strict acceptance implies relaxed acceptance wherever `oneOf` and `not` lead only to nodes without constants and enumerations |
| `SchemaValidator.NeutralIgnoresRelaxing` | packages/contracts/validate.py:301-311 | at such nodes both modes agree |
| `SchemaValidator.WithoutAlternatives` | packages/contracts/validate.py:284-286 | in a schema without `oneOf` and `not`, whatever is accepted strictly is accepted relaxed |
| `SchemaValidator.RelaxedOneOfRefuses` | packages/contracts/validate.py:361-374 | a payload that is accepted strictly and refused relaxed, because both branches match |
| `SchemaValidator.RelaxedNotRefuses` | packages/contracts/validate.py:354-359 | the same below a `not` |
| `SplitIsolation.CheckSplits` | evaluation/validate.py:247-296 | accepts exactly the corpora where no connected component of shared creators, topics, repost groups and digests mixes the splits, paths are unique and both splits have clips |
| `SplitIsolation.EnterClip` | evaluation/validate.py:274-296 | entering one clip fails exactly at a key an earlier clip has in the other split |
| `SplitIsolation.IsolatedIffOneSplitPerKey` | evaluation/validate.py:274-280 | checking keys one by one is enough for sharing chains of any length |
| `SplitIsolation.CheckDecisions` | evaluation/validate.py:363-386 | accepts exactly decisions with unique gold identifiers, one text per proposition, and references to every annotated occurrence and no other |
| `VideoSampling.SampleVideo` | evaluation/ocr_experiment.py:126-203 | accepts exactly clips whose frames are timed, in order, skip no second and reach the end; the check of a missing fixed sample never fails; the lists follow from the probes |
| `VideoSampling.Select` | evaluation/ocr_experiment.py:158-184 | one probe goes into the fixed list every fifth time and into the changed list by the change rule |
| `VideoSampling.FixedCadence` | evaluation/ocr_experiment.py:158-168 | one fixed sample in each step, within a second of its start, and as many as there are steps |
| `VideoSampling.ChangedGaps` | evaluation/ocr_experiment.py:159-171 | changed frames begin with the first probe and follow each other in less than seven seconds |
| `VideoSampling.ChangedExactly` | evaluation/ocr_experiment.py:158-171 | a probe is in the changed list exactly when it comes five seconds or more after the one kept before it or its picture changed since |
| `VideoSampling.ChangedBounds` | evaluation/ocr_experiment.py:103-108 | pictures that differ by twelve or more everywhere have changed, pictures that differ by less everywhere have not |
| `VideoSampling.FramesAreDistinct` | evaluation/ocr_experiment.py:162-184 | the kept frames are exactly those of either list, each once, in order, decoded and inside the clip |
| `VideoSampling.SampledPassesCadence` | evaluation/benchmark.py:534-555 | every accepted pass satisfies the scorer's check with tolerance 999 |
| `VideoSampling.MissedSeconds` | evaluation/ocr_experiment.py:145-191 | at most four seconds stay unprobed, at most one exactly when the last frame before the stop lies in one of the last two seconds |
| `VideoSampling.FourSecondsMissed` | evaluation/ocr_experiment.py:147-148 | an accepted clip with four unprobed seconds |
| `Retrieval.Dedupe` | backend/services/evidence/retrieval.py:180-200 | one candidate per work in order of first hit, with the paper kept by the replacement rule and the kinds of query that found it |
| `Retrieval.OriginsInOrder` | backend/services/evidence/retrieval.py:188-193 | works come in the order of their first hits |
| `Retrieval.KindsInOrder` | backend/services/evidence/retrieval.py:198-199 | the kinds of a work come in the order in which they first found it |
| `Retrieval.HighestKeptIff` | backend/services/evidence/retrieval.py:194-197 | the highest version is kept exactly when a hit of it carries a summary or none after its last hit does |
| `Retrieval.AllSummarisedKeepsHighest` | backend/services/evidence/retrieval.py:194-197 | when every hit carries a summary the highest version is kept |
| `Retrieval.OlderSummaryWins` | backend/services/evidence/retrieval.py:194-197 | two hits of which the older version is kept |
| `Bm25.Scores` | backend/services/evidence/bm25.py:27-54 | the score of every document, zero when there are no terms |
| `Bm25.PositiveIffShared` | backend/services/evidence/bm25.py:36-53 | a score is above zero exactly when the document shares a term with the query, and never below |
| `Bm25.Saturates` | backend/services/evidence/bm25.py:45-52 | a term that occurs more often scores more, and never two and a half times its weight |
| `Bm25.LengthCounts` | backend/services/evidence/bm25.py:50 | the same occurrences score less in a longer document |
| `Bm25.SingleOccurrence` | backend/services/evidence/bm25.py:45-52 | one occurrence in a document of average length scores the weight of the term, in one of twice that length twenty twenty-ninths of it |
| `Bm25.RarerWeighsMore` | backend/services/evidence/bm25.py:36-40 | the rarer of two terms weighs more |
| `Bm25.HoldingCounts` | backend/services/evidence/bm25.py:39 | the frequency of a term is the number of documents that hold it |
| `Bm25.AverageBetween` | backend/services/evidence/bm25.py:33-34 | the average length lies between the shortest and the longest |
| `Bm25.RankRanks` | backend/services/evidence/bm25.py:57-60 | the ranking holds every document once, best first, ties in input order |
| `Retrieval.Choose` | backend/services/evidence/retrieval.py:315-318 | the chosen are the best of those that share a term, in order, and one that shares is left out only for the limit and below all chosen |
| `Retrieval.Select` | backend/services/evidence/retrieval.py:314-318 | from all hits to the passages read: one candidate per work, up to the limit, and of those the best that share a term |

## Left out

- The database, transactions and locks: a transaction is one atomic step, and a lease is a fencing token that is current or not.
- HTTP, media decoding, resampling, images, OCR, file access and clocks: their results are inputs that satisfy the checks the code makes.
- Tokenising and Unicode normalisation: texts are sequences of tokens, and papers and queries carry theirs.
- Digests are injective functions, or the values they digest.
- Floating point: overlaps, reserves, scores and rates are real numbers; rounding of time stamps to samples and video milliseconds is an input.
- Text for readers: change summaries, assessment summaries, notes, excerpts and error messages, apart from the kind of the error.
- The account of a reservation in `SpeechProtocol`; `SpeechPolicy` has it.
- Rows of one creation time are read in the order of the table; the service orders them by a random identifier.
- The audio checks before a reference transcription (missing audio, file cap) and the validation of provider segments.
- Token buckets of the language-model provider: their source does its work in the database.
- Retrieval queries, provider budgets, source verification and retraction look-ups of the evidence pipeline: papers and passages are inputs.
- Owner, quota and source checks of a reanalysis request; its idempotency key, confirmation and staleness are modelled.
- Retries, generations and deletion of evidence jobs: a job is queued, leased, published, cancelled or failed.
- Hashing, storage and size checks of uploaded bytes, and the jobs a capture starts.
- The self-check of schema files, reading them and walking a reference through a file: the interpreter works on a table of nodes whose references are resolved.
- Rights, durations, coverage tags, annotations' own fields and main arguments of the corpus check.
- Distributions, timestamp pairs, quota estimates and per-frame word totals of the scorer.
- Other publishers of report versions (incremental extraction, reconciliation, demonstration fixtures): histories start from a published version and hold corrections, assessment runs and expansions.
- SchemaValidator.StrictImpliesRelaxed: gives a condition on the schema that is enough, not one that is also needed.
- Export, health, logging, settings validation, migrations and fixtures.
- ReportHistory.RunKeepsWording: asks that identifiers of full videos' claims be short enough to keep their own text behind the prefix.
- EvidenceMerge.RefusedOnlyForRepeats: asks for digests without collisions; RefusedOnlyForEvidenceIds says what happens otherwise.
