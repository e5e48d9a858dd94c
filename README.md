# Grade planner core, modelled in Dafny

A model of the computational core of a student grade planner for Portuguese
higher education. The planner tracks courses (*cursos*), semesters, curricular
units (*UCs*, with ECTS credits), weighted assessments (*avaliações*) and
calendar events. The model covers these parts:

- **Grading engine** (`src/core/grading`):
  - the grade overview of a UC: graded weight, weighted score, partial average (*média parcial*), remaining weight and projection;
  - the score still needed on the remaining weight to pass (*nota necessária*);
  - the six-state pass/fail evaluation (`aprovado`, `reprovado`, `ok`, `em_risco`, `precisa_exame`, `impossivel`).
- **Planner statistics** (`src/domain/grade-planner/utils.ts`):
  - per-UC, per-semester and per-course progress;
  - ECTS-weighted averages rounded to one decimal, and completion percentages;
  - the next deadline, and the list of upcoming deadlines in a window.
- **Calendar domain and use cases**:
  - the `EventTitle` and `EventDateTime` value objects and the `CalendarEvent` entity;
  - the create and update use cases, run against the in-memory repository of the calendar integration test. That repository is a class whose map and id counter the methods update.
- **Database conversions**:
  - SQLite stores booleans as 0/1 and lists as JSON text;
  - the row mappers of the UC, assessment and event tables, and the semester status mapper.
- **UI helpers**:
  - event-kind tables and coercion;
  - decimal-comma number input and date display;
  - generating and parsing semester titles such as `1.º Semestre - 2.º Ano`;
  - sorting semesters into current, past and future tabs.

Numbers are exact reals. Outside conditions become parameters:

- The clock is an `int` parameter `now`, and timestamps are integers (milliseconds).
- `new Date(...)` is a function parameter returning `Option`, with `None` for an Invalid Date.
- So are `JSON.parse` (`None` where it throws), `Number(...)` with its finiteness test (`None` for `NaN` or an infinity), and `JSON.stringify`.

JavaScript built-ins are written out in `JsText`:

- `trim`, with the ECMAScript whitespace set;
- `length` in UTF-16 code units;
- `replace` with a one-character pattern;
- `split` with a one-character separator.

One behaviour of `calculateUcStats` is kept as written:

- `evaluation.grade?.score !== null` (utils.ts:36) is also true for an evaluation with no grade record at all.
- Such an evaluation therefore counts as completed, with weight 0 (`GradePlannerUtils.MissingGradeCountsAsGraded`).

## Model

| member | source | states |
|---|---|---|
| GradingModels.AvaliadasAppend | src/core/grading/calculateFinalGrade.ts:20 | filtering the graded assessments distributes over concatenation |
| GradingModels.GradedSumsMatchMasked | src/core/grading/calculateFinalGrade.ts:20-23 | the sums over the filtered list equal reference sums in which each ungraded assessment contributes zero |
| GradingModels.PesoTotalSplits | src/core/grading/calculateFinalGrade.ts:19-22 | total weight is graded weight plus ungraded weight |
| GradingModels.UngradedAddsNothing | src/core/grading/calculateFinalGrade.ts:20-23 | inserting an ungraded assessment anywhere leaves both graded sums unchanged |
| CalculateFinalGrade.CalculateGradeOverview | src/core/grading/calculateFinalGrade.ts:15-44 | the partial average exists iff some weight is graded, and then times the graded weight gives the weighted score; remaining weight is not negative and complements the graded weight up to 100; the projection is (weighted + hypothetical × remaining)/100 when a hypothetical grade is given and weight remains, else weighted/100 if anything is graded, else null; the needed score is null |
| CalculateFinalGrade.NotaPonderadaBounds | src/core/grading/calculateFinalGrade.ts:22-23 | with non-negative weights and scores in [0, max], the weighted score lies in [0, max × graded weight] |
| CalculateFinalGrade.MediaParcialWithinScale | src/core/grading/calculateFinalGrade.ts:25 | under the same conditions a partial average lies within the grading scale |
| CalculateFinalGrade.NothingGradedOverview | src/core/grading/calculateFinalGrade.ts:25-34 | with nothing graded: no average, no projection, 100 remaining |
| CalculateFinalGrade.ExampleFullyGraded | src/core/grading/__tests__/calculateFinalGrade.test.ts:19-33 | weights 40/60 graded 16/12 give average 13.6 and nothing remaining |
| CalculateFinalGrade.ExampleNothingGraded | src/core/grading/__tests__/calculateFinalGrade.test.ts:49-61 | two ungraded halves give no average and 100 remaining |
| CalculateFinalGrade.ExampleProjectionWithHypothetical | src/core/grading/__tests__/calculateFinalGrade.test.ts:62-73 | 16 on half the weight with hypothetical 12 projects 14 |
| CalculateFinalGrade.ExampleProjectionWithoutHypothetical | src/core/grading/__tests__/calculateFinalGrade.test.ts:74-84 | without a hypothetical grade the projection is accumulated points over 100 |
| ComputeNeededScore.ComputeNeededScore | src/core/grading/computeNeededScore.ts:11-46 | the needed score is null iff no weight remains; it is never negative; `em_jogo` means it lies in (0, max]; beyond the maximum the state is `precisa_exame` with a retake exam and `impossivel` without; a needed score of 0 means `ja_aprovado`; `concluida` only when fully graded |
| ComputeNeededScore.FullyGradedOutcome | src/core/grading/computeNeededScore.ts:22-28 | fully graded: no needed score, and `ja_aprovado` iff the weighted average reaches the minimum, else `concluida` |
| ComputeNeededScore.NeededScoreIsPassingThreshold | src/core/grading/computeNeededScore.ts:30-45 | scoring s on all remaining weight reaches the minimum iff s is at least the reported needed score |
| ComputeNeededScore.NeededScoreExactlyPasses | src/core/grading/computeNeededScore.ts:30-32 | scoring exactly the needed score on the remaining weight lands exactly on the minimum |
| ComputeNeededScore.RetakeFlagOnlyMattersOutOfReach | src/core/grading/computeNeededScore.ts:38-43 | the retake-exam flag changes the outcome only when the needed score exceeds the maximum |
| ComputeNeededScore.SumsUnderRaise | src/core/grading/computeNeededScore.ts:17-20 | raising one graded score keeps the graded and remaining weights and never lowers the weighted score |
| ComputeNeededScore.NeededScoreMonotone | src/core/grading/computeNeededScore.ts:30-35 | raising a graded score never increases the needed score |
| ComputeNeededScore.PartialAverageMonotone | src/core/grading/calculateFinalGrade.ts:25 | raising a graded score never lowers the partial average |
| ComputeNeededScore.ExampleAlreadyPassed | src/core/grading/__tests__/computeNeededScore.test.ts:19-34 | 18 on weight 60 already passes: needed score 0, `ja_aprovado` |
| ComputeNeededScore.ExampleStillContested | src/core/grading/__tests__/computeNeededScore.test.ts:35-49 | 12 on half the weight needs 8: `em_jogo` |
| ComputeNeededScore.ExampleOutOfReach | src/core/grading/__tests__/computeNeededScore.test.ts:50-74 | 2 on weight 80 needs 42: `impossivel`, or `precisa_exame` with a retake exam |
| ComputeNeededScore.ExampleFullyGraded | src/core/grading/__tests__/computeNeededScore.test.ts:75-95 | fully graded 15/12 is `ja_aprovado`; fully graded 5/4 is `concluida` |
| EvaluatePassFail.EvaluatePassFail | src/core/grading/evaluatePassFail.ts:18-52 | the overview is the grade overview with the needed score filled in; fully graded units are `aprovado` or `reprovado` by the average; `reprovado` only when fully graded; `ok` means a positive need within 70% of the maximum, `em_risco` above that up to the maximum; `precisa_exame` needs a retake exam and `impossivel` its absence |
| EvaluatePassFail.NeededDefaultUnreachable | src/core/grading/evaluatePassFail.ts:37 | the `?? 0` default never applies: with weight remaining a needed score is always present |
| EvaluatePassFail.StatusAgreesWithEstado | src/core/grading/evaluatePassFail.ts:24-49 | the six-way status refines the five-way outcome of the needed-score computation |
| EvaluatePassFail.StatusThresholds | src/core/grading/evaluatePassFail.ts:36-49 | with weight remaining, the status is chosen by comparing the needed score with 0, 70% of the maximum and the maximum |
| EvaluatePassFail.ExampleFullyGraded | src/core/grading/__tests__/evaluatePassFail.test.ts:19-39 | 40/60 graded 14/12 is `aprovado`; graded 6/5 is `reprovado` |
| EvaluatePassFail.ExampleOnTrackAndAtRisk | src/core/grading/__tests__/evaluatePassFail.test.ts:40-65 | needing 8 is `ok`; needing 15 is `em_risco` |
| EvaluatePassFail.ExampleOutOfReachAndGuaranteed | src/core/grading/__tests__/evaluatePassFail.test.ts:66-95 | needing 42 is `impossivel`, or `precisa_exame` with a retake exam; needing nothing is `aprovado` |
| GradePlannerUtils.Round1 | src/domain/grade-planner/utils.ts:18 | the result is a whole number of tenths within half a tenth of the input, halves rounded up |
| GradePlannerUtils.Round1Monotone | src/domain/grade-planner/utils.ts:18 | rounding to tenths preserves order |
| GradePlannerUtils.Round1OfTenths | src/domain/grade-planner/utils.ts:18 | a whole number of tenths is unchanged by rounding |
| GradePlannerUtils.Round1Within | src/domain/grade-planner/utils.ts:18 | rounding keeps a value within bounds that are whole numbers |
| GradePlannerUtils.Clamp | src/domain/grade-planner/utils.ts:20 | the result lies in [min, max]; values inside are unchanged, values outside go to the nearer bound |
| GradePlannerUtils.NormalizeScoreTo20 | src/domain/grade-planner/utils.ts:22-26 | the normalized score is the same fraction of 20 as the score is of its scale's top |
| GradePlannerUtils.NormalizeWithinTwenty | src/domain/grade-planner/utils.ts:22-26 | a score inside its scale lands inside 0..20 |
| GradePlannerUtils.Filter | src/domain/grade-planner/utils.ts:35-36 | an element is kept iff it is in the input and satisfies the predicate; the result is no longer than the input |
| GradePlannerUtils.FilterConcat | src/domain/grade-planner/utils.ts:35-36 | filtering a concatenation is the concatenation of the filtered parts, so the kept elements stay in input order |
| GradePlannerUtils.FilterMultiplicity | src/domain/grade-planner/utils.ts:35-36 | each kept value occurs in the result as often as in the input; rejected values do not occur |
| GradePlannerUtils.SortByDue | src/domain/grade-planner/utils.ts:59 | the result is sorted by due date and is a permutation of the input |
| GradePlannerUtils.NextDeadline | src/domain/grade-planner/utils.ts:51-59 | none iff no activity of the UC is open (not completed, not cancelled, not past); otherwise the due date of an open activity and no later than any open activity's |
| GradePlannerUtils.CalculateUcStats | src/domain/grade-planner/utils.ts:30-71 | graded and remaining weights are rounded clamps into [0, 100]; the partial average is null iff the graded weight is not positive, else the rounded weighted mean on the 0-20 scale; the total counts the UC's evaluations and the completed count those of them that count as graded; completion is their rounded percentage (0 without evaluations) and lies in [0, 100]; the next deadline is the earliest open one |
| GradePlannerUtils.UcStatsIgnoreOtherActivities | src/domain/grade-planner/utils.ts:35 | appending an activity that is not an evaluation of the UC changes none of its weights, averages, counts or completion |
| GradePlannerUtils.UcStatsIgnoreOtherUcs | src/domain/grade-planner/utils.ts:35-58 | appending an activity of another UC, or of none, leaves the UC's statistics entirely unchanged, next deadline included |
| GradePlannerUtils.CompletionPercent | src/domain/grade-planner/utils.ts:68 | 0 for no evaluations, otherwise `round1(done / total × 100)`; within [0, 100], and 100 when all are completed |
| GradePlannerUtils.WeightShare | src/domain/grade-planner/utils.ts:64-65 | a weight shown as a percentage lies in [0, 100]: the rounded weight when inside, 100 above and 0 below |
| GradePlannerUtils.UcWeightsComplement | src/domain/grade-planner/utils.ts:64-65 | when the graded weight is a whole number of tenths in [0, 100], graded and remaining weights add up to 100 |
| GradePlannerUtils.MissingGradeCountsAsGraded | src/domain/grade-planner/utils.ts:36-41 | an evaluation with no grade record counts as completed but adds no weight |
| GradePlannerUtils.ScoreSumWithin | src/domain/grade-planner/utils.ts:38-47 | with non-negative weights and in-scale scores, the weighted score sum lies in [0, 20 × weight sum] |
| GradePlannerUtils.PartialAverageWithinScale | src/domain/grade-planner/utils.ts:49 | under the same conditions the partial average lies in [0, 20] |
| GradePlannerUtils.ExampleUcStats | src/tests/integration/grade-planner-stats.integration.test.ts:21-28 | on a reconstructed dataset (the mock data file is not part of this model), two 20% evaluations graded 15 and 16 plus two ungraded 30% ones give average 15.5, weights 40/60, 2 of 4 completed, 50% |
| GradePlannerUtils.CalculateSemesterStats | src/domain/grade-planner/utils.ts:73-125 | total ECTS is the sum over the semester's UCs; the semester average is null iff the ECTS of the UCs that have an average add up to at most 0 (for non-negative ECTS: iff none of them carries ECTS), else the rounded ECTS-weighted mean; the total counts the evaluations of the semester and the completed those that count as graded; completion is their rounded percentage (0 without evaluations) and lies in [0, 100] |
| GradePlannerUtils.SemesterCompletedEctsWithinTotal | src/domain/grade-planner/utils.ts:106-111 | with non-negative ECTS the completed ECTS lie within [0, total ECTS] |
| GradePlannerUtils.SemesterAverageNullWithoutUcAverages | src/domain/grade-planner/utils.ts:86-100 | when no UC has a partial average the semester has none |
| GradePlannerUtils.SemesterAverageWithinScale | src/domain/grade-planner/utils.ts:86-100 | with non-negative ECTS and weights and in-scale scores the semester average lies in [0, 20] |
| GradePlannerUtils.CalculateCourseStats | src/domain/grade-planner/utils.ts:127-162 | total and completed ECTS are sums over the course's semesters; the course average is null iff the ECTS of the semesters that have an average add up to at most 0, else the rounded ECTS-weighted mean; completion is the ECTS percentage below |
| GradePlannerUtils.EctsPercent | src/domain/grade-planner/utils.ts:159 | 0 when the total is not positive, otherwise `round1(completed / total × 100)`; within [0, 100] when the completed ECTS lie within [0, total] |
| GradePlannerUtils.CourseCompletionWithinBounds | src/domain/grade-planner/utils.ts:149-160 | with non-negative ECTS the completed ECTS never exceed the total and completion lies in [0, 100] |
| GradePlannerUtils.CourseWithoutSemesters | src/domain/grade-planner/utils.ts:134-160 | a course with no semesters has no ECTS, no average and 0% completion |
| GradePlannerUtils.GetUpcomingDeadlines | src/domain/grade-planner/utils.ts:164-187 | the list is sorted by due date; every entry comes from an activity that is open and due within [now, window end]; every such activity appears, and the entries are those of the upcoming activities counted with multiplicity |
| GradePlannerUtils.DeadlinesOfSort | src/domain/grade-planner/utils.ts:178-186 | sorting before the mapping to deadlines keeps every deadline as often as it occurs |
| GradePlannerUtils.WindowAtLeastOneDay | src/domain/grade-planner/utils.ts:170 | the window spans at least one day, and exactly `rangeDays` days when that is at least 1 |
| CalendarDomain.CreateEventTitle | src/domain/calendar/value-objects/EventTitle.ts:7-19 | `EVENT_TITLE_EMPTY` iff the input is all whitespace; `EVENT_TITLE_TOO_LONG` iff the trimmed title is longer than 120 UTF-16 units; on success the value is the trimmed input, 1 to 120 units long |
| CalendarDomain.EventTitleIdempotent | src/domain/calendar/value-objects/EventTitle.ts:8-18 | creating a title from an accepted title's value gives the same title |
| CalendarDomain.ExampleEmptyBeforeTooLong | src/domain/calendar/value-objects/EventTitle.ts:10-16 | 121 spaces are reported empty, not too long |
| CalendarDomain.ExampleLengthLimit | src/domain/calendar/value-objects/EventTitle.ts:14-16 | 121 letters are too long; 120 are accepted |
| CalendarDomain.BmpTitleByLength | src/domain/calendar/value-objects/EventTitle.ts:8-16 | a title of Basic Multilingual Plane characters with no surrounding whitespace is too long iff it has more than 120 characters, and is otherwise accepted unchanged |
| CalendarDomain.PaddedTitleAccepted | src/domain/calendar/value-objects/EventTitle.ts:8 | a title surrounded by whitespace is accepted as the title alone |
| CalendarDomain.CreateEventDateTime | src/domain/calendar/value-objects/EventDateTime.ts:7-18 | rejected, always as `EVENT_DATETIME_INVALID`, iff the input is blank or not a valid date; on success the ISO text of the parsed date |
| CalendarDomain.NormalizeNotes | src/domain/calendar/entities/CalendarEvent.ts:24 | notes become null iff missing or blank, and otherwise are stored trimmed |
| CalendarDomain.PaddedNotesKept | src/domain/calendar/entities/CalendarEvent.ts:24 | notes surrounded by whitespace are kept without it |
| CalendarDomain.NormalizeNotesIdempotent | src/domain/calendar/entities/CalendarEvent.ts:24 | normalizing notes twice is normalizing once |
| CalendarDomain.ToPersistence | src/domain/calendar/entities/CalendarEvent.ts:21-26 | every property but the notes is copied; notes are normalized |
| CalendarDomain.EventIdKept | src/domain/calendar/entities/CalendarEvent.ts:17-19 | the id getter returns the constructor's id, and persisting keeps it |
| CalendarDomain.ToPersistenceIdempotent | src/domain/calendar/entities/CalendarEvent.ts:21-26 | persisting an already persisted event changes nothing |
| CalendarUseCases.PersistenceInput | src/application/calendar/use-cases/CreateCalendarEventUseCase.ts:17-32 | a title error is reported before a date error; on success the stored input carries the trimmed title, the parsed date, the ids as given, kind and priority defaulting to `evento` and `medium`, and normalized notes |
| CalendarUseCases.ValidateUpdate | src/application/calendar/use-cases/UpdateCalendarEventUseCase.ts:13-33 | a non-finite or non-positive id is `EVENT_NOT_FOUND` before any field is checked; otherwise the field checks decide, and success carries the positive id |
| CalendarUseCases.InMemoryCalendarEventRepository.constructor | src/tests/integration/calendar-event-flow.integration.test.ts:10-12 | a new repository is empty and hands out id 1 first |
| CalendarUseCases.InMemoryCalendarEventRepository.Create | src/tests/integration/calendar-event-flow.integration.test.ts:14-18 | stores the input under the current counter value, returns that id and advances the counter; a failing store changes nothing |
| CalendarUseCases.InMemoryCalendarEventRepository.Update | src/tests/integration/calendar-event-flow.integration.test.ts:20-25 | succeeds iff the id is stored and the store does not fail, and then replaces exactly that entry; otherwise nothing changes |
| CalendarUseCases.InMemoryCalendarEventRepository.GetById | src/tests/integration/calendar-event-flow.integration.test.ts:27-29 | the stored event iff the id is present, else null |
| CalendarUseCases.CreateCalendarEventUseCase.Execute | src/application/calendar/use-cases/CreateCalendarEventUseCase.ts:16-40 | a validation error is returned with the repository unchanged; a failing store gives `EVENT_PERSISTENCE_FAILED`; otherwise the validated input is stored under the returned id, which is the repository's counter before the call, and the counter advances by one |
| CalendarUseCases.UpdateCalendarEventUseCase.Execute | src/application/calendar/use-cases/UpdateCalendarEventUseCase.ts:12-41 | a validation error is returned with the repository unchanged; a missing id or failing store gives `EVENT_PERSISTENCE_FAILED`; otherwise the entry under the id is replaced by the validated input |
| CalendarUseCases.CreateThenUpdateFlow | src/tests/integration/calendar-event-flow.integration.test.ts:33-87 | on a fresh repository the first event gets id 1 and is stored as validated; a valid update replaces it, and an invalid one leaves it |
| CalendarUseCases.CreateTwiceFlow | src/tests/integration/calendar-event-flow.integration.test.ts:10-18 | two events created through the use case on a new repository get ids 1 and 2, and each is stored as validated under its own id |
| CalendarUseCases.UpdateMissingFlow | src/tests/integration/calendar-event-flow.integration.test.ts:89-103 | updating an id never handed out fails with `EVENT_PERSISTENCE_FAILED`, or `EVENT_NOT_FOUND` for an invalid id |
| CalendarUseCases.AcceptedCommandInput | src/application/calendar/use-cases/CreateCalendarEventUseCase.ts:23-31 | a command with padded title and notes is stored with both trimmed and the defaults applied |
| CalendarUseCases.ExampleCreateNormalization | src/tests/integration/calendar-event-flow.integration.test.ts:38-61 | the test's create command ("  Entrega Sprint  ", UC 10, semester 2, `atividade`, `medium`, padded notes) is stored as "Entrega Sprint" with the parsed date, the same ids, kind and priority, and notes "Preparar documentacao" |
| CalendarUseCases.ExampleUpdateNormalization | src/tests/integration/calendar-event-flow.integration.test.ts:63-86 | the test's update of event 1 ("  Entrega Sprint final  ", no UC, semester 2, `evento`, `high`, blank notes) is stored as "Entrega Sprint final" with the parsed date and null notes |
| CalendarUseCases.ExampleCalendarFlow | src/tests/integration/calendar-event-flow.integration.test.ts:33-87 | on a fresh repository the test's create command gets id 1 and is read back as its normalized input, and the update leaves the normalized changes under that id |
| CalendarUseCases.ExampleUpdateDefaults | src/tests/integration/calendar-event-flow.integration.test.ts:93-97 | the missing-event test's command ("Evento orfao", id 999, no ids, kind, priority or notes) validates with kind `evento`, priority `medium` and null notes, so only the repository can reject it |
| TipoUtils.BuildTipoColors | src/utils/tipoUtils.ts:23-27 | the palette has exactly the three kinds, each with its theme colour |
| TipoUtils.TablesTotal | src/utils/tipoUtils.ts:11-21 | the chip-variant and icon tables cover every kind and are injective |
| TipoUtils.OptionsAgreeWithIcons | src/utils/tipoUtils.ts:5-21 | the option list names each kind once, in order, with the icon of the icon table |
| TipoUtils.ToEventTipo | src/utils/tipoUtils.ts:29-32 | one of the three names maps to the kind of that name; anything else, null included, maps to `avaliacao` |
| TipoUtils.ToEventTipoIdempotent | src/utils/tipoUtils.ts:29-32 | coercing the name of a coerced kind changes nothing |
| Converters.ToBoolExactlyOne | src/db/utils/converters.ts:1 | a column reads as true iff it holds exactly 1; 0, 2 and NULL read as false |
| Converters.FromBool | src/db/utils/converters.ts:2 | the stored value is 0 or 1 |
| Converters.BoolRoundTrip | src/db/utils/converters.ts:1-2 | storing a boolean and reading it back gives it again; reading a column and storing it back is the identity exactly on 0 and 1 |
| Converters.ParseJson | src/db/utils/converters.ts:4-11 | null or empty text gives the fallback; otherwise the parsed value, or the fallback where parsing throws |
| Mappers.MapSemesterStatus | src/db/utils/mappers.ts:16-23 | `futuro` iff the start parses and now is before it; `passado` iff not future and the end parses and now is after it; `atual` otherwise |
| Mappers.CurrentOnClosedInterval | src/db/utils/mappers.ts:16-23 | with both dates valid, `atual` exactly on the closed interval between them |
| Mappers.StatusMonotoneInTime | src/db/utils/mappers.ts:16-23 | as the clock advances a semester only moves from future to current to past |
| Mappers.MapUC | src/db/utils/mappers.ts:93-119 | the icon defaults to `functions`; the retake flag is true iff the column is 1; lecturers are the parsed list of a non-empty column, `[]` where it does not parse, and empty for a null or empty column; other columns are copied |
| Mappers.UcToRow | src/db/repositories/ucRepository.ts:54-71 | the written row stores the icon, the lecturer list as a list column and the retake flag as 0/1 |
| Mappers.ListColumn | src/db/repositories/ucRepository.ts:64 | an empty list is written as NULL, any other as JSON text |
| Mappers.ListColumnRoundTrip | src/db/utils/mappers.ts:112 | a written list column read back with the `[]` fallback gives the list again, the empty list included |
| Mappers.UcRoundTrip | src/db/repositories/ucRepository.ts:54-71 | a written UC row read back by the mapper gives the record again |
| Mappers.MapAvaliacao | src/db/utils/mappers.ts:121-147 | the reminder flag is true iff the column is 1; a non-empty reminder column gives its parsed list, null where it parses to a falsy value, and `[]` where it does not parse; a null or empty column gives the empty list; scores and weight are copied |
| Mappers.AvaliacaoToRow | src/db/repositories/avaliacaoRepository.ts:188-205 | the written row stores the reminder flag as 0/1 and the reminder list (empty when missing) as a list column |
| Mappers.AvaliacaoRoundTrip | src/db/repositories/avaliacaoRepository.ts:188-205 | a written assessment row read back gives the record again, with a missing reminder list returned as empty |
| Mappers.MapEvent | src/db/utils/mappers.ts:149-169 | completion is true iff the column is 1; a NULL kind reads as `evento`; other columns are copied |
| Mappers.EventToRow | src/db/repositories/eventRepository.ts:64-75 | a newly inserted event row stores completion 0 and the event's kind |
| Mappers.SetCompletedRow | src/db/repositories/eventRepository.ts:93-96 | toggling writes the completion as 0/1 and changes no other column |
| Mappers.EventRoundTrip | src/db/repositories/eventRepository.ts:64-75 | an inserted event reads back as the record, not completed |
| Mappers.EventCompletedRoundTrip | src/db/repositories/eventRepository.ts:64-96 | an inserted event whose completion is then toggled to the record's value reads back as the record |
| Mappers.NullKindDefaults | src/db/utils/mappers.ts:166-168 | a NULL kind becomes `evento` through the mapper, while the kind coercion gives `avaliacao` for a missing kind |
| SemestersScreen.Ordinal | src/ui/screens/SemestersScreen.tsx:29 | 1 to 5 give the digit followed by ".º"; 0 gives the empty string |
| SemestersScreen.GeneratedShape | src/ui/screens/SemestersScreen.tsx:31-32 | a generated title for year 1 to 5 and semester 1 or 2 is the semester digit, ".º Semestre - ", the year digit and ".º Ano" |
| SemestersScreen.ParseTitleToYearSem | src/ui/screens/SemestersScreen.tsx:46-53 | a result has semester 1 or 2 and year 1 to 5, taken from the leftmost match; a leftmost match out of range gives null |
| SemestersScreen.MatchGenerated | src/ui/screens/SemestersScreen.tsx:47 | a generated title, followed by anything, matches at its start with its own semester and year |
| SemestersScreen.SearchSkipsDigitFree | src/ui/screens/SemestersScreen.tsx:47 | the unanchored search passes over digit-free text |
| SemestersScreen.TitleRoundTrip | src/ui/screens/SemestersScreen.tsx:31-53 | parsing a generated title gives back its year and semester |
| SemestersScreen.TitleFoundInText | src/ui/screens/SemestersScreen.tsx:46-53 | a generated title is still found after digit-free text and before any text |
| SemestersScreen.DigitFreeTitleRejected | src/ui/screens/SemestersScreen.tsx:47-48 | a title without digits parses to null |
| SemestersScreen.LeadingDigitRejected | src/ui/screens/SemestersScreen.tsx:47-51 | a nonzero digit just before a generated title makes the semester number at least 11, and the title is rejected rather than parsed from the later digit |
| SemestersScreen.LeadingDigitMatch | src/ui/screens/SemestersScreen.tsx:47 | with one more digit in front of a generated title the match starts at that digit and captures a two-digit semester number |
| SemestersScreen.GetSemesterStatus | src/ui/screens/SemestersScreen.tsx:55-62 | `futuro` iff the start date is valid and now is before it; `passado` iff not future and the end date is valid and now is after it; `atual` otherwise |
| SemestersScreen.SemestersWithStatus | src/ui/screens/SemestersScreen.tsx:110-113 | a semester is shown under a tab iff it is in the list and has that tab's status |
| SemestersScreen.SemestersWithStatusConcat | src/ui/screens/SemestersScreen.tsx:110-113 | the tab of two lists in sequence is the first list's tab followed by the second's, so list order is kept |
| SemestersScreen.SemestersWithStatusMultiplicity | src/ui/screens/SemestersScreen.tsx:110-113 | a semester under the tab appears there as often as in the list; any other not at all |
| SemestersScreen.TabCountsPartition | src/ui/screens/SemestersScreen.tsx:115-119 | the three tab counts add up to the number of semesters |
| FormUtils.ParseNullableNumber | src/utils/formUtils.ts:1-5 | blank input is null; otherwise the conversion of the text with its first comma turned into a point |
| FormUtils.DecimalCommaRead | src/utils/formUtils.ts:3 | a decimal comma reads as a decimal point, and only the first comma is replaced |
| FormUtils.CommaFreeRead | src/utils/formUtils.ts:3 | text without a comma is converted as typed |
| FormUtils.FormatDateDisplay | src/utils/formUtils.ts:7-11 | the result is empty iff the input is |
| FormUtils.FormatIsoDate | src/utils/formUtils.ts:9-10 | `year-month-day` is shown as `day/month/year`, dropping anything after a further '-' |
| FormUtils.FormatWithoutDashes | src/utils/formUtils.ts:9-10 | text without '-' is taken for the year, with day and month written as "undefined" |

## Left out

- Rendering, navigation, React state and hooks, SQLite access, and the asynchronous (`Promise`) form of the use cases and repositories: the model is synchronous and keeps only the computations.
- Floating point: numbers are exact reals, so binary rounding in sums and in `Math.round` of values such as x.x5 is not modelled.
- The clock (`new Date()`) is the parameter `now`. Date parsing, `JSON.parse`, `JSON.stringify`, `Number(...)` and `toISOString` are function parameters, and the model places no constraint on their results beyond their types: `JSON.parse` of a list column yields a list, a falsy value or nothing (see the two mapper lines below). Timestamps in the planner statistics are integers, not ISO strings.
- The text of the error messages: only the error codes are modelled.
- `mapUserProfile`, `mapCurso` and `mapSemester` in src/db/utils/mappers.ts copy columns apart from the converters modelled here, and are not part of this model.
- Mappers.MapAvaliacao: a reminders column whose JSON is neither an array nor a falsy value (an object, a number) is not modelled; the parser parameter returns a list, "falsy", or nothing where it throws.
- Mappers.MapUC: a lecturers column whose JSON is not an array (`null`, which the source passes through as `professores: null`, or a string or number) is not modelled; the parser parameter returns a list or nothing where it throws. The repository only writes NULL or a JSON array there (src/db/repositories/ucRepository.ts:64).
- Mappers.MapUC, Mappers.MapAvaliacao and Mappers.MapEvent: the unchecked casts of the grade scale, the assessment kind and the priority keep the raw text; no check is made that it is a valid value, as in the source.
- GradePlannerUtils.SortByDue: JavaScript's `Array.prototype.sort` is stable (required since ECMAScript 2019), and so is the insertion sort that models it, so activities with equal due dates keep their input order in both. Neither the contract of SortByDue nor that of GradePlannerUtils.GetUpcomingDeadlines states that order of ties; they state sortedness and the multiset of elements only.
- The SQLite implementation of the calendar repository; the in-memory repository of the calendar integration test is modelled instead. Its `writesFail` flag stands for any write that throws.
- `defaultDatesForSem` and `getInitialForm` in src/ui/screens/SemestersScreen.tsx depend on the clock and only build form defaults.
- `toISO` in src/ui/screens/SemestersScreen.tsx converts the form's start and end dates to ISO text on save: text containing 'T' is kept, other text is parsed, and blank or unparsable input falls back to the current time. It is not part of this model, which covers the helpers at lines 29-62 of that file.
