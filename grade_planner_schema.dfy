/** The grade-planner domain records (src/domain/grade-planner/schema.ts), restricted
    to the fields the statistics read. Timestamps are milliseconds since the epoch;
    converting the ISO strings is not part of this model. */
module GradePlannerSchema {
  import opened Wrappers

  type EntityId = string

  datatype GradeScale = Scale0To20 | Scale0To10 | Scale0To100

  datatype ActivityType = Evaluation | StudyTask | EventActivity

  datatype ActivityStatus = Planned | InProgress | Completed | Cancelled

  datatype ScoreValueObject = ScoreValueObject(value: real, scale: GradeScale)

  /** `weight` is the weight's percentage (0..100 by convention, not enforced). */
  datatype GradeRecord = GradeRecord(score: Option<ScoreValueObject>, weight: real, pointsPossible: Option<real>)

  datatype Activity = Activity(
    id: EntityId,
    kind: ActivityType,
    title: string,
    dueAt: int,
    status: ActivityStatus,
    semesterId: EntityId,
    ucId: Option<EntityId>,
    grade: Option<GradeRecord>)

  datatype UC = UC(id: EntityId, courseId: EntityId, semesterId: EntityId, ects: real)

  datatype Semester = Semester(id: EntityId, courseId: EntityId)

  datatype Course = Course(id: EntityId)

  datatype UcProgressStats = UcProgressStats(
    ucId: EntityId,
    partialAverage: Option<real>,
    gradedWeight: real,
    remainingWeight: real,
    completedEvaluations: nat,
    totalEvaluations: nat,
    completionPercent: real,
    nextDeadlineAt: Option<int>)

  datatype SemesterProgressStats = SemesterProgressStats(
    semesterId: EntityId,
    semesterAverage: Option<real>,
    totalEcts: real,
    completedEcts: real,
    completionPercent: real,
    completedEvaluations: nat,
    totalEvaluations: nat)

  datatype CourseProgressStats = CourseProgressStats(
    courseId: EntityId,
    courseAverage: Option<real>,
    totalEcts: real,
    completedEcts: real,
    completionPercent: real)

  datatype UpcomingDeadline = UpcomingDeadline(
    activityId: EntityId,
    kind: ActivityType,
    title: string,
    dueAt: int,
    semesterId: EntityId,
    ucId: Option<EntityId>)
}
