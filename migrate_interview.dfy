/** The interview-state migration: every candidate's three interview flags are given a value,
    candidates with an evaluation are marked completed and candidates with questions are marked
    started, and every candidate is saved (which stamps it).

    The script reads `evaluation_score` and `interview_questions`, which the `Candidate` document
    does not declare. On the declared schema (`MigrateDeclared`) the first candidate aborts the
    run. `InterviewRecord`, `MigrateAll` and `InterviewStore.Migrate` model the migration on the
    schema the script assumes: the interview fields its docstring lists, and the evaluation and
    question fields it reads. */
module MigrateInterview {
  import opened Wrappers
  import Candidates

  type Time = Candidates.Time

  /** A stored candidate as the migration reads it; a flag that is `None` stands for both a
      missing attribute and a stored `None`. */
  datatype InterviewRecord = InterviewRecord(
    candidateId: string, email: string, createdAt: Time, updatedAt: Time,
    evaluationScore: Option<int>, evaluationTimestamp: Option<Time>, interviewQuestions: seq<string>,
    started: Option<bool>, startTime: Option<Time>,
    completed: Option<bool>, completionTime: Option<Time>,
    terminated: Option<bool>)

  /** Python truthiness of `evaluation_score`: set and non-zero. */
  predicate HasEvaluation(r: InterviewRecord) {
    r.evaluationScore.Some? && r.evaluationScore.value != 0
  }

  /** The six fields the migration is about. */
  datatype InterviewState = InterviewState(
    started: Option<bool>, startTime: Option<Time>, completed: Option<bool>,
    completionTime: Option<Time>, terminated: Option<bool>)

  function StateOf(r: InterviewRecord): InterviewState {
    InterviewState(r.started, r.startTime, r.completed, r.completionTime, r.terminated)
  }

  /** One pass of the loop body over a candidate, including the stamp of `Candidate.save()`:
      `freshId` is the uuid an empty candidate id receives. */
  function MigrateOne(r: InterviewRecord, now: Time, freshId: string): (m: InterviewRecord)
    ensures m.started.Some? && m.completed.Some? && m.terminated.Some?
    ensures m.terminated == Some(r.terminated.GetOr(false))
    ensures HasEvaluation(r) ==> m.completed == Some(true)
    ensures HasEvaluation(r) && r.completed != Some(true) ==> m.completionTime == Some(r.evaluationTimestamp.GetOr(now))
    ensures r.interviewQuestions != [] ==> m.started == Some(true)
    ensures r.interviewQuestions != [] && r.started != Some(true) ==> m.startTime == Some(r.createdAt)
    ensures r.completed == Some(true) ==> m.completed == r.completed && m.completionTime == r.completionTime
    ensures r.started == Some(true) ==> m.started == r.started && m.startTime == r.startTime
    ensures !HasEvaluation(r) ==> m.completed == Some(r.completed.GetOr(false)) && m.completionTime == r.completionTime
    ensures r.interviewQuestions == [] ==> m.started == Some(r.started.GetOr(false)) && m.startTime == r.startTime
    ensures m.updatedAt == now && m.candidateId == (if r.candidateId == "" then freshId else r.candidateId)
    ensures m.email == r.email && m.createdAt == r.createdAt && m.evaluationScore == r.evaluationScore
    ensures m.evaluationTimestamp == r.evaluationTimestamp && m.interviewQuestions == r.interviewQuestions
  {
    var started := r.started.GetOr(false);
    var completed := r.completed.GetOr(false);
    var terminated := r.terminated.GetOr(false);
    var n := r.(started := Some(started), completed := Some(completed), terminated := Some(terminated));
    var n := if HasEvaluation(r) && !completed
      then n.(completed := Some(true), completionTime := Some(r.evaluationTimestamp.GetOr(now))) else n;
    var n := if r.interviewQuestions != [] && !started
      then n.(started := Some(true), startTime := Some(r.createdAt)) else n;
    n.(updatedAt := now, candidateId := if r.candidateId == "" then freshId else r.candidateId)
  }

  /** A second run changes none of the interview fields: after one pass, the flags are set and
      the derived state already holds. */
  lemma {:induction false} MigrateOneIdempotent(r: InterviewRecord, now: Time, now': Time, id: string, id': string)
    ensures StateOf(MigrateOne(MigrateOne(r, now, id), now', id')) == StateOf(MigrateOne(r, now, id))
  {
  }

  /** The collection after the migration: every record migrated, in place and in order. */
  function MigrateAll(docs: seq<InterviewRecord>, now: Time, freshIds: seq<string>): (r: seq<InterviewRecord>)
    requires |freshIds| == |docs|
    ensures |r| == |docs| && forall i :: 0 <= i < |docs| ==> r[i] == MigrateOne(docs[i], now, freshIds[i])
  {
    seq(|docs|, i requires 0 <= i < |docs| => MigrateOne(docs[i], now, freshIds[i]))
  }

  /** Migrating twice leaves every record's interview state as the first run left it. */
  lemma {:induction false} MigrateAllIdempotent(docs: seq<InterviewRecord>, now: Time, now': Time,
                                                ids: seq<string>, ids': seq<string>)
    requires |ids| == |docs| && |ids'| == |docs|
    ensures var once := MigrateAll(docs, now, ids);
      var twice := MigrateAll(once, now', ids');
      |twice| == |once| && forall i :: 0 <= i < |once| ==> StateOf(twice[i]) == StateOf(once[i])
  {
    var once := MigrateAll(docs, now, ids);
    forall i | 0 <= i < |once|
      ensures StateOf(MigrateAll(once, now', ids')[i]) == StateOf(once[i])
    {
      MigrateOneIdempotent(docs[i], now, now', ids[i], ids'[i]);
    }
  }

  /** The stored candidates the migration walks over. */
  class InterviewStore {
    var docs: seq<InterviewRecord>

    constructor (initial: seq<InterviewRecord>)
      ensures docs == initial
    {
      docs := initial;
    }

    /** `migrate_candidates`: the loop over `Candidate.objects.all()`, counting every save. */
    method Migrate(now: Time, freshIds: seq<string>) returns (updatedCount: nat)
      requires |freshIds| == |docs|
      modifies this
      ensures docs == MigrateAll(old(docs), now, freshIds)
      ensures updatedCount == |docs|
    {
      updatedCount := 0;
      var i := 0;
      while i < |docs|
        invariant 0 <= i <= |docs| == |old(docs)|
        invariant updatedCount == i
        invariant forall j :: 0 <= j < i ==> docs[j] == MigrateOne(old(docs)[j], now, freshIds[j])
        invariant forall j :: i <= j < |docs| ==> docs[j] == old(docs)[j]
      {
        docs := docs[i := MigrateOne(docs[i], now, freshIds[i])];
        updatedCount := updatedCount + 1;
        i := i + 1;
      }
    }
  }

  /** The fields the `Candidate` document declares. */
  const DeclaredFields: set<string> := {
    "candidate_id", "email", "created_by_id", "created_at", "updated_at", "is_active",
    "resume_filename", "resume_data", "resume_content_type", "resume_size", "resume_url"}

  /** The attributes the loop body reads without an `hasattr` guard and without assigning them
      first, in the order it reads them. */
  const UnguardedReads: seq<string> := ["evaluation_score", "interview_questions"]

  /** The first of `names` that is not declared, if any. */
  function FirstUndeclared(names: seq<string>, declared: set<string>): (r: Option<string>)
    ensures r.Some? ==> r.value in names && r.value !in declared
    ensures r.None? <==> forall f :: f in names ==> f in declared
  {
    if names == [] then None
    else if names[0] !in declared then Some(names[0])
    else
      var rest := FirstUndeclared(names[1..], declared);
      assert forall f :: f in names ==> f == names[0] || f in names[1..];
      rest
  }

  /** What `migrate_candidates` reports: success with the count, or the text of the exception
      its handler caught (after which it returns `False`). */
  datatype Outcome = Migrated(updatedCount: nat) | Aborted(error: string)

  /** The text of the `AttributeError` raised on reading an undeclared field. */
  function NoAttribute(field: string): string {
    "'Candidate' object has no attribute '" + field + "'"
  }

  /** The script as written, over the declared documents: the loop raises `AttributeError` on
      the first undeclared attribute it reads, before any `save()`, so the collection is
      returned unchanged. The migration proper is the one of `MigrateAll`. */
  function MigrateDeclared(docs: seq<Candidates.Candidate>, now: Time, freshIds: seq<string>):
    (r: (Outcome, seq<Candidates.Candidate>))
    requires |freshIds| == |docs|
    ensures docs == [] ==> r == (Migrated(0), docs)
    ensures r.0.Aborted? ==> r.1 == docs
  {
    if docs == [] then (Migrated(0), docs)
    else match FirstUndeclared(UnguardedReads, DeclaredFields)
      case Some(f) => (Aborted(NoAttribute(f)), docs)
      case None =>
        (Migrated(|docs|), seq(|docs|, i requires 0 <= i < |docs| => Candidates.Stamp(docs[i], now, freshIds[i])))
  }

  /** On the declared schema any non-empty collection aborts the run at `evaluation_score`,
      nothing is saved and the script reports failure. */
  lemma AsWrittenAbortsOnFirstCandidate(docs: seq<Candidates.Candidate>, now: Time, freshIds: seq<string>)
    requires |freshIds| == |docs| && docs != []
    ensures MigrateDeclared(docs, now, freshIds) ==
              (Aborted(NoAttribute("evaluation_score")), docs)
  {
    assert UnguardedReads[0] == "evaluation_score" && "evaluation_score" !in DeclaredFields;
    assert FirstUndeclared(UnguardedReads, DeclaredFields) == Some("evaluation_score");
  }

  /** The discrepancy on one record: the script as written saves nothing, while the migration on
      the schema the script assumes writes the migrated record. */
  lemma AsWrittenVersusIntended(c: Candidates.Candidate, r: InterviewRecord, now: Time, id: string)
    ensures MigrateDeclared([c], now, [id]).0.Aborted?
    ensures MigrateAll([r], now, [id]) == [MigrateOne(r, now, id)]
  {
    AsWrittenAbortsOnFirstCandidate([c], now, [id]);
  }
}
