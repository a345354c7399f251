/** The case-study catalog and the cursor that walks through it, one question
    at a time, during the main interview. Only what the traversal depends on
    is kept of a case study: its id and, per question, whether it is a
    follow-up question. */
module Catalog {

  datatype Question = Question(isSubQuestion: bool)

  datatype CaseStudy = CaseStudy(id: int, questions: seq<Question>)

  /** The shipped catalog: three cases with a question and a follow-up, then
      four cases with a single question. */
  const CaseStudies: seq<CaseStudy> := [
    CaseStudy(1, [Question(false), Question(true)]),
    CaseStudy(2, [Question(false), Question(true)]),
    CaseStudy(3, [Question(false), Question(true)]),
    CaseStudy(4, [Question(false)]),
    CaseStudy(5, [Question(false)]),
    CaseStudy(6, [Question(false)]),
    CaseStudy(7, [Question(false)])
  ]

  /** Every case has at least one question. */
  predicate WellFormed(catalog: seq<CaseStudy>) {
    forall c :: 0 <= c < |catalog| ==> |catalog[c].questions| > 0
  }

  /** (currentCase, currentQuestion), both zero-based. */
  datatype Cursor = Cursor(caseIndex: nat, questionIndex: nat)

  const Start: Cursor := Cursor(0, 0)

  /** The cursor denotes a question of the catalog. */
  predicate InRange(catalog: seq<CaseStudy>, cur: Cursor) {
    cur.caseIndex < |catalog| && cur.questionIndex < |catalog[cur.caseIndex].questions|
  }

  /** `currentQuestionData`: the question the cursor points at. */
  function CurrentQuestion(catalog: seq<CaseStudy>, cur: Cursor): (q: Question)
    requires InRange(catalog, cur)
    ensures q in catalog[cur.caseIndex].questions
  {
    catalog[cur.caseIndex].questions[cur.questionIndex]
  }

  /** `hasMoreQuestions`: the current case exists and has a question after the
      current one. */
  predicate HasMoreQuestions(catalog: seq<CaseStudy>, cur: Cursor) {
    cur.caseIndex < |catalog| && cur.questionIndex < |catalog[cur.caseIndex].questions| - 1
  }

  /** `hasMoreCases`: a case follows the current one. */
  predicate HasMoreCases(catalog: seq<CaseStudy>, cur: Cursor) {
    cur.caseIndex < |catalog| - 1
  }

  /** The three ways `handleNextQuestion` can go. */
  datatype Outcome = NextQuestion | NextCase | Complete

  function Advance(catalog: seq<CaseStudy>, cur: Cursor): Outcome {
    if HasMoreQuestions(catalog, cur) then NextQuestion
    else if HasMoreCases(catalog, cur) then NextCase
    else Complete
  }

  /** The cursor after `handleNextQuestion`; on completion it stays put. */
  function NextCursor(catalog: seq<CaseStudy>, cur: Cursor): Cursor {
    match Advance(catalog, cur)
    case NextQuestion => cur.(questionIndex := cur.questionIndex + 1)
    case NextCase => Cursor(cur.caseIndex + 1, 0)
    case Complete => cur
  }

  /** Lexicographic order on cursors. */
  predicate Before(a: Cursor, b: Cursor) {
    a.caseIndex < b.caseIndex || (a.caseIndex == b.caseIndex && a.questionIndex < b.questionIndex)
  }

  /** Number of questions in the first `c` cases. */
  function Prefix(catalog: seq<CaseStudy>, c: nat): nat
    requires c <= |catalog|
  {
    if c == 0 then 0 else Prefix(catalog, c - 1) + |catalog[c - 1].questions|
  }

  /** Number of questions in the whole catalog. */
  function Total(catalog: seq<CaseStudy>): nat {
    Prefix(catalog, |catalog|)
  }

  /** Zero-based number of a question when all questions of all cases are
      listed one after the other; the reference order of the interview. */
  function Position(catalog: seq<CaseStudy>, cur: Cursor): nat
    requires cur.caseIndex <= |catalog|
  {
    Prefix(catalog, cur.caseIndex) + cur.questionIndex
  }

  /** The questions of case i all come before the questions of any later case. */
  lemma {:induction false} PrefixGrows(catalog: seq<CaseStudy>, i: nat, j: nat)
    requires i < j <= |catalog|
    ensures Prefix(catalog, i) + |catalog[i].questions| <= Prefix(catalog, j)
    decreases j - i
  {
    if i + 1 < j {
      PrefixGrows(catalog, i, j - 1);
    }
  }

  /** Every question of the catalog has a position below the total. */
  lemma PositionBelowTotal(catalog: seq<CaseStudy>, cur: Cursor)
    requires InRange(catalog, cur)
    ensures Position(catalog, cur) < Total(catalog)
  {
    PrefixGrows(catalog, cur.caseIndex, |catalog|);
  }

  /** Distinct questions have distinct positions, and the position order is the
      cursor order. */
  lemma PositionOrder(catalog: seq<CaseStudy>, a: Cursor, b: Cursor)
    requires InRange(catalog, a) && InRange(catalog, b)
    ensures Before(a, b) <==> Position(catalog, a) < Position(catalog, b)
    ensures a == b <==> Position(catalog, a) == Position(catalog, b)
  {
    if a.caseIndex < b.caseIndex {
      PrefixGrows(catalog, a.caseIndex, b.caseIndex);
    } else if b.caseIndex < a.caseIndex {
      PrefixGrows(catalog, b.caseIndex, a.caseIndex);
    }
  }

  /** Unless the interview completes, the cursor moves to another question of
      the catalog. */
  lemma AdvanceStaysInRange(catalog: seq<CaseStudy>, cur: Cursor)
    requires WellFormed(catalog) && InRange(catalog, cur)
    ensures Advance(catalog, cur) != Complete ==> InRange(catalog, NextCursor(catalog, cur))
  {
  }

  /** One call of `handleNextQuestion` on an in-range cursor: unless the
      interview completes, the cursor moves to the very next question of the
      listing and stays in range; it completes exactly when the cursor is on
      the last question, and then the cursor does not move. */
  lemma AdvanceStep(catalog: seq<CaseStudy>, cur: Cursor)
    requires WellFormed(catalog) && InRange(catalog, cur)
    ensures var next := NextCursor(catalog, cur);
      (Advance(catalog, cur) == Complete <==> Position(catalog, cur) + 1 == Total(catalog))
      && (Advance(catalog, cur) == Complete ==> next == cur)
      && (Advance(catalog, cur) != Complete ==>
            InRange(catalog, next) && Before(cur, next)
            && Position(catalog, next) == Position(catalog, cur) + 1)
  {
    var next := NextCursor(catalog, cur);
    PositionBelowTotal(catalog, cur);
    match Advance(catalog, cur)
    case NextQuestion =>
      PositionBelowTotal(catalog, next);
    case NextCase =>
      assert Prefix(catalog, next.caseIndex) == Prefix(catalog, cur.caseIndex) + |catalog[cur.caseIndex].questions|;
      PositionBelowTotal(catalog, next);
    case Complete =>
      assert cur.caseIndex == |catalog| - 1;
  }

  /** Where `k` presses of "Next" leave the traversal: the cursor, and whether
      one of them reported completion (after which the interview screen is
      gone, so further presses do nothing). */
  datatype Walk = Walk(at: Cursor, finished: bool)

  function Calls(catalog: seq<CaseStudy>, cur: Cursor, k: nat): Walk
    decreases k
  {
    if k == 0 then Walk(cur, false)
    else if Advance(catalog, cur) == Complete then Walk(cur, true)
    else Calls(catalog, NextCursor(catalog, cur), k - 1)
  }

  /** `k` presses of "Next" from a question at position p visit the next k
      questions in listing order; the walk completes exactly when p + k
      reaches the number of questions, and then rests on the last one. */
  lemma {:induction false} CallsWalk(catalog: seq<CaseStudy>, cur: Cursor, k: nat)
    requires WellFormed(catalog) && InRange(catalog, cur)
    ensures var w := Calls(catalog, cur, k);
      InRange(catalog, w.at)
      && (w.finished <==> Position(catalog, cur) + k >= Total(catalog))
      && Position(catalog, w.at)
         == if Position(catalog, cur) + k < Total(catalog) then Position(catalog, cur) + k
            else Total(catalog) - 1
    decreases k
  {
    PositionBelowTotal(catalog, cur);
    AdvanceStep(catalog, cur);
    if k > 0 && Advance(catalog, cur) != Complete {
      CallsWalk(catalog, NextCursor(catalog, cur), k - 1);
    }
  }

  /** The shipped catalog is well formed and holds ten questions. */
  lemma ShippedCatalogShape()
    ensures WellFormed(CaseStudies)
    ensures |CaseStudies| == 7 && Total(CaseStudies) == 10
    ensures InRange(CaseStudies, Start)
  {
  }

  /** In the shipped catalog a question is shown as a follow-up exactly when it
      is not the first question of its case. */
  lemma ShippedFollowUps(cur: Cursor)
    requires InRange(CaseStudies, cur)
    ensures CurrentQuestion(CaseStudies, cur).isSubQuestion <==> cur.questionIndex > 0
  {
  }

  /** The ten questions of the shipped catalog in the order they are asked. */
  const Tour: seq<Cursor> := [Cursor(0, 0), Cursor(0, 1), Cursor(1, 0), Cursor(1, 1), Cursor(2, 0),
                              Cursor(2, 1), Cursor(3, 0), Cursor(4, 0), Cursor(5, 0), Cursor(6, 0)]

  /** Tour lists the shipped questions at positions 0 to 9. */
  lemma TourPositions(i: nat)
    requires i < 10
    ensures InRange(CaseStudies, Tour[i]) && Position(CaseStudies, Tour[i]) == i
  {
  }

  /** A walk from the first question is pinned down by its length: it rests on
      the question whose position the length names (or the last one). */
  lemma WalkFromStart(catalog: seq<CaseStudy>, k: nat, target: Cursor)
    requires WellFormed(catalog) && InRange(catalog, Start) && InRange(catalog, target)
    requires Position(catalog, target) == if k < Total(catalog) then k else Total(catalog) - 1
    ensures Calls(catalog, Start, k) == Walk(target, k >= Total(catalog))
  {
    CallsWalk(catalog, Start, k);
    PositionOrder(catalog, Calls(catalog, Start, k).at, target);
  }

  /** On the shipped catalog, starting from the first question: presses 1 to 9
      of "Next" each bring up the next of the ten questions, and the 10th
      press, the one made on the last question, completes the interview. */
  lemma ShippedCatalogTour(k: nat)
    requires k <= 10
    ensures k < 10 ==> Calls(CaseStudies, Start, k) == Walk(Tour[k], false)
    ensures k == 10 ==> Calls(CaseStudies, Start, k) == Walk(Tour[9], true)
  {
    ShippedCatalogShape();
    var i := if k < 10 then k else 9;
    TourPositions(i);
    WalkFromStart(CaseStudies, k, Tour[i]);
  }
}
