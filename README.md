# Interview session model

A Dafny model of the interview-session state machine held by the single page
component `app/page.tsx`. A candidate goes through twelve screens in a fixed
order:

- registration, introduction, job description and equipment check;
- a recorded self-introduction;
- a timed interview over a catalog of case studies;
- feedback, then a final success screen.

The page's seventeen state cells are the fields of one class,
`InterviewSession.Session`. Every button, input and timer tick of the page is
one of its event methods. Each event method can be called at any time from a
valid session. If its button is not on screen, or is disabled, or its timer
is not armed, the method changes nothing. Every event method's contract
covers three things:

- its whole new state, as an update of `Snapshot()` (the record of all
  seventeen cells);
- that the screen moves by at most one step forward (`Stages.Moves`);
- that the reachability invariant `Valid()` is kept.

Three further methods are internal steps, not events: `SetStatus`,
`MoveCursor` and `HandleNextQuestion`. Their contracts state only the new
state. They neither require nor keep `Valid()` on their own: for instance,
`SetStatus` can set a probe to `failed`, and `MoveCursor` can point past the
catalog. They keep `Valid()` only as they are called by `StartProbe`,
`ResolveProbe` and `NextQuestion`. Those callers first establish the invariant
of the resulting state with a lemma.

Modules (one file each):

- `Stages` (`stages.dfy`): the twelve screens, their order, and the
  forward-only move relation.
- `TimeFormat` (`time_format.dfy`): `formatTime`, the `MM:SS` rendering of a
  countdown, with a parser it round-trips through.
- `TechCheck` (`tech_check.dfy`): the three probe statuses, the gate
  `allTechChecked`, and when a probe's "Test" button is enabled.
- `Catalog` (`catalog.dfy`): the shipped case-study catalog (question counts
  2, 2, 2, 1, 1, 1, 1, where the second question of each of the first three
  cases is a follow-up), the `(currentCase, currentQuestion)` cursor,
  `hasMoreQuestions`, `hasMoreCases` and the three outcomes of
  `handleNextQuestion`. The walk is measured against a reference order, the
  position of a question when all questions are listed one after the other.
- `InterviewSession` (`session.dfy`):
  - the state record;
  - the invariant of every reachable state;
  - the pure description `AfterNextQuestion` of "Next";
  - the `Session` class.

What is proved about the session state:

- The screen never goes back.
- The countdowns stay between 0 and their initial values (300, 1800, 300).
- The cursor always denotes a question of the catalog, so the interview
  screen, which is shown only when `currentCaseData` exists, always shows.
- No probe is ever `failed`. The probes are untouched before the equipment
  check, and all three have succeeded after it.
- The registration guard held for every session past registration.
- The interview starts exactly on entering its screen, with the cursor on the
  first question and the full 1800 seconds.
- An answer is being recorded only on the interview screen, or when the
  countdown cut it off.

On the shipped catalog, "Next" visits the ten questions in order on presses 0
to 9. The 10th press from (0, 0), the one made on the last question, finds
neither a next question nor a next case, and brings up the feedback screen.

The cursor is never reset when the interview starts (app/page.tsx:855-858).
The invariant shows it is (0, 0) from construction until the interview
screen.

## Model

| member | source | states |
|---|---|---|
| Stages.Next | app/page.tsx:17-29 | every screen but the last has a successor, one position further in the declared order (and by RankInjective the only screen there) |
| Stages.RankInjective | app/page.tsx:17-29 | two screens with the same rank are the same screen |
| Stages.MovesForward | app/page.tsx:17-29 | a move leaves the screen or raises its rank by exactly one, never lowers it |
| Stages.RunNeverGoesBack | app/page.tsx:17-29 | along any run of events, a later screen never comes earlier in the order, and j - i events move at most j - i screens |
| TimeFormat.DigitChar | app/page.tsx:172 | the digit character for d < 10 is a digit denoting d |
| TimeFormat.NatToString | app/page.tsx:172 | `toString()` of a natural number: at least one digit, digits only, no leading zero, denotes exactly n, one digit below 10 and two below 100 |
| TimeFormat.Repeat | app/page.tsx:172 | k copies of the fill character |
| TimeFormat.ValueLeadingZeros | app/page.tsx:172 | leading zeros do not change the value a digit string denotes |
| TimeFormat.ZerosValue | app/page.tsx:172 | a string of zeros denotes 0 |
| TimeFormat.PadStartZeros | app/page.tsx:172 | `padStart(w, '0')` keeps the value, reaches the width and never truncates: the original string is its suffix |
| TimeFormat.SplitFields | app/page.tsx:172 | the text before the last three characters of `m:ss` is m, and the last two are ss |
| TimeFormat.FormatTimeFields | app/page.tsx:169-173 | `formatTime(n)`: a minutes field of at least two digits denoting n / 60 with no upper bound, a colon, a seconds field of exactly two digits denoting n % 60 < 60, and minutes * 60 + seconds == n |
| TimeFormat.ParseFormatTime | app/page.tsx:169-173 | parsing the rendered text gives back n |
| TimeFormat.FormatTimeInjective | app/page.tsx:169-173 | different durations render differently |
| TimeFormat.FormatTimeExamples | app/page.tsx:169-173 | 0 is "00:00", 65 is "01:05", 300 is "05:00", 1800 is "30:00" and 3661 is "61:01" |
| TechCheck.GateIsConjunction | app/page.tsx:182 | `allTechChecked` holds iff every probe, whichever kind, reports success |
| TechCheck.GateTruthTable | app/page.tsx:182 | any probe not succeeded closes the gate; all three succeeded opens it |
| Catalog.CurrentQuestion | app/page.tsx:184-185 | `currentQuestionData` is a question of the current case |
| Catalog.PrefixGrows | app/page.tsx:44-104 | the questions of a case all come before those of any later case in the listing |
| Catalog.PositionBelowTotal | app/page.tsx:44-104 | every in-range cursor has a position below the number of questions |
| Catalog.PositionOrder | app/page.tsx:44-104 | for in-range cursors, lexicographic order is position order, and equal positions mean equal cursors |
| Catalog.AdvanceStaysInRange | app/page.tsx:186-204 | unless it completes, `handleNextQuestion` moves the cursor to a question of the catalog |
| Catalog.AdvanceStep | app/page.tsx:184-204 | one call completes iff the cursor is on the last question, and then leaves it in place; otherwise the new cursor is in range, lexicographically greater, and exactly one position further |
| Catalog.CallsWalk | app/page.tsx:193-204 | k calls from position p rest on position p + k (or the last question) and have completed iff p + k reaches the number of questions |
| Catalog.ShippedCatalogShape | app/page.tsx:44-104 | the shipped catalog has seven cases, ten questions, and every case has a question |
| Catalog.ShippedFollowUps | app/page.tsx:44-104 | a shipped question is labelled a follow-up iff it is not its case's first |
| Catalog.TourPositions | app/page.tsx:44-104 | the listed ten cursors are the shipped questions at positions 0 to 9 |
| Catalog.WalkFromStart | app/page.tsx:193-204 | a walk from the first question is determined by its length: it rests on the question at that position, or the last one |
| Catalog.ShippedCatalogTour | app/page.tsx:193-204 | on the shipped catalog from (0, 0), calls 1 to 9 each bring the next of the ten questions without completing; the 10th call, made on the last question, completes |
| InterviewSession.InitialIsValid | app/page.tsx:107-131 | the initial values of the state cells form a reachable state |
| InterviewSession.WithProbeTouchesOne | app/page.tsx:176 | replacing one probe's status leaves the other two probes, the screen and the cursor alone |
| InterviewSession.ProbeUpdateKeepsInvariant | app/page.tsx:175-180 | setting a probe to anything but `failed` on the tech-check screen keeps the state reachable |
| InterviewSession.ReachableFacts | app/page.tsx:894 | in every reachable state a probe is under test only on the tech-check screen, "case k of n" has 1 <= k <= n, and the interview countdown is never armed from the feedback screen on |
| InterviewSession.GlobalTickKeepsInvariant | app/page.tsx:143-157 | an armed interview-countdown tick keeps the state reachable, whether it counts down or ends the interview |
| InterviewSession.NextQuestionMoves | app/page.tsx:193-204 | "Next" leaves the screen or moves it on by one |
| InterviewSession.AfterNextQuestionCases | app/page.tsx:193-204 | the three branches: next question of the case with the recording cleared, else first question of the next case, else feedback with the cursor untouched; nothing while the button is hidden |
| InterviewSession.NextQuestionStep | app/page.tsx:184-204 | "Next" moves the cursor to the next question of the listing, and leaves the interview iff the cursor was on the last question, leaving it in place; no answer is being recorded afterwards; with the button hidden nothing changes |
| InterviewSession.CursorMoveKeepsInvariant | app/page.tsx:194-200 | moving the cursor to another question of the catalog on the interview screen, with the recording cleared, keeps the state reachable |
| InterviewSession.FinishKeepsInvariant | app/page.tsx:202 | leaving the interview for feedback, with no answer being recorded, keeps the state reachable |
| InterviewSession.NextQuestionKeepsInvariant | app/page.tsx:193-204 | "Next" on the shipped catalog keeps the state reachable |
| InterviewSession.PressesFollowCalls | app/page.tsx:946-948 | repeated presses of "Next" follow the catalog walk: the same cursor, the feedback screen iff the walk completed, and the button still on screen until then |
| InterviewSession.PressesStayPut | app/page.tsx:870 | once the interview screen is gone, "Next" changes nothing |
| InterviewSession.ShippedInterview | app/page.tsx:193-204 | from a freshly started interview on the shipped catalog, presses 0 to 9 show the ten questions in order on the interview screen, and the 10th press shows feedback |
| InterviewSession.Max | app/page.tsx:137 | `Math.max`: at least both arguments and equal to one of them |
| InterviewSession.Session.constructor | app/page.tsx:107-131 | the session starts in the initial, reachable state |
| InterviewSession.Session.SetName | app/page.tsx:238 | on the registration screen the name becomes the input, and nothing else changes |
| InterviewSession.Session.SetEmail | app/page.tsx:249 | on the registration screen the email becomes the input, and nothing else changes |
| InterviewSession.Session.SetTermsAccepted | app/page.tsx:257 | on the registration screen the checkbox value is stored, and nothing else changes |
| InterviewSession.Session.SubmitRegistration | app/page.tsx:266-268 | the screen moves to the introduction iff name and email are non-empty and the terms accepted; otherwise nothing changes |
| InterviewSession.Session.AcknowledgeIntro | app/page.tsx:369 | introduction to "ready for the job description", and only that |
| InterviewSession.Session.ViewJobDescription | app/page.tsx:428 | to the job description, and only that |
| InterviewSession.Session.ContinueToTechCheck | app/page.tsx:496 | job description to "ready for the tech check", and only that |
| InterviewSession.Session.StartTechCheck | app/page.tsx:555 | to the tech-check screen, and only that |
| InterviewSession.Session.StartProbe | app/page.tsx:175-177 | on the tech-check screen, with the probe neither testing nor succeeded, exactly that probe becomes testing; otherwise nothing changes |
| InterviewSession.Session.ResolveProbe | app/page.tsx:179 | a probe under test becomes a success and nothing else changes; otherwise nothing changes |
| InterviewSession.Session.SetStatus | app/page.tsx:176 | the setter chosen by probe kind replaces that probe's status only |
| InterviewSession.Session.FinishTechCheck | app/page.tsx:653-655 | tech check to "ready for the self-introduction" iff all three probes succeeded |
| InterviewSession.Session.StartAboutYourself | app/page.tsx:714 | to the self-introduction screen, and only that |
| InterviewSession.Session.ToggleSelfIntroRecording | app/page.tsx:760 | on the self-introduction screen, flips the recording flag only |
| InterviewSession.Session.TickAboutTimer | app/page.tsx:134-141 | the self-introduction countdown drops by exactly one iff it is armed (its screen, recording, above zero); otherwise nothing changes, and no other cell changes |
| InterviewSession.Session.SkipSelfIntro | app/page.tsx:780-781 | "Skip" always moves the self-introduction on, and only that |
| InterviewSession.Session.ContinueToInterview | app/page.tsx:791-792 | moves the self-introduction on iff recording or the countdown has moved off 300 |
| InterviewSession.Session.StartInterview | app/page.tsx:855-858 | enters the interview and marks it started in one event |
| InterviewSession.Session.TickGlobalTimer | app/page.tsx:143-157 | when armed (interview screen, started, above zero, whatever the recording), a tick at 1 or below sets the countdown to 0 and the screen to feedback, otherwise it subtracts one; unarmed, nothing changes; once it has forced feedback it is no longer armed |
| InterviewSession.Session.RecordAnswer | app/page.tsx:930 | "Record Answer", shown only while not recording, starts recording and does nothing else |
| InterviewSession.Session.EndAnswer | app/page.tsx:938 | "End Answer", shown only while recording, stops it and does nothing else |
| InterviewSession.Session.NextQuestion | app/page.tsx:946-948 | the button shown only while not recording; its effect is AfterNextQuestion on the shipped catalog, and the screen moves by at most one |
| InterviewSession.Session.HandleNextQuestion | app/page.tsx:193-204 | the three-way `handleNextQuestion` over the catalog it is given, as AfterNextQuestion states it |
| InterviewSession.Session.MoveCursor | app/page.tsx:194-200 | sets the cursor and clears the recording flag, nothing else |
| InterviewSession.Session.SetFeedbackText | app/page.tsx:1085 | on the feedback screen the text becomes the input, and nothing else changes |
| InterviewSession.Session.ToggleFeedbackVideo | app/page.tsx:1110 | on the feedback screen, flips the video-recording flag only |
| InterviewSession.Session.TickFeedbackTimer | app/page.tsx:159-167 | the feedback countdown drops by exactly one iff it is armed (feedback screen, recording, above zero); otherwise nothing changes, and no other cell changes |
| InterviewSession.Session.SubmitFeedback | app/page.tsx:1130 | feedback to the success screen, and only that |

## Left out

- Markup, animation variants, icons and UI components: presentation only.
  The button labels "Next Question", "Finish & Next Case" and "Finish
  Interview" follow `Catalog.Advance`, but labels are not modelled.
- Real scheduling (`setInterval`, `clearInterval`, `setTimeout`, and the
  re-run and clean-up of effects). Each countdown's interval becomes a tick
  method whose guard is the effect's condition. The two-second wait of the
  equipment probe becomes a separate `ResolveProbe` event, which applies only
  to a probe under test. How often ticks arrive, and in what interleaving
  with button presses, is left to the caller.
- Camera, microphone and network capture: the code has none; the recording
  flags are plain booleans.
- The progress bar value `((currentCase + 1) / caseStudies.length) * 100`:
  floating point. Only the integer fact `1 <= currentCase + 1 <= 7` is
  stated, in `InterviewSession.ReachableFacts`.
- The text of the case studies and of the job description. A case keeps its
  id and, per question, whether it is a follow-up. Name, email and feedback
  text are kept as strings, but only their emptiness matters.
- A `failed` probe, and any retry after it. The status exists in the type,
  but no code path produces it. The invariant states that no probe is ever
  failed.
- The "Go to Dashboard" button on the success screen: it has no handler.
- Submission or persistence of the interview: the code has none.
- Both layouts of the interview screen (mobile and desktop) share one set of
  handlers and appear once in the model, at the lines of the first layout.
- TimeFormat.FormatTime: takes an unbounded natural number, where the page
  passes a JavaScript number (a double). Negative input is not modelled.
  Large values are not modelled either: the double's `toString()` agrees with
  `NatToString` only below 10^21, where exponent notation starts, and integers
  are exact only up to 2^53. So the "no upper bound" of FormatTimeFields holds
  of the model, not of the page beyond those sizes. The page only renders the
  three countdowns, which the invariant keeps between 0 and 1800, so neither
  gap is reached.
- InterviewSession.Session.HandleNextQuestion: takes the catalog as a
  parameter instead of reading the module constant. The session always
  passes the shipped catalog.
