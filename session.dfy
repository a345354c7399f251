/** The interview page's state: one object whose fields are the page's state
    cells, with one method per button, input or timer tick that changes them.
    Every method may be called at any time; when its button is not on screen
    or is disabled, or its timer is not armed, it changes nothing. */
module InterviewSession {
  import opened Stages
  import opened TechCheck
  import opened Catalog

  /** Initial values of the self-introduction, interview and feedback-video countdowns. */
  const AboutSeconds: int := 300
  const InterviewSeconds: int := 1800
  const FeedbackSeconds: int := 300

  /** A snapshot of every state cell of the page. */
  datatype State = State(
    step: Step,
    name: string,
    email: string,
    termsAccepted: bool,
    cameraStatus: TechStatus,
    micStatus: TechStatus,
    internetStatus: TechStatus,
    isRecording: bool,
    aboutTimer: int,
    currentCase: nat,
    currentQuestion: nat,
    globalTimer: int,
    interviewStarted: bool,
    recordingAnswer: bool,
    feedbackText: string,
    feedbackVideoRecording: bool,
    feedbackTimer: int)
  {
    /** The status cell of one probe. */
    function StatusFor(p: Probe): TechStatus {
      StatusOf(cameraStatus, micStatus, internetStatus, p)
    }

    /** The same state with one probe's status replaced. */
    function WithProbe(p: Probe, t: TechStatus): State {
      match p
      case Camera => this.(cameraStatus := t)
      case Mic => this.(micStatus := t)
      case Internet => this.(internetStatus := t)
    }

    /** The registration "Continue" button is enabled. */
    predicate CanRegister() {
      name != "" && email != "" && termsAccepted
    }

    /** The self-introduction "Continue to Interview" button is enabled: it is
        disabled only while not recording with the countdown untouched. */
    predicate CanContinueToInterview() {
      !(!isRecording && aboutTimer == AboutSeconds)
    }

    /** The "Next" button of the interview screen is on screen. */
    predicate CanAskNext() {
      step == MainInterview && !recordingAnswer
    }

    /** Conditions under which each countdown's effect runs an interval. */
    predicate AboutArmed() {
      step == AboutYourself && isRecording && aboutTimer > 0
    }

    predicate GlobalArmed() {
      step == MainInterview && interviewStarted && globalTimer > 0
    }

    predicate FeedbackArmed() {
      step == Feedback && feedbackVideoRecording && feedbackTimer > 0
    }

    /** The (currentCase, currentQuestion) cursor. */
    function At(): Cursor {
      Cursor(currentCase, currentQuestion)
    }

    /** What holds of every state a session can reach. */
    ghost predicate Invariant() {
      // countdowns stay between zero and their initial values
      && 0 <= aboutTimer <= AboutSeconds
      && 0 <= globalTimer <= InterviewSeconds
      && 0 <= feedbackTimer <= FeedbackSeconds
      // the cursor always denotes a question of the catalog
      && InRange(CaseStudies, At())
      // no probe ever fails, and the checks are made on the tech-check screen
      && cameraStatus != Failed && micStatus != Failed && internetStatus != Failed
      && (Rank(step) < Rank(TechCheck) ==> cameraStatus == Idle && micStatus == Idle && internetStatus == Idle)
      && (Rank(step) > Rank(TechCheck) ==> AllTechChecked(cameraStatus, micStatus, internetStatus))
      // a session past registration was registered with its guard met
      && (Rank(step) > Rank(Registration) ==> CanRegister())
      // the self-introduction is untouched before its screen
      && (Rank(step) < Rank(AboutYourself) ==> !isRecording && aboutTimer == AboutSeconds)
      // the interview starts exactly on entering its screen, with the cursor
      // on the first question and the countdown full
      && (interviewStarted <==> Rank(step) >= Rank(MainInterview))
      && (Rank(step) < Rank(MainInterview) ==>
            currentCase == 0 && currentQuestion == 0 && !recordingAnswer && globalTimer == InterviewSeconds)
      // an expired interview countdown has moved the session on to feedback
      && (globalTimer == 0 ==> Rank(step) >= Rank(Feedback))
      // an answer is recorded only on the interview screen, or was cut off by
      // the countdown
      && (recordingAnswer ==> step == MainInterview || globalTimer == 0)
      // the feedback is untouched before its screen
      && (Rank(step) < Rank(Feedback) ==>
            !feedbackVideoRecording && feedbackTimer == FeedbackSeconds && feedbackText == "")
    }
  }

  /** The state cells' initial values. */
  const Initial: State := State(Registration, "", "", false, Idle, Idle, Idle, false, AboutSeconds,
                                0, 0, InterviewSeconds, false, false, "", false, FeedbackSeconds)

  /** The session starts in a reachable state. */
  lemma InitialIsValid()
    ensures Initial.Invariant()
  {
  }

  /** Replacing a probe's status touches that probe only. */
  lemma WithProbeTouchesOne(s: State, p: Probe, t: TechStatus, q: Probe)
    ensures s.WithProbe(p, t).StatusFor(q) == if q == p then t else s.StatusFor(q)
    ensures s.WithProbe(p, t).step == s.step && s.WithProbe(p, t).At() == s.At()
  {
  }

  /** Changing a probe's status on the tech-check screen, to anything but
      `failed`, keeps the session reachable. */
  lemma ProbeUpdateKeepsInvariant(s: State, p: Probe, t: TechStatus)
    requires s.Invariant() && s.step == TechCheck && t != Failed
    ensures s.WithProbe(p, t).Invariant()
  {
    match p
    case Camera => assert s.WithProbe(p, t) == s.(cameraStatus := t);
    case Mic => assert s.WithProbe(p, t) == s.(micStatus := t);
    case Internet => assert s.WithProbe(p, t) == s.(internetStatus := t);
  }

  /** Facts of any reachable state: a probe is under test only on the
      tech-check screen, the progress counter "case k of n" never exceeds n,
      and the interview countdown is never armed again once the session has
      reached the feedback screen. */
  lemma ReachableFacts(s: State, p: Probe)
    requires s.Invariant()
    ensures s.StatusFor(p) == Testing ==> s.step == TechCheck
    ensures 1 <= s.currentCase + 1 <= |CaseStudies|
    ensures Rank(s.step) >= Rank(Feedback) ==> !s.GlobalArmed()
  {
  }

  /** The state after `handleNextQuestion` over a catalog; its button is shown
      only while no answer is being recorded: the next question of the case,
      else the first question of the next case, else the feedback screen with
      the cursor left in place. */
  function AfterNextQuestion(catalog: seq<CaseStudy>, s: State): State {
    if !s.CanAskNext() then s
    else match Advance(catalog, s.At())
      case NextQuestion => s.(currentQuestion := s.currentQuestion + 1, recordingAnswer := false)
      case NextCase => s.(currentCase := s.currentCase + 1, currentQuestion := 0, recordingAnswer := false)
      case Complete => s.(step := Feedback)
  }

  /** A tick of the armed interview countdown keeps the session reachable,
      whether it counts down or ends the interview. */
  lemma GlobalTickKeepsInvariant(s: State)
    requires s.Invariant()
    ensures s.GlobalArmed() ==> s.(step := Feedback, globalTimer := 0).Invariant()
    ensures s.GlobalArmed() && s.globalTimer > 1 ==> s.(globalTimer := s.globalTimer - 1).Invariant()
  {
  }

  /** "Next" leaves the screen alone or moves on by one screen. */
  lemma NextQuestionMoves(catalog: seq<CaseStudy>, s: State)
    ensures Moves(s.step, AfterNextQuestion(catalog, s).step)
  {
  }

  /** The three branches of `handleNextQuestion`, one by one. */
  lemma AfterNextQuestionCases(catalog: seq<CaseStudy>, s: State)
    ensures !s.CanAskNext() ==> AfterNextQuestion(catalog, s) == s
    ensures s.CanAskNext() && HasMoreQuestions(catalog, s.At()) ==>
      AfterNextQuestion(catalog, s) == s.(currentQuestion := s.currentQuestion + 1, recordingAnswer := false)
    ensures s.CanAskNext() && !HasMoreQuestions(catalog, s.At()) && HasMoreCases(catalog, s.At()) ==>
      AfterNextQuestion(catalog, s) == s.(currentCase := s.currentCase + 1, currentQuestion := 0, recordingAnswer := false)
    ensures s.CanAskNext() && !HasMoreQuestions(catalog, s.At()) && !HasMoreCases(catalog, s.At()) ==>
      AfterNextQuestion(catalog, s) == s.(step := Feedback)
  {
  }

  /** "Next" moves the cursor to the next question in listing order, or ends
      the interview exactly when the cursor is on the last question (leaving
      it there); either way no answer is being recorded afterwards. When the
      button is not on screen nothing changes. */
  lemma NextQuestionStep(catalog: seq<CaseStudy>, s: State)
    requires WellFormed(catalog) && InRange(catalog, s.At())
    ensures var t := AfterNextQuestion(catalog, s);
      Moves(s.step, t.step)
      && (!s.CanAskNext() ==> t == s)
      && (s.CanAskNext() ==>
            !t.recordingAnswer
            && t.At() == NextCursor(catalog, s.At())
            && (t.step == Feedback <==> Position(catalog, s.At()) + 1 == Total(catalog))
            && (t.step == Feedback ==> t.At() == s.At())
            && (t.step == MainInterview ==>
                  InRange(catalog, t.At()) && Before(s.At(), t.At())
                  && Position(catalog, t.At()) == Position(catalog, s.At()) + 1))
  {
    AdvanceStep(catalog, s.At());
    if s.CanAskNext() {
      var t := AfterNextQuestion(catalog, s);
      match Advance(catalog, s.At())
      case NextQuestion => assert t.step == s.step && t.At() == NextCursor(catalog, s.At());
      case NextCase => assert t.step == s.step && t.At() == NextCursor(catalog, s.At());
      case Complete => assert t == s.(step := Feedback);
    }
  }

  /** "Next" on the shipped catalog keeps the session reachable. */
  lemma NextQuestionKeepsInvariant(s: State)
    requires s.Invariant()
    ensures AfterNextQuestion(CaseStudies, s).Invariant()
  {
    if s.CanAskNext() {
      assert WellFormed(CaseStudies);
      AdvanceStaysInRange(CaseStudies, s.At());
      var next := NextCursor(CaseStudies, s.At());
      if Advance(CaseStudies, s.At()) == Complete {
        FinishKeepsInvariant(s);
      } else {
        CursorMoveKeepsInvariant(s, next);
        assert AfterNextQuestion(CaseStudies, s)
            == s.(currentCase := next.caseIndex, currentQuestion := next.questionIndex, recordingAnswer := false);
      }
    }
  }

  /** Moving the cursor to another question of the catalog on the interview
      screen, with the answer recording cleared, keeps the invariant. */
  lemma CursorMoveKeepsInvariant(s: State, next: Cursor)
    requires s.Invariant() && s.step == MainInterview && InRange(CaseStudies, next)
    ensures s.(currentCase := next.caseIndex, currentQuestion := next.questionIndex, recordingAnswer := false).Invariant()
  {
  }

  /** Leaving the interview screen for the feedback screen, with no answer
      being recorded, keeps the invariant. */
  lemma FinishKeepsInvariant(s: State)
    requires s.Invariant() && s.step == MainInterview && !s.recordingAnswer
    ensures s.(step := Feedback).Invariant()
  {
  }

  /** The state after `k` presses of "Next", with no answer recorded in
      between. */
  function Presses(catalog: seq<CaseStudy>, s: State, k: nat): State
    decreases k
  {
    if k == 0 then s else Presses(catalog, AfterNextQuestion(catalog, s), k - 1)
  }

  /** Pressing "Next" repeatedly on the interview screen walks the catalog as
      Calls does: the same cursor, and the feedback screen exactly when the
      walk has completed; until then the "Next" button stays on screen. */
  lemma {:induction false} PressesFollowCalls(catalog: seq<CaseStudy>, s: State, k: nat)
    requires WellFormed(catalog) && InRange(catalog, s.At()) && s.CanAskNext()
    ensures var t := Presses(catalog, s, k);
      var w := Calls(catalog, s.At(), k);
      t.At() == w.at
      && (t.step == Feedback <==> w.finished)
      && (!w.finished ==> t.CanAskNext())
    decreases k
  {
    if k > 0 {
      NextQuestionStep(catalog, s);
      var t := AfterNextQuestion(catalog, s);
      if Advance(catalog, s.At()) == Complete {
        PressesStayPut(catalog, t, k - 1);
      } else {
        PressesFollowCalls(catalog, t, k - 1);
      }
    }
  }

  /** Once the interview screen is gone, "Next" changes nothing. */
  lemma {:induction false} PressesStayPut(catalog: seq<CaseStudy>, s: State, k: nat)
    requires s.step == Feedback
    ensures Presses(catalog, s, k) == s
    decreases k
  {
    if k > 0 {
      PressesStayPut(catalog, AfterNextQuestion(catalog, s), k - 1);
    }
  }

  /** A session that has just started its interview on the shipped catalog
      shows the ten questions in order on presses 0 to 9 of "Next", and the
      10th press, made on the last question, brings up the feedback screen. */
  lemma ShippedInterview(s: State, k: nat)
    requires s.CanAskNext() && s.At() == Start
    requires k <= 10
    ensures k < 10 ==> Presses(CaseStudies, s, k).step == MainInterview && Presses(CaseStudies, s, k).At() == Tour[k]
    ensures k == 10 ==> Presses(CaseStudies, s, k).step == Feedback && Presses(CaseStudies, s, k).At() == Tour[9]
  {
    ShippedCatalogShape();
    PressesFollowCalls(CaseStudies, s, k);
    ShippedCatalogTour(k);
  }

  class Session {
    var step: Step
    var name: string
    var email: string
    var termsAccepted: bool
    var cameraStatus: TechStatus
    var micStatus: TechStatus
    var internetStatus: TechStatus
    var isRecording: bool
    var aboutTimer: int
    var currentCase: nat
    var currentQuestion: nat
    var globalTimer: int
    var interviewStarted: bool
    var recordingAnswer: bool
    var feedbackText: string
    var feedbackVideoRecording: bool
    var feedbackTimer: int

    function Snapshot(): State
      reads this
    {
      State(step, name, email, termsAccepted, cameraStatus, micStatus, internetStatus,
            isRecording, aboutTimer, currentCase, currentQuestion, globalTimer,
            interviewStarted, recordingAnswer, feedbackText, feedbackVideoRecording, feedbackTimer)
    }

    ghost predicate Valid()
      reads this
    {
      Snapshot().Invariant()
    }

    constructor ()
      ensures Valid() && Snapshot() == Initial
    {
      step := Registration;
      name, email, termsAccepted := "", "", false;
      cameraStatus, micStatus, internetStatus := Idle, Idle, Idle;
      isRecording, aboutTimer := false, AboutSeconds;
      currentCase, currentQuestion := 0, 0;
      globalTimer, interviewStarted, recordingAnswer := InterviewSeconds, false, false;
      feedbackText, feedbackVideoRecording, feedbackTimer := "", false, FeedbackSeconds;
    }

    // ---------------------------------------------------------------------
    // Registration screen

    /** Typing into the name field. */
    method SetName(v: string)
      requires Valid()
      modifies this
      ensures Valid()
      ensures Snapshot() == if old(step) == Registration then old(Snapshot()).(name := v) else old(Snapshot())
    {
      if step == Registration {
        name := v;
      }
    }

    /** Typing into the email field. */
    method SetEmail(v: string)
      requires Valid()
      modifies this
      ensures Valid()
      ensures Snapshot() == if old(step) == Registration then old(Snapshot()).(email := v) else old(Snapshot())
    {
      if step == Registration {
        email := v;
      }
    }

    /** Ticking or clearing the terms checkbox. */
    method SetTermsAccepted(b: bool)
      requires Valid()
      modifies this
      ensures Valid()
      ensures Snapshot() == if old(step) == Registration then old(Snapshot()).(termsAccepted := b) else old(Snapshot())
    {
      if step == Registration {
        termsAccepted := b;
      }
    }

    /** "Continue": enabled only with a name, an email and the terms accepted. */
    method SubmitRegistration()
      requires Valid()
      modifies this
      ensures Valid() && Moves(old(step), step)
      ensures Snapshot() == if old(step) == Registration && old(Snapshot()).CanRegister()
                            then old(Snapshot()).(step := Intro) else old(Snapshot())
    {
      if step == Registration && !(name == "" || email == "" || !termsAccepted) {
        step := Intro;
      }
    }

    // ---------------------------------------------------------------------
    // The unguarded forward buttons of the walkthrough

    /** "I'm Ready" on the introduction. */
    method AcknowledgeIntro()
      requires Valid()
      modifies this
      ensures Valid() && Moves(old(step), step)
      ensures Snapshot() == if old(step) == Intro then old(Snapshot()).(step := ReadyJob) else old(Snapshot())
    {
      if step == Intro {
        step := ReadyJob;
      }
    }

    /** "View Job Description". */
    method ViewJobDescription()
      requires Valid()
      modifies this
      ensures Valid() && Moves(old(step), step)
      ensures Snapshot() == if old(step) == ReadyJob then old(Snapshot()).(step := JobDescription) else old(Snapshot())
    {
      if step == ReadyJob {
        step := JobDescription;
      }
    }

    /** "Continue to Technical Check". */
    method ContinueToTechCheck()
      requires Valid()
      modifies this
      ensures Valid() && Moves(old(step), step)
      ensures Snapshot() == if old(step) == JobDescription then old(Snapshot()).(step := ReadyTech) else old(Snapshot())
    {
      if step == JobDescription {
        step := ReadyTech;
      }
    }

    /** "Start Technical Check". */
    method StartTechCheck()
      requires Valid()
      modifies this
      ensures Valid() && Moves(old(step), step)
      ensures Snapshot() == if old(step) == ReadyTech then old(Snapshot()).(step := TechCheck) else old(Snapshot())
    {
      if step == ReadyTech {
        step := TechCheck;
      }
    }

    // ---------------------------------------------------------------------
    // Tech-check screen

    /** `testTech(p)` up to its delay: the probe's button is enabled unless the
        probe is testing or has succeeded, and pressing it marks that probe,
        and only that probe, as testing. */
    method StartProbe(p: Probe)
      requires Valid()
      modifies this
      ensures Valid() && step == old(step)
      ensures Snapshot() == if old(step) == TechCheck && CanStart(old(Snapshot()).StatusFor(p))
                            then old(Snapshot()).WithProbe(p, Testing) else old(Snapshot())
    {
      if step == TechCheck && CanStart(Snapshot().StatusFor(p)) {
        ProbeUpdateKeepsInvariant(Snapshot(), p, Testing);
        SetStatus(p, Testing);
      }
    }

    /** `testTech(p)` after its delay: a probe under test becomes a success;
        the other probes keep their status. */
    method ResolveProbe(p: Probe)
      requires Valid()
      modifies this
      ensures Valid() && step == old(step)
      ensures Snapshot() == if old(Snapshot()).StatusFor(p) == Testing
                            then old(Snapshot()).WithProbe(p, TechStatus.Success) else old(Snapshot())
    {
      if Snapshot().StatusFor(p) == Testing {
        ReachableFacts(Snapshot(), p);
        ProbeUpdateKeepsInvariant(Snapshot(), p, TechStatus.Success);
        SetStatus(p, TechStatus.Success);
      }
    }

    /** The status setter `testTech` selects by probe kind. */
    method SetStatus(p: Probe, t: TechStatus)
      modifies this
      ensures Snapshot() == old(Snapshot()).WithProbe(p, t)
    {
      match p
      case Camera => cameraStatus := t;
      case Mic => micStatus := t;
      case Internet => internetStatus := t;
    }

    /** "Continue": enabled only when all three probes succeeded. */
    method FinishTechCheck()
      requires Valid()
      modifies this
      ensures Valid() && Moves(old(step), step)
      ensures Snapshot() == if old(step) == TechCheck && AllTechChecked(old(cameraStatus), old(micStatus), old(internetStatus))
                            then old(Snapshot()).(step := ReadyAbout) else old(Snapshot())
    {
      if step == TechCheck && AllTechChecked(cameraStatus, micStatus, internetStatus) {
        step := ReadyAbout;
      }
    }

    // ---------------------------------------------------------------------
    // Self-introduction

    /** "Start Recording" on the screen before the self-introduction. */
    method StartAboutYourself()
      requires Valid()
      modifies this
      ensures Valid() && Moves(old(step), step)
      ensures Snapshot() == if old(step) == ReadyAbout then old(Snapshot()).(step := AboutYourself) else old(Snapshot())
    {
      if step == ReadyAbout {
        step := AboutYourself;
      }
    }

    /** "Start Recording" / "Stop Recording" on the self-introduction screen. */
    method ToggleSelfIntroRecording()
      requires Valid()
      modifies this
      ensures Valid() && step == old(step)
      ensures Snapshot() == if old(step) == AboutYourself then old(Snapshot()).(isRecording := !old(isRecording))
                            else old(Snapshot())
    {
      if step == AboutYourself {
        isRecording := !isRecording;
      }
    }

    /** One second of the self-introduction countdown: it runs only on its
        screen, while recording, and above zero. */
    method TickAboutTimer()
      requires Valid()
      modifies this
      ensures Valid() && step == old(step)
      ensures Snapshot() == if old(Snapshot()).AboutArmed() then old(Snapshot()).(aboutTimer := old(aboutTimer) - 1)
                            else old(Snapshot())
    {
      if step == AboutYourself && isRecording && aboutTimer > 0 {
        aboutTimer := Max(0, aboutTimer - 1);
      }
    }

    /** "Skip This Step": always available on the self-introduction screen. */
    method SkipSelfIntro()
      requires Valid()
      modifies this
      ensures Valid() && Moves(old(step), step)
      ensures Snapshot() == if old(step) == AboutYourself then old(Snapshot()).(step := ReadyInterview) else old(Snapshot())
    {
      if step == AboutYourself {
        step := ReadyInterview;
      }
    }

    /** "Continue to Interview": disabled while not recording and the countdown
        still shows its initial value. */
    method ContinueToInterview()
      requires Valid()
      modifies this
      ensures Valid() && Moves(old(step), step)
      ensures Snapshot() == if old(step) == AboutYourself && (old(isRecording) || old(aboutTimer) != AboutSeconds)
                            then old(Snapshot()).(step := ReadyInterview) else old(Snapshot())
    {
      if step == AboutYourself && !(!isRecording && aboutTimer == AboutSeconds) {
        step := ReadyInterview;
      }
    }

    // ---------------------------------------------------------------------
    // Main interview

    /** "Start Interview": enters the interview and starts it in one step. */
    method StartInterview()
      requires Valid()
      modifies this
      ensures Valid() && Moves(old(step), step)
      ensures Snapshot() == if old(step) == ReadyInterview
                            then old(Snapshot()).(step := MainInterview, interviewStarted := true)
                            else old(Snapshot())
    {
      if step == ReadyInterview {
        step := MainInterview;
        interviewStarted := true;
      }
    }

    /** One second of the interview countdown: it runs on the interview screen
        once the interview started, above zero, whether or not an answer is
        being recorded; the tick that would reach zero ends the interview. */
    method TickGlobalTimer()
      requires Valid()
      modifies this
      ensures Valid() && Moves(old(step), step)
      ensures Snapshot() == if !old(Snapshot()).GlobalArmed() then old(Snapshot())
                            else if old(globalTimer) <= 1 then old(Snapshot()).(step := Feedback, globalTimer := 0)
                            else old(Snapshot()).(globalTimer := old(globalTimer) - 1)
      ensures step != old(step) ==> step == Feedback && globalTimer == 0 && !Snapshot().GlobalArmed()
    {
      GlobalTickKeepsInvariant(Snapshot());
      if step == MainInterview && interviewStarted && globalTimer > 0 {
        if globalTimer <= 1 {
          step, globalTimer := Feedback, 0;
        } else {
          globalTimer := globalTimer - 1;
        }
      }
    }

    /** "Record Answer": shown only while no answer is being recorded. */
    method RecordAnswer()
      requires Valid()
      modifies this
      ensures Valid() && step == old(step)
      ensures Snapshot() == if old(step) == MainInterview && !old(recordingAnswer)
                            then old(Snapshot()).(recordingAnswer := true) else old(Snapshot())
    {
      if step == MainInterview && !recordingAnswer {
        recordingAnswer := true;
      }
    }

    /** "End Answer" (`handleEndAnswer`): shown only while recording; it stops
        the recording and leaves the cursor where it is. */
    method EndAnswer()
      requires Valid()
      modifies this
      ensures Valid() && step == old(step)
      ensures Snapshot() == if old(step) == MainInterview && old(recordingAnswer)
                            then old(Snapshot()).(recordingAnswer := false) else old(Snapshot())
    {
      if step == MainInterview && recordingAnswer {
        recordingAnswer := false;
      }
    }

    /** "Next Question" / "Finish & Next Case" / "Finish Interview": on the
        interview screen and shown only while no answer is being recorded.
        What it does is stated by AfterNextQuestion, and NextQuestionStep
        states what that means for the cursor. */
    method NextQuestion()
      requires Valid()
      modifies this
      ensures Valid() && Moves(old(step), step)
      ensures Snapshot() == AfterNextQuestion(CaseStudies, old(Snapshot()))
    {
      ghost var s := Snapshot();
      NextQuestionKeepsInvariant(s);
      NextQuestionMoves(CaseStudies, s);
      if step == MainInterview && !recordingAnswer {
        HandleNextQuestion(CaseStudies);
      }
    }

    /** `handleNextQuestion`: the next question of the case, else the first
        question of the next case, else the feedback screen with the cursor
        left in place (the three branches AfterNextQuestionCases spells out).
        It reads the catalog it is given; the session passes the shipped one. */
    method HandleNextQuestion(catalog: seq<CaseStudy>)
      requires step == MainInterview && !recordingAnswer
      modifies this
      ensures Snapshot() == AfterNextQuestion(catalog, old(Snapshot()))
    {
      ghost var s := Snapshot();
      AfterNextQuestionCases(catalog, s);
      var cur := Cursor(currentCase, currentQuestion);
      if HasMoreQuestions(catalog, cur) {
        MoveCursor(currentCase, currentQuestion + 1);
      } else if HasMoreCases(catalog, cur) {
        MoveCursor(currentCase + 1, 0);
      } else {
        step := Feedback;
      }
    }

    /** Points the cursor at another question and clears the answer recording. */
    method MoveCursor(caseIndex: nat, questionIndex: nat)
      modifies this
      ensures Snapshot() == old(Snapshot()).(currentCase := caseIndex, currentQuestion := questionIndex, recordingAnswer := false)
    {
      currentCase, currentQuestion, recordingAnswer := caseIndex, questionIndex, false;
    }

    // ---------------------------------------------------------------------
    // Feedback screen

    /** Typing into the written-feedback field. */
    method SetFeedbackText(v: string)
      requires Valid()
      modifies this
      ensures Valid() && step == old(step)
      ensures Snapshot() == if old(step) == Feedback then old(Snapshot()).(feedbackText := v) else old(Snapshot())
    {
      if step == Feedback {
        feedbackText := v;
      }
    }

    /** "Record Video Message" / "Stop Video". */
    method ToggleFeedbackVideo()
      requires Valid()
      modifies this
      ensures Valid() && step == old(step)
      ensures Snapshot() == if old(step) == Feedback
                            then old(Snapshot()).(feedbackVideoRecording := !old(feedbackVideoRecording))
                            else old(Snapshot())
    {
      if step == Feedback {
        feedbackVideoRecording := !feedbackVideoRecording;
      }
    }

    /** One second of the feedback-video countdown: it runs only on the
        feedback screen, while recording, and above zero. */
    method TickFeedbackTimer()
      requires Valid()
      modifies this
      ensures Valid() && step == old(step)
      ensures Snapshot() == if old(Snapshot()).FeedbackArmed() then old(Snapshot()).(feedbackTimer := old(feedbackTimer) - 1)
                            else old(Snapshot())
    {
      if step == Feedback && feedbackVideoRecording && feedbackTimer > 0 {
        feedbackTimer := Max(0, feedbackTimer - 1);
      }
    }

    /** "Submit & Finish". */
    method SubmitFeedback()
      requires Valid()
      modifies this
      ensures Valid() && Moves(old(step), step)
      ensures Snapshot() == if old(step) == Feedback then old(Snapshot()).(step := Step.Success) else old(Snapshot())
    {
      if step == Feedback {
        step := Step.Success;
      }
    }
  }

  /** `Math.max` on integers. */
  function Max(a: int, b: int): (m: int)
    ensures m >= a && m >= b && (m == a || m == b)
  {
    if a >= b then a else b
  }
}
