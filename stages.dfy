/** The twelve screens of an interview session and the one fixed order in
    which the candidate walks through them. */
module Stages {

  datatype Step =
    | Registration
    | Intro
    | ReadyJob
    | JobDescription
    | ReadyTech
    | TechCheck
    | ReadyAbout
    | AboutYourself
    | ReadyInterview
    | MainInterview
    | Feedback
    | Success

  /** Position of a screen in the session, in the order the screens are
      declared. */
  function Rank(s: Step): nat {
    match s
    case Registration => 0
    case Intro => 1
    case ReadyJob => 2
    case JobDescription => 3
    case ReadyTech => 4
    case TechCheck => 5
    case ReadyAbout => 6
    case AboutYourself => 7
    case ReadyInterview => 8
    case MainInterview => 9
    case Feedback => 10
    case Success => 11
  }

  /** The screen each forward button leads to; Success has no forward button. */
  function Next(s: Step): (t: Step)
    requires s != Success
    ensures Rank(t) == Rank(s) + 1
  {
    match s
    case Registration => Intro
    case Intro => ReadyJob
    case ReadyJob => JobDescription
    case JobDescription => ReadyTech
    case ReadyTech => TechCheck
    case TechCheck => ReadyAbout
    case ReadyAbout => AboutYourself
    case AboutYourself => ReadyInterview
    case ReadyInterview => MainInterview
    case MainInterview => Feedback
    case Feedback => Success
  }

  /** One event either leaves the screen alone or moves exactly one screen on. */
  predicate Moves(before: Step, after: Step) {
    after == before || (before != Success && after == Next(before))
  }

  /** Two screens at the same position are the same screen. */
  lemma RankInjective(a: Step, b: Step)
    ensures Rank(a) == Rank(b) <==> a == b
  {
  }

  /** No event ever makes a screen come earlier in the order. */
  lemma MovesForward(before: Step, after: Step)
    requires Moves(before, after)
    ensures Rank(before) <= Rank(after) <= Rank(before) + 1
    ensures after != before ==> Rank(after) == Rank(before) + 1
  {
  }

  /** A run of events, each of which moves by at most one screen, never returns
      to an earlier screen. */
  lemma {:induction false} RunNeverGoesBack(trace: seq<Step>, i: nat, j: nat)
    requires forall k :: 0 <= k < |trace| - 1 ==> Moves(trace[k], trace[k + 1])
    requires i <= j < |trace|
    ensures Rank(trace[i]) <= Rank(trace[j])
    ensures Rank(trace[j]) - Rank(trace[i]) <= j - i
    decreases j - i
  {
    if i < j {
      RunNeverGoesBack(trace, i, j - 1);
      MovesForward(trace[j - 1], trace[j]);
    }
  }
}
