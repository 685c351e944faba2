/** The grade of a work examined by a quiz, from the attempts themselves. */
module ScoredGrade {
  // A solo work takes the first passed attempt, a squad the mean over its members' best passed ones.

  import opened Wrappers
  import opened QuizTypes
  import G = Grants
  import opened Rendezvous
  import opened Rounding
  import SM = StateMachine
  import TS = TeacherScores
  import Grading

  // ---------------------------------------------------------------- the quiz percentage

  /** The first passed attempt, in the order they were started. */
  function FirstPassed(ts: seq<G.Try>): Option<real> {
    if ts == [] then None
    else if ts[0].isPassed then Some(ts[0].pct)
    else FirstPassed(ts[1..])
  }

  /** The best passed attempt. */
  function Best(ts: seq<G.Try>): Option<real> {
    if ts == [] then None else
    var before, last := Best(ts[..|ts| - 1]), ts[|ts| - 1];
    if last.isPassed && (before.None? || last.pct > before.value) then Some(last.pct) else before
  }

  function Tries(tries: map<G.Student, seq<G.Try>>, s: G.Student): seq<G.Try> {
    if s in tries then tries[s] else []
  }

  function OrZero(x: Option<real>): real {
    if x.Some? then x.value else 0.0
  }

  function BestSum(members: seq<G.Student>, tries: map<G.Student, seq<G.Try>>): real {
    if members == [] then 0.0 else OrZero(Best(Tries(tries, members[0]))) + BestSum(members[1..], tries)
  }

  /** How many members have passed. */
  function Passers(members: seq<G.Student>, tries: map<G.Student, seq<G.Try>>): nat {
    if members == [] then 0
    else (if Best(Tries(tries, members[0])).Some? then 1 else 0) + Passers(members[1..], tries)
  }

  function Mean(sum: real, n: nat): real {
    if n == 0 then 0.0 else sum / n as real
  }

  /** `squad_quiz_pct` */
  function SquadPct(members: seq<G.Student>, tries: map<G.Student, seq<G.Try>>): real {
    Mean(BestSum(members, tries), Passers(members, tries))
  }

  function SoloPct(owner: G.Student, tries: map<G.Student, seq<G.Try>>): real {
    OrZero(FirstPassed(Tries(tries, owner)))
  }

  // ---------------------------------------------------------------- the loop computes it

  /** Best is the greatest percentage of a passed attempt. */
  lemma {:induction false} BestMeans(ts: seq<G.Try>)
    ensures Best(ts).Some? <==> G.AnyPassed(ts)
    ensures Best(ts).Some? ==> exists i :: 0 <= i < |ts| && ts[i].isPassed && ts[i].pct == Best(ts).value
    ensures forall i :: 0 <= i < |ts| && ts[i].isPassed ==> Best(ts).Some? && ts[i].pct <= Best(ts).value
  {
    if ts != [] {
      var front := ts[..|ts| - 1];
      BestMeans(front);
      assert forall i :: 0 <= i < |front| ==> front[i] == ts[i];
      if Best(front).Some? {
        var i :| 0 <= i < |front| && front[i].isPassed && front[i].pct == Best(front).value;
        assert ts[i].isPassed && ts[i].pct == Best(front).value;
      }
      if ts[|ts| - 1].isPassed { assert G.AnyPassed(ts); }
    }
  }

  ghost predicate HasTry(tries: map<G.Student, seq<G.Try>>, s: G.Student, p: real) {
    s in tries && exists i :: 0 <= i < |tries[s]| && tries[s][i].isPassed && tries[s][i].pct == p
  }

  ghost predicate HasAttempt(attempts: seq<Grading.Attempt>, s: G.Student, p: real) {
    exists j :: 0 <= j < |attempts| && Grading.Counts(attempts[j], s) && Grading.Pct(attempts[j]) == Some(p)
  }

  /** The submission's attempts, as rows with points, hold the same passes as `tries`. */
  ghost predicate Listed(attempts: seq<Grading.Attempt>, tries: map<G.Student, seq<G.Try>>) {
    forall s, p :: HasTry(tries, s, p) <==> HasAttempt(attempts, s, p)
  }

  lemma AttemptBelow(attempts: seq<Grading.Attempt>, best: map<nat, real>, s: G.Student, p: real)
    requires Grading.BestOf(attempts, best) && HasAttempt(attempts, s, p)
    ensures s in best && p <= best[s]
  {
    var j :| 0 <= j < |attempts| && Grading.Counts(attempts[j], s) && Grading.Pct(attempts[j]) == Some(p);
    assert Grading.IsBest(attempts, s, best[s]);
  }

  lemma SameBest(attempts: seq<Grading.Attempt>, tries: map<G.Student, seq<G.Try>>, best: map<nat, real>, s: G.Student)
    requires Listed(attempts, tries) && Grading.BestOf(attempts, best)
    ensures Best(Tries(tries, s)) == if s in best then Some(best[s]) else None
  {
    var ts := Tries(tries, s);
    BestMeans(ts);
    if s in best {
      assert Grading.IsBest(attempts, s, best[s]);
      assert HasAttempt(attempts, s, best[s]);
      assert HasTry(tries, s, best[s]);
    }
    if Best(ts).Some? {
      assert HasTry(tries, s, Best(ts).value);
      AttemptBelow(attempts, best, s, Best(ts).value);
    }
  }

  /** The dictionary of the loop holds exactly the members' bests. */
  ghost predicate Holds(best: map<nat, real>, tries: map<G.Student, seq<G.Try>>) {
    forall s :: Best(Tries(tries, s)) == if s in best then Some(best[s]) else None
  }

  /** The part of the members' sum and of their number that falls on the chosen students. */
  function SumWithin(members: seq<G.Student>, best: map<nat, real>, chosen: set<nat>): real
    requires chosen <= best.Keys
  {
    if members == [] then 0.0
    else (if members[0] in chosen then best[members[0]] else 0.0) + SumWithin(members[1..], best, chosen)
  }

  function CountWithin(members: seq<G.Student>, chosen: set<nat>): nat {
    if members == [] then 0 else (if members[0] in chosen then 1 else 0) + CountWithin(members[1..], chosen)
  }

  lemma {:induction false} ChooseOne(members: seq<G.Student>, best: map<nat, real>, chosen: set<nat>, s: nat)
    requires chosen <= best.Keys && s in best && s !in chosen && Distinct(members)
    ensures SumWithin(members, best, chosen + {s})
            == SumWithin(members, best, chosen) + if s in members then best[s] else 0.0
    ensures CountWithin(members, chosen + {s}) == CountWithin(members, chosen) + if s in members then 1 else 0
  {
    if members != [] { ChooseOne(members[1..], best, chosen, s); }
  }

  lemma {:induction false} NoneChosen(members: seq<G.Student>, best: map<nat, real>)
    ensures SumWithin(members, best, {}) == 0.0 && CountWithin(members, {}) == 0
  {
    if members != [] { NoneChosen(members[1..], best); }
  }

  lemma {:induction false} AllChosen(members: seq<G.Student>, best: map<nat, real>, tries: map<G.Student, seq<G.Try>>)
    requires Holds(best, tries)
    ensures SumWithin(members, best, best.Keys) == BestSum(members, tries)
    ensures CountWithin(members, best.Keys) == Passers(members, tries)
  {
    if members != [] { AllChosen(members[1..], best, tries); }
  }

  function SetOf(students: seq<nat>): set<nat> {
    if students == [] then {} else SetOf(students[..|students| - 1]) + {students[|students| - 1]}
  }

  lemma {:induction false} SetOfMeans(students: seq<nat>)
    ensures forall s :: s in SetOf(students) <==> s in students
  {
    if students != [] {
      var front := students[..|students| - 1];
      SetOfMeans(front);
      assert students == front + [students[|students| - 1]];
    }
  }

  lemma {:induction false} SumListed(members: seq<G.Student>, best: map<nat, real>, students: seq<nat>)
    requires Distinct(members) && (forall s :: s in best ==> s in members)
    requires forall i :: 0 <= i < |students| ==> students[i] in best
    requires forall i, j :: 0 <= i < j < |students| ==> students[i] != students[j]
    ensures SetOf(students) <= best.Keys && |SetOf(students)| == |students|
    ensures Grading.SumOver(best, students) == SumWithin(members, best, SetOf(students))
    ensures |students| == CountWithin(members, SetOf(students))
  {
    if students == [] {
      NoneChosen(members, best);
    } else {
      var front, last := students[..|students| - 1], students[|students| - 1];
      SumListed(members, best, front);
      SetOfMeans(front);
      ChooseOne(members, best, SetOf(front), last);
    }
  }

  lemma SubsetOfSameSize(a: set<nat>, b: set<nat>)
    requires a <= b && |a| == |b|
    ensures a == b
  {
    assert |b - a| == |b| - |a|;
  }

  lemma BestIsMember(members: seq<G.Student>, tries: map<G.Student, seq<G.Try>>, best: map<nat, real>)
    requires (forall s :: s in tries ==> s in members) && Holds(best, tries)
    ensures forall s :: s in best ==> s in members
  {
    forall s | s in best ensures s in members { assert Best(Tries(tries, s)).Some?; }
  }

  /** What the loop of `squad_quiz_pct` returns for the attempts is SquadPct of the tries. */
  lemma LoopIsSquadPct(members: seq<G.Student>, tries: map<G.Student, seq<G.Try>>, attempts: seq<Grading.Attempt>,
                       best: map<nat, real>, students: seq<nat>)
    requires Distinct(members) && (forall s :: s in tries ==> s in members)
    requires Listed(attempts, tries) && Grading.BestOf(attempts, best) && Grading.Lists(best, students)
    ensures |best| == Passers(members, tries)
    ensures |best| > 0 ==> SquadPct(members, tries) == Grading.SumOver(best, students) / |students| as real
  {
    forall s ensures Best(Tries(tries, s)) == if s in best then Some(best[s]) else None {
      SameBest(attempts, tries, best, s);
    }
    BestIsMember(members, tries, best);
    SumListed(members, best, students);
    SubsetOfSameSize(SetOf(students), best.Keys);
    AllChosen(members, best, tries);
  }

  // ---------------------------------------------------------------- the rules

  /** A checked config and the grade it asks for. */
  function Points(cfg: TS.Config, pct: real, scores: map<string, nat>, roundUp: bool): int
    requires TS.Sound(cfg)
  {
    TS.Grade(TS.Criteria(cfg.criteria.value), cfg.quizPoints.value, cfg.minGrade, cfg.maxGrade, pct, scores, roundUp)
  }

  ghost function SoloRules(cfg: TS.Config, owner: G.Student): Rules
    requires TS.Sound(cfg)
  {
    Rules(TS.Criteria(cfg.criteria.value), (tries, scores) => Points(cfg, SoloPct(owner, tries), scores, false))
  }

  /** A squad's grade is rounded up. */
  ghost function SquadRules(cfg: TS.Config, members: seq<G.Student>): Rules
    requires TS.Sound(cfg)
  {
    Rules(TS.Criteria(cfg.criteria.value), (tries, scores) => Points(cfg, SquadPct(members, tries), scores, true))
  }

  // ---------------------------------------------------------------- bounds

  predicate Percent(x: real) {
    0.0 <= x <= 100.0
  }

  ghost predicate AllPercent(tries: map<G.Student, seq<G.Try>>) {
    forall s, i :: s in tries && 0 <= i < |tries[s]| ==> Percent(tries[s][i].pct)
  }

  lemma {:induction false} FirstPassedPercent(ts: seq<G.Try>)
    requires forall i :: 0 <= i < |ts| ==> Percent(ts[i].pct)
    ensures Percent(OrZero(FirstPassed(ts)))
    ensures FirstPassed(ts).Some? <==> G.AnyPassed(ts)
  {
    if ts != [] {
      var rest := ts[1..];
      assert forall i :: 0 <= i < |rest| ==> rest[i] == ts[i + 1];
      FirstPassedPercent(rest);
      if G.AnyPassed(rest) {
        var i :| 0 <= i < |rest| && rest[i].isPassed;
        assert ts[i + 1].isPassed;
      }
    }
  }

  lemma {:induction false} BestPercent(ts: seq<G.Try>)
    requires forall i :: 0 <= i < |ts| ==> Percent(ts[i].pct)
    ensures Percent(OrZero(Best(ts)))
  {
    if ts != [] { BestPercent(ts[..|ts| - 1]); }
  }

  lemma {:induction false} SumPercent(members: seq<G.Student>, tries: map<G.Student, seq<G.Try>>)
    requires AllPercent(tries)
    ensures 0.0 <= BestSum(members, tries) <= 100.0 * Passers(members, tries) as real
  {
    if members != [] {
      BestPercent(Tries(tries, members[0]));
      SumPercent(members[1..], tries);
    }
  }

  lemma MeanPercent(sum: real, n: nat)
    requires 0.0 <= sum <= 100.0 * n as real
    ensures Percent(Mean(sum, n))
  {
    if n > 0 {
      assert sum / n as real * n as real == sum;
      assert 100.0 * n as real / n as real == 100.0;
      Ratio(sum, 100.0 * n as real, n as real);
    }
  }

  lemma Ratio(a: real, b: real, n: real)
    requires 0.0 <= a <= b && n > 0.0
    ensures 0.0 <= a / n <= b / n
  {
  }

  lemma SquadPercent(members: seq<G.Student>, tries: map<G.Student, seq<G.Try>>)
    requires AllPercent(tries)
    ensures Percent(SquadPct(members, tries))
  {
    SumPercent(members, tries);
    MeanPercent(BestSum(members, tries), Passers(members, tries));
  }

  // ---------------------------------------------------------------- what ending an attempt changes

  /** An attempt's result beats the student's best, or is the first that passes. */
  predicate Beats(ts: seq<G.Try>, passed: bool, pct: real) {
    passed && (Best(ts).None? || pct > Best(ts).value)
  }

  lemma EndedBest(ts: seq<G.Try>, t: G.Try)
    requires ts != [] && !ts[|ts| - 1].isPassed
    ensures Best(ts[|ts| - 1 := t]) == if Beats(ts, t.isPassed, t.pct) then Some(t.pct) else Best(ts)
  {
    var n := |ts| - 1;
    assert ts[n := t][..n] == ts[..n];
  }

  /** The first passed attempt is not the one that ends now. */
  lemma {:induction false} EndedFirst(ts: seq<G.Try>, t: G.Try)
    requires ts != [] && !ts[|ts| - 1].isPassed && G.AnyPassed(ts)
    ensures FirstPassed(ts[|ts| - 1 := t]) == FirstPassed(ts)
  {
    var n := |ts| - 1;
    var i :| 0 <= i < |ts| && ts[i].isPassed;
    assert ts[n := t][0] == ts[0];
    if !ts[0].isPassed {
      assert ts[1..][i - 1].isPassed;
      assert ts[n := t][1..] == ts[1..][n - 1 := t];
      EndedFirst(ts[1..], t);
    }
  }

  ghost predicate Distinct(members: seq<G.Student>) {
    forall i, j :: 0 <= i < j < |members| ==> members[i] != members[j]
  }

  /** Only this member's best is replaced. */
  lemma {:induction false} SumReplaced(members: seq<G.Student>, tries: map<G.Student, seq<G.Try>>, s: G.Student,
      ts: seq<G.Try>)
    requires Distinct(members)
    ensures var after := tries[s := ts];
            if s in members then
              BestSum(members, after) == BestSum(members, tries) - OrZero(Best(Tries(tries, s))) + OrZero(Best(ts))
              && Passers(members, after) == Passers(members, tries)
                 - (if Best(Tries(tries, s)).Some? then 1 else 0) + (if Best(ts).Some? then 1 else 0)
            else
              BestSum(members, after) == BestSum(members, tries)
              && Passers(members, after) == Passers(members, tries)
  {
    if members != [] { SumReplaced(members[1..], tries, s, ts); }
  }

  /** The squad's percentage once a member's best becomes pct. */
  function NewSquadPct(members: seq<G.Student>, tries: map<G.Student, seq<G.Try>>, s: G.Student, pct: real): real {
    var best := Best(Tries(tries, s));
    Mean(BestSum(members, tries) - OrZero(best) + pct, Passers(members, tries) + if best.Some? then 0 else 1)
  }

  /** Ending an attempt changes the squad's percentage only by beating the student's best. */
  lemma EndedSquad(members: seq<G.Student>, q: G.Quiz, s: G.Student, outcome: AttemptStatus, passed: bool, pct: real)
    requires G.HasRunning(q, s) && OpenUnpassed(q) && Distinct(members) && s in members
    ensures SquadPct(members, G.Close(q, s, outcome, passed, pct).tries)
            == if Beats(G.TriesOf(q, s), passed, pct)
              then NewSquadPct(members, q.tries, s, pct) else SquadPct(members, q.tries)
  {
    var ts := G.TriesOf(q, s);
    var ended := ts[|ts| - 1 := G.Try(outcome, passed, pct)];
    EndedBest(ts, G.Try(outcome, passed, pct));
    SumReplaced(members, q.tries, s, ended);
  }

  lemma EndedSolo(q: G.Quiz, owner: G.Student, s: G.Student, outcome: AttemptStatus, passed: bool, pct: real)
    requires G.HasRunning(q, s) && OpenUnpassed(q) && G.AnyPassed(G.TriesOf(q, owner))
    ensures SoloPct(owner, G.Close(q, s, outcome, passed, pct).tries) == SoloPct(owner, q.tries)
  {
    if s == owner { EndedFirst(G.TriesOf(q, s), G.Try(outcome, passed, pct)); }
  }

  // ---------------------------------------------------------------- real inputs

  /** The owner's points come from an accepted form. */
  ghost predicate FromForm(cfg: TS.Config, scores: map<string, nat>)
    requires TS.Sound(cfg)
  {
    exists form :: TS.Read(TS.Criteria(cfg.criteria.value), form, scores)
  }

  /** Percentages are percentages, only members have attempts, and the points come from a form. */
  ghost predicate Real(w: Work, cfg: TS.Config, members: seq<G.Student>)
    requires TS.Sound(cfg)
  {
    AllPercent(w.quiz.tries) && (forall s :: s in w.quiz.tries ==> s in members)
    && w.owner in w.rows && FromForm(cfg, w.rows[w.owner].scores)
  }

  ghost predicate RealStep(step: Step, cfg: TS.Config, members: seq<G.Student>)
    requires TS.Sound(cfg)
  {
    match step
    case DoStart(s) => s in members
    case DoFinish(s, _, _, pct) => Percent(pct)
    case DoRuling(flips) => forall k :: k in flips ==> Percent(flips[k])
    case DoScores(scores) => FromForm(cfg, scores)
    case _ => true
  }

  /** The grade is the plain sum, so it tells quiz points apart. */
  lemma SumOfParts(cfg: TS.Config, pct: real, scores: map<string, nat>, roundUp: bool)
    requires TS.Sound(cfg) && FromForm(cfg, scores) && Percent(pct)
    ensures Points(cfg, pct, scores, roundUp)
            == cfg.minGrade + TS.QuizPointsFor(cfg.quizPoints.value, pct, roundUp)
               + TS.PointsTotal(TS.Criteria(cfg.criteria.value), scores)
  {
    var form :| TS.Read(TS.Criteria(cfg.criteria.value), form, scores);
    TS.ClampNeverActs(cfg, form, scores, pct, roundUp);
  }

  // ---------------------------------------------------------------- what a step leaves alone

  /** v is w but for its status and its grades. */
  ghost predicate SameInput(w: Work, v: Work) {
    v.owner == w.owner && v.quiz.students == w.quiz.students && v.quiz.tries == w.quiz.tries
    && v.rows.Keys == w.rows.Keys && forall s :: s in w.rows ==> v.rows[s].scores == w.rows[s].scores
  }

  lemma DoneSameInput(w: Work, rules: Rules, done: SM.Event, waits: SM.Event)
    requires SM.Next(w.quiz.status, done).Some? && SM.Next(w.quiz.status, waits).Some?
    ensures SameInput(w, QuizDone(w, rules, done, waits))
  {
  }

  lemma AdvanceSameInput(w: Work, rules: Rules)
    ensures SameInput(w, Advance(w, rules))
  {
    if w.quiz.status == SM.QuizSent {
      DoneSameInput(w, rules, SM.QuizPassed, SM.QuizPassedTeacher);
    } else if w.quiz.status == SM.Failed {
      DoneSameInput(w, rules, SM.DisputeRegradePassed, SM.DisputeRegradePassedTeacher);
    }
  }

  lemma FinishSameInput(w: Work, rules: Rules, s: G.Student, outcome: AttemptStatus, passed: bool, pct: real)
    requires G.HasRunning(w.quiz, s)
    ensures SameInput(w.(quiz := G.Close(w.quiz, s, outcome, passed, pct)),
                      FinishAttempt(w, rules, s, outcome, passed, pct))
  {
    var v := w.(quiz := G.Finish(w.quiz, s, outcome, passed, pct, SM.QuizSent));
    if w.quiz.status == SM.QuizSent && passed && QuizComplete(v.quiz) {
      DoneSameInput(v, rules, SM.QuizPassed, SM.QuizPassedTeacher);
    }
  }

  lemma GrantSameInput(w: Work, s: G.Student)
    ensures SameInput(w, GrantAttempt(w, s))
  {
  }

  lemma ApproveSameInput(w: Work, rules: Rules)
    ensures SameInput(w, OrSame(w, Approve(w, rules)))
  {
  }

  lemma SavedInput(w: Work, rules: Rules, scores: map<string, nat>)
    requires SaveScores(w, rules, scores).Ok?
    ensures SameInput(w.(rows := map s | s in w.rows :: ScoreRow(w.rows[s], scores)),
                      SaveScores(w, rules, scores).value)
  {
  }

  lemma RulingReal(w: Work, rules: Rules, flips: G.Flips, cfg: TS.Config, members: seq<G.Student>)
    requires TS.Sound(cfg) && Real(w, cfg, members) && forall k :: k in flips ==> Percent(flips[k])
    ensures var v := AcceptRuling(w, rules, flips);
            Real(v, cfg, members) && v.owner == w.owner && v.quiz.students == w.quiz.students
              && v.rows.Keys == w.rows.Keys
  {
    AdvanceSameInput(w.(quiz := G.FlipAll(w.quiz, flips)), rules);
  }

  /** Every step keeps the inputs real, and the owner and the enrolled students as they are. */
  lemma RealKeeps(w: Work, rules: Rules, step: Rendezvous.Step, cfg: TS.Config, members: seq<G.Student>)
    requires TS.Sound(cfg) && Real(w, cfg, members) && RealStep(step, cfg, members) && Enabled(w, step)
    ensures var v := Do(w, rules, step);
            Real(v, cfg, members) && v.owner == w.owner && v.quiz.students == w.quiz.students
              && v.rows.Keys == w.rows.Keys
  {
    match step
    case DoStart(s) =>
    case DoFinish(s, outcome, passed, pct) => FinishSameInput(w, rules, s, outcome, passed, pct);
    case DoRuling(flips) => RulingReal(w, rules, flips, cfg, members);
    case DoGrant(s) => GrantSameInput(w, s);
    case DoScores(scores) => if SaveScores(w, rules, scores).Ok? { SavedInput(w, rules, scores); }
    case DoApprove => ApproveSameInput(w, rules);
    case DoReject =>
    case DoRequeue =>
  }

  // ---------------------------------------------------------------- solo works

  lemma LateFinishEnds(w: Work, rules: Rules, step: Rendezvous.Step)
    requires Enabled(w, step) && step.DoFinish? && w.quiz.status == SM.Completed
    ensures Do(w, rules, step).quiz == G.Close(w.quiz, step.s, step.outcome, step.passed, step.pct)
  {
  }

  /** No request makes the grade of a completed solo work stale. */
  lemma SoloStaysCurrent(w: Work, cfg: TS.Config, step: Rendezvous.Step)
    requires TS.Sound(cfg) && Inv(w, SoloRules(cfg, w.owner)) && Enabled(w, step) && w.owner in w.quiz.students
    requires w.quiz.status == SM.Completed && Current(w, SoloRules(cfg, w.owner))
    ensures Current(Do(w, SoloRules(cfg, w.owner), step), SoloRules(cfg, w.owner))
  {
    var rules := SoloRules(cfg, w.owner);
    CurrentExactly(w, rules, step);
    if step.DoFinish? {
      LateFinishEnds(w, rules, step);
      EndedSolo(w.quiz, w.owner, step.s, step.outcome, step.passed, step.pct);
    }
  }

  ghost predicate RealRun(steps: seq<Rendezvous.Step>, cfg: TS.Config, members: seq<G.Student>)
    requires TS.Sound(cfg)
  {
    forall i :: 0 <= i < |steps| ==> RealStep(steps[i], cfg, members)
  }

  lemma RealRunTail(steps: seq<Rendezvous.Step>, cfg: TS.Config, members: seq<G.Student>)
    requires TS.Sound(cfg) && RealRun(steps, cfg, members) && steps != []
    ensures RealStep(steps[0], cfg, members) && RealRun(steps[1..], cfg, members)
  {
    assert forall i :: 0 <= i < |steps[1..]| ==> steps[1..][i] == steps[i + 1];
  }

  lemma {:induction false} SoloRun(w: Work, cfg: TS.Config, steps: seq<Rendezvous.Step>, end: Work)
    requires TS.Sound(cfg) && Inv(w, SoloRules(cfg, w.owner)) && IsRun(w, SoloRules(cfg, w.owner), steps, end)
    requires Real(w, cfg, [w.owner]) && RealRun(steps, cfg, [w.owner]) && w.owner in w.quiz.students
    requires w.quiz.status == SM.Completed ==> Current(w, SoloRules(cfg, w.owner))
    ensures end.owner == w.owner && Real(end, cfg, [w.owner]) && Inv(end, SoloRules(cfg, w.owner))
            && w.owner in end.quiz.students
    ensures end.quiz.status == SM.Completed ==> Current(end, SoloRules(cfg, w.owner))
    decreases |steps|
  {
    if steps != [] {
      var rules := SoloRules(cfg, w.owner);
      RealRunTail(steps, cfg, [w.owner]);
      RealKeeps(w, rules, steps[0], cfg, [w.owner]);
      StepKeeps(w, rules, steps[0]);
      if w.quiz.status == SM.Completed {
        SoloStaysCurrent(w, cfg, steps[0]);
      } else {
        StepIsCurrent(w, rules, steps[0]);
      }
      SoloRun(Do(w, rules, steps[0]), cfg, steps[1..], end);
    }
  }

  /** Every row holds the minimum plus the quiz points of this percentage plus the teacher's points. */
  ghost predicate HoldsSum(w: Work, cfg: TS.Config, pct: real, roundUp: bool)
    requires TS.Sound(cfg)
  {
    w.owner in w.rows
    && forall s :: s in w.rows ==>
         w.rows[s].grade == Some(cfg.minGrade + TS.QuizPointsFor(cfg.quizPoints.value, pct, roundUp)
                                 + TS.PointsTotal(TS.Criteria(cfg.criteria.value), w.rows[w.owner].scores))
  }

  /** In every run of a solo work, COMPLETED means that the grade on every row is the minimum plus
      the quiz points of the first passed attempt plus the teacher's points, as they are now. */
  lemma SoloGradeIsTheSum(start: Work, cfg: TS.Config, steps: seq<Rendezvous.Step>, w: Work)
    requires TS.Sound(cfg) && Opened(start) && start.owner in start.quiz.students
    requires Real(start, cfg, [start.owner]) && RealRun(steps, cfg, [start.owner])
    requires IsRun(start, SoloRules(cfg, start.owner), steps, w) && w.quiz.status == SM.Completed
    ensures w.owner == start.owner && FirstPassed(G.TriesOf(w.quiz, w.owner)).Some?
    ensures HoldsSum(w, cfg, FirstPassed(G.TriesOf(w.quiz, w.owner)).value, false)
  {
    OpenedInv(start, SoloRules(cfg, start.owner));
    SoloRun(start, cfg, steps, w);
    SoloCurrentSum(w, cfg);
  }

  lemma SoloCurrentSum(w: Work, cfg: TS.Config)
    requires TS.Sound(cfg) && Real(w, cfg, [w.owner]) && w.owner in w.quiz.students && QuizComplete(w.quiz)
    requires Current(w, SoloRules(cfg, w.owner))
    ensures FirstPassed(G.TriesOf(w.quiz, w.owner)).Some?
    ensures HoldsSum(w, cfg, FirstPassed(G.TriesOf(w.quiz, w.owner)).value, false)
  {
    FirstPassedPercent(G.TriesOf(w.quiz, w.owner));
    SumOfParts(cfg, SoloPct(w.owner, w.quiz.tries), w.rows[w.owner].scores, false);
  }

  // ---------------------------------------------------------------- squads

  /** The attempt that ends beats its student's best, and the new mean is worth other quiz points. */
  predicate MovesTheGrade(q: G.Quiz, cfg: TS.Config, members: seq<G.Student>, s: G.Student, passed: bool, pct: real)
    requires cfg.quizPoints.Some?
  {
    Beats(G.TriesOf(q, s), passed, pct)
    && TS.QuizPointsFor(cfg.quizPoints.value, NewSquadPct(members, q.tries, s, pct), true)
       != TS.QuizPointsFor(cfg.quizPoints.value, SquadPct(members, q.tries), true)
  }

  /** The request that leaves a stale grade on a completed squad work. */
  predicate Stales(w: Work, cfg: TS.Config, members: seq<G.Student>, step: Rendezvous.Step)
    requires cfg.quizPoints.Some?
  {
    w.quiz.status == SM.Completed && step.DoFinish?
    && MovesTheGrade(w.quiz, cfg, members, step.s, step.passed, step.pct)
  }

  lemma EndedPercent(q: G.Quiz, s: G.Student, outcome: AttemptStatus, passed: bool, pct: real)
    requires G.HasRunning(q, s) && AllPercent(q.tries) && Percent(pct)
    ensures AllPercent(G.Close(q, s, outcome, passed, pct).tries)
  {
  }

  /** Exactly which request makes the grade of a completed squad work stale, on the state before
      it: the end of an attempt that passed, beats its student's best so far, and so moves the mean
      to one worth other quiz points. */
  lemma SquadCurrentExactly(w: Work, cfg: TS.Config, members: seq<G.Student>, step: Rendezvous.Step)
    requires TS.Sound(cfg) && Inv(w, SquadRules(cfg, members)) && Enabled(w, step) && Distinct(members)
    requires w.quiz.status == SM.Completed && Current(w, SquadRules(cfg, members))
    requires Real(w, cfg, members) && RealStep(step, cfg, members)
    ensures Current(Do(w, SquadRules(cfg, members), step), SquadRules(cfg, members)) <==> !Stales(w, cfg, members, step)
  {
    var rules := SquadRules(cfg, members);
    CurrentExactly(w, rules, step);
    if step.DoFinish? {
      LateFinishEnds(w, rules, step);
      EndedSquad(members, w.quiz, step.s, step.outcome, step.passed, step.pct);
      var after := G.Close(w.quiz, step.s, step.outcome, step.passed, step.pct).tries;
      EndedPercent(w.quiz, step.s, step.outcome, step.passed, step.pct);
      SquadPercent(members, w.quiz.tries);
      SquadPercent(members, after);
      SumOfParts(cfg, SquadPct(members, w.quiz.tries), w.rows[w.owner].scores, true);
      SumOfParts(cfg, SquadPct(members, after), w.rows[w.owner].scores, true);
    }
  }

  ghost predicate NoneStales(w: Work, cfg: TS.Config, members: seq<G.Student>, steps: seq<Rendezvous.Step>)
    requires TS.Sound(cfg)
    decreases |steps|
  {
    steps == []
    || (Enabled(w, steps[0]) && !Stales(w, cfg, members, steps[0])
        && NoneStales(Do(w, SquadRules(cfg, members), steps[0]), cfg, members, steps[1..]))
  }

  lemma {:induction false} SquadRun(w: Work, cfg: TS.Config, members: seq<G.Student>, steps: seq<Rendezvous.Step>,
      end: Work)
    requires TS.Sound(cfg) && Inv(w, SquadRules(cfg, members)) && IsRun(w, SquadRules(cfg, members), steps, end)
    requires Distinct(members) && Real(w, cfg, members) && RealRun(steps, cfg, members)
            && NoneStales(w, cfg, members, steps)
    requires w.quiz.status == SM.Completed ==> Current(w, SquadRules(cfg, members))
    ensures Real(end, cfg, members)
    ensures end.quiz.status == SM.Completed ==> Current(end, SquadRules(cfg, members))
    decreases |steps|
  {
    if steps != [] {
      var rules := SquadRules(cfg, members);
      RealRunTail(steps, cfg, members);
      RealKeeps(w, rules, steps[0], cfg, members);
      StepKeeps(w, rules, steps[0]);
      if w.quiz.status == SM.Completed {
        SquadCurrentExactly(w, cfg, members, steps[0]);
      } else {
        StepIsCurrent(w, rules, steps[0]);
      }
      SquadRun(Do(w, rules, steps[0]), cfg, members, steps[1..], end);
    }
  }

  /** In every run of a squad work without such a request, COMPLETED means that the grade on every
      row is the minimum plus the quiz points of the members' mean plus the teacher's points. */
  lemma SquadGradeIsTheSum(start: Work, cfg: TS.Config, members: seq<G.Student>, steps: seq<Rendezvous.Step>, w: Work)
    requires TS.Sound(cfg) && Opened(start) && Distinct(members)
    requires Real(start, cfg, members) && RealRun(steps, cfg, members) && NoneStales(start, cfg, members, steps)
    requires IsRun(start, SquadRules(cfg, members), steps, w) && w.quiz.status == SM.Completed
    ensures HoldsSum(w, cfg, SquadPct(members, w.quiz.tries), true)
  {
    OpenedInv(start, SquadRules(cfg, members));
    SquadRun(start, cfg, members, steps, w);
    SquadPercent(members, w.quiz.tries);
    SumOfParts(cfg, SquadPct(members, w.quiz.tries), w.rows[w.owner].scores, true);
  }

  // ---------------------------------------------------------------- a stale squad grade

  ghost predicate Reaches(start: Work, rules: Rules, w: Work) {
    exists steps :: IsRun(start, rules, steps, w)
  }

  lemma {:induction false} RunExtends(w: Work, rules: Rules, steps: seq<Rendezvous.Step>, mid: Work,
      step: Rendezvous.Step)
    requires IsRun(w, rules, steps, mid) && Enabled(mid, step)
    ensures IsRun(w, rules, steps + [step], Do(mid, rules, step))
    decreases |steps|
  {
    var longer := steps + [step];
    if steps == [] {
      assert longer[1..] == [];
    } else {
      assert longer[1..] == steps[1..] + [step];
      RunExtends(Do(w, rules, steps[0]), rules, steps[1..], mid, step);
    }
  }

  lemma Then(start: Work, rules: Rules, mid: Work, step: Rendezvous.Step, next: Work)
    requires Reaches(start, rules, mid) && Enabled(mid, step) && Do(mid, rules, step) == next
    ensures Reaches(start, rules, next)
  {
    var steps :| IsRun(start, rules, steps, mid);
    RunExtends(start, rules, steps, mid, step);
  }

  /** Two enrolled members with two attempts each, and 40 points from the teacher. */
  function Duo(status: SM.Status, tries: map<G.Student, seq<G.Try>>, grade: Option<int>): Work {
    Work(G.Quiz(status, Some(2), {1, 2}, tries, map[]), 1, map[1 := Row(SCORES, grade), 2 := Row(SCORES, grade)])
  }

  const SCORES: map<string, nat> := map["a" := 40]
  const RULED := G.Try(Completed, true, 60.0)

  /** 60 points for the quiz, 40 from the teacher, and a grade from 0 to 100. */
  const CFG := TS.Config(true, Some(60), Some([TS.RawCriterion(Some("a"), Some(40), false)]), 0, 100)

  lemma SoundCfg()
    ensures TS.Sound(CFG) && TS.Criteria(CFG.criteria.value) == [TS.Criterion("a", 40, false)]
    ensures TS.IsComplete(TS.Criteria(CFG.criteria.value), SCORES)
    ensures TS.PointsTotal(TS.Criteria(CFG.criteria.value), SCORES) == 40
  {
    var raw := CFG.criteria.value;
    assert raw[..0] == [];
    assert "a"[0] == 'a' && TS.KeyChar('a');
    assert TS.KeyMatches("a") && TS.CriterionOk(raw[0]);
    assert TS.MaxTotal(raw) == TS.MaxTotal([]) + 40;
    var crits := TS.Criteria(raw);
    assert crits[..0] == [];
    assert TS.PointsTotal(crits, SCORES) == TS.PointsTotal([], SCORES) + 40;
  }

  ghost function CfgRules(): Rules {
    SoundCfg();
    SquadRules(CFG, [1, 2])
  }

  function Begun(): Work {
    Duo(SM.QuizSent, map[], None)
  }

  function Going(one: seq<G.Try>): Work {
    Duo(SM.QuizSent, map[1 := one, 2 := [WON]], None)
  }

  lemma Starts(w: Work, s: G.Student, v: Work)
    requires Reaches(Begun(), CfgRules(), w) && G.CanStart(w.quiz, s)
    requires v == w.(quiz := w.quiz.(tries := w.quiz.tries[s := G.TriesOf(w.quiz, s) + [LIVE]]))
    ensures Reaches(Begun(), CfgRules(), v)
  {
    Then(Begun(), CfgRules(), w, DoStart(s), v);
  }

  /** An attempt ends and the submission stays open. */
  lemma Ends(w: Work, s: G.Student, passed: bool, pct: real, v: Work)
    requires Reaches(Begun(), CfgRules(), w) && G.HasRunning(w.quiz, s) && w.quiz.status == SM.QuizSent
    requires v == w.(quiz := G.Close(w.quiz, s, Completed, passed, pct))
    requires if passed then !QuizComplete(v.quiz) else !G.Exhausts(w.quiz, s)
    ensures Reaches(Begun(), CfgRules(), v)
  {
    Then(Begun(), CfgRules(), w, DoFinish(s, Completed, passed, pct), v);
  }

  lemma SecondBegins()
    ensures Opened(Begun()) && Reaches(Begun(), CfgRules(), Duo(SM.QuizSent, map[2 := [LIVE]], None))
  {
    var w := Begun();
    assert IsRun(w, CfgRules(), [], w);
    assert [] + [LIVE] == [LIVE];
    Starts(w, 2, Duo(SM.QuizSent, map[2 := [LIVE]], None));
  }

  /** 2 passes first; the quiz is not complete. */
  lemma SecondWon()
    ensures Reaches(Begun(), CfgRules(), Duo(SM.QuizSent, map[2 := [WON]], None))
  {
    SecondBegins();
    var w, v := Duo(SM.QuizSent, map[2 := [LIVE]], None), Duo(SM.QuizSent, map[2 := [WON]], None);
    assert [LIVE][0 := WON] == [WON] && map[2 := [LIVE]][2 := [WON]] == map[2 := [WON]];
    assert !QuizComplete(v.quiz) by { assert 1 in v.quiz.students && !G.AnyPassed(G.TriesOf(v.quiz, 1)); }
    Ends(w, 2, true, 100.0, v);
  }

  lemma FirstBegins()
    ensures Reaches(Begun(), CfgRules(), Going([LIVE]))
  {
    SecondWon();
    var w := Duo(SM.QuizSent, map[2 := [WON]], None);
    assert [] + [LIVE] == [LIVE] && map[2 := [WON]][1 := [LIVE]] == map[1 := [LIVE], 2 := [WON]];
    Starts(w, 1, Going([LIVE]));
  }

  lemma FirstLost()
    ensures Reaches(Begun(), CfgRules(), Going([LOST]))
  {
    FirstBegins();
    var w := Going([LIVE]);
    assert [LIVE][..0] == [] && G.Used([LIVE]) == 0;
    assert [LIVE][0 := LOST] == [LOST] && w.quiz.tries[1 := [LOST]] == map[1 := [LOST], 2 := [WON]];
    Ends(w, 1, false, 0.0, Going([LOST]));
  }

  lemma FirstAgain()
    ensures Reaches(Begun(), CfgRules(), Going([LOST, LIVE]))
  {
    FirstLost();
    var w := Going([LOST]);
    assert [LOST][..0] == [] && G.Used([LOST]) == 1;
    assert [LOST] + [LIVE] == [LOST, LIVE] && w.quiz.tries[1 := [LOST, LIVE]] == map[1 := [LOST, LIVE], 2 := [WON]];
    Starts(w, 1, Going([LOST, LIVE]));
  }

  /** 1's first attempt is ruled to 60 per cent while the second is running; 2 has 100. */
  function Ruled(): map<G.Student, seq<G.Try>> {
    map[1 := [RULED, LIVE], 2 := [WON]]
  }

  function Improved(): map<G.Student, seq<G.Try>> {
    map[1 := [RULED, WON], 2 := [WON]]
  }

  lemma RulingFlips(q: G.Quiz, flips: G.Flips)
    requires q.tries == map[1 := [LOST, LIVE], 2 := [WON]] && flips == map[(1, 0) := 60.0]
    ensures G.FlipAll(q, flips) == q.(tries := Ruled()) && Flipped(q, flips)
  {
    assert G.FlipTries([LOST, LIVE], 1, flips) == [RULED, LIVE] && G.FlipTries([WON], 2, flips) == [WON];
    assert G.FlipAll(q, flips).tries == Ruled();
    assert (1, 0) in flips && G.Regradable(q.tries[1][0]);
  }

  /** The squad's percentage is 80 then, which is 48 of 60 points, and would be 100. */
  lemma SquadPercents()
    ensures SquadPct([1, 2], Ruled()) == 80.0 && SquadPct([1, 2], Improved()) == 100.0
  {
    BestOfTwo();
    assert [1, 2][1..] == [2] && [2][1..] == [];
    assert BestSum([2], Ruled()) == 100.0 && BestSum([2], Improved()) == 100.0;
    assert Passers([2], Ruled()) == 1 && Passers([2], Improved()) == 1;
  }

  lemma BestOfTwo()
    ensures Best([WON]) == Some(100.0) && Best([RULED, LIVE]) == Some(60.0) && Best([RULED, WON]) == Some(100.0)
  {
    assert [WON][..0] == [] && [RULED][..0] == [];
    assert [RULED, LIVE][..1] == [RULED] && [RULED, WON][..1] == [RULED];
    assert Best([RULED]) == Some(60.0);
  }

  lemma Grades()
    ensures CfgRules().formula(Ruled(), SCORES) == 88 && CfgRules().formula(Improved(), SCORES) == 100
  {
    SoundCfg();
    SquadPercents();
    assert TS.QuizShare(60, 80.0) == 48.0 && TS.QuizShare(60, 100.0) == 60.0;
    assert Round6(48.0) == 48.0 && Round6(60.0) == 60.0;
  }

  lemma RuledGraded()
    ensures FinalizeGrade(Duo(SM.Completed, Ruled(), None), CfgRules()) == Duo(SM.Completed, Ruled(), Some(88))
  {
    SoundCfg();
    Grades();
    var u := Duo(SM.Completed, Ruled(), None);
    assert SomePassed(u.quiz) by { assert G.AnyPassed([WON]) by { assert [WON][0].isPassed; } }
    assert FinalizeGrade(u, CfgRules()).rows == Duo(SM.Completed, Ruled(), Some(88)).rows;
  }

  lemma RulingCompletes()
    ensures Advance(Duo(SM.QuizSent, Ruled(), None), CfgRules()) == Duo(SM.Completed, Ruled(), Some(88))
  {
    SoundCfg();
    var v := Duo(SM.QuizSent, Ruled(), None);
    assert QuizComplete(v.quiz) by {
      assert [RULED, LIVE][0].isPassed && [WON][0].isPassed;
      assert G.AnyPassed([RULED, LIVE]) && G.AnyPassed([WON]);
    }
    RuledGraded();
    assert SM.Next(SM.QuizSent, SM.QuizPassed) == Some(SM.Completed);
    assert WithStatus(v, SM.Completed) == Duo(SM.Completed, Ruled(), None);
  }

  /** A ruling passes 1's first attempt and so completes the work with 88. */
  lemma RuledWhileRunning()
    ensures Reaches(Begun(), CfgRules(), Duo(SM.Completed, Ruled(), Some(88)))
  {
    FirstAgain();
    var w := Going([LOST, LIVE]);
    RulingFlips(w.quiz, map[(1, 0) := 60.0]);
    RulingCompletes();
    Then(Begun(), CfgRules(), w, DoRuling(map[(1, 0) := 60.0]), Duo(SM.Completed, Ruled(), Some(88)));
  }

  lemma LateFinish()
    ensures Reaches(Begun(), CfgRules(), Duo(SM.Completed, Improved(), Some(88)))
  {
    RuledWhileRunning();
    var w := Duo(SM.Completed, Ruled(), Some(88));
    assert [RULED, LIVE][1 := WON] == [RULED, WON] && Ruled()[1 := [RULED, WON]] == Improved();
    var step := DoFinish(1, Completed, true, 100.0);
    assert G.HasRunning(w.quiz, 1);
    assert G.Close(w.quiz, 1, Completed, true, 100.0).tries == Improved();
    EndsLate(w, 1, 100.0, Duo(SM.Completed, Improved(), Some(88)));
    Then(Begun(), CfgRules(), w, step, Duo(SM.Completed, Improved(), Some(88)));
  }

  lemma EndsLate(w: Work, s: G.Student, pct: real, v: Work)
    requires G.HasRunning(w.quiz, s) && w.quiz.status == SM.Completed
    requires v == w.(quiz := G.Close(w.quiz, s, Completed, true, pct))
    ensures Do(w, CfgRules(), DoFinish(s, Completed, true, pct)) == v
  {
  }

  /** A squad of two: a ruling passes 1's first attempt while the second is running and completes
      the work with 88; the second then passes with 100 per cent, the members' mean is 100, and the
      grade stays 88. */
  lemma AStaleGradeIsReachable()
    ensures Opened(Begun()) && Reaches(Begun(), CfgRules(), Duo(SM.Completed, Improved(), Some(88)))
    ensures CfgRules().formula(Improved(), SCORES) == 100
    ensures !Current(Duo(SM.Completed, Improved(), Some(88)), CfgRules())
  {
    SecondBegins();
    LateFinish();
    Grades();
    assert Duo(SM.Completed, Improved(), Some(88)).rows[1].grade == Some(88);
  }
}
