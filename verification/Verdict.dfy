/** From the predicate to the verdict of search, through lowering, the generated test and the harness. */
module Verdict {
  import opened Wrappers
  import opened Evaluation
  import opened Lowering
  import opened Preservation
  import opened Xlir
  import Candidate
  import Replay

  /** The harness runs the generated test on the chains as they are: it passes when the test does, and prints
      the marker exactly when the test's last requirement fails. */
  ghost predicate RunsTheTest(env: Replay.Environment, workspace: string, test: Replay.Test, outcome: Candidate.Outcome) {
    && (env.harness(workspace, test) == Replay.HarnessPass <==> outcome == Candidate.Passes)
    && (env.harness(workspace, test) == Replay.HarnessFail(true) <==> outcome == Candidate.Holds)
  }

  /** Search finds a witness exactly when the predicate is false over the chains before and after the workflow,
      and reports that it holds exactly when it is true, given that the captures succeed. */
  lemma SearchJudgesThePredicate(r: Replay.Request, workspace: string, env: Replay.Environment, ids: seq<string>, pre: State, post: State)
    requires Replay.Prepare(r, workspace, env).Ready?
    requires Replay.CandidateSource(r, Replay.Prepare(r, workspace, env).bindings, env).Some?
    requires Candidate.WellFormed(r.candidate.value, ids, Replay.Context(r, Replay.Prepare(r, workspace, env).bindings, env), pre, post)
    requires var d := Replay.Prepare(r, workspace, env).bindings;
             RunsTheTest(env, workspace, Replay.CandidateSource(r, d, env).value,
                         Candidate.RunTest(r.candidate.value, ids, Replay.Context(r, d, env), pre, post))
    ensures var e, p := r.candidate.value, Replay.Context(r, Replay.Prepare(r, workspace, env).bindings, env);
            var captures := Candidate.Distinct(ids, p) && forall id :: id in ids ==> Candidate.PreValue(id, p, pre).Ok?;
            var result := Replay.Search(r, workspace, env);
      && (result.Sat? || result.Aborted? <==> captures && Eval(e, p, pre, post) == Ok(Plain(VBool(false))))
      && (result.BoundedUnsat? <==> captures && Eval(e, p, pre, post) == Ok(Plain(VBool(true))))
  {
    hide Replay.Search, Replay.CandidateSource, Candidate.RunTest, Candidate.WellFormed, Eval;
    var d := Replay.Prepare(r, workspace, env).bindings;
    var p := Replay.Context(r, d, env);
    Replay.SearchReports(r, workspace, env);
    Declared(r.candidate.value, ids, p, pre, post);
    Candidate.TestDecidesPredicate(r.candidate.value, ids, p, pre, post);
  }

  lemma Declared(e: Pred, ids: seq<string>, p: Prepared, pre: State, post: State)
    requires Candidate.WellFormed(e, ids, p, pre, post)
    ensures Candidate.Accepted(e, p) && Candidate.Declarable(ids, p)
  {
  }
}
