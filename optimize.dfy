/** OMT.py: the optimisation mode. The script hands Z3's `Optimize` the hard constraints,
    one integer `avg_team_i` per team, and an integer `max_gap` bounded below by every
    adjacent gap, asks it to minimise `max_gap`, and prints the teams and `max_gap` of the
    model it returns, or "No solution!". */
module Optimize {
  import opened Roster
  import opened Counting
  import opened Formulation
  import opened Gaps
  import opened Extraction

  /** The Z3 problem as OMT.py states it (lines 21-43), over the matrix, the average
      variables and `max_gap`. */
  predicate OmtConstraints(roster: seq<Student>, cfg: Config, team: seq<seq<bool>>, avgs: seq<int>, maxGap: int)
  {
    && ValidAssignment(roster, cfg, team)
    && AveragesDefined(roster, cfg, team, avgs)
    && GapBounded(avgs, maxGap)
  }

  /** Lines 36-38: `avg_team_i == Sum(...) / team_size` for every team. */
  predicate AveragesDefined(roster: seq<Student>, cfg: Config, team: seq<seq<bool>>, avgs: seq<int>)
  {
    && |avgs| == |team|
    && (forall i :: 0 <= i < |team| ==> |team[i]| == |roster|)
    && (forall i :: 0 <= i < |avgs| ==> avgs[i] == SkillSum(team[i], roster) / cfg.teamSize)
  }

  /** Lines 42-43: `max_gap >= Abs(avg_i - avg_{i+1})` for every adjacent pair. */
  predicate GapBounded(avgs: seq<int>, maxGap: int)
  {
    forall i :: 0 <= i < |avgs| - 1 ==> maxGap >= Abs(avgs[i] - avgs[i + 1])
  }

  /** The average variables are pinned down: they can only be the team averages. */
  lemma AveragesDefinedIff(roster: seq<Student>, cfg: Config, team: seq<seq<bool>>, avgs: seq<int>)
    requires Shaped(roster, cfg, team)
    ensures AveragesDefined(roster, cfg, team, avgs) <==> avgs == Averages(roster, cfg, team)
  {
    if AveragesDefined(roster, cfg, team, avgs) {
      assert forall i :: 0 <= i < |avgs| ==> avgs[i] == Averages(roster, cfg, team)[i];
    }
  }

  /** `max_gap` bounds the adjacent gaps exactly when every adjacent pair is within it. */
  lemma GapBoundedIff(avgs: seq<int>, maxGap: int)
    ensures GapBounded(avgs, maxGap) <==> WithinGap(avgs, maxGap)
  {
    assert forall i :: 0 <= i < |avgs| - 1 ==> AdjacentGap(avgs, i) == Abs(avgs[i] - avgs[i + 1]);
  }

  /** A model Z3 returns: values for the matrix, the averages and `max_gap`. */
  datatype OmtModel = OmtModel(team: seq<seq<bool>>, avgs: seq<int>, maxGap: int)

  /** What `opt.minimize(max_gap)` promises of a model: it meets every constraint and no
      model has a smaller `max_gap`. */
  ghost predicate OmtOptimal(roster: seq<Student>, cfg: Config, m: OmtModel)
  {
    && OmtConstraints(roster, cfg, m.team, m.avgs, m.maxGap)
    && forall t, a, g :: OmtConstraints(roster, cfg, t, a, g) ==> m.maxGap <= g
  }

  /** The contract of `opt.check()` followed by `opt.model()`. `Unsat` means no model meets
      the constraints; `Unknown` promises nothing; a `Sat` model meets the constraints and,
      with two or more teams, no model has a smaller `max_gap`. With fewer teams nothing bounds
      `max_gap` from below (`UnboundedWithoutPairs`), so the model only meets the constraints. */
  ghost predicate OptimizeAnswers(roster: seq<Student>, cfg: Config, res: Answer<OmtModel>)
  {
    match res
    case Unsat => forall t, a, g :: !OmtConstraints(roster, cfg, t, a, g)
    case Unknown => true
    case Sat(m) =>
      && OmtConstraints(roster, cfg, m.team, m.avgs, m.maxGap)
      && (NTeams(roster, cfg) >= 2 ==> OmtOptimal(roster, cfg, m))
  }

  /** The objective of a valid assignment with at least two teams: its largest adjacent gap. */
  function GapOf(roster: seq<Student>, cfg: Config, team: seq<seq<bool>>): (g: nat)
    requires ValidAssignment(roster, cfg, team)
    requires NTeams(roster, cfg) >= 2
    ensures WithinGap(Averages(roster, cfg, team), g)
    ensures forall g' :: WithinGap(Averages(roster, cfg, team), g') ==> g <= g'
  {
    var avgs := Averages(roster, cfg, team);
    WithinGapIffMax(avgs, MaxAdjacentGap(avgs));
    forall g' | WithinGap(avgs, g')
      ensures MaxAdjacentGap(avgs) <= g'
    {
      WithinGapIffMax(avgs, g');
    }
    MaxAdjacentGap(avgs)
  }

  /** Reference optimality, independent of the Z3 encoding: `team` is valid, `gap` is its
      objective, and no valid assignment has a smaller one. */
  ghost predicate Optimal(roster: seq<Student>, cfg: Config, team: seq<seq<bool>>, gap: int)
  {
    && NTeams(roster, cfg) >= 2
    && ValidAssignment(roster, cfg, team)
    && gap == GapOf(roster, cfg, team)
    && forall t :: ValidAssignment(roster, cfg, t) ==> gap <= GapOf(roster, cfg, t)
  }

  /** The encoding is exact: with at least two teams, a triple meets OMT.py's constraints
      exactly when the matrix is valid, the averages are its team averages and `max_gap` is at
      least its largest adjacent gap. */
  lemma EncodingExact(roster: seq<Student>, cfg: Config, team: seq<seq<bool>>, avgs: seq<int>, maxGap: int)
    requires NTeams(roster, cfg) >= 2
    ensures OmtConstraints(roster, cfg, team, avgs, maxGap) <==>
      && ValidAssignment(roster, cfg, team)
      && avgs == Averages(roster, cfg, team)
      && maxGap >= GapOf(roster, cfg, team)
  {
    GapBoundedIff(avgs, maxGap);
    if ValidAssignment(roster, cfg, team) {
      AveragesDefinedIff(roster, cfg, team, avgs);
    }
  }

  /** Z3's optimum is the reference optimum: a model is optimal for OMT.py's problem exactly
      when its matrix is an optimal assignment, its `max_gap` that assignment's largest adjacent
      gap and its averages the team averages. */
  lemma OptimalCharacterised(roster: seq<Student>, cfg: Config, m: OmtModel)
    requires NTeams(roster, cfg) >= 2
    ensures OmtOptimal(roster, cfg, m) <==>
      Optimal(roster, cfg, m.team, m.maxGap) && m.avgs == Averages(roster, cfg, m.team)
  {
    if OmtOptimal(roster, cfg, m) {
      EncodingExact(roster, cfg, m.team, m.avgs, m.maxGap);
      var own := GapOf(roster, cfg, m.team);
      EncodingExact(roster, cfg, m.team, m.avgs, own);
      forall t | ValidAssignment(roster, cfg, t)
        ensures m.maxGap <= GapOf(roster, cfg, t)
      {
        var a, g := Averages(roster, cfg, t), GapOf(roster, cfg, t);
        EncodingExact(roster, cfg, t, a, g);
      }
    }
    if Optimal(roster, cfg, m.team, m.maxGap) && m.avgs == Averages(roster, cfg, m.team) {
      EncodingExact(roster, cfg, m.team, m.avgs, m.maxGap);
      forall t, a, g | OmtConstraints(roster, cfg, t, a, g)
        ensures m.maxGap <= g
      {
        EncodingExact(roster, cfg, t, a, g);
      }
    }
  }

  /** With fewer than two teams nothing bounds `max_gap` from below, so minimisation is
      unbounded and no model is optimal. */
  lemma UnboundedWithoutPairs(roster: seq<Student>, cfg: Config, m: OmtModel)
    requires NTeams(roster, cfg) < 2
    ensures !OmtOptimal(roster, cfg, m)
  {
    if OmtConstraints(roster, cfg, m.team, m.avgs, m.maxGap) {
      assert OmtConstraints(roster, cfg, m.team, m.avgs, m.maxGap - 1);
    }
  }

  /** An optimum exists whenever some assignment is valid: a search that only ever moves to a
      strictly smaller largest adjacent gap must stop, since gaps are natural numbers. */
  lemma OptimumExists(roster: seq<Student>, cfg: Config, team: seq<seq<bool>>)
    requires NTeams(roster, cfg) >= 2
    requires ValidAssignment(roster, cfg, team)
    ensures exists t, g :: Optimal(roster, cfg, t, g)
    decreases GapOf(roster, cfg, team)
  {
    if forall t :: ValidAssignment(roster, cfg, t) ==> GapOf(roster, cfg, team) <= GapOf(roster, cfg, t) {
      assert Optimal(roster, cfg, team, GapOf(roster, cfg, team));
    } else {
      var t :| ValidAssignment(roster, cfg, t) && GapOf(roster, cfg, t) < GapOf(roster, cfg, team);
      OptimumExists(roster, cfg, t);
    }
  }

  /** Every valid assignment extends to a model of OMT.py's constraints: its own averages,
      and its largest adjacent gap for `max_gap`, or any `g` when there is no adjacent pair. */
  lemma ValidHasModel(roster: seq<Student>, cfg: Config, team: seq<seq<bool>>, g: int)
    requires ValidAssignment(roster, cfg, team)
    ensures NTeams(roster, cfg) >= 2 ==>
      OmtConstraints(roster, cfg, team, Averages(roster, cfg, team), GapOf(roster, cfg, team))
    ensures NTeams(roster, cfg) < 2 ==>
      OmtConstraints(roster, cfg, team, Averages(roster, cfg, team), g)
  {
    var avgs := Averages(roster, cfg, team);
    AveragesDefinedIff(roster, cfg, team, avgs);
    if NTeams(roster, cfg) >= 2 {
      GapBoundedIff(avgs, GapOf(roster, cfg, team));
    }
  }

  /** The solver contract can always be met by a definite answer: unsat when nothing is
      valid, and otherwise a model, optimal when there are two or more teams. */
  lemma AnswerExists(roster: seq<Student>, cfg: Config)
    ensures exists res :: OptimizeAnswers(roster, cfg, res) && !res.Unknown?
  {
    if exists t :: ValidAssignment(roster, cfg, t) {
      var t :| ValidAssignment(roster, cfg, t);
      if NTeams(roster, cfg) >= 2 {
        OptimumExists(roster, cfg, t);
        var best, g :| Optimal(roster, cfg, best, g);
        var m := OmtModel(best, Averages(roster, cfg, best), g);
        OptimalCharacterised(roster, cfg, m);
        assert OptimizeAnswers(roster, cfg, Sat(m));
      } else {
        ValidHasModel(roster, cfg, t, 0);
        assert OptimizeAnswers(roster, cfg, Sat(OmtModel(t, Averages(roster, cfg, t), 0)));
      }
    } else {
      assert OptimizeAnswers(roster, cfg, Unsat);
    }
  }

  /** Ties do not matter: every optimal assignment reports the same gap, so two runs that
      return different assignments still report the same objective value. */
  lemma OptimalGapUnique(roster: seq<Student>, cfg: Config, t1: seq<seq<bool>>, g1: int, t2: seq<seq<bool>>, g2: int)
    requires Optimal(roster, cfg, t1, g1)
    requires Optimal(roster, cfg, t2, g2)
    ensures g1 == g2
  {
    assert g1 <= GapOf(roster, cfg, t2);
    assert g2 <= GapOf(roster, cfg, t1);
  }

  /** Lines 47-53: the team lists and `max_gap` on sat; "No solution!" on any other answer,
      `unknown` included. */
  function OptimizeReport(roster: seq<Student>, res: Answer<OmtModel>): (r: Report)
    requires res.Sat? ==> forall i :: 0 <= i < |res.model.team| ==> |res.model.team[i]| == |roster|
    ensures r.NoSolution? <==> !res.Sat?
    ensures r.Teams? ==> r.maxGap.Some?
  {
    match res
    case Sat(m) => Teams(TeamNames(roster, m.team), Some(m.maxGap))
    case _ => NoSolution
  }

  /** What OMT.py prints. When no assignment meets the hard constraints it prints
      "No solution!", whatever the solver answers; on a definite answer it prints it only
      then. Otherwise it prints the lists of a valid assignment, `n_teams` of them with
      `team_size` names each, and with two or more teams that assignment is optimal and the
      printed gap is the optimum. */
  lemma OptimizeReportCorrect(roster: seq<Student>, cfg: Config, res: Answer<OmtModel>)
    requires OptimizeAnswers(roster, cfg, res)
    ensures res.Sat? ==> forall i :: 0 <= i < |res.model.team| ==> |res.model.team[i]| == |roster|
    ensures var r := OptimizeReport(roster, res);
      && ((forall t :: !ValidAssignment(roster, cfg, t)) ==> r.NoSolution?)
      && (!res.Unknown? ==> (r.NoSolution? <==> forall t :: !ValidAssignment(roster, cfg, t)))
      && (r.Teams? ==> exists t :: ValidAssignment(roster, cfg, t) && r.lists == TeamNames(roster, t))
      && (r.Teams? && NTeams(roster, cfg) >= 2 ==>
            exists t :: Optimal(roster, cfg, t, r.maxGap.value) && r.lists == TeamNames(roster, t))
      && (r.Teams? ==> |r.lists| == NTeams(roster, cfg) && forall i :: 0 <= i < |r.lists| ==> |r.lists[i]| == cfg.teamSize)
  {
    match res
    case Unknown =>
    case Unsat =>
      forall t | ValidAssignment(roster, cfg, t)
        ensures false
      {
        ValidHasModel(roster, cfg, t, 0);
      }
    case Sat(m) =>
      if NTeams(roster, cfg) >= 2 {
        OptimalCharacterised(roster, cfg, m);
      }
      var lists := TeamNames(roster, m.team);
      forall i | 0 <= i < |lists|
        ensures |lists[i]| == cfg.teamSize
      {
        assert Count(m.team[i]) == cfg.teamSize;
      }
  }
}
