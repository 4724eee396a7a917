/** constraints.py: the satisfaction mode. The script hands Z3's `Solver` the same hard
    constraints and average variables as OMT.py, but instead of minimising a gap it requires
    every adjacent pair of averages to be within `max_skill_gap`, and prints the teams of the
    first model found, or "No solution!". */
module Satisfy {
  import opened Roster
  import opened Counting
  import opened Formulation
  import opened Gaps
  import opened Extraction
  import opened Optimize

  /** The Z3 problem as constraints.py states it (lines 16-32). */
  predicate SatConstraints(roster: seq<Student>, cfg: Config, maxSkillGap: int, team: seq<seq<bool>>, avgs: seq<int>)
  {
    && ValidAssignment(roster, cfg, team)
    && AveragesDefined(roster, cfg, team, avgs)
    && GapBounded(avgs, maxSkillGap)
  }

  /** Reference acceptance, independent of the Z3 encoding: the assignment is valid and every
      adjacent pair of its team averages is within the threshold. */
  predicate Accepted(roster: seq<Student>, cfg: Config, maxSkillGap: int, team: seq<seq<bool>>)
  {
    ValidAssignment(roster, cfg, team) && WithinGap(Averages(roster, cfg, team), maxSkillGap)
  }

  /** A model Z3 returns: values for the matrix and the average variables. */
  datatype SatModel = SatModel(team: seq<seq<bool>>, avgs: seq<int>)

  /** The contract of `solver.check()` followed by `solver.model()`. `Unsat` means nothing
      meets the constraints; `Unknown` promises nothing; a `Sat` model meets them. */
  ghost predicate SolveAnswers(roster: seq<Student>, cfg: Config, maxSkillGap: int, res: Answer<SatModel>)
  {
    match res
    case Unsat => forall t, a :: !SatConstraints(roster, cfg, maxSkillGap, t, a)
    case Unknown => true
    case Sat(m) => SatConstraints(roster, cfg, maxSkillGap, m.team, m.avgs)
  }

  /** The encoding is exact: a pair meets constraints.py's constraints exactly when the matrix
      is accepted and the average variables hold its team averages. */
  lemma SatEncodingExact(roster: seq<Student>, cfg: Config, g: int, team: seq<seq<bool>>, avgs: seq<int>)
    ensures SatConstraints(roster, cfg, g, team, avgs) <==>
      Accepted(roster, cfg, g, team) && avgs == Averages(roster, cfg, team)
  {
    GapBoundedIff(avgs, g);
    if ValidAssignment(roster, cfg, team) {
      AveragesDefinedIff(roster, cfg, team, avgs);
    }
  }

  /** Raising the threshold never rejects an assignment that was accepted. */
  lemma AcceptedMonotone(roster: seq<Student>, cfg: Config, g: int, g': int, team: seq<seq<bool>>)
    requires Accepted(roster, cfg, g, team)
    requires g <= g'
    ensures Accepted(roster, cfg, g', team)
  {
    WithinGapMonotone(Averages(roster, cfg, team), g, g');
  }

  /** With fewer than two teams there is no adjacent pair, so the threshold plays no part:
      exactly the valid assignments are accepted, even for a negative `max_skill_gap`. */
  lemma NoPairsNoSkillConstraint(roster: seq<Student>, cfg: Config, g: int, team: seq<seq<bool>>)
    requires NTeams(roster, cfg) < 2
    ensures Accepted(roster, cfg, g, team) <==> ValidAssignment(roster, cfg, team)
  {
  }

  /** With two or more teams a negative `max_skill_gap` accepts nothing. */
  lemma NegativeThresholdUnsat(roster: seq<Student>, cfg: Config, g: int, team: seq<seq<bool>>)
    requires NTeams(roster, cfg) >= 2
    requires g < 0
    ensures !Accepted(roster, cfg, g, team)
  {
    if ValidAssignment(roster, cfg, team) {
      NegativeGapRejects(Averages(roster, cfg, team), g);
    }
  }

  /** The two modes agree: with two or more teams and an optimal assignment of gap `best`,
      some assignment is accepted at threshold `g` exactly when `best <= g`. */
  lemma ModesAgree(roster: seq<Student>, cfg: Config, g: int, best: seq<seq<bool>>, bestGap: int)
    requires Optimal(roster, cfg, best, bestGap)
    ensures (exists t :: Accepted(roster, cfg, g, t)) <==> bestGap <= g
  {
    if exists t :: Accepted(roster, cfg, g, t) {
      var t :| Accepted(roster, cfg, g, t);
      assert bestGap <= GapOf(roster, cfg, t) <= g;
    }
    if bestGap <= g {
      assert Accepted(roster, cfg, g, best);
    }
  }

  /** When no assignment meets the hard constraints, no threshold helps. */
  lemma InfeasibleAtEveryThreshold(roster: seq<Student>, cfg: Config, g: int)
    requires forall t :: !ValidAssignment(roster, cfg, t)
    ensures forall t :: !Accepted(roster, cfg, g, t)
  {
  }

  /** The agreement stated on what the two scripts' solver calls return, for the same roster
      and configuration with two or more teams. A model from constraints.py at threshold `g`
      means OMT.py's optimum is at most `g`; an optimum at most `g` means constraints.py is not
      unsat. When neither solver answers `unknown`, constraints.py finds a model at `g` exactly
      when OMT.py finds one whose `max_gap` is at most `g`. */
  lemma SolverAnswersAgree(roster: seq<Student>, cfg: Config, g: int,
                           omt: Answer<OmtModel>, sat: Answer<SatModel>)
    requires NTeams(roster, cfg) >= 2
    requires OptimizeAnswers(roster, cfg, omt)
    requires SolveAnswers(roster, cfg, g, sat)
    ensures sat.Sat? ==> !omt.Unsat?
    ensures sat.Sat? && omt.Sat? ==> omt.model.maxGap <= g
    ensures omt.Sat? && omt.model.maxGap <= g ==> !sat.Unsat?
    ensures !omt.Unknown? && !sat.Unknown? ==> (sat.Sat? <==> omt.Sat? && omt.model.maxGap <= g)
  {
    if sat.Sat? {
      var m := sat.model;
      SatEncodingExact(roster, cfg, g, m.team, m.avgs);
      EncodingExact(roster, cfg, m.team, m.avgs, GapOf(roster, cfg, m.team));
    }
    if omt.Sat? {
      var o := omt.model;
      OptimalCharacterised(roster, cfg, o);
      ModesAgree(roster, cfg, g, o.team, o.maxGap);
      if o.maxGap <= g && sat.Unsat? {
        var t :| Accepted(roster, cfg, g, t);
        SatEncodingExact(roster, cfg, g, t, Averages(roster, cfg, t));
      }
    }
  }

  /** Lines 34-39: the team lists on sat; "No solution!" on any other answer, `unknown`
      included. */
  function SolveReport(roster: seq<Student>, res: Answer<SatModel>): (r: Report)
    requires res.Sat? ==> forall i :: 0 <= i < |res.model.team| ==> |res.model.team[i]| == |roster|
    ensures r.NoSolution? <==> !res.Sat?
    ensures r.Teams? ==> r.maxGap.None?
  {
    match res
    case Sat(m) => Teams(TeamNames(roster, m.team), None)
    case _ => NoSolution
  }

  /** What constraints.py prints. When no assignment is accepted at the threshold it prints
      "No solution!", whatever the solver answers; on a definite answer it prints it only then.
      Otherwise it prints the lists of an accepted assignment, `n_teams` of them with
      `team_size` names each. */
  lemma SolveReportCorrect(roster: seq<Student>, cfg: Config, g: int, res: Answer<SatModel>)
    requires SolveAnswers(roster, cfg, g, res)
    ensures res.Sat? ==> forall i :: 0 <= i < |res.model.team| ==> |res.model.team[i]| == |roster|
    ensures var r := SolveReport(roster, res);
      && ((forall t :: !Accepted(roster, cfg, g, t)) ==> r.NoSolution?)
      && (!res.Unknown? ==> (r.NoSolution? <==> forall t :: !Accepted(roster, cfg, g, t)))
      && (r.Teams? ==> exists t :: Accepted(roster, cfg, g, t) && r.lists == TeamNames(roster, t))
      && (r.Teams? ==> |r.lists| == NTeams(roster, cfg) && forall i :: 0 <= i < |r.lists| ==> |r.lists[i]| == cfg.teamSize)
  {
    match res
    case Unknown =>
    case Unsat =>
      forall t | Accepted(roster, cfg, g, t)
        ensures false
      {
        SatEncodingExact(roster, cfg, g, t, Averages(roster, cfg, t));
      }
    case Sat(m) =>
      SatEncodingExact(roster, cfg, g, m.team, m.avgs);
      var lists := TeamNames(roster, m.team);
      forall i | 0 <= i < |lists|
        ensures |lists[i]| == cfg.teamSize
      {
        assert Count(m.team[i]) == cfg.teamSize;
      }
  }
}
