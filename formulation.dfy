/** The hard constraints and the team averages, stated identically by OMT.py and
    constraints.py, over the matrix `team[i][j]` ("student j is in team i") with
    `n_teams` rows and one column per student. */
module Formulation {
  import opened Roster
  import opened Counting

  /** The matrix has the shape the scripts create: `n_teams` rows of `n_students` entries. */
  predicate Shaped(roster: seq<Student>, cfg: Config, team: seq<seq<bool>>)
  {
    |team| == NTeams(roster, cfg) && forall i :: 0 <= i < |team| ==> |team[i]| == |roster|
  }

  /** Constraint 1: each student is in exactly one team. */
  predicate Partitioned(roster: seq<Student>, cfg: Config, team: seq<seq<bool>>)
    requires Shaped(roster, cfg, team)
  {
    forall j :: 0 <= j < |roster| ==> Count(Column(team, j)) == 1
  }

  /** Constraint 2: every team has exactly `team_size` members. */
  predicate AtCapacity(roster: seq<Student>, cfg: Config, team: seq<seq<bool>>)
    requires Shaped(roster, cfg, team)
  {
    forall i :: 0 <= i < |team| ==> Count(team[i]) == cfg.teamSize
  }

  /** Constraint 3: every team has at least `min_female_per_team` members of gender "F"
      and at least `min_male_per_team` of gender "M". */
  predicate GenderFloorsMet(roster: seq<Student>, cfg: Config, team: seq<seq<bool>>)
    requires Shaped(roster, cfg, team)
  {
    forall i :: 0 <= i < |team| ==>
      CountGender(team[i], roster, Female) >= cfg.minFemale &&
      CountGender(team[i], roster, Male) >= cfg.minMale
  }

  /** All hard constraints: what an assignment must satisfy in either mode. */
  predicate ValidAssignment(roster: seq<Student>, cfg: Config, team: seq<seq<bool>>)
  {
    && Shaped(roster, cfg, team)
    && Partitioned(roster, cfg, team)
    && AtCapacity(roster, cfg, team)
    && GenderFloorsMet(roster, cfg, team)
  }

  /** Constraint 4, one team: `avg_team_i == Sum(skills of members) / team_size`, Z3 integer
      division, which for the positive `team_size` rounds down. */
  function Average(row: seq<bool>, roster: seq<Student>, cfg: Config): (avg: int)
    requires |row| == |roster|
    ensures avg * cfg.teamSize <= SkillSum(row, roster) < avg * cfg.teamSize + cfg.teamSize
  {
    SkillSum(row, roster) / cfg.teamSize
  }

  /** The averages of all teams, in team index order. */
  function Averages(roster: seq<Student>, cfg: Config, team: seq<seq<bool>>): (avgs: seq<int>)
    requires Shaped(roster, cfg, team)
    ensures |avgs| == |team|
    ensures forall i :: 0 <= i < |team| ==> avgs[i] == Average(team[i], roster, cfg)
  {
    seq(|team|, i requires 0 <= i < |team| => Average(team[i], roster, cfg))
  }

  /** In a full team the average lies between the lowest and the highest member skill. */
  lemma AverageBetween(row: seq<bool>, roster: seq<Student>, cfg: Config, lo: int, hi: int)
    requires |row| == |roster|
    requires Count(row) == cfg.teamSize
    requires forall j :: 0 <= j < |row| && row[j] ==> lo <= roster[j].coding <= hi
    ensures lo <= Average(row, roster, cfg) <= hi
  {
    SkillSumOfMembers(row, roster, lo, hi);
    FloorBetween(SkillSum(row, roster), cfg.teamSize, Average(row, roster, cfg), lo, hi);
  }

  /** If `avg` is `s` divided by `d` rounded down and `d * lo <= s <= d * hi`, then `avg` lies
      between `lo` and `hi`. */
  lemma FloorBetween(s: int, d: int, avg: int, lo: int, hi: int)
    requires d > 0
    requires avg * d <= s < avg * d + d
    requires d * lo <= s <= d * hi
    ensures lo <= avg <= hi
  {
    assert (avg + 1) * d == avg * d + d;
    assert (hi + 1) * d == hi * d + d;
    assert d * lo == lo * d && d * hi == hi * d;
    if avg < lo {
      MulMonotone(avg + 1, lo, d);
    }
    if avg > hi {
      MulMonotone(hi + 1, avg, d);
    }
  }

  lemma MulMonotone(a: int, b: int, c: nat)
    requires a <= b
    ensures a * c <= b * c
  {
    assert b * c - a * c == (b - a) * c;
  }

  /** Capacity and partition together fix the roster size: `n_teams * team_size` set entries
      counted by teams, one per student counted by students. */
  lemma {:induction false} ValidFillsTeams(roster: seq<Student>, cfg: Config, team: seq<seq<bool>>)
    requires ValidAssignment(roster, cfg, team)
    ensures |roster| == NTeams(roster, cfg) * cfg.teamSize
  {
    DoubleCount(team, |roster|);
    RowTotalUniform(team, cfg.teamSize);
    ColumnTotalOnes(team, |roster|);
  }

  /** Since `n_teams = n_students // team_size`, nothing is feasible when `team_size`
      does not divide the roster size. */
  lemma InfeasibleUnlessDivides(roster: seq<Student>, cfg: Config)
    requires |roster| % cfg.teamSize != 0
    ensures forall team :: !ValidAssignment(roster, cfg, team)
  {
    forall team | ValidAssignment(roster, cfg, team)
      ensures false
    {
      ValidFillsTeams(roster, cfg, team);
    }
  }

  /** The "F" and "M" floors need disjoint members of one team, so on a non-empty roster
      nothing is feasible when they add up to more than `team_size`. */
  lemma InfeasibleFloors(roster: seq<Student>, cfg: Config)
    requires |roster| > 0
    requires cfg.minFemale + cfg.minMale > cfg.teamSize
    ensures forall team :: !ValidAssignment(roster, cfg, team)
  {
    forall team | ValidAssignment(roster, cfg, team)
      ensures false
    {
      if |team| > 0 {
        GendersDisjoint(team[0], roster, Female, Male);
      } else {
        NoTeamHoldsAnyone(team);
      }
    }
  }

  /** With no teams, student 0 is in none of them. */
  lemma NoTeamHoldsAnyone(team: seq<seq<bool>>)
    ensures |team| == 0 ==> Count(Column(team, 0)) == 0
  {
  }

  /** An empty roster has no teams, and the empty matrix meets every constraint whatever the
      floors are. */
  lemma EmptyRosterFeasible(cfg: Config)
    ensures ValidAssignment([], cfg, [])
  {
  }
}
