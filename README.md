# Team assigner: a Dafny model of its Z3 formulation

The repository splits a roster of students into teams of equal size with two Python scripts.
Both scripts state the same problem to the Z3 solver:

- `OMT.py` is the optimisation mode. It finds an assignment that minimises the largest gap
  between the average coding skills of adjacent teams, and prints the teams and that gap.
- `constraints.py` is the satisfaction mode. It accepts any assignment whose adjacent gaps are
  all within `max_skill_gap`, and prints its teams.

Both print "No solution!" whenever `check()` does not answer sat: on unsat, and also on
unknown, which Z3 answers when it gives up.

The model follows the scripts' own data. The unknowns are a boolean matrix `team[i][j]`
("student j is in team i") with `n_teams = n_students // team_size` rows and one column per
student, one integer average per team and, in OMT.py, the integer `max_gap`. The partition,
capacity and floor constraints are sums of indicators over the matrix. Each average is the
sum of its members' skills divided by `team_size`. The gap constraints bound the absolute
difference of adjacent averages. The Z3 search is a call
into a foreign solver, so it is not re-implemented. What Z3 promises is stated as predicates
over the model it returns, at two levels:

- the Z3 problem exactly as each script writes it: matrix, average variables, `max_gap`
  (`Optimize.OmtConstraints`, `Satisfy.SatConstraints`);
- an independent reference: valid assignments, their team averages, their largest adjacent gap
  (`Formulation.ValidAssignment`, `Formulation.Averages`, `Gaps.MaxAdjacentGap`).

Lemmas prove that the two levels agree.

The modules, leaves first:

- `Roster` (roster.dfy): students, the configuration integers, `n_teams`.
- `Counting` (counting.dfy): the `Sum([If(...)])` terms along rows and columns, by gender and
  by skill, and the double-counting argument.
- `Formulation` (formulation.dfy): the hard constraints shared by both scripts, the team
  averages, and infeasibility.
- `Gaps` (gaps.dfy): adjacent gaps, their maximum, the threshold test.
- `Extraction` (extraction.dfy): the dictionary of name lists both scripts print, and the proof
  that it is a partition.
- `Optimize` (optimize.dfy): OMT.py's encoding, what `minimize` promises, optimality, and the
  report.
- `Satisfy` (satisfy.dfy): constraints.py's encoding, acceptance, monotonicity, agreement with
  the optimisation mode, and the report.
- `Example` (example.dfy): the four-student scenario A(F,80), B(M,60), C(F,90), D(M,70), two
  infeasible configurations, and a three-team roster that shows the adjacent-pair limitation.

Where the problem invites a different reading from what the code does, the model follows
the code:

- **Average division.** A reader might expect the average to round toward zero. The code
  divides with Z3's integer `/`, which rounds down for the positive `team_size`. The two differ
  only when a team's skill sum is negative, for example -3 / 2 is -2 in Z3, not -1.
  `Formulation.Average` models Z3's rounding.
- **Configuration errors.** A reader might expect up-front errors for a roster size that
  `team_size` does not divide, or for floors larger than the team. The code raises neither.
  It leaves both to the solver. The model proves both configurations infeasible instead
  (`Formulation.InfeasibleUnlessDivides`, `Formulation.InfeasibleFloors`).
- **Extraction errors.** A reader might expect the extraction to reject a model in which a
  student is in zero teams or in several. The code does no such check. `Extraction.ExtractedPartition`
  proves the case cannot arise from a model that meets the constraints.
- **Gender floors.** A reader might expect a floor for any gender code. The code has exactly two
  floors, for "F" and "M". Students with any other gender code count toward capacity only.

## Model

| member | source | states |
|---|---|---|
| `Roster.NTeams` | OMT.py:11 | `n_teams` is the largest number of whole teams the roster fills: `n_teams * team_size <= n < (n_teams + 1) * team_size` |
| `Counting.Count` | OMT.py:22 | a sum of 0/1 indicators never exceeds the number of entries |
| `Counting.CountOne` | OMT.py:21-22 | a column sum equals 1 exactly when exactly one team holds the student, in both directions |
| `Counting.CountGender` | OMT.py:30-31 | the members of one gender are at most all the members |
| `Counting.CountGenderIsCount` | OMT.py:30-31 | the gender count is the number of entries `j` with `team[i][j]` set and gender code `g` |
| `Counting.CountUpdate` | OMT.py:26 | putting one student into a team or taking them out changes its count by one, and nothing else changes it |
| `Counting.CountGenderUpdateOther` | OMT.py:30-31 | putting a student whose gender code is not `g` into a team, or taking them out, leaves the count for `g` unchanged |
| `Counting.OtherGenderCapacityOnly` | OMT.py:29-33 | a student whose gender code is neither "F" nor "M" counts toward the team's size and toward neither floor |
| `Counting.SkillSum` | OMT.py:38 | the `Sum(If(team[i][j], coding, 0))` term; its meaning is stated by `Counting.SkillSumOfMembers` and `Extraction.SkillSumOfListed` |
| `Counting.Column` | OMT.py:22 | entry `i` of column `j` is `team[i][j]`, one entry per team |
| `Counting.GendersDisjoint` | OMT.py:29-33 | the counts of two different gender codes in a team together are at most its size |
| `Counting.SkillSumOfMembers` | OMT.py:38 | a team's skill sum lies between its size times the lowest and its size times the highest member skill |
| `Counting.DoubleCount` | OMT.py:21-26 | summing the matrix by teams gives the same total as summing it by students |
| `Counting.RowTotalUniform` | OMT.py:25-26 | when every team has `team_size` members, the matrix holds `n_teams * team_size` entries |
| `Counting.ColumnTotalOnes` | OMT.py:21-22 | when every student is in exactly one team, the matrix holds one entry per student |
| `Formulation.Partitioned` | OMT.py:21-22 | every column sums to 1: each student is in exactly one team |
| `Formulation.AtCapacity` | OMT.py:25-26 | every row sums to `team_size` |
| `Formulation.GenderFloorsMet` | OMT.py:29-33 | every team has at least `min_female_per_team` "F" members and at least `min_male_per_team` "M" members |
| `Formulation.ValidAssignment` | constraints.py:13-26 | the matrix has `n_teams` rows of one entry per student and meets the three hard constraints above |
| `Formulation.Average` | OMT.py:36-38 | a team average is the skill sum divided by `team_size`, rounded down: `avg * team_size <= sum < (avg + 1) * team_size` |
| `Formulation.Averages` | constraints.py:28-30 | one average per team, in team index order, each that team's `Average` |
| `Formulation.AverageBetween` | OMT.py:36-38 | the average of a full team lies between its lowest and its highest member skill |
| `Formulation.ValidFillsTeams` | OMT.py:11-26 | any valid assignment has exactly `n_teams * team_size` students |
| `Formulation.InfeasibleUnlessDivides` | constraints.py:10-20 | when `team_size` does not divide the roster size, no assignment is valid |
| `Formulation.InfeasibleFloors` | OMT.py:29-33 | on a non-empty roster, when `min_female + min_male > team_size`, no assignment is valid |
| `Formulation.EmptyRosterFeasible` | constraints.py:10-26 | the empty roster has no teams and meets every constraint, whatever the floors |
| `Gaps.Abs` | OMT.py:43 | Z3's `Abs` is the input or its negation, and is never negative |
| `Gaps.AdjacentGap` | OMT.py:43 | the gap between teams `i` and `i + 1` is the absolute difference of their averages |
| `Gaps.WithinGap` | constraints.py:31-32 | every adjacent gap is at most `g`; with fewer than two teams this holds for every `g` |
| `Gaps.MaxAdjacentGap` | OMT.py:41-43 | the largest adjacent gap bounds every adjacent gap and is attained by one of them |
| `Gaps.WithinGapIffMax` | constraints.py:31-32 | all adjacent gaps are within `g` exactly when the largest one is |
| `Gaps.WithinGapMonotone` | constraints.py:31-32 | a threshold that is met is also met by every larger threshold |
| `Gaps.NegativeGapRejects` | constraints.py:31-32 | with two or more teams, a negative threshold is never met |
| `Gaps.SpreadBound` | OMT.py:42-43 | teams `k` places apart differ by at most `k` times the largest adjacent gap |
| `Gaps.NonAdjacentUnbounded` | OMT.py:42-43 | averages 0, 5 and 10 meet threshold 5, yet the first and last differ by 10 |
| `Extraction.Members` | OMT.py:49 | the listed indices are exactly the set entries of the row, strictly increasing, as many as the row's count |
| `Extraction.Names` | OMT.py:49 | the k-th printed name is the name of the k-th listed student |
| `Extraction.TeamIndices` | OMT.py:49 | one index list per team, each that team's `Members` |
| `Extraction.TeamNames` | constraints.py:36 | one name list per team, each the names of that team's members in roster order |
| `Extraction.ListedIff` | OMT.py:49 | student `j` is listed for team `i` exactly when `team[i][j]` is set |
| `Extraction.ListedOnce` | OMT.py:21-22 | in a valid assignment each student is listed for one team and for no other |
| `Extraction.ExtractedPartition` | OMT.py:49 | for a valid assignment the lists partition the roster: `n_teams` lists of `team_size` distinct indices, every student in exactly one |
| `Extraction.NameListedIff` | constraints.py:36 | a uniquely named student's name is printed for team `i` exactly when `team[i][j]` is set |
| `Extraction.ExtractedNamesPartition` | constraints.py:36 | with distinct names, every name is printed for exactly one team, and every list has `team_size` names |
| `Extraction.SkillSumOfListed` | OMT.py:38 | a team's skill sum is the sum of the skills of the students printed for it |
| `Optimize.OmtConstraints` | OMT.py:21-43 | the conjunction OMT.py hands to Z3: the hard constraints, the average definitions and the bounds on `max_gap` |
| `Optimize.AveragesDefined` | OMT.py:36-38 | one average variable per team, each equal to the team's skill sum divided by `team_size` |
| `Optimize.GapBounded` | OMT.py:42-43 | `max_gap >= Abs(avg_i - avg_{i+1})` for every adjacent pair |
| `Optimize.OmtOptimal` | OMT.py:44 | a model meets OMT.py's constraints and no model has a smaller `max_gap` |
| `Optimize.OptimizeAnswers` | OMT.py:47-48 | unsat means no model meets the constraints, unknown promises nothing, and a sat model meets them and is optimal when there are two or more teams |
| `Optimize.Optimal` | OMT.py:41-44 | reference optimality: a valid assignment whose largest adjacent gap no valid assignment undercuts |
| `Optimize.AveragesDefinedIff` | OMT.py:36-38 | the `avg_team_i` variables can take only the team averages |
| `Optimize.GapBoundedIff` | OMT.py:42-43 | `max_gap >= Abs(avg_i - avg_{i+1})` for all adjacent pairs is the threshold test at `max_gap` |
| `Optimize.GapOf` | OMT.py:41-44 | the objective of a valid assignment is the least value that bounds all of its adjacent gaps |
| `Optimize.EncodingExact` | OMT.py:21-43 | a (matrix, averages, `max_gap`) triple meets OMT.py's constraints exactly when the matrix is valid, the averages are its own, and `max_gap` is at least its largest adjacent gap |
| `Optimize.OptimalCharacterised` | OMT.py:41-48 | a model is optimal for OMT.py's problem exactly when its matrix is an optimal valid assignment and its `max_gap` is that assignment's largest adjacent gap |
| `Optimize.UnboundedWithoutPairs` | OMT.py:42-44 | with fewer than two teams nothing bounds `max_gap` from below, so no model is optimal |
| `Optimize.OptimumExists` | OMT.py:44-47 | with two or more teams, whenever some assignment is valid an optimal one exists |
| `Optimize.ValidHasModel` | OMT.py:21-43 | every valid assignment, with its own averages and its largest adjacent gap, is a model of OMT.py's constraints; with fewer than two teams any `max_gap` will do |
| `Optimize.AnswerExists` | OMT.py:47-48 | the solver's contract can always be met by a definite answer: unsat when nothing is valid, and otherwise a model, optimal when there are two or more teams |
| `Optimize.OptimalGapUnique` | OMT.py:44-51 | every optimal assignment has the same gap, so ties do not change the printed value |
| `Optimize.OptimizeReport` | OMT.py:47-53 | "No solution!" is printed exactly when the solver does not answer sat; on sat a gap is printed too |
| `Optimize.OptimizeReportCorrect` | OMT.py:47-53 | "No solution!" whenever no assignment is valid, and on a sat or unsat answer only then; otherwise the lists of a valid assignment, `n_teams` lists of `team_size` names, and with two or more teams that assignment is optimal and the printed gap is the optimum |
| `Satisfy.SatConstraints` | constraints.py:16-32 | the conjunction constraints.py hands to Z3: the hard constraints, the average definitions and every adjacent gap within `max_skill_gap` |
| `Satisfy.Accepted` | constraints.py:16-32 | reference acceptance: a valid assignment whose team averages are all within `max_skill_gap` of their neighbours |
| `Satisfy.SolveAnswers` | constraints.py:34-35 | unsat means no model meets the constraints, unknown promises nothing, and a sat model meets them |
| `Satisfy.SatEncodingExact` | constraints.py:16-32 | a (matrix, averages) pair meets constraints.py's constraints exactly when the matrix is valid with all adjacent gaps within `max_skill_gap`, and the averages are its own |
| `Satisfy.AcceptedMonotone` | constraints.py:31-32 | an assignment accepted at threshold `g` is accepted at every `g' >= g` |
| `Satisfy.NoPairsNoSkillConstraint` | constraints.py:31-32 | with fewer than two teams, exactly the valid assignments are accepted, whatever the threshold |
| `Satisfy.NegativeThresholdUnsat` | constraints.py:31-32 | with two or more teams, a negative `max_skill_gap` accepts nothing |
| `Satisfy.ModesAgree` | constraints.py:16-32 | given an optimal assignment with gap `best`, some assignment is accepted at `g` exactly when `best <= g` |
| `Satisfy.InfeasibleAtEveryThreshold` | constraints.py:16-26 | when no assignment is valid, none is accepted at any threshold |
| `Satisfy.SolverAnswersAgree` | constraints.py:34-35 | for two or more teams: a model from constraints.py at `g` means OMT.py's optimum is at most `g`, an optimum at most `g` means constraints.py is not unsat, and when neither answers unknown, constraints.py finds a model exactly when OMT.py's `max_gap` is at most `g` |
| `Satisfy.SolveReport` | constraints.py:34-39 | "No solution!" is printed exactly when the solver does not answer sat, and no gap is ever printed |
| `Satisfy.SolveReportCorrect` | constraints.py:34-39 | "No solution!" whenever no assignment is accepted, and on a sat or unsat answer only then; otherwise the lists of an accepted assignment, `n_teams` lists of `team_size` names |
| `Example.BalancedAverages` | OMT.py:21-38 | pairing (A, D) and (B, C) is valid and both averages are 75 |
| `Example.BalancedIsOptimal` | OMT.py:41-44 | that pairing is optimal with gap 0 |
| `Example.BalancedPrints` | OMT.py:49 | it prints the teams ["A", "D"] and ["B", "C"] |
| `Example.UnbalancedGapTen` | OMT.py:36-43 | pairing (A, B) and (C, D) is valid, its averages are 70 and 80, its gap is 10, and it is not optimal |
| `Example.FourReportsZero` | OMT.py:47-51 | the solver never answers unsat for this roster, and whatever optimal model it returns, the printed gap is 0 |
| `Example.FiveInTwosInfeasible` | constraints.py:10-20 | five students cannot be split into teams of two |
| `Example.FloorsAboveSizeInfeasible` | constraints.py:22-26 | teams of two cannot have two "F" and one "M" member |
| `Example.AscendingValid` | constraints.py:16-30 | three teams of one "F" and one "M" with skill sums 0, 10 and 20 are valid, with averages 0, 5 and 10 |
| `Example.OuterTeamsUnbounded` | constraints.py:31-32 | that assignment is accepted at threshold 5, although its first and last teams differ by 10 |

## Left out

- Reading `students.json` and the dictionary lookups into it are file I/O. The roster and the
  configuration integers are parameters. A missing key raises `KeyError` in Python where it is
  read, which is not modelled. A missing `team_size` always fails. The floor keys are read only
  inside the per-team loop and `max_skill_gap` only inside the loop over adjacent pairs, so
  with no teams, or fewer than two, their absence raises nothing.
- `team_size` of 0 or less is not modelled. The field has a positive-integer type. In Python a
  `team_size` of 0 raises `ZeroDivisionError` when `n_teams` is computed.
- The Z3 engine itself (`Optimize()`, `Solver()`, `add`, `minimize`, `check`, `model`,
  `evaluate`) is a foreign solver. Its results are modelled only by the contracts
  `Optimize.OptimizeAnswers` and `Satisfy.SolveAnswers`. The loops that call `add` step by
  step only fill the solver, so the model states the conjunction they build.
- Z3 variable names such as `team_{i}_student_{j}` are solver bookkeeping with no behaviour.
- Printing is not modelled: the `json.dumps` layout, the "Teams:" and "Max skill gap:" prefixes,
  and the text of the labels. Team `i` of a report is the entry labelled "Team i".
- OMT.py with fewer than two teams: the model proves that nothing bounds `max_gap` from below
  there (`Optimize.UnboundedWithoutPairs`). The solver contract then asks only that a sat model
  meets the constraints. The value Z3 reports for an unbounded objective is not modelled.
- Optimize.OptimizeReportCorrect: the optimality of the printed teams and gap is stated for
  two or more teams only, because with fewer the objective is unbounded and no optimal model
  exists. The claims about "No solution!" and the shape of the lists hold for any number of
  teams.
- Why Z3 answers unknown (resource limits, interruption) is not modelled; an unknown answer
  promises nothing about the constraints, and both scripts print "No solution!" for it.
- Extraction.ExtractedNamesPartition: requires distinct names, because a printed name does not
  identify a student when two students share it. The partition by roster index
  (`Extraction.ExtractedPartition`) holds without that requirement.
