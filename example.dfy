/** Worked scenarios: the four-student roster A(F,80), B(M,60), C(F,90), D(M,70) with teams of
    two and one "F" and one "M" per team, the two configurations that cannot be met, and a
    three-team roster on which the adjacent-pair bound leaves the outer teams far apart. */
module Example {
  import opened Roster
  import opened Counting
  import opened Formulation
  import opened Gaps
  import opened Extraction
  import opened Optimize
  import opened Satisfy

  function Ind(b: bool): nat { if b then 1 else 0 }

  function Of(b: bool, st: Student, g: string): nat { if b && st.gender == g then 1 else 0 }

  function Skill(b: bool, st: Student): int { if b then st.coding else 0 }

  /** One step of each sum: the prefix of length `k` adds entry `k - 1` to the prefix before it. */
  lemma SumsStep(row: seq<bool>, roster: seq<Student>, g: string, k: nat)
    requires |row| == |roster|
    requires 0 < k <= |row|
    ensures Count(row[..k]) == Count(row[..k - 1]) + Ind(row[k - 1])
    ensures CountGender(row[..k], roster[..k], g) == CountGender(row[..k - 1], roster[..k - 1], g) + Of(row[k - 1], roster[k - 1], g)
    ensures SkillSum(row[..k], roster[..k]) == SkillSum(row[..k - 1], roster[..k - 1]) + Skill(row[k - 1], roster[k - 1])
  {
    assert row[..k][..k - 1] == row[..k - 1];
    assert roster[..k][..k - 1] == roster[..k - 1];
  }

  /** The sums over a row of four, written out. */
  lemma SumsOfFour(row: seq<bool>, roster: seq<Student>, g: string)
    requires |row| == 4 && |roster| == 4
    ensures Count(row) == Ind(row[0]) + Ind(row[1]) + Ind(row[2]) + Ind(row[3])
    ensures CountGender(row, roster, g) ==
      Of(row[0], roster[0], g) + Of(row[1], roster[1], g) + Of(row[2], roster[2], g) + Of(row[3], roster[3], g)
    ensures SkillSum(row, roster) ==
      Skill(row[0], roster[0]) + Skill(row[1], roster[1]) + Skill(row[2], roster[2]) + Skill(row[3], roster[3])
  {
    SumsStep(row, roster, g, 1);
    SumsStep(row, roster, g, 2);
    SumsStep(row, roster, g, 3);
    SumsStep(row, roster, g, 4);
    assert row[..4] == row && roster[..4] == roster;
    assert row[..0] == [] && roster[..0] == [];
  }

  /** The sums over a row of six, written out. */
  lemma SumsOfSix(row: seq<bool>, roster: seq<Student>, g: string)
    requires |row| == 6 && |roster| == 6
    ensures Count(row) == Ind(row[0]) + Ind(row[1]) + Ind(row[2]) + Ind(row[3]) + Ind(row[4]) + Ind(row[5])
    ensures CountGender(row, roster, g) ==
      Of(row[0], roster[0], g) + Of(row[1], roster[1], g) + Of(row[2], roster[2], g) +
      Of(row[3], roster[3], g) + Of(row[4], roster[4], g) + Of(row[5], roster[5], g)
    ensures SkillSum(row, roster) ==
      Skill(row[0], roster[0]) + Skill(row[1], roster[1]) + Skill(row[2], roster[2]) +
      Skill(row[3], roster[3]) + Skill(row[4], roster[4]) + Skill(row[5], roster[5])
  {
    SumsOfFour(row[..4], roster[..4], g);
    SumsStep(row, roster, g, 5);
    SumsStep(row, roster, g, 6);
    assert row[..6] == row && roster[..6] == roster;
  }

  /** The count of a column of two or three entries, written out. */
  lemma CountOfFew(col: seq<bool>)
    requires 2 <= |col| <= 3
    ensures Count(col) == Ind(col[0]) + Ind(col[1]) + (if |col| == 3 then Ind(col[2]) else 0)
  {
    assert col[..|col| - 1][..1] == col[..1] && col[..1][..0] == [];
    if |col| == 3 {
      assert col[..2][..1] == col[..1];
    }
  }

  const Four: seq<Student> :=
    [Student("A", "F", 80), Student("B", "M", 60), Student("C", "F", 90), Student("D", "M", 70)]

  const Pairs: Config := Config(2, 1, 1)

  /** Teams (A, D) and (B, C). */
  const Balanced: seq<seq<bool>> := [[true, false, false, true], [false, true, true, false]]

  /** Teams (A, B) and (C, D). */
  const Unbalanced: seq<seq<bool>> := [[true, true, false, false], [false, false, true, true]]

  /** Any split of the four students into two teams of one "F" and one "M" each is valid. */
  lemma CheckFour(team: seq<seq<bool>>)
    requires |team| == 2 && |team[0]| == 4 && |team[1]| == 4
    requires forall j :: 0 <= j < 4 ==> team[0][j] != team[1][j]
    requires team[0][0] != team[0][2] && team[0][1] != team[0][3]
    ensures ValidAssignment(Four, Pairs, team)
    ensures SkillSum(team[0], Four) == Skill(team[0][0], Four[0]) + Skill(team[0][1], Four[1]) + Skill(team[0][2], Four[2]) + Skill(team[0][3], Four[3])
    ensures SkillSum(team[1], Four) == Skill(team[1][0], Four[0]) + Skill(team[1][1], Four[1]) + Skill(team[1][2], Four[2]) + Skill(team[1][3], Four[3])
  {
    forall j | 0 <= j < 4
      ensures Count(Column(team, j)) == 1
    {
      CountOfFew(Column(team, j));
    }
    forall i, g | 0 <= i < 2
      ensures Count(team[i]) == 2
      ensures CountGender(team[i], Four, g) ==
        Of(team[i][0], Four[0], g) + Of(team[i][1], Four[1], g) + Of(team[i][2], Four[2], g) + Of(team[i][3], Four[3], g)
    {
      SumsOfFour(team[i], Four, g);
    }
    SumsOfFour(team[0], Four, Female);
    SumsOfFour(team[1], Four, Female);
  }

  /** Pairing A with D and B with C meets every hard constraint and gives both teams an
      average of 75. */
  lemma BalancedAverages()
    ensures ValidAssignment(Four, Pairs, Balanced)
    ensures Averages(Four, Pairs, Balanced) == [75, 75]
  {
    CheckFour(Balanced);
    var avgs := Averages(Four, Pairs, Balanced);
    assert avgs[0] == 75 && avgs[1] == 75;
  }

  /** So that pairing is optimal with a gap of 0. */
  lemma BalancedIsOptimal()
    ensures Optimal(Four, Pairs, Balanced, 0)
  {
    BalancedAverages();
    assert WithinGap(Averages(Four, Pairs, Balanced), 0);
  }

  /** A row with exactly two members, at `a < b`, lists them as `[a, b]`. */
  lemma MembersOfTwo(row: seq<bool>, a: nat, b: nat)
    requires a < b < |row| && row[a] && row[b]
    requires Count(row) == 2
    ensures Members(row) == [a, b]
  {
    var js := Members(row);
    assert a in js && b in js;
  }

  /** It prints teams ["A", "D"] and ["B", "C"]. */
  lemma BalancedPrints()
    ensures TeamNames(Four, Balanced) == [["A", "D"], ["B", "C"]]
  {
    SumsOfFour(Balanced[0], Four, Female);
    SumsOfFour(Balanced[1], Four, Female);
    MembersOfTwo(Balanced[0], 0, 3);
    MembersOfTwo(Balanced[1], 1, 2);
    var lists := TeamNames(Four, Balanced);
    assert lists[0] == Names(Four, [0, 3]) == ["A", "D"];
    assert lists[1] == Names(Four, [1, 2]) == ["B", "C"];
  }

  /** Pairing A with B and C with D is valid too, but its averages 70 and 80 are 10 apart. */
  lemma UnbalancedGapTen()
    ensures ValidAssignment(Four, Pairs, Unbalanced)
    ensures Averages(Four, Pairs, Unbalanced) == [70, 80]
    ensures GapOf(Four, Pairs, Unbalanced) == 10
    ensures !Optimal(Four, Pairs, Unbalanced, 10)
  {
    CheckFour(Unbalanced);
    var avgs := Averages(Four, Pairs, Unbalanced);
    assert avgs == [70, 80];
    assert AdjacentGap(avgs, 0) == 10;
    assert !WithinGap(avgs, 9);
    BalancedIsOptimal();
    BalancedAverages();
  }

  /** This roster is feasible, so Z3 never answers unsat; and whatever optimal model it
      returns, OMT.py prints a gap of 0. */
  lemma FourReportsZero(res: Answer<OmtModel>)
    requires OptimizeAnswers(Four, Pairs, res)
    ensures !res.Unsat?
    ensures res.Sat? ==> OptimizeReport(Four, res).maxGap == Some(0)
  {
    BalancedIsOptimal();
    OptimizeReportCorrect(Four, Pairs, res);
    if res.Sat? {
      var t :| Optimal(Four, Pairs, t, res.model.maxGap);
      OptimalGapUnique(Four, Pairs, t, res.model.maxGap, Balanced, 0);
    }
  }

  /** Five students cannot be split into teams of two. */
  lemma FiveInTwosInfeasible(five: seq<Student>)
    requires |five| == 5
    ensures forall t :: !ValidAssignment(five, Config(2, 0, 0), t)
  {
    InfeasibleUnlessDivides(five, Config(2, 0, 0));
  }

  /** Teams of two cannot hold two "F" members and one "M" member. */
  lemma FloorsAboveSizeInfeasible()
    ensures forall t :: !ValidAssignment(Four, Config(2, 2, 1), t)
  {
    InfeasibleFloors(Four, Config(2, 2, 1));
  }

  const Six: seq<Student> :=
    [Student("P", "F", 0), Student("Q", "M", 0), Student("R", "F", 5),
     Student("S", "M", 5), Student("T", "F", 10), Student("U", "M", 10)]

  const Ascending: seq<seq<bool>> :=
    [[true, true, false, false, false, false],
     [false, false, true, true, false, false],
     [false, false, false, false, true, true]]

  /** Row `k` of `Ascending` holds students `2k` and `2k + 1`, one "F" and one "M". */
  lemma AscendingRow(k: nat)
    requires k < 3
    ensures Count(Ascending[k]) == 2
    ensures CountGender(Ascending[k], Six, Female) == 1
    ensures CountGender(Ascending[k], Six, Male) == 1
    ensures SkillSum(Ascending[k], Six) == 10 * k
  {
    var row := Ascending[k];
    assert forall j :: 0 <= j < 6 ==> row[j] == (j == 2 * k || j == 2 * k + 1);
    SumsOfSix(row, Six, Female);
    SumsOfSix(row, Six, Male);
  }

  /** Three teams of one "F" and one "M" each, with skill sums 0, 10 and 20. */
  lemma AscendingValid()
    ensures ValidAssignment(Six, Pairs, Ascending)
    ensures Averages(Six, Pairs, Ascending) == [0, 5, 10]
  {
    forall j | 0 <= j < 6
      ensures Count(Column(Ascending, j)) == 1
    {
      CountOfFew(Column(Ascending, j));
    }
    AscendingRow(0);
    AscendingRow(1);
    AscendingRow(2);
    var avgs := Averages(Six, Pairs, Ascending);
    assert avgs[0] == 0 && avgs[1] == 5 && avgs[2] == 10;
  }

  /** Threshold 5 accepts teams with averages 0, 5 and 10: only adjacent teams are compared,
      so the first and the last team are 10 apart. */
  lemma OuterTeamsUnbounded()
    ensures Accepted(Six, Pairs, 5, Ascending)
    ensures Abs(Averages(Six, Pairs, Ascending)[0] - Averages(Six, Pairs, Ascending)[2]) == 10
  {
    AscendingValid();
    var avgs := Averages(Six, Pairs, Ascending);
    assert AdjacentGap(avgs, 0) == 5 && AdjacentGap(avgs, 1) == 5;
  }
}
