/** Reading an answer back: `{f"Team {i}": [students[j]["name"] for j in range(n_students)
    if model.evaluate(team[i][j])] for i in range(n_teams)}`, shared by both scripts.
    Team `i` of the result is the entry labelled "Team i". */
module Extraction {
  import opened Roster
  import opened Counting
  import opened Formulation

  /** What a script prints: "No solution!", or the team lists, followed in optimisation mode
      by the achieved `max_gap`. */
  datatype Report = NoSolution | Teams(lists: seq<seq<string>>, maxGap: Option<int>)

  /** What `check()` answers, with the model that `model()` then gives on `sat`. `unknown`
      comes back when Z3 gives up, for example on a resource limit or an interruption. */
  datatype Answer<M> = Sat(model: M) | Unsat | Unknown

  /** The indices `j` with `row[j]` set, in increasing order. */
  function Members(row: seq<bool>): (js: seq<nat>)
    ensures |js| == Count(row)
    ensures forall k :: 0 <= k < |js| ==> js[k] < |row| && row[js[k]]
    ensures forall j: nat :: j < |row| && row[j] ==> j in js
    ensures forall k, l :: 0 <= k < l < |js| ==> js[k] < js[l]
  {
    if row == [] then []
    else
      var m := |row| - 1;
      var p := Members(row[..m]);
      if row[m] then p + [m] else p
  }

  /** The names of the students at the given indices, in that order. */
  function Names(roster: seq<Student>, js: seq<nat>): (names: seq<string>)
    requires forall k :: 0 <= k < |js| ==> js[k] < |roster|
    ensures |names| == |js|
    ensures forall k :: 0 <= k < |js| ==> names[k] == roster[js[k]].name
  {
    seq(|js|, k requires 0 <= k < |js| => roster[js[k]].name)
  }

  /** The member indices of every team. */
  function TeamIndices(team: seq<seq<bool>>): (lists: seq<seq<nat>>)
    ensures |lists| == |team|
    ensures forall i :: 0 <= i < |team| ==> lists[i] == Members(team[i])
  {
    seq(|team|, i requires 0 <= i < |team| => Members(team[i]))
  }

  /** The dictionary both scripts print: for each team, its members' names by roster order. */
  function TeamNames(roster: seq<Student>, team: seq<seq<bool>>): (lists: seq<seq<string>>)
    requires forall i :: 0 <= i < |team| ==> |team[i]| == |roster|
    ensures |lists| == |team|
    ensures forall i :: 0 <= i < |team| ==> lists[i] == Names(roster, Members(team[i]))
  {
    seq(|team|, i requires 0 <= i < |team| => Names(roster, Members(team[i])))
  }

  /** `x` appears in at least one of the lists. */
  ghost predicate InSomeList<T>(lists: seq<seq<T>>, x: T)
  {
    exists i :: 0 <= i < |lists| && x in lists[i]
  }

  /** `lists` partitions the indices `0 .. n - 1` into lists of `size` distinct indices, each
      in increasing order. */
  ghost predicate IsPartition(lists: seq<seq<nat>>, n: nat, size: nat)
  {
    && (forall i :: 0 <= i < |lists| ==> |lists[i]| == size)
    && (forall i, k :: 0 <= i < |lists| && 0 <= k < |lists[i]| ==> lists[i][k] < n)
    && (forall i, k, l :: 0 <= i < |lists| && 0 <= k < l < |lists[i]| ==> lists[i][k] < lists[i][l])
    && (forall j: nat :: j < n ==> InSomeList(lists, j))
    && (forall j: nat, i, i' :: 0 <= i < |lists| && 0 <= i' < |lists| && j in lists[i] && j in lists[i'] ==> i == i')
  }

  /** Student `j` is listed for team `i` exactly when `team[i][j]` is set. */
  lemma ListedIff(team: seq<seq<bool>>, i: nat, j: nat)
    requires i < |team|
    ensures j in TeamIndices(team)[i] <==> j < |team[i]| && team[i][j]
  {
  }

  /** A valid assignment lists each student for exactly one team. */
  lemma ListedOnce(roster: seq<Student>, cfg: Config, team: seq<seq<bool>>, j: nat)
    requires ValidAssignment(roster, cfg, team)
    requires j < |roster|
    ensures InSomeList(TeamIndices(team), j)
    ensures forall i, i' ::
      (0 <= i < |team| && 0 <= i' < |team| && j in TeamIndices(team)[i] && j in TeamIndices(team)[i']) ==> i == i'
  {
    var col := Column(team, j);
    CountOne(col);
    var w :| OnlyAt(col, w);
    ListedIff(team, w, j);
    forall i | 0 <= i < |team| && j in TeamIndices(team)[i]
      ensures i == w
    {
      ListedIff(team, i, j);
      assert col[i];
    }
  }

  /** Extracting a valid assignment gives a true partition of the roster's indices:
      `n_teams` lists of exactly `team_size` distinct indices each, in increasing order, and
      every student index in exactly one list. */
  lemma ExtractedPartition(roster: seq<Student>, cfg: Config, team: seq<seq<bool>>)
    requires ValidAssignment(roster, cfg, team)
    ensures |TeamIndices(team)| == NTeams(roster, cfg)
    ensures IsPartition(TeamIndices(team), |roster|, cfg.teamSize)
  {
    var lists := TeamIndices(team);
    forall j: nat | j < |roster|
      ensures InSomeList(lists, j)
    {
      ListedOnce(roster, cfg, team, j);
    }
    forall j: nat, i, i' | 0 <= i < |lists| && 0 <= i' < |lists| && j in lists[i] && j in lists[i']
      ensures i == i'
    {
      ListedIff(team, i, j);
      ListedOnce(roster, cfg, team, j);
    }
  }

  /** Team `i` prints student `j`'s name exactly when `team[i][j]` is set, provided no other
      student has the same name. */
  lemma NameListedIff(roster: seq<Student>, team: seq<seq<bool>>, i: nat, j: nat)
    requires forall t :: 0 <= t < |team| ==> |team[t]| == |roster|
    requires i < |team| && j < |roster|
    requires forall k :: 0 <= k < |roster| && roster[k].name == roster[j].name ==> k == j
    ensures roster[j].name in TeamNames(roster, team)[i] <==> team[i][j]
  {
    var js := Members(team[i]);
    var names := TeamNames(roster, team)[i];
    if roster[j].name in names {
      var k :| 0 <= k < |names| && names[k] == roster[j].name;
      assert roster[js[k]].name == roster[j].name;
    }
    if team[i][j] {
      assert j in js;
      var k :| 0 <= k < |js| && js[k] == j;
      assert names[k] == roster[j].name;
    }
  }

  /** When the roster's names are distinct, every name is printed in the list of exactly one
      team, and every list has `team_size` names. */
  lemma ExtractedNamesPartition(roster: seq<Student>, cfg: Config, team: seq<seq<bool>>)
    requires ValidAssignment(roster, cfg, team)
    requires forall j, k :: 0 <= j < k < |roster| ==> roster[j].name != roster[k].name
    ensures |TeamNames(roster, team)| == NTeams(roster, cfg)
    ensures forall i :: 0 <= i < |team| ==> |TeamNames(roster, team)[i]| == cfg.teamSize
    ensures forall j :: 0 <= j < |roster| ==> InSomeList(TeamNames(roster, team), roster[j].name)
    ensures forall j, i, i' ::
      (0 <= j < |roster| && 0 <= i < |team| && 0 <= i' < |team| &&
       roster[j].name in TeamNames(roster, team)[i] && roster[j].name in TeamNames(roster, team)[i']) ==> i == i'
  {
    var lists := TeamNames(roster, team);
    forall j | 0 <= j < |roster|
      ensures InSomeList(lists, roster[j].name)
    {
      ListedOnce(roster, cfg, team, j);
      var i :| 0 <= i < |team| && j in TeamIndices(team)[i];
      ListedIff(team, i, j);
      NameListedIff(roster, team, i, j);
      assert roster[j].name in lists[i];
    }
    forall j, i, i' | 0 <= j < |roster| && 0 <= i < |team| && 0 <= i' < |team| &&
      roster[j].name in lists[i] && roster[j].name in lists[i']
      ensures i == i'
    {
      NameListedIff(roster, team, i, j);
      NameListedIff(roster, team, i', j);
      ListedIff(team, i, j);
      ListedIff(team, i', j);
      ListedOnce(roster, cfg, team, j);
    }
  }

  /** The skill sum of a team is the sum of the skills of the students the extraction lists
      for it. */
  lemma {:induction false} SkillSumOfListed(row: seq<bool>, roster: seq<Student>)
    requires |row| == |roster|
    ensures SkillSum(row, roster) == SumCoding(roster, Members(row))
  {
    if row != [] {
      var m := |row| - 1;
      SkillSumOfListed(row[..m], roster[..m]);
      SumCodingPrefix(roster, Members(row[..m]), m);
      if row[m] {
        SumCodingSnoc(roster, Members(row[..m]), m);
      }
    }
  }

  /** The sum of `skills.coding` over the listed students. */
  function SumCoding(roster: seq<Student>, js: seq<nat>): int
    requires forall k :: 0 <= k < |js| ==> js[k] < |roster|
  {
    if js == [] then 0 else SumCoding(roster, js[..|js| - 1]) + roster[js[|js| - 1]].coding
  }

  lemma {:induction false} SumCodingPrefix(roster: seq<Student>, js: seq<nat>, m: nat)
    requires m <= |roster|
    requires forall k :: 0 <= k < |js| ==> js[k] < m
    ensures SumCoding(roster[..m], js) == SumCoding(roster, js)
  {
    if js != [] {
      SumCodingPrefix(roster, js[..|js| - 1], m);
    }
  }

  lemma SumCodingSnoc(roster: seq<Student>, js: seq<nat>, m: nat)
    requires m < |roster|
    requires forall k :: 0 <= k < |js| ==> js[k] < |roster|
    ensures SumCoding(roster, js + [m]) == SumCoding(roster, js) + roster[m].coding
  {
    assert (js + [m])[..|js|] == js;
  }
}
