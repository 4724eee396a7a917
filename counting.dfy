/** The sums of indicators that every constraint of both scripts is built from:
    `Sum([If(team[i][j], 1, 0) ...])` along a row or a column of the assignment matrix,
    the same sum restricted to one gender, and the sum of member skills. */
module Counting {
  import opened Roster

  /** `Sum([If(b, 1, 0) for b in bs])`: the number of true entries. */
  function Count(bs: seq<bool>): (c: nat)
    ensures c <= |bs|
  {
    if bs == [] then 0 else Count(bs[..|bs| - 1]) + (if bs[|bs| - 1] then 1 else 0)
  }

  /** Entry `i` is the only true entry. */
  ghost predicate OnlyAt(bs: seq<bool>, i: int)
  {
    0 <= i < |bs| && bs[i] && forall k :: 0 <= k < |bs| && bs[k] ==> k == i
  }

  /** Exactly one entry is true. */
  ghost predicate ExactlyOne(bs: seq<bool>)
  {
    exists i :: OnlyAt(bs, i)
  }

  lemma {:induction false} CountZero(bs: seq<bool>)
    ensures Count(bs) == 0 <==> forall k :: 0 <= k < |bs| ==> !bs[k]
  {
    if bs != [] {
      var p := bs[..|bs| - 1];
      CountZero(p);
      assert forall k :: 0 <= k < |p| ==> p[k] == bs[k];
    }
  }

  /** Appending a false entry changes neither the count nor which entry is the only true one. */
  lemma OnlyAtSnocFalse(p: seq<bool>, i: int)
    ensures OnlyAt(p + [false], i) <==> OnlyAt(p, i)
  {
    var bs := p + [false];
    assert forall k :: 0 <= k < |p| ==> bs[k] == p[k];
  }

  /** Appending a true entry makes it the only true one exactly when none was true before. */
  lemma OnlyAtSnocTrue(p: seq<bool>)
    ensures OnlyAt(p + [true], |p|) <==> forall k :: 0 <= k < |p| ==> !p[k]
    ensures forall i :: 0 <= i < |p| ==> !OnlyAt(p + [true], i)
  {
    var bs := p + [true];
    assert forall k :: 0 <= k < |p| ==> bs[k] == p[k];
  }

  /** A sum of indicators equals 1 exactly when exactly one indicator is set: the
      "== 1" constraints mean "in exactly one team". */
  lemma {:induction false} CountOne(bs: seq<bool>)
    ensures Count(bs) == 1 <==> ExactlyOne(bs)
  {
    if bs == [] {
      return;
    }
    var m := |bs| - 1;
    var p := bs[..m];
    assert bs == p + [bs[m]];
    if bs[m] {
      CountZero(p);
      OnlyAtSnocTrue(p);
      if ExactlyOne(bs) {
        var i :| OnlyAt(bs, i);
        assert i == m;
      }
      if Count(bs) == 1 {
        assert OnlyAt(bs, m);
      }
    } else {
      CountOne(p);
      forall i
        ensures OnlyAt(bs, i) <==> OnlyAt(p, i)
      {
        OnlyAtSnocFalse(p, i);
      }
    }
  }

  /** Column `j` of the matrix: for each team, whether student `j` is in it. */
  function Column(team: seq<seq<bool>>, j: nat): (col: seq<bool>)
    requires forall i :: 0 <= i < |team| ==> j < |team[i]|
    ensures |col| == |team|
    ensures forall i :: 0 <= i < |team| ==> col[i] == team[i][j]
  {
    seq(|team|, i requires 0 <= i < |team| => team[i][j])
  }

  /** `Sum([If(And(row[j], students[j]["gender"] == g), 1, 0) for j ...])`. */
  function CountGender(row: seq<bool>, roster: seq<Student>, g: string): (c: nat)
    requires |row| == |roster|
    ensures c <= Count(row)
  {
    if row == [] then 0
    else
      var m := |row| - 1;
      CountGender(row[..m], roster[..m], g) + (if row[m] && roster[m].gender == g then 1 else 0)
  }

  /** Members of two different genders are counted in disjoint sums, so together they are
      at most the team's size. */
  lemma {:induction false} GendersDisjoint(row: seq<bool>, roster: seq<Student>, g1: string, g2: string)
    requires |row| == |roster|
    requires g1 != g2
    ensures CountGender(row, roster, g1) + CountGender(row, roster, g2) <= Count(row)
  {
    if row != [] {
      var m := |row| - 1;
      GendersDisjoint(row[..m], roster[..m], g1, g2);
    }
  }

  /** The indicator of each entry of `And(row[j], students[j]["gender"] == g)`. */
  function GenderMask(row: seq<bool>, roster: seq<Student>, g: string): (mask: seq<bool>)
    requires |row| == |roster|
    ensures |mask| == |row|
    ensures forall k :: 0 <= k < |row| ==> mask[k] == (row[k] && roster[k].gender == g)
  {
    seq(|row|, k requires 0 <= k < |row| => row[k] && roster[k].gender == g)
  }

  /** The gender count is the number of team members whose gender code is `g`. */
  lemma {:induction false} CountGenderIsCount(row: seq<bool>, roster: seq<Student>, g: string)
    requires |row| == |roster|
    ensures CountGender(row, roster, g) == Count(GenderMask(row, roster, g))
  {
    if row != [] {
      var m := |row| - 1;
      CountGenderIsCount(row[..m], roster[..m], g);
      var mask := GenderMask(row, roster, g);
      assert mask[..m] == GenderMask(row[..m], roster[..m], g);
    }
  }

  /** Setting or clearing one entry changes the count by that entry alone. */
  lemma {:induction false} CountUpdate(row: seq<bool>, j: nat, b: bool)
    requires j < |row|
    ensures Count(row[j := b]) == Count(row) - (if row[j] then 1 else 0) + (if b then 1 else 0)
  {
    var m := |row| - 1;
    if j == m {
      assert row[j := b][..m] == row[..m];
    } else {
      assert row[j := b][..m] == row[..m][j := b];
      CountUpdate(row[..m], j, b);
    }
  }

  /** Putting a student whose gender code is not `g` into the team, or taking them out,
      leaves the count for `g` unchanged. */
  lemma {:induction false} CountGenderUpdateOther(row: seq<bool>, roster: seq<Student>, g: string, j: nat, b: bool)
    requires |row| == |roster| && j < |row|
    requires roster[j].gender != g
    ensures CountGender(row[j := b], roster, g) == CountGender(row, roster, g)
  {
    var m := |row| - 1;
    if j == m {
      assert row[j := b][..m] == row[..m];
    } else {
      assert row[j := b][..m] == row[..m][j := b];
      CountGenderUpdateOther(row[..m], roster[..m], g, j, b);
    }
  }

  /** A student whose gender code is neither "F" nor "M" counts toward the team's size but
      toward neither floor. */
  lemma OtherGenderCapacityOnly(row: seq<bool>, roster: seq<Student>, j: nat, b: bool)
    requires |row| == |roster| && j < |row|
    requires roster[j].gender != Female && roster[j].gender != Male
    ensures Count(row[j := b]) == Count(row) - (if row[j] then 1 else 0) + (if b then 1 else 0)
    ensures CountGender(row[j := b], roster, Female) == CountGender(row, roster, Female)
    ensures CountGender(row[j := b], roster, Male) == CountGender(row, roster, Male)
  {
    CountUpdate(row, j, b);
    CountGenderUpdateOther(row, roster, Female, j, b);
    CountGenderUpdateOther(row, roster, Male, j, b);
  }

  /** `Sum([If(row[j], students[j]["skills"]["coding"], 0) for j ...])`. */
  function SkillSum(row: seq<bool>, roster: seq<Student>): int
    requires |row| == |roster|
  {
    if row == [] then 0
    else
      var m := |row| - 1;
      SkillSum(row[..m], roster[..m]) + (if row[m] then roster[m].coding else 0)
  }

  /** The skill sum of a team lies between its size times a lower bound and its size times
      an upper bound on its members' skills. */
  lemma {:induction false} SkillSumOfMembers(row: seq<bool>, roster: seq<Student>, lo: int, hi: int)
    requires |row| == |roster|
    requires forall j :: 0 <= j < |row| && row[j] ==> lo <= roster[j].coding <= hi
    ensures Count(row) * lo <= SkillSum(row, roster) <= Count(row) * hi
  {
    if row != [] {
      var m := |row| - 1;
      SkillSumOfMembers(row[..m], roster[..m], lo, hi);
      var c := Count(row[..m]);
      if row[m] {
        assert (c + 1) * lo == c * lo + lo;
        assert (c + 1) * hi == c * hi + hi;
      }
    }
  }

  /** The total of all row sums: every (team, student) pair that is set. */
  function RowTotal(team: seq<seq<bool>>): nat
  {
    if team == [] then 0 else RowTotal(team[..|team| - 1]) + Count(team[|team| - 1])
  }

  /** The total of the first `k` column sums. */
  function ColumnTotal(team: seq<seq<bool>>, k: nat): nat
    requires forall i :: 0 <= i < |team| ==> k <= |team[i]|
  {
    if k == 0 then 0 else ColumnTotal(team, k - 1) + Count(Column(team, k - 1))
  }

  lemma {:induction false} ColumnTotalOfNoRows(team: seq<seq<bool>>, k: nat)
    requires team == []
    ensures ColumnTotal(team, k) == 0
  {
    if k > 0 {
      ColumnTotalOfNoRows(team, k - 1);
      assert Column(team, k - 1) == [];
    }
  }

  lemma {:induction false} ColumnTotalSnoc(team: seq<seq<bool>>, r: seq<bool>, k: nat)
    requires forall i :: 0 <= i < |team| ==> k <= |team[i]|
    requires k <= |r|
    ensures forall i :: 0 <= i < |team + [r]| ==> k <= |(team + [r])[i]|
    ensures ColumnTotal(team + [r], k) == ColumnTotal(team, k) + Count(r[..k])
  {
    var t := team + [r];
    assert forall i :: 0 <= i < |team| ==> t[i] == team[i];
    if k > 0 {
      ColumnTotalSnoc(team, r, k - 1);
      var col := Column(t, k - 1);
      assert col == Column(team, k - 1) + [r[k - 1]];
      assert col[..|col| - 1] == Column(team, k - 1);
      assert r[..k][..k - 1] == r[..k - 1];
    }
  }

  /** Double counting: summing the matrix by teams gives the same total as summing it
      by students. */
  lemma {:induction false} DoubleCount(team: seq<seq<bool>>, n: nat)
    requires forall i :: 0 <= i < |team| ==> |team[i]| == n
    ensures RowTotal(team) == ColumnTotal(team, n)
  {
    if team == [] {
      ColumnTotalOfNoRows(team, n);
    } else {
      var m := |team| - 1;
      var p := team[..m];
      DoubleCount(p, n);
      ColumnTotalSnoc(p, team[m], n);
      assert p + [team[m]] == team;
      assert team[m][..n] == team[m];
    }
  }

  lemma {:induction false} RowTotalUniform(team: seq<seq<bool>>, c: nat)
    requires forall i :: 0 <= i < |team| ==> Count(team[i]) == c
    ensures RowTotal(team) == |team| * c
  {
    if team != [] {
      var m := |team| - 1;
      RowTotalUniform(team[..m], c);
      assert |team| * c == m * c + c;
    }
  }

  lemma {:induction false} ColumnTotalOnes(team: seq<seq<bool>>, k: nat)
    requires forall i :: 0 <= i < |team| ==> k <= |team[i]|
    requires forall j :: 0 <= j < k ==> Count(Column(team, j)) == 1
    ensures ColumnTotal(team, k) == k
  {
    if k > 0 {
      ColumnTotalOnes(team, k - 1);
    }
  }
}
