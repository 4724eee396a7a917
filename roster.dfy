/** The input both scripts read: the roster of students and the configuration integers.
    Loading them from JSON is not part of this model; they arrive here as values. */
module Roster {

  datatype Option<T> = None | Some(value: T)

  type PositiveInt = n: int | n > 0 witness 1

  /** One entry of `students`: its name, its gender code and its `skills.coding` value. */
  datatype Student = Student(name: string, gender: string, coding: int)

  /** The `constraints` object. `max_skill_gap` is read only by the satisfaction mode,
      which takes it as a separate parameter. */
  datatype Config = Config(teamSize: PositiveInt, minFemale: int, minMale: int)

  /** The two gender codes that carry a floor. Any other code counts toward capacity only. */
  const Female: string := "F"
  const Male: string := "M"

  /** `n_teams = n_students // team_size`: the largest number of whole teams the roster fills. */
  function NTeams(roster: seq<Student>, cfg: Config): (k: nat)
    ensures k * cfg.teamSize <= |roster| < (k + 1) * cfg.teamSize
  {
    |roster| / cfg.teamSize
  }
}
