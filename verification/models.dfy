/** The server's data model (backend/app/models.py) with its field ranges as
    subset types, and the response shapes both halves exchange. */
module Models {
  import opened Base

  /** A skill level, as bounded by `Skill.level`, `RequiredSkill.required_level`
      and the 0..10 level slider. */
  type Level = x: int | 0 <= x <= 10

  /** `Profile.age`. */
  type Age = x: int | 14 <= x <= 100 witness 14

  /** `Profile.years_of_experience`. */
  type Years = x: int | 0 <= x <= 60

  /** `RequiredSkill.weight`, a fraction in [0, 1]. */
  type Weight = w: real | 0.0 <= w <= 1.0

  /** A user's skill: `{name, level}`. The client's skill store holds these
      records and sends them to the server unchanged. */
  datatype Skill = Skill(name: string, level: Level)

  datatype RequiredSkill = RequiredSkill(skill: string, requiredLevel: Level, weight: Weight)

  datatype Role = Role(
    title: string,
    requiredSkills: seq<RequiredSkill>,
    minYearsExperience: int,
    preferredEducation: seq<string>,
    aliases: seq<string>,
    industry: string,
    remoteFriendly: bool)

  /** The validated profile. It declares no `target_roles`, so a client's
      target roles never reach the scoring code. */
  datatype Profile = Profile(
    name: string,
    age: Age,
    yearsOfExperience: Years,
    interestAreas: seq<string>,
    education: string)

  /** One required skill scored against the user: the dictionaries placed in
      `matching_skills`. */
  datatype SkillFit = SkillFit(skill: string, userLevel: Level, requiredLevel: Level, weight: Weight)

  /** An entry of `missing_skills`: a fit plus the estimated learning time. */
  datatype Gap = Gap(fit: SkillFit, weeksToLearn: int)

  /** The dictionary `calculate_role_fit` returns for one role. */
  datatype RoleResult = RoleResult(
    title: string,
    fitPercentage: real,
    matching: seq<SkillFit>,
    missing: seq<Gap>,
    reason: string)

  datatype DonutEntry = DonutEntry(name: string, value: real, userLevel: Level, requiredLevel: Level)

  /** Three index-aligned arrays describing the radar chart. */
  datatype RadarData = RadarData(skills: seq<string>, userLevels: seq<int>, requiredLevels: seq<int>)

  /** A skill-taxonomy entry: a canonical name and its known variants. The
      taxonomy is a JSON object, so its entries have distinct canonicals and
      a fixed iteration order. */
  datatype TaxonomyEntry = TaxonomyEntry(canonical: string, variants: seq<string>)

  /** One entry of a skill-detection response's `skills` list. */
  datatype DetectedSkill = DetectedSkill(raw: string, canonical: string, confidence: real, inferredLevel: Level)

  /** The canonical names of detected skills, in order. */
  function CanonicalNames(ds: seq<DetectedSkill>): (r: seq<string>)
    ensures |r| == |ds| && forall i :: 0 <= i < |ds| ==> r[i] == ds[i].canonical
  {
    seq(|ds|, i requires 0 <= i < |ds| => ds[i].canonical)
  }

  /** Validation of a `Skill` body: the level must lie in 0..10. */
  function CheckSkill(name: string, level: int): (r: Option<Skill>)
    ensures r.Some? <==> 0 <= level <= 10
    ensures r.Some? ==> r.value.name == name && r.value.level == level
  {
    if 0 <= level <= 10 then Some(Skill(name, level)) else None
  }

  /** Validation of a `RequiredSkill`: level in 0..10 and weight in [0, 1]. */
  function CheckRequiredSkill(skill: string, requiredLevel: int, weight: real): (r: Option<RequiredSkill>)
    ensures r.Some? <==> 0 <= requiredLevel <= 10 && 0.0 <= weight <= 1.0
    ensures r.Some? ==> r.value == RequiredSkill(skill, requiredLevel, weight)
  {
    if 0 <= requiredLevel <= 10 && 0.0 <= weight <= 1.0 then Some(RequiredSkill(skill, requiredLevel, weight)) else None
  }

  /** Validation of a `Profile`: age in 14..100, experience in 0..60. */
  function CheckProfile(name: string, age: int, years: int, interestAreas: seq<string>, education: string): (r: Option<Profile>)
    ensures r.Some? <==> 14 <= age <= 100 && 0 <= years <= 60
    ensures r.Some? ==> r.value == Profile(name, age, years, interestAreas, education)
  {
    if 14 <= age <= 100 && 0 <= years <= 60 then Some(Profile(name, age, years, interestAreas, education)) else None
  }

  /** Every skill record passes validation of its own fields unchanged. */
  lemma SkillRoundTrip(s: Skill)
    ensures CheckSkill(s.name, s.level) == Some(s)
  {
  }

  /** Every required skill passes validation of its own fields unchanged. */
  lemma RequiredSkillRoundTrip(r: RequiredSkill)
    ensures CheckRequiredSkill(r.skill, r.requiredLevel, r.weight) == Some(r)
  {
  }

  /** Every profile passes validation of its own fields unchanged. */
  lemma ProfileRoundTrip(p: Profile)
    ensures CheckProfile(p.name, p.age, p.yearsOfExperience, p.interestAreas, p.education) == Some(p)
  {
  }

  /** A role read from the seed data; an absent optional key takes its
      default (`aliases` [], `industry` "", `remote_friendly` false). */
  function ReadRole(
    title: string, requiredSkills: seq<RequiredSkill>, minYearsExperience: int, preferredEducation: seq<string>,
    aliases: Option<seq<string>>, industry: Option<string>, remoteFriendly: Option<bool>): (r: Role)
    ensures aliases.None? ==> r.aliases == []
    ensures industry.None? ==> r.industry == ""
    ensures remoteFriendly.None? ==> !r.remoteFriendly
    ensures r.title == title && r.requiredSkills == requiredSkills && r.minYearsExperience == minYearsExperience
    ensures r.preferredEducation == preferredEducation
    ensures aliases.Some? ==> r.aliases == aliases.value
    ensures industry.Some? ==> r.industry == industry.value
    ensures remoteFriendly.Some? ==> r.remoteFriendly == remoteFriendly.value
  {
    Role(title, requiredSkills, minYearsExperience, preferredEducation,
         aliases.GetOr([]), industry.GetOr(""), remoteFriendly.GetOr(false))
  }
}
