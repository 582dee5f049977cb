/** The records the ranking service returns and the recruiter's search form
    (src/types/index.ts). A string field whose every use is a truthiness test
    (`city`, `gender`) holds `""` when absent; list fields the client guards
    with `|| []` or `Array.isArray` are optional. */
module Candidates {

  datatype Option<T> = None | Some(value: T)

  /** The per-candidate match report computed by the ranking service. */
  datatype Reasons = Reasons(
    requiredMatches: nat,
    preferredMatches: nat,
    jobDescriptionMatches: nat,
    experienceOK: bool,
    distanceKm: Option<real>)

  datatype Candidate = Candidate(
    cvId: string,
    userId: string,
    fullName: string,
    email: string,
    score: real,
    experienceYears: real,
    skills: Option<seq<string>>,
    education: Option<seq<string>>,
    city: string,
    gender: string,
    reasons: Option<Reasons>)

  /** `candidate.skills || []`. */
  function SkillsOf(c: Candidate): seq<string> {
    match c.skills
    case Some(s) => s
    case None => []
  }

  /** The search form as the export functions receive it. */
  datatype SearchParams = SearchParams(
    requiredSkills: string,
    preferredSkills: string,
    minExperience: real,
    gender: string,
    cities: string,
    maxDistanceKm: string,
    jobDescription: string)
}
