/** The records of the roster: athletes, matches, teams, and the derived
    status and badge values (types/index.ts). Every string is a `seq<char>`;
    dates stay the strings the records hold, and are interpreted only by the
    status engine and the match ordering. */
module Types {
  import opened Wrappers

  /** The four compliance classifications, and no others. */
  datatype Status = Ok | Miss | Warn | Alt

  /** What `new Date(text).getTime()` yields: a millisecond timestamp, or
      NaN for text that does not parse. */
  datatype Instant = At(ms: int) | Invalid

  /** An athlete: id, first and last name and the two flags are always
      present, every other property may be absent. */
  datatype Athlete = Athlete(
    id: string,
    firstName: string,
    lastName: string,
    medicalCertExpiry: Option<string>,
    phone: Option<string>,
    shirtSize: Option<string>,
    shortsSize: Option<string>,
    role: Option<string>,
    selfCertExpiry: Option<string>,
    idCardNumber: Option<string>,
    idCardImage: Option<string>,
    fiscalCode: Option<string>,
    fiscalCodeImage: Option<string>,
    jerseyNumber: Option<string>,
    matricola: Option<string>,
    birthDate: Option<string>,
    isMember: bool,
    hasPaid: bool)

  /** A fixture, always carrying the id of the team that owns it. */
  datatype Match = Match(
    id: string,
    teamId: string,
    date: string,
    time: string,
    homeTeam: string,
    awayTeam: string,
    location: string,
    locationAddress: Option<string>,
    championship: Option<string>,
    notes: Option<string>)

  /** A team owns its athletes and matches, each in insertion order. */
  datatype Team = Team(id: string, name: string, athletes: seq<Athlete>, matches: seq<Match>)

  /** The per-team pair of attention counts shown on the team list. */
  datatype Badge = Badge(warn: nat, alt: nat)
}
