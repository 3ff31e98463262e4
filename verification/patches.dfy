/** Partial updates: the object spread `{ ...record, ...updates }` that
    `updateTeam`, `updateAthlete` and `updateMatch` apply
    (contexts/TeamsContext.tsx). A patch names, per property, whether the
    caller supplied it. For a property that may be absent the supplied value
    is itself optional: `Some(None)` is an explicit `undefined`, which the
    spread copies and which therefore clears the property. Nothing stops a
    patch from replacing the id or a nested collection; the model keeps that. */
module Patches {
  import opened Wrappers
  import opened Types

  /** The value one property holds after the spread: the patch's when it
      supplies one, the record's otherwise. */
  function Apply<T>(prior: T, p: Option<T>): T
  {
    if p.Some? then p.value else prior
  }

  /** What the spread promises for one property: the value the patch
      supplies, or the record's own value when the patch leaves it out. */
  ghost predicate Spread<T>(before: T, p: Option<T>, after: T)
  {
    match p
    case Some(v) => after == v
    case None => after == before
  }

  /** The single patch equivalent to applying `p` and then `q`. */
  function Latest<T>(p: Option<T>, q: Option<T>): Option<T>
  {
    if q.Some? then q else p
  }

  lemma ApplyLatest<T>(prior: T, p: Option<T>, q: Option<T>)
    ensures Apply(Apply(prior, p), q) == Apply(prior, Latest(p, q))
  {
  }

  // ---------------------------------------------------------------- teams

  datatype TeamPatch = TeamPatch(
    id: Option<string>,
    name: Option<string>,
    athletes: Option<seq<Athlete>>,
    matches: Option<seq<Match>>)

  const NoTeamChange := TeamPatch(None, None, None, None)

  function MergeTeam(t: Team, p: TeamPatch): (r: Team)
    ensures Spread(t.id, p.id, r.id)
    ensures Spread(t.name, p.name, r.name)
    ensures Spread(t.athletes, p.athletes, r.athletes)
    ensures Spread(t.matches, p.matches, r.matches)
  {
    Team(Apply(t.id, p.id), Apply(t.name, p.name), Apply(t.athletes, p.athletes), Apply(t.matches, p.matches))
  }

  function ThenTeam(p: TeamPatch, q: TeamPatch): TeamPatch
  {
    TeamPatch(Latest(p.id, q.id), Latest(p.name, q.name), Latest(p.athletes, q.athletes), Latest(p.matches, q.matches))
  }

  /** Spreading an empty patch copies the team unchanged. */
  lemma MergeTeamNoChange(t: Team)
    ensures MergeTeam(t, NoTeamChange) == t
  {
  }

  /** Two successive spreads equal one spread of the combined patch. */
  lemma MergeTeamThen(t: Team, p: TeamPatch, q: TeamPatch)
    ensures MergeTeam(MergeTeam(t, p), q) == MergeTeam(t, ThenTeam(p, q))
  {
  }

  /** The patch that supplies every property of `u`. */
  function FullTeamPatch(u: Team): TeamPatch
  {
    TeamPatch(Some(u.id), Some(u.name), Some(u.athletes), Some(u.matches))
  }

  /** A patch supplying every property overwrites the whole team. */
  lemma MergeTeamFull(t: Team, u: Team)
    ensures MergeTeam(t, FullTeamPatch(u)) == u
  {
  }

  /** Repeating a spread changes nothing more. */
  lemma MergeTeamIdempotent(t: Team, p: TeamPatch)
    ensures MergeTeam(MergeTeam(t, p), p) == MergeTeam(t, p)
  {
  }

  // ------------------------------------------------------------- athletes

  datatype AthletePatch = AthletePatch(
    id: Option<string>,
    firstName: Option<string>,
    lastName: Option<string>,
    medicalCertExpiry: Option<Option<string>>,
    phone: Option<Option<string>>,
    shirtSize: Option<Option<string>>,
    shortsSize: Option<Option<string>>,
    role: Option<Option<string>>,
    selfCertExpiry: Option<Option<string>>,
    idCardNumber: Option<Option<string>>,
    idCardImage: Option<Option<string>>,
    fiscalCode: Option<Option<string>>,
    fiscalCodeImage: Option<Option<string>>,
    jerseyNumber: Option<Option<string>>,
    matricola: Option<Option<string>>,
    birthDate: Option<Option<string>>,
    isMember: Option<bool>,
    hasPaid: Option<bool>)

  const NoAthleteChange := AthletePatch(None, None, None, None, None, None, None, None, None,
                                        None, None, None, None, None, None, None, None, None)

  function MergeAthlete(a: Athlete, p: AthletePatch): (r: Athlete)
    ensures Spread(a.id, p.id, r.id)
    ensures Spread(a.firstName, p.firstName, r.firstName)
    ensures Spread(a.lastName, p.lastName, r.lastName)
    ensures Spread(a.medicalCertExpiry, p.medicalCertExpiry, r.medicalCertExpiry)
    ensures Spread(a.phone, p.phone, r.phone)
    ensures Spread(a.shirtSize, p.shirtSize, r.shirtSize)
    ensures Spread(a.shortsSize, p.shortsSize, r.shortsSize)
    ensures Spread(a.role, p.role, r.role)
    ensures Spread(a.selfCertExpiry, p.selfCertExpiry, r.selfCertExpiry)
    ensures Spread(a.idCardNumber, p.idCardNumber, r.idCardNumber)
    ensures Spread(a.idCardImage, p.idCardImage, r.idCardImage)
    ensures Spread(a.fiscalCode, p.fiscalCode, r.fiscalCode)
    ensures Spread(a.fiscalCodeImage, p.fiscalCodeImage, r.fiscalCodeImage)
    ensures Spread(a.jerseyNumber, p.jerseyNumber, r.jerseyNumber)
    ensures Spread(a.matricola, p.matricola, r.matricola)
    ensures Spread(a.birthDate, p.birthDate, r.birthDate)
    ensures Spread(a.isMember, p.isMember, r.isMember)
    ensures Spread(a.hasPaid, p.hasPaid, r.hasPaid)
  {
    Athlete(
      Apply(a.id, p.id),
      Apply(a.firstName, p.firstName),
      Apply(a.lastName, p.lastName),
      Apply(a.medicalCertExpiry, p.medicalCertExpiry),
      Apply(a.phone, p.phone),
      Apply(a.shirtSize, p.shirtSize),
      Apply(a.shortsSize, p.shortsSize),
      Apply(a.role, p.role),
      Apply(a.selfCertExpiry, p.selfCertExpiry),
      Apply(a.idCardNumber, p.idCardNumber),
      Apply(a.idCardImage, p.idCardImage),
      Apply(a.fiscalCode, p.fiscalCode),
      Apply(a.fiscalCodeImage, p.fiscalCodeImage),
      Apply(a.jerseyNumber, p.jerseyNumber),
      Apply(a.matricola, p.matricola),
      Apply(a.birthDate, p.birthDate),
      Apply(a.isMember, p.isMember),
      Apply(a.hasPaid, p.hasPaid))
  }

  function ThenAthlete(p: AthletePatch, q: AthletePatch): AthletePatch
  {
    AthletePatch(
      Latest(p.id, q.id),
      Latest(p.firstName, q.firstName),
      Latest(p.lastName, q.lastName),
      Latest(p.medicalCertExpiry, q.medicalCertExpiry),
      Latest(p.phone, q.phone),
      Latest(p.shirtSize, q.shirtSize),
      Latest(p.shortsSize, q.shortsSize),
      Latest(p.role, q.role),
      Latest(p.selfCertExpiry, q.selfCertExpiry),
      Latest(p.idCardNumber, q.idCardNumber),
      Latest(p.idCardImage, q.idCardImage),
      Latest(p.fiscalCode, q.fiscalCode),
      Latest(p.fiscalCodeImage, q.fiscalCodeImage),
      Latest(p.jerseyNumber, q.jerseyNumber),
      Latest(p.matricola, q.matricola),
      Latest(p.birthDate, q.birthDate),
      Latest(p.isMember, q.isMember),
      Latest(p.hasPaid, q.hasPaid))
  }

  lemma MergeAthleteNoChange(a: Athlete)
    ensures MergeAthlete(a, NoAthleteChange) == a
  {
  }

  lemma MergeAthleteThen(a: Athlete, p: AthletePatch, q: AthletePatch)
    ensures MergeAthlete(MergeAthlete(a, p), q) == MergeAthlete(a, ThenAthlete(p, q))
  {
  }

  function FullAthletePatch(u: Athlete): AthletePatch
  {
    AthletePatch(Some(u.id), Some(u.firstName), Some(u.lastName), Some(u.medicalCertExpiry), Some(u.phone), Some(u.shirtSize), Some(u.shortsSize), Some(u.role), Some(u.selfCertExpiry),
                 Some(u.idCardNumber), Some(u.idCardImage), Some(u.fiscalCode), Some(u.fiscalCodeImage), Some(u.jerseyNumber), Some(u.matricola), Some(u.birthDate), Some(u.isMember), Some(u.hasPaid))
  }

  lemma MergeAthleteFull(a: Athlete, u: Athlete)
    ensures MergeAthlete(a, FullAthletePatch(u)) == u
  {
  }

  lemma MergeAthleteIdempotent(a: Athlete, p: AthletePatch)
    ensures MergeAthlete(MergeAthlete(a, p), p) == MergeAthlete(a, p)
  {
  }

  // -------------------------------------------------------------- matches

  datatype MatchPatch = MatchPatch(
    id: Option<string>,
    teamId: Option<string>,
    date: Option<string>,
    time: Option<string>,
    homeTeam: Option<string>,
    awayTeam: Option<string>,
    location: Option<string>,
    locationAddress: Option<Option<string>>,
    championship: Option<Option<string>>,
    notes: Option<Option<string>>)

  const NoMatchChange := MatchPatch(None, None, None, None, None, None, None, None, None, None)

  function MergeMatch(m: Match, p: MatchPatch): (r: Match)
    ensures Spread(m.id, p.id, r.id)
    ensures Spread(m.teamId, p.teamId, r.teamId)
    ensures Spread(m.date, p.date, r.date)
    ensures Spread(m.time, p.time, r.time)
    ensures Spread(m.homeTeam, p.homeTeam, r.homeTeam)
    ensures Spread(m.awayTeam, p.awayTeam, r.awayTeam)
    ensures Spread(m.location, p.location, r.location)
    ensures Spread(m.locationAddress, p.locationAddress, r.locationAddress)
    ensures Spread(m.championship, p.championship, r.championship)
    ensures Spread(m.notes, p.notes, r.notes)
  {
    Match(
      Apply(m.id, p.id),
      Apply(m.teamId, p.teamId),
      Apply(m.date, p.date),
      Apply(m.time, p.time),
      Apply(m.homeTeam, p.homeTeam),
      Apply(m.awayTeam, p.awayTeam),
      Apply(m.location, p.location),
      Apply(m.locationAddress, p.locationAddress),
      Apply(m.championship, p.championship),
      Apply(m.notes, p.notes))
  }

  function ThenMatch(p: MatchPatch, q: MatchPatch): MatchPatch
  {
    MatchPatch(
      Latest(p.id, q.id),
      Latest(p.teamId, q.teamId),
      Latest(p.date, q.date),
      Latest(p.time, q.time),
      Latest(p.homeTeam, q.homeTeam),
      Latest(p.awayTeam, q.awayTeam),
      Latest(p.location, q.location),
      Latest(p.locationAddress, q.locationAddress),
      Latest(p.championship, q.championship),
      Latest(p.notes, q.notes))
  }

  lemma MergeMatchNoChange(m: Match)
    ensures MergeMatch(m, NoMatchChange) == m
  {
  }

  lemma MergeMatchThen(m: Match, p: MatchPatch, q: MatchPatch)
    ensures MergeMatch(MergeMatch(m, p), q) == MergeMatch(m, ThenMatch(p, q))
  {
  }

  function FullMatchPatch(u: Match): MatchPatch
  {
    MatchPatch(Some(u.id), Some(u.teamId), Some(u.date), Some(u.time), Some(u.homeTeam),
               Some(u.awayTeam), Some(u.location), Some(u.locationAddress), Some(u.championship), Some(u.notes))
  }

  lemma MergeMatchFull(m: Match, u: Match)
    ensures MergeMatch(m, FullMatchPatch(u)) == u
  {
  }

  lemma MergeMatchIdempotent(m: Match, p: MatchPatch)
    ensures MergeMatch(MergeMatch(m, p), p) == MergeMatch(m, p)
  {
  }
}
