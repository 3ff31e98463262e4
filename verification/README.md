# AMCTeams roster core, modelled in Dafny

AMCTeams keeps a local roster of sports teams. Each team owns its athletes and its
matches. The app derives a compliance status for each athlete and a pair of badge
counts for each team. This project models the pure logic of
`contexts/TeamsContext.tsx` over the records of `types/index.ts`. That logic has
two parts:

- **Status engine.** `getAthleteStatus` sorts an athlete into `ok`, `miss`,
  `warn` or `alt`. `getTeamBadges` tallies a team's athletes into `{warn, alt}`.
- **Roster store.** Nine mutators each build a new `Team[]` from the current
  one: add, update and delete for teams, athletes and matches. Alongside them
  are the lookups `getTeam` and `getAthlete`, and the derived `getAllMatches`
  list, ordered by date and time.

Files and modules:

| file | module | contents |
|---|---|---|
| `wrappers.dfy` | `Wrappers` | `Option`, which stands for `undefined` or a value |
| `types.dfy` | `Types` | `Status` (exactly four values), `Athlete` (id, names and two flags required; thirteen optional strings), `Match` (carries its `teamId`; three optional strings), `Team` (ordered athletes and matches), `Badge` (two `nat` counts), and `Instant` (a parsed date or NaN) |
| `patches.dfy` | `Patches` | the `Partial<…>` spread `{ ...record, ...updates }` as patch records, with their algebra |
| `keyed.dfy` | `Keyed` | `find` / `map` / `filter` by id, shared by teams, athletes and matches |
| `sorting.dfy` | `Sorting` | stable sort by an integer key, and uniqueness of the stable order |
| `status.dfy` | `StatusEngine` | `getAthleteStatus`, `getTeamBadges` |
| `roster.dfy` | `Roster` | the mutators, the lookups, `getAllMatches`, and the match-ownership invariant |

How the platform is modelled:

- **The clock.** `new Date()` is the parameter `now`, in milliseconds. The
  warning horizon is `now + 2592000000`, i.e. 30 days.
- **Date parsing.** The records keep their dates as strings, as the source does.
  `new Date(text)` is the parameter `parse: string -> Instant`, where
  `Invalid` stands for NaN. JavaScript's `!field` test is `Blank`: the field is
  absent or `""`.
- **Match order.** `getAllMatches` sorts by the timestamp of
  `` `${date} ${time}` ``. This is the parameter `parse: string -> int` applied
  to `date + " " + time`.
- **Fresh ids.** The source makes them with `Date.now().toString()`. Here every
  adding mutator takes the new id as a parameter.
- **Partial updates.** `Partial<T>` becomes a patch record with one `Option` per
  property. An optional property gets `Option<Option<string>>`, where
  `Some(None)` is an explicit `undefined`; the spread copies it, so it clears
  the property. A patch may replace an id or a nested collection, just as the
  spread allows.
- **`Omit<…>` inputs.** `addAthlete` and `addMatch` take a whole record. Its
  `id` (and for a match, its `teamId`) is overwritten, as the spread in the
  source does.

An unparseable date is settled by the code itself. `new Date("garbage")` is NaN,
and both comparisons at contexts/TeamsContext.tsx:44-45 are false for NaN. So
`checkDate` returns `ok` for such a date, as `StatusEngine.UnparseableDateIsOk`
records.

## Model

| member | source | states |
|---|---|---|
| `StatusEngine.CheckDate` | contexts/TeamsContext.tsx:41-47 | a blank date rates `ok`; otherwise the rating is `alt` exactly when the parsed date lies before now, `warn` exactly when it lies in [now, now+30 days), and never `miss` |
| `StatusEngine.AthleteStatus` | contexts/TeamsContext.tsx:23-56 | `miss` exactly when first name, last name, medical expiry, phone or birth date is blank, whatever the dates say; for a complete athlete, `alt` exactly when either certificate date has expired; `warn` exactly when neither has expired and either expires within 30 days; `ok` otherwise |
| `StatusEngine.DueNowWarns` | contexts/TeamsContext.tsx:44-45 | a medical date equal to now gives `warn`, not `alt` (strict `<`) |
| `StatusEngine.DueAtHorizonIsOk` | contexts/TeamsContext.tsx:25-46 | a medical date exactly 30 days ahead gives `ok` (strict `<`) |
| `StatusEngine.UnparseableDateIsOk` | contexts/TeamsContext.tsx:43-46 | a medical date that does not parse gives `ok`, because both comparisons with NaN are false |
| `StatusEngine.StatusWorsensOverTime` | contexts/TeamsContext.tsx:41-55 | for a fixed athlete, a later `now` never gives a less severe status (ok < warn < alt) |
| `StatusEngine.Tally` | contexts/TeamsContext.tsx:62-67 | one athlete adds one to `warn + alt` unless its status is `ok` |
| `StatusEngine.TeamBadges` | contexts/TeamsContext.tsx:58-70 | `alt` is the number of `alt` athletes; `warn` is the number of `warn` athletes plus the number of `miss` athletes; `warn + alt` is the team size minus the `ok` athletes |
| `StatusEngine.StatusCountsPartition` | contexts/TeamsContext.tsx:62-67 | the four status counts add up to the number of athletes, so `warn + alt` never exceeds it |
| `StatusEngine.StatusCountPermutation` | contexts/TeamsContext.tsx:58-70 | any rearrangement of the athletes gives the same count for every status, so the badges do not depend on athlete order |
| `Patches.MergeTeam` | contexts/TeamsContext.tsx:106 | each team property takes the value the patch supplies, or keeps the team's own value when the patch leaves it out |
| `Patches.MergeTeamNoChange` | contexts/TeamsContext.tsx:106 | spreading an empty team patch copies the team unchanged |
| `Patches.MergeTeamThen` | contexts/TeamsContext.tsx:106 | two successive team spreads equal one spread of the combined patch, where the later patch wins each property |
| `Patches.MergeTeamIdempotent` | contexts/TeamsContext.tsx:106 | applying the same team patch twice equals applying it once |
| `Patches.MergeTeamFull` | contexts/TeamsContext.tsx:106 | a patch supplying every property yields exactly the supplied team, whatever the old team was |
| `Patches.MergeAthlete` | contexts/TeamsContext.tsx:128 | each of the eighteen athlete properties takes the value the patch supplies, or keeps the athlete's own value |
| `Patches.MergeAthleteNoChange` | contexts/TeamsContext.tsx:128 | spreading an empty athlete patch copies the athlete unchanged |
| `Patches.MergeAthleteThen` | contexts/TeamsContext.tsx:128 | two successive athlete spreads equal one spread of the combined patch |
| `Patches.MergeAthleteIdempotent` | contexts/TeamsContext.tsx:128 | applying the same athlete patch twice equals applying it once |
| `Patches.MergeAthleteFull` | contexts/TeamsContext.tsx:128 | a patch supplying every property yields exactly the supplied athlete |
| `Patches.MergeMatch` | contexts/TeamsContext.tsx:157 | each of the ten match properties takes the value the patch supplies, or keeps the match's own value |
| `Patches.MergeMatchNoChange` | contexts/TeamsContext.tsx:157 | spreading an empty match patch copies the match unchanged |
| `Patches.MergeMatchThen` | contexts/TeamsContext.tsx:157 | two successive match spreads equal one spread of the combined patch |
| `Patches.MergeMatchIdempotent` | contexts/TeamsContext.tsx:157 | applying the same match patch twice equals applying it once |
| `Patches.MergeMatchFull` | contexts/TeamsContext.tsx:157 | a patch supplying every property yields exactly the supplied match |
| `Keyed.Find` | contexts/TeamsContext.tsx:170-174 | `find` by id: nothing exactly when no element has the id; otherwise an element with the id that no earlier element shares |
| `Keyed.UpdateWhere` | contexts/TeamsContext.tsx:106 | `map` by id: same length; elements with another id unchanged; elements with the id edited |
| `Keyed.RemoveWhere` | contexts/TeamsContext.tsx:110 | `filter` by id: the length drops by the number of elements with the id, and no survivor has the id |
| `Keyed.RemoveWhereKeepsOthers` | contexts/TeamsContext.tsx:110 | the filter adds nothing, and every element with another id survives it as often as it occurred |
| `Keyed.RemoveWhereAppend` | contexts/TeamsContext.tsx:110 | the filter distributes over concatenation, so survivors keep their relative order |
| `Sorting.Sort` | contexts/TeamsContext.tsx:178-182 | the output is nondecreasing by key and a permutation of the input; within each key class, input order is kept (stability) |
| `Sorting.StableSortedUnique` | contexts/TeamsContext.tsx:178-182 | two sequences that are both sorted and agree on every key class are equal, so a stable sort has only one possible result |
| `Roster.AddTeam` | contexts/TeamsContext.tsx:95-103 | the earlier teams stay as they were, and one team follows them with the fresh id, the given name, and no athletes or matches |
| `Roster.GetTeam` | contexts/TeamsContext.tsx:170 | the first team with the id, or nothing exactly when no team has it |
| `Roster.UpdateTeam` | contexts/TeamsContext.tsx:105-107 | only teams with the id change, each becoming its spread with the patch; the count and order of teams stay the same |
| `Roster.DeleteTeam` | contexts/TeamsContext.tsx:109-111 | removes exactly the teams with the id (the count drops by their number), keeps every other team as often as it occurred, and adds none |
| `Roster.AddAthlete` | contexts/TeamsContext.tsx:113-123 | every team with the id gains the athlete, under the fresh id, at the end of its roster, and nothing else of it changes; other teams are untouched |
| `Roster.UpdateAthlete` | contexts/TeamsContext.tsx:125-131 | inside teams with the id, only athletes with the athlete id change, each to its spread with the patch; the rest of those teams and all other teams are untouched |
| `Roster.DeleteAthlete` | contexts/TeamsContext.tsx:133-139 | inside teams with the id, the roster becomes exactly the id-filter of the old roster: it loses the athletes with the athlete id, gains nothing, and keeps the survivors in order (`Keyed.RemoveWhereAppend`); the rest of those teams and all other teams are untouched |
| `Roster.AddMatch` | contexts/TeamsContext.tsx:141-152 | every team with the id gets the caller's match appended to its fixtures, under the fresh id and stamped with that team id; nothing else of the team changes, and other teams are untouched |
| `Roster.UpdateMatch` | contexts/TeamsContext.tsx:154-160 | inside teams with the id, only matches with the match id change, each to its spread with the patch; everything else is untouched |
| `Roster.DeleteMatch` | contexts/TeamsContext.tsx:162-168 | inside teams with the id, the fixtures become exactly the id-filter of the old fixtures: they lose the matches with the match id (the count drops by their number) and keep the survivors in order; everything else is untouched |
| `Roster.GetAthlete` | contexts/TeamsContext.tsx:172-175 | nothing when no team has the id; otherwise, in the first team with the team id, the first athlete with the athlete id, or nothing exactly when that team has none |
| `Roster.Flatten` | contexts/TeamsContext.tsx:178 | a match is in the flattened list exactly when some team holds it |
| `Roster.AllMatches` | contexts/TeamsContext.tsx:177-183 | the result is a permutation of all teams' matches, nondecreasing by the date-time key, and keeps the `flatMap` order among matches with equal keys |
| `Roster.AllMatchesIsTheStableOrder` | contexts/TeamsContext.tsx:177-183 | any list that is sorted by date and time and stable relative to the flattened list is exactly `getAllMatches` |
| `Roster.AddTeamThenGetTeam` | contexts/TeamsContext.tsx:95-103 | after adding a team under an unused id, `getTeam` finds it under that id, with the given name and no athletes or matches; every other id finds what it found before |
| `Roster.DeleteTeamUndoesAddTeam` | contexts/TeamsContext.tsx:95-111 | deleting a team just added under an unused id restores the previous collection exactly |
| `Roster.UpdateTeamThenGetTeam` | contexts/TeamsContext.tsx:105-107 | when the patch leaves the id alone, `getTeam` afterwards returns the old team spread with the patch |
| `Roster.DeleteTeamThenGetTeam` | contexts/TeamsContext.tsx:109-111 | after `deleteTeam`, `getTeam` finds nothing for that id |
| `Roster.DeleteTeamKeepsOrder` | contexts/TeamsContext.tsx:109-111 | deleting from a concatenation of team lists equals deleting from each part, so survivors keep their order |
| `Roster.UnknownTeamIsNoOp` | contexts/TeamsContext.tsx:105-168 | when no team has the id, all eight team-scoped mutators return the collection unchanged |
| `Roster.AddAthleteThenGetAthlete` | contexts/TeamsContext.tsx:113-123 | when the athlete id is new to the first team with the team id, `getAthlete` afterwards returns the added athlete under that id |
| `Roster.UpdateAthleteThenGetAthlete` | contexts/TeamsContext.tsx:125-131 | when the patch leaves the id alone, `getAthlete` afterwards returns the old record spread with the patch |
| `Roster.UpdateAthleteRenameHides` | contexts/TeamsContext.tsx:125-131 | a patch that changes the athlete's id makes the old id find nothing |
| `Roster.DeleteAthleteThenGetAthlete` | contexts/TeamsContext.tsx:133-139 | after `deleteAthlete`, `getAthlete` finds nothing for that athlete id in that team |
| `Roster.AddMatchStampsTeam` | contexts/TeamsContext.tsx:141-152 | the added match is found in its team under the fresh id, carrying that team's id whatever `teamId` the caller supplied |
| `Roster.AddTeamKeepsOwnership` | contexts/TeamsContext.tsx:95-103 | adding a team keeps every match carrying its own team's id |
| `Roster.UpdateTeamKeepsOwnership` | contexts/TeamsContext.tsx:105-107 | a team patch that sets neither `id` nor `matches` keeps every match carrying its own team's id |
| `Roster.DeleteTeamKeepsOwnership` | contexts/TeamsContext.tsx:109-111 | deleting teams keeps every remaining match carrying its own team's id |
| `Roster.AthleteEditsKeepOwnership` | contexts/TeamsContext.tsx:113-139 | adding, updating and deleting athletes keep every match carrying its own team's id |
| `Roster.AddMatchKeepsOwnership` | contexts/TeamsContext.tsx:141-152 | adding a match keeps every match carrying its own team's id, because of the stamp |
| `Roster.UpdateMatchKeepsOwnership` | contexts/TeamsContext.tsx:154-160 | a match patch that does not set `teamId` keeps every match carrying its own team's id |
| `Roster.DeleteMatchKeepsOwnership` | contexts/TeamsContext.tsx:162-168 | deleting matches keeps every remaining match carrying its own team's id |
| `Roster.DeleteTeamDropsItsMatches` | contexts/TeamsContext.tsx:109-111 | when every match carries its own team's id, no match of the deleted team appears in `getAllMatches` afterwards |

## Left out

- `loadTeams` / `saveTeams` (contexts/TeamsContext.tsx:9-21) are left out. They do AsyncStorage I/O and JSON (de)serialisation through library calls.
- The React and react-query wiring (contexts/TeamsContext.tsx:72-93, 185-202) is left out: `useState`, `useEffect`, `useQuery`, `useMutation`, and the persistence write that is started but not awaited. The model treats the current collection as an explicit argument, and each mutator's result is the new collection.
- `Date.now()` id generation is left out, and so are the collisions it allows. Fresh ids are parameters, and the lemmas that need an unused id say so in their `requires`.
- JavaScript date parsing is left out. It is replaced by the `parse` parameters, so no date format is modelled.
- `Roster.AllMatches`: does not model sort keys that are NaN. A comparator that returns NaN is inconsistent, and the language leaves the resulting order implementation-defined. The model's key is always an integer.
- `Roster.AddAthlete`, `Roster.AddMatch`: take a whole record whose `id` (and `teamId`) is overwritten. Properties beyond the declared fields, which a JavaScript caller could smuggle through the spread, are not modelled.
- `Roster.UpdateTeamKeepsOwnership`, `Roster.UpdateMatchKeepsOwnership`: claim preservation only for patches that do not set the id, the fixtures or the match's `teamId`. The source accepts such patches, and they can break ownership.
- `StatusEngine.TeamBadges`: one clock reading `now` is used for the whole tally. The source calls `new Date()` afresh inside each `getAthleteStatus` call of the loop (contexts/TeamsContext.tsx:24, 62-63). So if a date boundary falls between two of those calls, the source's badges can depend on athlete order. `StatusEngine.StatusCountPermutation` holds for a single clock reading only.
- `Patches.MergeTeam`, `Patches.MergeAthlete`, `Patches.MergeMatch`: an explicit `undefined` for a required property (`{name: undefined}`, `{athletes: undefined}`, `{firstName: undefined}`) cannot be expressed. `Partial<…>` accepts it and the spread copies it. With `athletes` or `matches` undefined, the later `.map`, `.filter` or `.forEach` on that team would throw a TypeError, which is outside this model. The app's only `updateTeam` call passes `{name}` (app/(team)/[id].tsx:47).
- The screens under `app/` are left out. They are UI, and `app/+not-found.tsx` contains no logic.
