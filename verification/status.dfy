/** The status engine of contexts/TeamsContext.tsx: `getAthleteStatus`
    classifies one athlete, `getTeamBadges` tallies a team. The clock reading
    `new Date()` becomes the parameter `now` (milliseconds), and the date
    parser `new Date(text)` becomes the parameter `parse`. */
module StatusEngine {
  import opened Wrappers
  import opened Types

  /** 30 * 24 * 60 * 60 * 1000 milliseconds: the warning horizon. */
  const ThirtyDaysMs: int := 2592000000

  /** JavaScript's `!field` on an optional string: absent or empty. */
  predicate Blank(f: Option<string>)
  {
    f.None? || f.value == ""
  }

  /** One of first name, last name, medical-certificate expiry, phone or
      birth date has not been filled in. */
  predicate HasMissingData(a: Athlete)
  {
    a.firstName == "" || a.lastName == "" || Blank(a.medicalCertExpiry) || Blank(a.phone) || Blank(a.birthDate)
  }

  /** The date is filled in, parses, and lies before `now`. */
  predicate Expired(f: Option<string>, now: int, parse: string -> Instant)
  {
    !Blank(f) && parse(f.value).At? && parse(f.value).ms < now
  }

  /** The date is filled in, parses, and lies in `[now, now + 30 days)`. */
  predicate ExpiresSoon(f: Option<string>, now: int, parse: string -> Instant)
  {
    !Blank(f) && parse(f.value).At? && now <= parse(f.value).ms < now + ThirtyDaysMs
  }

  /** `date < bound` between two `Date` values: a comparison with NaN is
      false. */
  predicate Before(d: Instant, bound: int)
  {
    d.At? && d.ms < bound
  }

  /** The inner `checkDate`: one date field rated on its own. A blank field
      rates `Ok`, and so does text that does not parse, since both
      comparisons with NaN are false. */
  function CheckDate(f: Option<string>, now: int, parse: string -> Instant): (r: Status)
    ensures r != Miss
    ensures r == Alt <==> Expired(f, now, parse)
    ensures r == Warn <==> ExpiresSoon(f, now, parse)
  {
    if Blank(f) then Ok
    else
      var date := parse(f.value);
      if Before(date, now) then Alt
      else if Before(date, now + ThirtyDaysMs) then Warn
      else Ok
  }

  /** `getAthleteStatus`: missing data wins over everything, then an expired
      certificate, then one expiring within thirty days. */
  function AthleteStatus(a: Athlete, now: int, parse: string -> Instant): (r: Status)
    ensures r == Miss <==> HasMissingData(a)
    ensures r == Alt <==> !HasMissingData(a) &&
                          (Expired(a.medicalCertExpiry, now, parse) || Expired(a.selfCertExpiry, now, parse))
    ensures r == Warn <==> !HasMissingData(a) &&
                           !Expired(a.medicalCertExpiry, now, parse) && !Expired(a.selfCertExpiry, now, parse) &&
                           (ExpiresSoon(a.medicalCertExpiry, now, parse) || ExpiresSoon(a.selfCertExpiry, now, parse))
  {
    if HasMissingData(a) then Miss
    else
      var medical := CheckDate(a.medicalCertExpiry, now, parse);
      var selfCert := CheckDate(a.selfCertExpiry, now, parse);
      if medical == Alt || selfCert == Alt then Alt
      else if medical == Warn || selfCert == Warn then Warn
      else Ok
  }

  /** How pressing a status is among the date-based ones. */
  function Severity(s: Status): nat
  {
    match s
    case Ok => 0
    case Warn => 1
    case Alt => 2
    case Miss => 3
  }

  // ------------------------------------------------------------- badges

  /** The body of the `forEach` in `getTeamBadges`: a missing-data athlete
      raises the warning count, not a bucket of its own. */
  function Tally(b: Badge, s: Status): (r: Badge)
    ensures r.warn + r.alt == b.warn + b.alt + (if s == Ok then 0 else 1)
  {
    var warn := b.warn + (if s == Warn then 1 else 0) + (if s == Miss then 1 else 0);
    var alt := b.alt + (if s == Alt then 1 else 0);
    Badge(warn, alt)
  }

  /** Number of elements of `s` that satisfy `p`. */
  function CountIf<T>(s: seq<T>, p: T -> bool): (n: nat)
    ensures n <= |s|
  {
    if |s| == 0 then 0
    else CountIf(s[..|s| - 1], p) + (if p(s[|s| - 1]) then 1 else 0)
  }

  /** The test "this athlete's status is `st`". */
  function HasStatus(now: int, parse: string -> Instant, st: Status): Athlete -> bool
  {
    a => AthleteStatus(a, now, parse) == st
  }

  /** Number of athletes in `s` whose status is `st`. */
  function StatusCount(s: seq<Athlete>, now: int, parse: string -> Instant, st: Status): (n: nat)
    ensures n <= |s|
  {
    CountIf(s, HasStatus(now, parse, st))
  }

  /** `getTeamBadges`: one pass over the athletes in order, with two
      counters. */
  method TeamBadges(team: Team, now: int, parse: string -> Instant) returns (b: Badge)
    ensures b.alt == StatusCount(team.athletes, now, parse, Alt)
    ensures b.warn == StatusCount(team.athletes, now, parse, Warn) + StatusCount(team.athletes, now, parse, Miss)
    ensures b.warn + b.alt == |team.athletes| - StatusCount(team.athletes, now, parse, Ok)
  {
    var s := team.athletes;
    b := Badge(0, 0);
    var i := 0;
    while i < |s|
      invariant 0 <= i <= |s|
      invariant b.alt == StatusCount(s[..i], now, parse, Alt)
      invariant b.warn == StatusCount(s[..i], now, parse, Warn) + StatusCount(s[..i], now, parse, Miss)
      invariant b.warn + b.alt == i - StatusCount(s[..i], now, parse, Ok)
    {
      assert s[..i + 1][..i] == s[..i];
      b := Tally(b, AthleteStatus(s[i], now, parse));
      i := i + 1;
    }
    assert s[..i] == s;
  }

  // ------------------------------------------------------------- lemmas

  /** A date due exactly now is a warning, not an alert. */
  lemma DueNowWarns(a: Athlete, now: int, parse: string -> Instant)
    requires !HasMissingData(a)
    requires parse(a.medicalCertExpiry.value) == At(now)
    requires Blank(a.selfCertExpiry)
    ensures AthleteStatus(a, now, parse) == Warn
  {
  }

  /** A date exactly thirty days ahead is no longer a warning. */
  lemma DueAtHorizonIsOk(a: Athlete, now: int, parse: string -> Instant)
    requires !HasMissingData(a)
    requires parse(a.medicalCertExpiry.value) == At(now + ThirtyDaysMs)
    requires Blank(a.selfCertExpiry)
    ensures AthleteStatus(a, now, parse) == Ok
  {
  }

  /** A medical date that does not parse rates as if it were far ahead. */
  lemma UnparseableDateIsOk(a: Athlete, now: int, parse: string -> Instant)
    requires !HasMissingData(a)
    requires parse(a.medicalCertExpiry.value) == Invalid
    requires Blank(a.selfCertExpiry)
    ensures AthleteStatus(a, now, parse) == Ok
  {
  }

  /** For a fixed athlete, the status only worsens as time passes. */
  lemma StatusWorsensOverTime(a: Athlete, now: int, later: int, parse: string -> Instant)
    requires now <= later
    ensures Severity(AthleteStatus(a, now, parse)) <= Severity(AthleteStatus(a, later, parse))
  {
  }

  /** An athlete falls in exactly one of the four classes. */
  lemma {:induction false} StatusCountsPartition(s: seq<Athlete>, now: int, parse: string -> Instant)
    ensures StatusCount(s, now, parse, Ok) + StatusCount(s, now, parse, Miss)
            + StatusCount(s, now, parse, Warn) + StatusCount(s, now, parse, Alt) == |s|
  {
    if |s| > 0 {
      StatusCountsPartition(s[..|s| - 1], now, parse);
    }
  }

  lemma {:induction false} CountIfAppend<T>(a: seq<T>, b: seq<T>, p: T -> bool)
    ensures CountIf(a + b, p) == CountIf(a, p) + CountIf(b, p)
    decreases |b|
  {
    if |b| == 0 {
      assert a + b == a;
    } else {
      assert (a + b)[..|a + b| - 1] == a + b[..|b| - 1];
      CountIfAppend(a, b[..|b| - 1], p);
    }
  }

  /** Taking the last element off one of two permutations of each other,
      and an equal element off the other, leaves permutations. */
  lemma RemoveMatching<T>(a: seq<T>, b: seq<T>, j: nat)
    requires multiset(a) == multiset(b)
    requires |a| > 0 && j < |b| && b[j] == a[|a| - 1]
    ensures multiset(a[..|a| - 1]) == multiset(b[..j] + b[j + 1..])
  {
    var x := b[j];
    assert a == a[..|a| - 1] + [x];
    assert b == b[..j] + [x] + b[j + 1..];
    assert multiset(b[..j] + b[j + 1..]) == multiset(b) - multiset{x};
  }

  /** Counting is blind to order. */
  lemma {:induction false} CountIfPermutation<T>(a: seq<T>, b: seq<T>, p: T -> bool)
    requires multiset(a) == multiset(b)
    ensures CountIf(a, p) == CountIf(b, p)
    decreases |a|
  {
    if |a| > 0 {
      var x := a[|a| - 1];
      assert x in multiset(b);
      var j :| 0 <= j < |b| && b[j] == x;
      RemoveMatching(a, b, j);
      CountIfPermutation(a[..|a| - 1], b[..j] + b[j + 1..], p);
      CountIfAppend(b[..j], [x] + b[j + 1..], p);
      CountIfAppend([x], b[j + 1..], p);
      CountIfAppend(b[..j], b[j + 1..], p);
      assert b[..j] + ([x] + b[j + 1..]) == b;
      assert [x][..0] == [];
    } else {
      assert |b| == |multiset(b)|;
    }
  }

  /** Any rearrangement of a team's athletes gives the same count for every
      status, hence the same badges. */
  lemma StatusCountPermutation(a: seq<Athlete>, b: seq<Athlete>, now: int, parse: string -> Instant)
    requires multiset(a) == multiset(b)
    ensures forall st :: StatusCount(a, now, parse, st) == StatusCount(b, now, parse, st)
  {
    forall st
      ensures StatusCount(a, now, parse, st) == StatusCount(b, now, parse, st)
    {
      CountIfPermutation(a, b, HasStatus(now, parse, st));
    }
  }
}
