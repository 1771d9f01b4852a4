/** The `Statistics` record of src/lib/model/statistics.ts: four counters of a language,
    split into the UN-member view and the all-countries view.

    A JavaScript number field can hold `undefined` (the positional constructor's
    trailing arguments are asserted non-null but may be omitted), and arithmetic on
    `undefined` yields NaN; `None` stands for either. */
module StatisticsModel {
  import opened Wrappers

  /** The world population that getWorldPercentage divides by. */
  const WorldPopulation: real := 8085627000.0

  datatype Statistics = Statistics(
    totalUNSpeakers: Option<real>,
    numberOfUNCountries: Option<int>,
    totalSpeakers: Option<real>,
    numberOfCountries: Option<int>)

  /** The keys supplied in a `Partial<Statistics>` object; `None` is an absent key. */
  datatype PartialStatistics = PartialStatistics(
    totalUNSpeakers: Option<real>,
    numberOfUNCountries: Option<int>,
    totalSpeakers: Option<real>,
    numberOfCountries: Option<int>)

  /** The field initialisers: every counter starts at 0. */
  function Zero(): Statistics {
    Statistics(Some(0.0), Some(0), Some(0.0), Some(0))
  }

  /** `new Statistics(data)`: `Object.assign` copies the supplied keys over the zeroed
      defaults. */
  function FromObject(p: PartialStatistics): (s: Statistics)
    ensures s.totalUNSpeakers == if p.totalUNSpeakers.Some? then p.totalUNSpeakers else Some(0.0)
    ensures s.numberOfUNCountries == if p.numberOfUNCountries.Some? then p.numberOfUNCountries else Some(0)
    ensures s.totalSpeakers == if p.totalSpeakers.Some? then p.totalSpeakers else Some(0.0)
    ensures s.numberOfCountries == if p.numberOfCountries.Some? then p.numberOfCountries else Some(0)
    ensures p == PartialStatistics(None, None, None, None) ==> s == Zero()
  {
    var z := Zero();
    Statistics(
      if p.totalUNSpeakers.Some? then p.totalUNSpeakers else z.totalUNSpeakers,
      if p.numberOfUNCountries.Some? then p.numberOfUNCountries else z.numberOfUNCountries,
      if p.totalSpeakers.Some? then p.totalSpeakers else z.totalSpeakers,
      if p.numberOfCountries.Some? then p.numberOfCountries else z.numberOfCountries)
  }

  /** `new Statistics(a, b, c, d)`: the fields in argument order; an omitted trailing
      argument (`None`) leaves its field undefined instead of 0. */
  function FromPositional(totalUNSpeakers: Option<real>, numberOfUNCountries: Option<int>,
                          totalSpeakers: Option<real>, numberOfCountries: Option<int>): (s: Statistics)
    ensures s.totalUNSpeakers == totalUNSpeakers
    ensures s.numberOfUNCountries == numberOfUNCountries
    ensures s.totalSpeakers == totalSpeakers
    ensures s.numberOfCountries == numberOfCountries
    ensures numberOfCountries.None? ==> s.numberOfCountries.None? && s != Zero()
    ensures totalSpeakers.None? ==> s.totalSpeakers.None? && s != Zero()
  {
    Statistics(totalUNSpeakers, numberOfUNCountries, totalSpeakers, numberOfCountries)
  }

  /** With all four arguments supplied, the positional form builds the same statistics
      as the object form given the same four keys; with the last two omitted it does
      not, because the object form would default them to 0. */
  lemma PositionalAgreesWithObject(a: real, b: int, c: real, d: int)
    ensures FromPositional(Some(a), Some(b), Some(c), Some(d))
            == FromObject(PartialStatistics(Some(a), Some(b), Some(c), Some(d)))
    ensures FromPositional(Some(a), Some(b), None, None)
            != FromObject(PartialStatistics(Some(a), Some(b), None, None))
  {
  }

  /** `x += d` on a number field. */
  function Plus(x: Option<real>, d: real): Option<real> {
    if x.Some? then Some(x.value + d) else None
  }

  /** `x += 1` on a counter field. */
  function Increment(x: Option<int>): Option<int> {
    if x.Some? then Some(x.value + 1) else None
  }

  /** getSpeakers: the UN-member speakers for `true`, all speakers for `false`; on
      consistent statistics the UN view never exceeds the full view. */
  function GetSpeakers(s: Statistics, unMember: bool): (speakers: Option<real>)
    ensures unMember ==> speakers == s.totalUNSpeakers
    ensures !unMember ==> speakers == s.totalSpeakers
    ensures Consistent(s) ==> speakers.Some? && 0.0 <= speakers.value <= s.totalSpeakers.value
  {
    if unMember then s.totalUNSpeakers else s.totalSpeakers
  }

  /** getCountries: the UN-member count for `true`, the full count for `false`. */
  function GetCountries(s: Statistics, unMember: bool): (count: Option<int>)
    ensures unMember ==> count == s.numberOfUNCountries
    ensures !unMember ==> count == s.numberOfCountries
    ensures Consistent(s) ==> count.Some? && 0 <= count.value <= s.numberOfCountries.value
  {
    if unMember then s.numberOfUNCountries else s.numberOfCountries
  }

  /** `speakers * 100 / 8085627000`. */
  function GetWorldPercentage(s: Statistics, unMember: bool): (p: Option<real>)
    ensures p.Some? <==> GetSpeakers(s, unMember).Some?
    ensures p.Some? ==> p.value * WorldPopulation == GetSpeakers(s, unMember).value * 100.0
  {
    var speakers := GetSpeakers(s, unMember);
    if speakers.Some? then Some(speakers.value * 100.0 / WorldPopulation) else None
  }

  /** `numberOfCountries > numberOfUNCountries`; a comparison with undefined is false. */
  function HasNonUNCountries(s: Statistics): (r: bool)
    ensures r <==> GetCountries(s, false).Some? && GetCountries(s, true).Some? &&
                   GetCountries(s, false).value > GetCountries(s, true).value
    ensures s == Zero() ==> !r
  {
    s.numberOfCountries.Some? && s.numberOfUNCountries.Some? &&
    s.numberOfCountries.value > s.numberOfUNCountries.value
  }

  /** The UN-member view is a sub-view of the all-countries view. */
  predicate Consistent(s: Statistics) {
    s.totalUNSpeakers.Some? && s.numberOfUNCountries.Some? &&
    s.totalSpeakers.Some? && s.numberOfCountries.Some? &&
    0 <= s.numberOfUNCountries.value <= s.numberOfCountries.value &&
    0.0 <= s.totalUNSpeakers.value <= s.totalSpeakers.value
  }

  /** The selectors pick the UN view for `true` and the full view for `false`, and on
      consistent statistics the UN view never exceeds the full view. */
  lemma SelectorsPickView(s: Statistics, unMember: bool)
    ensures GetSpeakers(s, true) == s.totalUNSpeakers && GetSpeakers(s, false) == s.totalSpeakers
    ensures GetCountries(s, true) == s.numberOfUNCountries && GetCountries(s, false) == s.numberOfCountries
    ensures Consistent(s) ==> GetSpeakers(s, true).value <= GetSpeakers(s, false).value
    ensures Consistent(s) ==> GetCountries(s, true).value <= GetCountries(s, false).value
  {
  }

  /** The world percentage is the selected speaker count scaled by 100 / world
      population: zero speakers give 0, and it is undefined exactly when the count is. */
  lemma WorldPercentageScalesSpeakers(s: Statistics, unMember: bool)
    ensures GetWorldPercentage(s, unMember).Some? <==> GetSpeakers(s, unMember).Some?
    ensures GetSpeakers(s, unMember) == Some(0.0) ==> GetWorldPercentage(s, unMember) == Some(0.0)
    ensures GetWorldPercentage(s, unMember).Some? ==>
              GetWorldPercentage(s, unMember).value * WorldPopulation == GetSpeakers(s, unMember).value * 100.0
  {
  }

  /** hasNonUNCountries holds exactly when there are more countries in the full view than
      in the UN view; all-zero statistics have none. */
  lemma HasNonUNCountriesIff(s: Statistics)
    ensures HasNonUNCountries(s) <==>
      GetCountries(s, false).Some? && GetCountries(s, true).Some? &&
      GetCountries(s, false).value > GetCountries(s, true).value
    ensures !HasNonUNCountries(Zero())
  {
  }
}
