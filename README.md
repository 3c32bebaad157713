# Zone-rules registry and small value types of the threeten time library

This project models, in Dafny, the core of an early version of the threeten
date and time library:

- the time-zone rules registry `ZoneRulesGroup`: a directory of groups, each
  group mapping region IDs to versions and each version to the provider that
  supplies its rules, together with the set of zone IDs that registration
  makes parsable;
- the immutable value types `Minutes` and `Weeks` (periods held in a Java
  `int`, with overflow-checked arithmetic), `DayOfWeek` (a range-checked
  factory over seven constants), `Year`, and `FixedZoneRules` (the rules of a
  constant offset).

Modules:

| module | file | models |
|---|---|---|
| `Results` | results.dfy | `Result` and `Outcome` values that stand for returning or throwing |
| `JavaInt` | java_int.dfy | Java `int` range, the overflow-checked `MathUtils` operations, Java's truncating `/` |
| `Decimal` | decimal.dfy | the decimal form Java gives an `int` in string concatenation |
| `LexOrder` | lex_order.dfy | `String.compareTo` order, `TreeMap.lastKey` and sorting |
| `ZoneIds` | zone_ids.dfy | the group and `region#version` patterns and the split at `#` |
| `MinutesPeriod`, `WeeksPeriod` | minutes.dfy, weeks.dfy | `Minutes`, `Weeks` |
| `DayOfWeekField`, `YearField` | day_of_week.dfy, year.dfy | `DayOfWeek`, `Year` |
| `FixedRules` | fixed_zone_rules.dfy | `FixedZoneRules` (its constructor is the datatype's) |
| `ZoneRulesRegistry` | zone_rules_registry.dfy | `ZoneRulesGroup`: `ZoneRulesGroup` class, and `ZoneRulesDirectory` for its static state |

The registry is imperative, as in the source. A `ZoneRulesGroup` object has a
`regions` field that registration updates. A `ZoneRulesDirectory` object holds
the two static tables: the groups by ID and the parsable IDs. Registration
keeps the three loops of the source. `CheckIds` is the checking loop, which
changes nothing. `Bind` is the loop that binds each `(region, version)` pair.
`ZoneRulesDirectory.Publish` is the loop that publishes the parsable IDs.
Each loop is proved against a specification function. `CheckIds` is proved
against `Acceptable`, which says when a provider's IDs may be registered,
against `Splits`, the `(region, version)` pairs of those IDs, and against
`AllIdForms`, the IDs they make parsable. `Bind` is proved against
`WithBindings`, the regions after registration, and lemmas state what that
function keeps and adds. `Publish` adds exactly the given IDs to the parsable
IDs. The directory's invariant ties the parsable IDs to the bindings. They are
exactly `AllForms` of the regions of every group: for each registered
`region#version` its `group:` forms, and in TZDB also the bare ID and the bare
region. Registration keeps that invariant, whether the provider is accepted or
refused. The
queries that only read are functions. The exception is
`getLatestVersionIDValidFor`, which scans the versions from the largest down
with an early return: it is a method with a loop, and so are the methods
built on it and the version-filtered region listing.

Three things from outside the registry are parameters of the queries that use
them. `zoneRules` stands for `ZoneRulesDataProvider.getZoneRules`.
`isValidDateTime` stands for `ZoneRules.isValidDateTime`. The date-time is
any value. Throwing a `CalendricalException` becomes an `Err` or `Fail`
result, with one error variant per cause.

## Model

| member | source | states |
|---|---|---|
| JavaInt.SafeAdd | src/main/java/javax/time/Minutes.java:178 | the exact sum when it fits in an `int`, `Overflow` otherwise |
| JavaInt.SafeSubtract | src/main/java/javax/time/Minutes.java:206 | the exact difference when it fits in an `int`, `Overflow` otherwise |
| JavaInt.SafeMultiply | src/main/java/javax/time/Minutes.java:234 | the exact product when it fits in an `int`, `Overflow` otherwise |
| JavaInt.SafeNegate | src/main/java/javax/time/Minutes.java:262 | the negation, failing exactly for the minimum `int` |
| JavaInt.Wrap | src/main/java/javax/time/Minutes.java:251 | an `int` congruent to its argument modulo 2^32, equal to it when it fits |
| JavaInt.TruncatedDivide | src/main/java/javax/time/Minutes.java:251 | the quotient rounded toward zero: remainder smaller than the divisor and of the dividend's sign |
| JavaInt.QuotientInRange | src/main/java/javax/time/Minutes.java:251 | a truncated quotient of two `int`s fits in an `int` except for the minimum divided by -1 |
| JavaInt.JavaDivide | src/main/java/javax/time/Minutes.java:251 | Java `int` division: the truncated quotient, and the minimum `int` for the minimum divided by -1 |
| JavaInt.CompareInts | src/main/java/javax/time/Minutes.java:111-115 | -1, 0 or 1 exactly as the first integer is below, equal to or above the second |
| Decimal.NatToString | src/main/java/javax/time/Minutes.java:273 | a non-empty string of decimal digits without a leading zero |
| Decimal.NatToStringRoundTrip | src/main/java/javax/time/Minutes.java:273 | reading back the digits of a natural gives the natural |
| Decimal.IntToString | src/main/java/javax/time/Minutes.java:273 | the decimal form of an `int` parses back to the same integer and is canonical: "0", or digits with no leading zero, with a minus sign only before a non-zero magnitude |
| Decimal.LeadingDigitPositive | src/main/java/javax/time/Minutes.java:273 | digits without a leading zero have a positive value |
| Decimal.DigitsValueInjective | src/main/java/javax/time/Minutes.java:273 | two digit strings without a leading zero and with the same value are equal |
| Decimal.CanonicalSign | src/main/java/javax/time/Minutes.java:273 | canonical text starts with '-' exactly when its value is negative, and is "0" exactly when its value is zero |
| Decimal.CanonicalUnique | src/main/java/javax/time/Minutes.java:273 | two canonical texts that read as the same integer are equal, so the decimal form of an integer is the only canonical text for it |
| Decimal.IntToStringInjective | src/main/java/javax/time/Minutes.java:273 | different integers have different decimal forms |
| LexOrder.LessIrreflexive | src/main/java/javax/time/calendar/zone/ZoneRulesGroup.java:107 | no version or region ID sorts before itself in `String.compareTo` order |
| LexOrder.LessAsymmetric | src/main/java/javax/time/calendar/zone/ZoneRulesGroup.java:107 | no two IDs each sort before the other |
| LexOrder.LessTransitive | src/main/java/javax/time/calendar/zone/ZoneRulesGroup.java:107 | the ID order is transitive |
| LexOrder.LessTotal | src/main/java/javax/time/calendar/zone/ZoneRulesGroup.java:107 | any two different IDs are ordered one way or the other |
| LexOrder.PrefixIsLess | src/main/java/javax/time/calendar/zone/ZoneRulesGroup.java:107 | a proper prefix sorts before the longer string |
| LexOrder.GreatestExists | src/main/java/javax/time/calendar/zone/ZoneRulesGroup.java:536 | every non-empty set of IDs has a largest element |
| LexOrder.GreatestUnique | src/main/java/javax/time/calendar/zone/ZoneRulesGroup.java:536 | the largest element is unique |
| LexOrder.Greatest | src/main/java/javax/time/calendar/zone/ZoneRulesGroup.java:353 | `TreeMap.lastKey`: the largest key of a non-empty key set |
| LexOrder.Ascending | src/main/java/javax/time/calendar/zone/ZoneRulesGroup.java:482-483 | the elements of a set, each once, in strictly ascending order |
| LexOrder.StrictlyAscendingUnique | src/main/java/javax/time/calendar/zone/ZoneRulesGroup.java:482-483 | two strictly ascending lists with the same elements are the same list |
| ZoneIds.IndexOf | src/main/java/javax/time/calendar/zone/ZoneRulesGroup.java:82 | the position of the first occurrence of a character, none when absent |
| ZoneIds.ParseRegionVersion | src/main/java/javax/time/calendar/zone/ZoneRulesGroup.java:249-255 | a successful split gives a region and a version matching their patterns that rejoin around `#` to the ID |
| ZoneIds.IdsHaveNoSeparators | src/main/java/javax/time/calendar/zone/ZoneRulesGroup.java:78-82 | every ID matching the group pattern matches the region pattern, and no ID matching the region pattern holds '#' or ':' |
| ZoneIds.ParseJoin | src/main/java/javax/time/calendar/zone/ZoneRulesGroup.java:82 | splitting `region#version` gives back the region and the version |
| ZoneIds.ParseMatchesPattern | src/main/java/javax/time/calendar/zone/ZoneRulesGroup.java:249-253 | an ID splits exactly when it matches `([A-Za-z0-9%@~/+._-]+)#([A-Za-z0-9._-]+)` |
| ZoneIds.ParseExample | src/main/java/javax/time/calendar/zone/ZoneRulesGroup.java:249-255 | `Europe/London#2009a` splits into region `Europe/London` and version `2009a` |
| ZoneIds.JoinInjective | src/main/java/javax/time/calendar/zone/ZoneRulesGroup.java:82 | the split is unique: two pattern-matching pairs joining to one ID are equal |
| MinutesPeriod.Of | src/main/java/javax/time/Minutes.java:66-71 | the factory gives a period whose `getMinutes` is its argument |
| MinutesPeriod.Minutes.GetMinutes | src/main/java/javax/time/Minutes.java:99-101 | the factory gives back this period from its number of minutes |
| MinutesPeriod.Minutes.CompareTo | src/main/java/javax/time/Minutes.java:111-115 | -1, 0 or 1 exactly by the order of the counts |
| MinutesPeriod.Minutes.IsGreaterThan | src/main/java/javax/time/Minutes.java:125-127 | holds exactly when the count is larger |
| MinutesPeriod.Minutes.IsLessThan | src/main/java/javax/time/Minutes.java:136-139 | holds exactly when the count is smaller |
| MinutesPeriod.Minutes.Equals | src/main/java/javax/time/Minutes.java:148-153 | holds exactly for periods of the same count |
| MinutesPeriod.Minutes.HashCode | src/main/java/javax/time/Minutes.java:160-162 | the count itself |
| MinutesPeriod.Minutes.Plus | src/main/java/javax/time/Minutes.java:174-179 | adding zero gives the same period; otherwise the exact sum, failing on `int` overflow |
| MinutesPeriod.Minutes.PlusMinutes | src/main/java/javax/time/Minutes.java:191-193 | the exact sum of the counts, failing on `int` overflow |
| MinutesPeriod.Minutes.Minus | src/main/java/javax/time/Minutes.java:205-207 | the exact difference, failing on `int` overflow |
| MinutesPeriod.Minutes.MinusMinutes | src/main/java/javax/time/Minutes.java:219-221 | the exact difference of the counts, failing on `int` overflow |
| MinutesPeriod.Minutes.MultipliedBy | src/main/java/javax/time/Minutes.java:233-235 | the exact product, failing on `int` overflow |
| MinutesPeriod.Minutes.DividedBy | src/main/java/javax/time/Minutes.java:247-252 | divisor 1 gives the same period, 0 fails, otherwise the quotient rounded toward zero; the minimum divided by -1 gives the minimum |
| MinutesPeriod.Minutes.DividedByChecked | src/main/java/javax/time/Minutes.java:247-252 | the rounded quotient, failing for divisor 0 and for the one quotient that overflows |
| MinutesPeriod.Minutes.Negated | src/main/java/javax/time/Minutes.java:261-263 | the opposite count, failing for the minimum `int` |
| MinutesPeriod.Minutes.ToString | src/main/java/javax/time/Minutes.java:272-274 | "PT", then the count in canonical decimal (it parses back to the count), then "M" |
| MinutesPeriod.CompareToAntisymmetric | src/main/java/javax/time/Minutes.java:111-115 | swapping the arguments negates the comparison, which is 0 exactly for equal periods |
| MinutesPeriod.EqualsHashCode | src/main/java/javax/time/Minutes.java:148-162 | equal periods have equal hash codes |
| MinutesPeriod.PlusThenMinus | src/main/java/javax/time/Minutes.java:174-207 | subtracting what was added gives back the period |
| MinutesPeriod.NegatedTwice | src/main/java/javax/time/Minutes.java:261-263 | negating twice gives back the period |
| MinutesPeriod.MultipliedByMinusOne | src/main/java/javax/time/Minutes.java:233-263 | multiplying by -1 is negation, failing in the same place |
| MinutesPeriod.DividedByRoundsTowardZero | src/main/java/javax/time/Minutes.java:237-252 | 3 divided by 2 is 1 and -3 divided by 2 is -1 |
| MinutesPeriod.DividedByMinusOneWraps | src/main/java/javax/time/Minutes.java:247-252 | as written, the minimum divided by -1 succeeds with the minimum where negation fails |
| MinutesPeriod.DividedByCheckedMinusOne | src/main/java/javax/time/Minutes.java:247-252 | with the overflow check, dividing by -1 is negation for every period |
| WeeksPeriod.Of | src/main/java/javax/time/Weeks.java:66-71 | the factory gives a period whose `getWeeks` is its argument |
| WeeksPeriod.Weeks.GetWeeks | src/main/java/javax/time/Weeks.java:99-101 | the factory gives back this period from its number of weeks |
| WeeksPeriod.Weeks.CompareTo | src/main/java/javax/time/Weeks.java:111-115 | -1, 0 or 1 exactly by the order of the counts |
| WeeksPeriod.Weeks.IsGreaterThan | src/main/java/javax/time/Weeks.java:125-127 | holds exactly when the count is larger |
| WeeksPeriod.Weeks.IsLessThan | src/main/java/javax/time/Weeks.java:136-139 | holds exactly when the count is smaller |
| WeeksPeriod.Weeks.Equals | src/main/java/javax/time/Weeks.java:148-153 | holds exactly for periods of the same count |
| WeeksPeriod.Weeks.HashCode | src/main/java/javax/time/Weeks.java:160-162 | the count itself |
| WeeksPeriod.Weeks.Plus | src/main/java/javax/time/Weeks.java:174-179 | adding zero gives the same period; otherwise the exact sum, failing on `int` overflow |
| WeeksPeriod.Weeks.PlusWeeks | src/main/java/javax/time/Weeks.java:191-193 | the exact sum of the counts, failing on `int` overflow |
| WeeksPeriod.Weeks.Minus | src/main/java/javax/time/Weeks.java:205-207 | the exact difference, failing on `int` overflow |
| WeeksPeriod.Weeks.MinusWeeks | src/main/java/javax/time/Weeks.java:219-221 | the exact difference of the counts, failing on `int` overflow |
| WeeksPeriod.Weeks.MultipliedBy | src/main/java/javax/time/Weeks.java:233-235 | the exact product, failing on `int` overflow |
| WeeksPeriod.Weeks.DividedBy | src/main/java/javax/time/Weeks.java:247-252 | divisor 1 gives the same period, 0 fails, otherwise the quotient rounded toward zero; the minimum divided by -1 gives the minimum |
| WeeksPeriod.Weeks.DividedByChecked | src/main/java/javax/time/Weeks.java:247-252 | the rounded quotient, failing for divisor 0 and for the one quotient that overflows |
| WeeksPeriod.Weeks.Negated | src/main/java/javax/time/Weeks.java:261-263 | the opposite count, failing for the minimum `int` |
| WeeksPeriod.Weeks.ToString | src/main/java/javax/time/Weeks.java:272-274 | "P", then the count in canonical decimal (it parses back to the count), then "W" |
| WeeksPeriod.CompareToAntisymmetric | src/main/java/javax/time/Weeks.java:111-115 | swapping the arguments negates the comparison, which is 0 exactly for equal periods |
| WeeksPeriod.EqualsHashCode | src/main/java/javax/time/Weeks.java:148-162 | equal periods have equal hash codes |
| WeeksPeriod.PlusThenMinus | src/main/java/javax/time/Weeks.java:174-207 | subtracting what was added gives back the period |
| WeeksPeriod.NegatedTwice | src/main/java/javax/time/Weeks.java:261-263 | negating twice gives back the period |
| WeeksPeriod.MultipliedByMinusOne | src/main/java/javax/time/Weeks.java:233-263 | multiplying by -1 is negation, failing in the same place |
| WeeksPeriod.DividedByRoundsTowardZero | src/main/java/javax/time/Weeks.java:237-252 | 3 divided by 2 is 1 and -3 divided by 2 is -1 |
| WeeksPeriod.DividedByMinusOneWraps | src/main/java/javax/time/Weeks.java:247-252 | as written, the minimum divided by -1 succeeds with the minimum where negation fails |
| WeeksPeriod.DividedByCheckedMinusOne | src/main/java/javax/time/Weeks.java:247-252 | with the overflow check, dividing by -1 is negation for every period |
| DayOfWeekField.DayOfWeek.CompareTo | src/main/java/javax/time/DayOfWeek.java:136-140 | -1, 0 or 1 exactly by the order of the day values |
| DayOfWeekField.DayOfWeek.IsGreaterThan | src/main/java/javax/time/DayOfWeek.java:149-151 | holds exactly for a later day |
| DayOfWeekField.DayOfWeek.IsLessThan | src/main/java/javax/time/DayOfWeek.java:160-162 | holds exactly for an earlier day |
| DayOfWeekField.DayOfWeek.Equals | src/main/java/javax/time/DayOfWeek.java:171-176 | holds exactly for the same day |
| DayOfWeekField.DayOfWeek.HashCode | src/main/java/javax/time/DayOfWeek.java:183-185 | the day value |
| DayOfWeekField.Of | src/main/java/javax/time/DayOfWeek.java:89-108 | succeeds exactly for 1 to 7, with a day whose value is the argument; any other value is an illegal argument |
| DayOfWeekField.DayOfWeek.GetDayOfWeek | src/main/java/javax/time/DayOfWeek.java:124-126 | the day's number is between 1 and 7, and the factory gives back this day from it |
| DayOfWeekField.ConstantsInOrder | src/main/java/javax/time/DayOfWeek.java:52-76 | `MONDAY` to `SUNDAY` carry 1 to 7, each before the next |
| DayOfWeekField.CompareToAntisymmetric | src/main/java/javax/time/DayOfWeek.java:136-176 | swapping the arguments negates the comparison, which is 0 exactly for equal days |
| DayOfWeekField.EqualsHashCode | src/main/java/javax/time/DayOfWeek.java:171-185 | equal days have equal hash codes |
| YearField.Of | src/main/java/javax/time/Year.java:60-62 | the factory gives a year whose `getYear` is its argument |
| YearField.Year.GetYear | src/main/java/javax/time/Year.java:78-80 | the factory gives back this year from its value |
| YearField.Year.CompareTo | src/main/java/javax/time/Year.java:90-94 | -1, 0 or 1 exactly by the order of the years |
| YearField.Year.IsGreaterThan | src/main/java/javax/time/Year.java:103-105 | holds exactly for a later year |
| YearField.Year.IsLessThan | src/main/java/javax/time/Year.java:114-116 | holds exactly for an earlier year |
| YearField.Year.Equals | src/main/java/javax/time/Year.java:125-130 | holds exactly for the same year |
| YearField.Year.HashCode | src/main/java/javax/time/Year.java:137-139 | the year value |
| YearField.CompareToAntisymmetric | src/main/java/javax/time/Year.java:90-130 | swapping the arguments negates the comparison, which is 0 exactly for equal years |
| YearField.GreaterAndLessExclusive | src/main/java/javax/time/Year.java:103-116 | never both later and earlier; `isGreaterThan` is `isLessThan` with the arguments swapped |
| YearField.EqualsHashCode | src/main/java/javax/time/Year.java:125-139 | equal years have equal hash codes |
| FixedRules.FixedZoneRules.GetOffset | src/main/java/javax/time/calendar/zone/FixedZoneRules.java:68-70 | the construction offset, whatever the instant |
| FixedRules.FixedZoneRules.GetStandardOffset | src/main/java/javax/time/calendar/zone/FixedZoneRules.java:80-82 | the construction offset, whatever the instant |
| FixedRules.FixedZoneRules.IsFixed | src/main/java/javax/time/calendar/zone/FixedZoneRules.java:86-88 | always true |
| FixedRules.FixedZoneRules.Equals | src/main/java/javax/time/calendar/zone/FixedZoneRules.java:98-106 | holds exactly when the offsets are equal |
| FixedRules.FixedZoneRules.HashCode | src/main/java/javax/time/calendar/zone/FixedZoneRules.java:114-116 | the hash code of the offset |
| FixedRules.FixedZoneRules.ToString | src/main/java/javax/time/calendar/zone/FixedZoneRules.java:125-127 | "UTC" for the UTC offset, otherwise "UTC" followed by the offset ID |
| FixedRules.OffsetAtEveryInstant | src/main/java/javax/time/calendar/zone/FixedZoneRules.java:68-82 | the offset and the standard offset are the same at any two instants |
| FixedRules.EqualsIsEquivalence | src/main/java/javax/time/calendar/zone/FixedZoneRules.java:98-106 | equality is reflexive, symmetric and transitive |
| FixedRules.EqualsHashCode | src/main/java/javax/time/calendar/zone/FixedZoneRules.java:98-116 | equal rules have equal hash codes |
| ZoneRulesRegistry.IdForms | src/main/java/javax/time/calendar/zone/ZoneRulesGroup.java:264-269 | an ID makes only `id`, `region`, `group:id` and `group:region` parsable; always `group:id` and `group:region`; the bare ID and region in group TZDB, and only the two prefixed forms in any other group |
| ZoneRulesRegistry.BareFormsOnlyForTzdb | src/main/java/javax/time/calendar/zone/ZoneRulesGroup.java:264-269 | for a valid group and a `region#version` ID, the bare ID and the bare region are parsable exactly when the group is TZDB |
| ZoneRulesRegistry.RejectsWith | src/main/java/javax/time/calendar/zone/ZoneRulesGroup.java:248-262 | a malformed or already registered ID makes the provider unacceptable, for that reason |
| ZoneRulesRegistry.Provider.constructor | src/main/java/javax/time/calendar/zone/ZoneRulesGroup.java:216-245 | a provider carries the group ID and the set of IDs that `getGroupID` and `getIDs` return |
| ZoneRulesRegistry.PutVersion | src/main/java/javax/time/calendar/zone/ZoneRulesGroup.java:273-278 | after one binding the region maps the version to the provider, its other versions and every other region are unchanged, and only that region and version are added |
| ZoneRulesRegistry.WithOneMoreBinding | src/main/java/javax/time/calendar/zone/ZoneRulesGroup.java:271-279 | binding one more pair is one insert into the region's map, creating the map if absent |
| ZoneRulesRegistry.BindsAll | src/main/java/javax/time/calendar/zone/ZoneRulesGroup.java:271-279 | after registration every ID of the provider is registered and maps to the provider |
| ZoneRulesRegistry.KeepsEarlier | src/main/java/javax/time/calendar/zone/ZoneRulesGroup.java:256-279 | an accepted registration leaves every earlier binding as it was |
| ZoneRulesRegistry.OnlyAdds | src/main/java/javax/time/calendar/zone/ZoneRulesGroup.java:271-279 | after registration every binding is an earlier one or one of the provider's IDs |
| ZoneRulesRegistry.KeepsWellFormed | src/main/java/javax/time/calendar/zone/ZoneRulesGroup.java:271-279 | registration keeps every region and version ID matching its pattern and no region empty |
| ZoneRulesRegistry.KeepsProvenance | src/main/java/javax/time/calendar/zone/ZoneRulesGroup.java:271-279 | every binding keeps pointing at a provider of the group that supplies that ID |
| ZoneRulesRegistry.RegisteredForms | src/main/java/javax/time/calendar/zone/ZoneRulesGroup.java:256-279 | an accepted registration adds to a group's parsable forms exactly the forms of the provider's IDs |
| ZoneRulesRegistry.NoRegionsNoForms | src/main/java/javax/time/calendar/zone/ZoneRulesGroup.java:216-220 | a group with no bindings makes nothing parsable |
| ZoneRulesRegistry.AllFormsUpdate | src/main/java/javax/time/calendar/zone/ZoneRulesGroup.java:166-198 | changing one group's bindings changes the complete set of parsable IDs by exactly that group's change |
| ZoneRulesRegistry.FormsAfterRegistration | src/main/java/javax/time/calendar/zone/ZoneRulesGroup.java:256-282 | after an accepted or refused registration, the parsable IDs are still exactly the forms of all bindings |
| ZoneRulesRegistry.LondonIdForms | src/main/java/javax/time/calendar/zone/ZoneRulesGroup.java:175-184 | one TZDB binding of Europe/London makes the bare and the `TZDB:` forms of the region and of the full ID parsable |
| ZoneRulesRegistry.LondonRegionForms | src/main/java/javax/time/calendar/zone/ZoneRulesGroup.java:175-184 | the forms of Europe/London in versions 2009a and 2009b are those of its two bindings |
| ZoneRulesRegistry.LondonFormsListed | src/main/java/javax/time/calendar/zone/ZoneRulesGroup.java:175-184 | those forms are the six IDs listed |
| ZoneRulesRegistry.LondonParsableIDs | src/main/java/javax/time/calendar/zone/ZoneRulesGroup.java:175-184 | TZDB with Europe/London in versions 2009a and 2009b makes exactly the six listed IDs parsable |
| ZoneRulesRegistry.SecondRegistrationFails | src/main/java/javax/time/calendar/zone/ZoneRulesGroup.java:256-262 | registering the same non-empty provider a second time is refused |
| ZoneRulesRegistry.ZoneRulesGroup.constructor | src/main/java/javax/time/calendar/zone/ZoneRulesGroup.java:231-237 | a group of a valid ID starts with no regions |
| ZoneRulesRegistry.ZoneRulesGroup.Create | src/main/java/javax/time/calendar/zone/ZoneRulesGroup.java:231-237 | succeeds exactly for group IDs matching `[A-Za-z0-9._-]+`, with an empty group; otherwise an invalid-group failure |
| ZoneRulesRegistry.ZoneRulesGroup.CheckIds | src/main/java/javax/time/calendar/zone/ZoneRulesGroup.java:248-270 | succeeds exactly when every ID parses and none is registered, giving the pairs and the parsable IDs; otherwise a reason some ID gives |
| ZoneRulesRegistry.ZoneRulesGroup.Bind | src/main/java/javax/time/calendar/zone/ZoneRulesGroup.java:271-279 | the regions become the earlier regions with every pair bound to the provider |
| ZoneRulesRegistry.ZoneRulesGroup.RegisterProvider0 | src/main/java/javax/time/calendar/zone/ZoneRulesGroup.java:244-283 | all or nothing: on success the bindings and parsable IDs are added and the group stays well formed; on failure nothing changes |
| ZoneRulesRegistry.ZoneRulesGroup.GetVersions | src/main/java/javax/time/calendar/zone/ZoneRulesGroup.java:292-298 | the region's versions, or the unknown-region failure |
| ZoneRulesRegistry.ZoneRulesGroup.IsValidRules | src/main/java/javax/time/calendar/zone/ZoneRulesGroup.java:322-329 | holds exactly when the region is known and the version is empty or registered for it |
| ZoneRulesRegistry.ZoneRulesGroup.GetLatestVersionID | src/main/java/javax/time/calendar/zone/ZoneRulesGroup.java:533-537 | the largest version of a known region, or the unknown-region failure |
| ZoneRulesRegistry.ZoneRulesGroup.GetRules | src/main/java/javax/time/calendar/zone/ZoneRulesGroup.java:347-363 | succeeds exactly when `IsValidRules` holds, with the rules of the named version or of the largest one; otherwise unknown region or unknown version |
| ZoneRulesRegistry.ZoneRulesGroup.FloatingIsLatest | src/main/java/javax/time/calendar/zone/ZoneRulesGroup.java:352-354 | the floating version gives the rules of `getLatestVersionID` |
| ZoneRulesRegistry.ZoneRulesGroup.GetAvailableRegionIDs | src/main/java/javax/time/calendar/zone/ZoneRulesGroup.java:481-485 | every region ID once, in ascending order |
| ZoneRulesRegistry.ZoneRulesGroup.GetAvailableRegionIDsFor | src/main/java/javax/time/calendar/zone/ZoneRulesGroup.java:502-516 | in ascending order, exactly the regions for which `isValidRules` holds with that version (every region for the empty version) |
| ZoneRulesRegistry.ZoneRulesGroup.GetAvailableVersionIDs | src/main/java/javax/time/calendar/zone/ZoneRulesGroup.java:553-557 | the versions of a known region in ascending order, or the unknown-region failure |
| ZoneRulesRegistry.ZoneRulesGroup.LatestValidUnique | src/main/java/javax/time/calendar/zone/ZoneRulesGroup.java:453-467 | at most one version is the latest valid for a date-time |
| ZoneRulesRegistry.ZoneRulesGroup.NoneValidFromScan | src/main/java/javax/time/calendar/zone/ZoneRulesGroup.java:453-467 | when the scan meets no valid version, no version of the region is valid |
| ZoneRulesRegistry.ZoneRulesGroup.GetLatestVersionIDValidFor | src/main/java/javax/time/calendar/zone/ZoneRulesGroup.java:453-467 | a version valid for the date-time with every larger version invalid; otherwise unknown region, or no valid rules when no version is valid |
| ZoneRulesRegistry.ZoneRulesGroup.LatestFromScan | src/main/java/javax/time/calendar/zone/ZoneRulesGroup.java:453-467 | when the scan from the largest version down stops at the first valid version, that version is the latest valid one |
| ZoneRulesRegistry.ZoneRulesGroup.GetRulesValidFor | src/main/java/javax/time/calendar/zone/ZoneRulesGroup.java:418-435 | succeeds exactly when the named version is registered and valid, or some version is valid for the floating one, giving the latest valid version's rules; otherwise the cause |
| ZoneRulesRegistry.ZoneRulesGroup.IsValidRulesFor | src/main/java/javax/time/calendar/zone/ZoneRulesGroup.java:386-396 | holds exactly when `getRulesValidFor` succeeds |
| ZoneRulesRegistry.ZoneRulesGroup.Equals | src/main/java/javax/time/calendar/zone/ZoneRulesGroup.java:567-575 | holds exactly for groups of the same ID |
| ZoneRulesRegistry.ZoneRulesDirectory.constructor | src/main/java/javax/time/calendar/zone/ZoneRulesGroup.java:87-93 | no groups and no parsable IDs |
| ZoneRulesRegistry.ZoneRulesDirectory.Publish | src/main/java/javax/time/calendar/zone/ZoneRulesGroup.java:280-282 | the parsable IDs grow by exactly the given IDs |
| ZoneRulesRegistry.ZoneRulesDirectory.IsValidGroup | src/main/java/javax/time/calendar/zone/ZoneRulesGroup.java:119-124 | holds exactly when a group of that ID exists |
| ZoneRulesRegistry.ZoneRulesDirectory.GetGroup | src/main/java/javax/time/calendar/zone/ZoneRulesGroup.java:139-149 | the group of that ID; otherwise no-data-registered when there are no groups, unknown-group when there are |
| ZoneRulesRegistry.ZoneRulesDirectory.GetAvailableGroups | src/main/java/javax/time/calendar/zone/ZoneRulesGroup.java:162-164 | every group, each found again by `getGroup` under its own ID |
| ZoneRulesRegistry.ZoneRulesDirectory.GetParsableIDs | src/main/java/javax/time/calendar/zone/ZoneRulesGroup.java:166-198 | the complete set of parsable IDs: for every group and every registered region and version, the `group:` forms of the full ID and of the region, and in TZDB also the bare full ID and the bare region |
| ZoneRulesRegistry.ZoneRulesDirectory.GroupFor | src/main/java/javax/time/calendar/zone/ZoneRulesGroup.java:216-220 | the stored group of that ID, or a new group with no regions that is then stored; an invalid group ID fails and stores nothing; the directory stays valid |
| ZoneRulesRegistry.ZoneRulesDirectory.RegisterWithGroup | src/main/java/javax/time/calendar/zone/ZoneRulesGroup.java:221 | all-or-nothing registration with the stored group; the parsable IDs stay exactly the forms of all bindings, and the other groups are unchanged |
| ZoneRulesRegistry.ZoneRulesDirectory.RegisterProvider | src/main/java/javax/time/calendar/zone/ZoneRulesGroup.java:215-222 | creates and stores the group on first use (kept even when its first provider is refused), then registers all or nothing; other groups are unchanged |

## Left out

- Concurrency: the concurrent maps, the `synchronized` methods and the `putIfAbsent` race handling. Registration is modelled as one sequential step.
- The static initializer that loads the jar data files: it is I/O, in code that is not part of this model.
- `ZoneRulesDataProvider.getZoneRules`, `ZoneRules.isValidDateTime` and `OffsetDateTime` are external code. They are function parameters of the queries.
- The exact text of exception messages, and null arguments (Dafny values are never null). Each failure is an error variant that carries the IDs the message names.
- `FixedZoneRules.getOffsetInfo`: it delegates to `ZoneRules.createOffsetInfo`, which is not part of this model. `ZoneOffset` is known only by its ID.
- `FixedRules.FixedZoneRules.HashCode`: the offset's `hashCode` is not part of this model, so it is a parameter.
- `FixedRules.FixedZoneRules.ToString`: the source tests `offset == ZoneOffset.UTC` by reference; the model compares the offset with UTC by value.
- Reference identity: the `ZERO` singletons, `readResolve`, the `DayOfWeek` singletons, and `plus(0)` and `dividedBy(1)` returning `this`. These are modelled as value equality.
- `ZoneRulesRegistry.ZoneRulesDirectory.GetParsableIDs`: the source returns a live unmodifiable view of the parsable IDs, which later registrations grow; the model returns the set as it is at the call.
- `ZoneRulesRegistry.ZoneRulesDirectory.GetAvailableGroups`: the source returns a list in hash-map order; the model returns the set of groups.
- The order in which `registerProvider0` visits a provider's IDs is hash-set order. When several IDs are refused, the model says only that the reported reason belongs to one of them.
- `String.compareTo` compares UTF-16 code units, while `LexOrder.Less` compares Dafny characters. The two orders agree on the ASCII characters that the ID patterns admit.
- `getID`, `hashCode` and `toString` of a group only return or hash the group ID, and are not modelled.
- The build-time code generator, `UnsupportedRuleException` and the `TimeAdjuster` interface have no registry behaviour and are not part of this model.

## Findings

| source | as written | input that shows it | evidently intended | confidence | as-written member | corrected member |
|---|---|---|---|---|---|---|
| src/main/java/javax/time/Minutes.java:247-252 | `minutes / divisor` with no overflow check | `Minutes.minutes(Integer.MIN_VALUE).dividedBy(-1)` gives `Integer.MIN_VALUE` minutes | an `ArithmeticException`, as `negated` and `multipliedBy(-1)` throw for the same value | medium, not executed | MinutesPeriod.DividedByMinusOneWraps | MinutesPeriod.Minutes.DividedByChecked |
| src/main/java/javax/time/Weeks.java:247-252 | `weeks / divisor` with no overflow check | `Weeks.weeks(Integer.MIN_VALUE).dividedBy(-1)` gives `Integer.MIN_VALUE` weeks | an `ArithmeticException`, as `negated` and `multipliedBy(-1)` throw for the same value | medium, not executed | WeeksPeriod.DividedByMinusOneWraps | WeeksPeriod.Weeks.DividedByChecked |
