/**
 * The duration table: symbolic names for common cache lifetimes, in seconds.
 * The module's namespace object is the lookup table `getTimeValue` consults.
 */
module TimeValues {
  import opened Wrappers
  import opened JsValues

  const ONE_MINUTE: nat := 60
  const TEN_MINUTES: nat := 600
  const HALF_HOUR: nat := 1800
  const ONE_HOUR: nat := 3600
  const ONE_DAY: nat := 86400
  const ONE_WEEK: nat := 604800
  const ONE_MONTH: nat := 2592000  // 30 days
  const ONE_YEAR: nat := 31536000

  /** The exported names, in declaration order. */
  const Names: seq<string> :=
    ["ONE_MINUTE", "TEN_MINUTES", "HALF_HOUR", "ONE_HOUR", "ONE_DAY", "ONE_WEEK", "ONE_MONTH", "ONE_YEAR"]

  /** The exported values, in declaration order. */
  const Durations: seq<nat> :=
    [ONE_MINUTE, TEN_MINUTES, HALF_HOUR, ONE_HOUR, ONE_DAY, ONE_WEEK, ONE_MONTH, ONE_YEAR]

  /** The namespace object: exported name to seconds. */
  const Table: map<string, nat> := map[
    "ONE_MINUTE" := ONE_MINUTE,
    "TEN_MINUTES" := TEN_MINUTES,
    "HALF_HOUR" := HALF_HOUR,
    "ONE_HOUR" := ONE_HOUR,
    "ONE_DAY" := ONE_DAY,
    "ONE_WEEK" := ONE_WEEK,
    "ONE_MONTH" := ONE_MONTH,
    "ONE_YEAR" := ONE_YEAR
  ]

  /**
   * `timeValues[name]` as a truthiness test: the seconds for an exported
   * name, nothing for any other name.
   */
  function Lookup(name: string): (r: Option<nat>)
    ensures r.Some? <==> name in Names
    ensures r.Some? ==> r.value > 0
    ensures forall i :: 0 <= i < |Names| && Names[i] == name ==> r == Some(Durations[i])
  {
    if name in Table && Table[name] > 0 then Some(Table[name]) else None
  }

  /** Each constant is derived from the smaller units as its name says. */
  lemma UnitDerivations()
    ensures ONE_MINUTE == 60 && TEN_MINUTES == 10 * ONE_MINUTE
    ensures HALF_HOUR == 30 * ONE_MINUTE && ONE_HOUR == 60 * ONE_MINUTE
    ensures ONE_DAY == 24 * ONE_HOUR && ONE_WEEK == 7 * ONE_DAY
    ensures ONE_MONTH == 30 * ONE_DAY && ONE_YEAR == 365 * ONE_DAY
  {
  }

  /** The eight values are positive and strictly increasing in declaration order. */
  lemma DurationsIncreasing()
    ensures |Durations| == |Names| == 8
    ensures forall i :: 0 <= i < |Durations| ==> Durations[i] > 0
    ensures forall i, j :: 0 <= i < j < |Durations| ==> Durations[i] < Durations[j]
  {
  }

  /** The table holds exactly the eight declared names, each with its declared value. */
  lemma TableIsDeclarations()
    ensures Table.Keys == set i | 0 <= i < |Names| :: Names[i]
    ensures forall i :: 0 <= i < |Names| ==> Names[i] in Table && Table[Names[i]] == Durations[i]
  {
    var declared := set i | 0 <= i < |Names| :: Names[i];
    assert Names[0] in declared && Names[1] in declared && Names[2] in declared && Names[3] in declared;
    assert Names[4] in declared && Names[5] in declared && Names[6] in declared && Names[7] in declared;
  }

  /** Every table name is already upper case, so an upper-cased lookup finds it. */
  lemma NamesAreUpperCase()
    ensures forall i :: 0 <= i < |Names| ==> Upper(Names[i]) == Names[i]
  {
    forall i | 0 <= i < |Names| ensures Upper(Names[i]) == Names[i] {
      NameIsUpperCase(i);
    }
  }

  lemma NameIsUpperCase(i: int)
    requires 0 <= i < |Names|
    ensures Upper(Names[i]) == Names[i]
  {
    var name := Names[i];
    assert NoLowerCase(name) by {
      if i == 0 { assert name == "ONE_MINUTE"; }
      else if i == 1 { assert name == "TEN_MINUTES"; }
      else if i == 2 { assert name == "HALF_HOUR"; }
      else if i == 3 { assert name == "ONE_HOUR"; }
      else if i == 4 { assert name == "ONE_DAY"; }
      else if i == 5 { assert name == "ONE_WEEK"; }
      else if i == 6 { assert name == "ONE_MONTH"; }
      else { assert name == "ONE_YEAR"; }
    }
    UpperKeepsNoLowerCase(name);
  }
}
