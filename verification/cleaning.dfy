/** `load_data`: drop six columns, impute missing ages with the median age,
    log-scale the fare with a zero fallback, encode sex numerically. */
module Cleaning {
  import opened Wrappers
  import opened Sequences
  import Stats
  import opened Table

  /** `sex.map({'male': 0, 'female': 1})`: an unlisted name maps to a missing value. */
  function SexCode(name: string): (code: Option<int>)
    ensures code == Some(0) <==> name == "male"
    ensures code == Some(1) <==> name == "female"
    ensures code.None? <==> name != "male" && name != "female"
  {
    if name == "male" then Some(0)
    else if name == "female" then Some(1)
    else None
  }

  /** The label a sex code stands for: the dictionary of `SexCode` read backwards. */
  function SexName(code: int): (name: Option<string>)
    ensures name.Some? <==> code == 0 || code == 1
  {
    if code == 0 then Some("male")
    else if code == 1 then Some("female")
    else None
  }

  /** The encoding loses nothing: a recognised label is recovered from its
      code, and every code 0 or 1 comes from exactly one label. */
  lemma SexCodeRoundTrip(name: string, code: int)
    ensures SexCode(name).Some? ==> SexName(SexCode(name).value) == Some(name)
    ensures SexName(code).Some? ==> SexCode(SexName(code).value) == Some(code)
  {
  }

  /** `fare.apply(lambda x: np.log(x) if x > 0 else 0)`. The natural
      logarithm is the parameter `log`; a missing fare fails `x > 0` and
      becomes 0. */
  function FareTransform(fare: Option<real>, log: real -> real): (v: real)
    ensures fare.Some? && fare.value > 0.0 ==> v == log(fare.value)
    ensures fare.None? || fare.value <= 0.0 ==> v == 0.0
  {
    if fare.Some? && fare.value > 0.0 then log(fare.value) else 0.0
  }

  predicate HasAge(row: RawRecord) {
    row.age.Some?
  }

  /** The present values of the age column, in row order (`Series.median`
      skips missing values). */
  function PresentAges(raw: seq<RawRecord>): (ages: seq<real>)
    ensures |ages| == Count(raw, HasAge)
    ensures forall i :: 0 <= i < |raw| && raw[i].age.Some? ==> raw[i].age.value in ages
    ensures forall x :: x in ages ==> exists i :: 0 <= i < |raw| && raw[i].age == Some(x)
    ensures forall x :: multiset(ages)[x] == Count(raw, (r: RawRecord) => r.age == Some(x))
  {
    if raw == [] then []
    else
      var rest := PresentAges(raw[1..]);
      assert forall i :: 1 <= i < |raw| ==> raw[i] == raw[1..][i - 1];
      match raw[0].age
      case Some(a) => [a] + rest
      case None => rest
  }

  /** The value used for every missing age: the median of the present ages. */
  function AgeFill(raw: seq<RawRecord>): Option<real> {
    Stats.Median(PresentAges(raw))
  }

  /** The column-wise cleaning of one row, with `fill` for a missing age. */
  function CleanRow(row: RawRecord, fill: real, log: real -> real): Record {
    Record(
      row.survived,
      row.pclass,
      SexCode(row.sex),
      row.age.GetOr(fill),
      row.sibsp,
      row.parch,
      FareTransform(row.fare, log),
      row.classLabel,
      row.alone
    )
  }

  /** The column-wise cleaning of every row, keeping row count and order. */
  function CleanRows(raw: seq<RawRecord>, fill: real, log: real -> real): (df: seq<Record>)
    ensures |df| == |raw|
    ensures forall i :: 0 <= i < |raw| ==> df[i] == CleanRow(raw[i], fill, log)
  {
    seq(|raw|, i requires 0 <= i < |raw| => CleanRow(raw[i], fill, log))
  }

  /** An empty table, or one with at least one age to take the median of. */
  predicate Imputable(raw: seq<RawRecord>) {
    raw == [] || exists i :: 0 <= i < |raw| && raw[i].age.Some?
  }

  lemma AgeFillDefined(raw: seq<RawRecord>)
    requires Imputable(raw) && raw != []
    ensures AgeFill(raw).Some?
  {
    var i :| 0 <= i < |raw| && raw[i].age.Some?;
    assert raw[i].age.value in PresentAges(raw);
  }

  /** `load_data` applied to the raw table. */
  function LoadData(raw: seq<RawRecord>, log: real -> real): (df: seq<Record>)
    requires Imputable(raw)
    ensures |df| == |raw|
    ensures raw != [] ==> AgeFill(raw).Some?
    ensures forall i :: 0 <= i < |raw| && raw[i].age.Some? ==> df[i].age == raw[i].age.value
    ensures forall i :: 0 <= i < |raw| && raw[i].age.None? ==> df[i].age == AgeFill(raw).value
    ensures forall i :: 0 <= i < |raw| ==> df[i].fare == FareTransform(raw[i].fare, log)
    ensures forall i :: 0 <= i < |raw| ==> df[i].sex == SexCode(raw[i].sex)
    ensures forall i :: 0 <= i < |df| ==> df[i].sex.Some? ==> df[i].sex.value == 0 || df[i].sex.value == 1
    ensures forall i :: 0 <= i < |raw| ==>
      && df[i].survived == raw[i].survived
      && df[i].pclass == raw[i].pclass
      && df[i].sibsp == raw[i].sibsp
      && df[i].parch == raw[i].parch
      && df[i].classLabel == raw[i].classLabel
      && df[i].alone == raw[i].alone
  {
    if raw == [] then []
    else
      AgeFillDefined(raw);
      CleanRows(raw, AgeFill(raw).value, log)
  }

  /** A filled-in age is a median of the ages that were present: it lies
      between their minimum and maximum, and at least half of them are at or
      below it and at least half at or above it. */
  lemma ImputedAgeIsMedian(raw: seq<RawRecord>, log: real -> real, i: int)
    requires Imputable(raw)
    requires 0 <= i < |raw| && raw[i].age.None?
    ensures PresentAges(raw) != []
    ensures Stats.InRange(PresentAges(raw), LoadData(raw, log)[i].age)
    ensures 2 * Count(PresentAges(raw), (x: real) => x <= LoadData(raw, log)[i].age) >= |PresentAges(raw)|
    ensures 2 * Count(PresentAges(raw), (x: real) => x >= LoadData(raw, log)[i].age) >= |PresentAges(raw)|
  {
    AgeFillDefined(raw);
    Stats.MedianSplits(PresentAges(raw));
  }

  /** The cleaned fare is never negative provided the logarithm is
      non-negative from 1 on and no positive raw fare lies below 1. */
  lemma CleanedFareNonNegative(raw: seq<RawRecord>, log: real -> real)
    requires Imputable(raw)
    requires forall x :: x >= 1.0 ==> log(x) >= 0.0
    requires forall i :: 0 <= i < |raw| && raw[i].fare.Some? && raw[i].fare.value > 0.0 ==> raw[i].fare.value >= 1.0
    ensures forall i :: 0 <= i < |raw| ==> LoadData(raw, log)[i].fare >= 0.0
  {
  }
}
