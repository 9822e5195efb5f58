/** The rows of the passenger table before and after load-time cleaning. */
module Table {
  import opened Wrappers

  /** A row as the bundled dataset delivers it. A missing cell is `None`. */
  datatype RawRecord = RawRecord(
    survived: int,
    pclass: int,
    sex: string,
    age: Option<real>,
    sibsp: int,
    parch: int,
    fare: Option<real>,
    embarked: Option<string>,
    classLabel: string,
    who: string,
    adultMale: bool,
    deck: Option<string>,
    embarkTown: Option<string>,
    alive: string,
    alone: bool
  )

  /** A row after cleaning: the six dropped columns (embarked, who,
      adult_male, deck, embark_town, alive) are absent, age is always present,
      fare is log-scaled and sex is a numeric code (missing for an
      unrecognised label). */
  datatype Record = Record(
    survived: int,
    pclass: int,
    sex: Option<int>,
    age: real,
    sibsp: int,
    parch: int,
    fare: real,
    classLabel: string,
    alone: bool
  )
}
