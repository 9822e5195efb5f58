/** The two dashboard pages as data flow: the cleaned table feeds the sidebar
    filter, and on the Lab3 page the outlier analysis. The pages differ only in
    the slider's default range and in whether the outlier mode exists. */
module Dashboard {
  import opened Wrappers
  import opened Sequences
  import opened Table
  import Sidebar
  import Outliers

  datatype Page = Lab3 | Lab8

  /** The widget values: the age slider's pair and the class multiselect. */
  datatype Settings = Settings(ageMin: int, ageMax: int, classes: seq<string>)

  /** The slider starts at (0, 100) on Lab3 and at (0, 80) on Lab8; every
      class is preselected on both. */
  function DefaultSettings(page: Page): (s: Settings)
    ensures s.ageMin == 0
    ensures s.ageMax == (if page == Lab3 then 100 else 80)
    ensures s.classes == Sidebar.AllClasses
  {
    match page
    case Lab3 => Settings(0, 100, Sidebar.AllClasses)
    case Lab8 => Settings(0, 80, Sidebar.AllClasses)
  }

  function HasOutlierMode(page: Page): bool {
    page == Lab3
  }

  datatype OutlierTables = OutlierTables(fare: seq<Record>, age: seq<Record>)

  /** What the page computes from the table: the filtered rows, and the fare
      and age outlier tables when the outlier mode is chosen. */
  datatype View = View(filtered: seq<Record>, outliers: Option<OutlierTables>)

  function Render(page: Page, df: seq<Record>, settings: Settings, outlierMode: bool): (v: View)
    ensures Subsequence(v.filtered, df)
    ensures v.filtered == Sidebar.FilterRows(df, settings.ageMin, settings.ageMax, settings.classes)
    ensures v.outliers.Some? <==> outlierMode && HasOutlierMode(page)
    ensures v.outliers.Some? ==> Subsequence(v.outliers.value.fare, df) && Subsequence(v.outliers.value.age, df)
    ensures v.outliers.Some? ==>
      v.outliers.value == OutlierTables(Outliers.DetectOutliers(df, Outliers.Fare), Outliers.DetectOutliers(df, Outliers.Age))
  {
    var filtered := Sidebar.FilterRows(df, settings.ageMin, settings.ageMax, settings.classes);
    if outlierMode && HasOutlierMode(page) then
      View(filtered, Some(OutlierTables(Outliers.DetectOutliers(df, Outliers.Fare),
                                        Outliers.DetectOutliers(df, Outliers.Age))))
    else View(filtered, None)
  }

  /** The outlier tables are computed from the full cleaned table: no sidebar
      setting changes them. */
  lemma OutliersIgnoreSidebar(page: Page, df: seq<Record>, s1: Settings, s2: Settings)
    ensures Render(page, df, s1, true).outliers == Render(page, df, s2, true).outliers
    ensures HasOutlierMode(page) ==>
      Render(page, df, s1, true).outliers.value.fare == Outliers.DetectOutliers(df, Outliers.Fare)
    ensures HasOutlierMode(page) ==>
      Render(page, df, s1, true).outliers.value.age == Outliers.DetectOutliers(df, Outliers.Age)
  {
  }

  /** With the widgets at their defaults, the filter keeps exactly the rows
      aged 0 to 80 on Lab8 and 0 to 100 on Lab3, in order. */
  lemma DefaultSettingsFilterByAge(page: Page, df: seq<Record>)
    requires Sidebar.ValidClasses(df)
    ensures var hi := if page == Lab3 then 100.0 else 80.0;
      Render(page, df, DefaultSettings(page), false).filtered
        == Select(df, (row: Record) => 0.0 <= row.age <= hi)
  {
    var s := DefaultSettings(page);
    Sidebar.AllClassesFilterByAgeOnly(df, s.ageMin, s.ageMax);
    var hi := if page == Lab3 then 100.0 else 80.0;
    SelectCongruent(df, (row: Record) => s.ageMin as real <= row.age <= s.ageMax as real,
                        (row: Record) => 0.0 <= row.age <= hi);
  }
}
