/** The sidebar row filter: an inclusive age range and a multiselect of
    passenger-class labels, applied to the cleaned table. */
module Sidebar {
  import opened Sequences
  import opened Table

  /** `1 if c == 'First' else 2 if c == 'Second' else 3`: every label that is
      neither 'First' nor 'Second' falls through to 3. */
  function ClassOrdinal(c: string): (k: int)
    ensures 1 <= k <= 3
    ensures k == 1 <==> c == "First"
    ensures k == 2 <==> c == "Second"
  {
    if c == "First" then 1 else if c == "Second" then 2 else 3
  }

  /** The label the dataset's `class` column carries for an ordinal. */
  function OrdinalName(k: int): (c: string)
    requires 1 <= k <= 3
    ensures ClassOrdinal(c) == k
  {
    if k == 1 then "First" else if k == 2 then "Second" else "Third"
  }

  /** The ordinals the class column is compared against with `isin`. */
  function SelectedOrdinals(classes: seq<string>): (ks: set<int>)
    ensures ks <= {1, 2, 3}
    ensures 1 in ks <==> "First" in classes
    ensures 2 in ks <==> "Second" in classes
    ensures 3 in ks <==> exists c :: c in classes && c != "First" && c != "Second"
    ensures classes == [] <==> ks == {}
  {
    var ks := set c | c in classes :: ClassOrdinal(c);
    assert classes != [] ==> ClassOrdinal(classes[0]) in ks;
    ks
  }

  /** The row mask of the filter expression. */
  predicate Keep(row: Record, ageMin: int, ageMax: int, ordinals: set<int>) {
    ageMin as real <= row.age <= ageMax as real && row.pclass in ordinals
  }

  /** `df[(age >= age_range[0]) & (age <= age_range[1]) & pclass.isin(...)]`. */
  function FilterRows(df: seq<Record>, ageMin: int, ageMax: int, classes: seq<string>): (r: seq<Record>)
    ensures Subsequence(r, df)
    ensures forall row :: row in r <==> row in df && Keep(row, ageMin, ageMax, SelectedOrdinals(classes))
    ensures forall row :: multiset(r)[row] == (if Keep(row, ageMin, ageMax, SelectedOrdinals(classes)) then multiset(df)[row] else 0)
    ensures ageMin > ageMax ==> r == []
    ensures classes == [] ==> r == []
  {
    var ordinals := SelectedOrdinals(classes);
    var r := Select(df, row => Keep(row, ageMin, ageMax, ordinals));
    assert ageMin > ageMax || classes == [] ==> forall row :: row !in r;
    r
  }

  /** No other order-preserving subsequence of the table holds exactly the
      rows the filter accepts, every copy of each. */
  lemma FilterRowsUnique(df: seq<Record>, ageMin: int, ageMax: int, classes: seq<string>, r: seq<Record>)
    requires Subsequence(r, df)
    requires forall row :: multiset(r)[row] == (if Keep(row, ageMin, ageMax, SelectedOrdinals(classes)) then multiset(df)[row] else 0)
    ensures r == FilterRows(df, ageMin, ageMax, classes)
  {
    SelectUnique(r, df, row => Keep(row, ageMin, ageMax, SelectedOrdinals(classes)));
  }

  /** The class test on the ordinal, restated on the row's own class label:
      when label and ordinal agree, a row passes exactly when its label is
      selected, or when it is third class and some selected label is neither
      'First' nor 'Second'. */
  lemma ClassTestByLabel(row: Record, classes: seq<string>)
    requires 1 <= row.pclass <= 3 && row.classLabel == OrdinalName(row.pclass)
    ensures row.pclass in SelectedOrdinals(classes) <==>
      (|| row.classLabel in classes
       || (row.pclass == 3 && exists c :: c in classes && c != "First" && c != "Second"))
  {
    if row.pclass == 3 && row.classLabel in classes {
      assert row.classLabel == "Third";
    }
  }

  /** Widening the age range or selecting more classes never removes a row
      from the result, and the rows kept before stay in the same order. */
  lemma FilterMonotone(df: seq<Record>,
                       ageMin: int, ageMax: int, classes: seq<string>,
                       ageMin': int, ageMax': int, classes': seq<string>)
    requires ageMin' <= ageMin && ageMax <= ageMax'
    requires forall c :: c in classes ==> c in classes'
    ensures Subsequence(FilterRows(df, ageMin, ageMax, classes), FilterRows(df, ageMin', ageMax', classes'))
  {
    var ks, ks' := SelectedOrdinals(classes), SelectedOrdinals(classes');
    assert ks <= ks';
    SelectMonotone(df, row => Keep(row, ageMin, ageMax, ks), row => Keep(row, ageMin', ageMax', ks'));
  }

  /** The class labels offered and preselected by both dashboards. */
  const AllClasses: seq<string> := ["First", "Second", "Third"]

  predicate ValidClasses(df: seq<Record>) {
    forall i :: 0 <= i < |df| ==> 1 <= df[i].pclass <= 3
  }

  /** With every class selected, the filter is the age-range filter alone. */
  lemma AllClassesFilterByAgeOnly(df: seq<Record>, ageMin: int, ageMax: int)
    requires ValidClasses(df)
    ensures FilterRows(df, ageMin, ageMax, AllClasses)
         == Select(df, (row: Record) => ageMin as real <= row.age <= ageMax as real)
  {
    var ks := SelectedOrdinals(AllClasses);
    assert ks == {1, 2, 3} by {
      assert ClassOrdinal(AllClasses[2]) == 3;
    }
    SelectCongruent(df, row => Keep(row, ageMin, ageMax, ks),
                        (row: Record) => ageMin as real <= row.age <= ageMax as real);
  }

  /** With every class selected and a range that covers every age, the filter
      returns the table unchanged. */
  lemma FullRangeKeepsEverything(df: seq<Record>, ageMin: int, ageMax: int)
    requires ValidClasses(df)
    requires forall i :: 0 <= i < |df| ==> ageMin as real <= df[i].age <= ageMax as real
    ensures FilterRows(df, ageMin, ageMax, AllClasses) == df
  {
    AllClassesFilterByAgeOnly(df, ageMin, ageMax);
    SelectAll(df, (row: Record) => ageMin as real <= row.age <= ageMax as real);
  }
}
