/** File-name handling for the CSV report. */
module FileUtils {

  const CsvExtension: string := ".csv"

  predicate EndsWith(s: string, suffix: string) {
    |suffix| <= |s| && s[|s| - |suffix|..] == suffix
  }

  /** `get_full_file_name`: the report's file name, with the `.csv` extension
      added unless the name already has it. The name is always kept as the
      prefix, at most the four extension characters are added, and the name
      is returned as it is exactly when it already ends in `.csv`. */
  function FullFileName(fileName: string): (r: string)
    ensures EndsWith(r, CsvExtension)
    ensures |fileName| <= |r| && r[..|fileName|] == fileName
    ensures |r| == |fileName| || |r| == |fileName| + |CsvExtension|
    ensures r == fileName <==> EndsWith(fileName, CsvExtension)
  {
    if EndsWith(fileName, CsvExtension) then fileName
    else fileName + CsvExtension
  }

  /** The contract determines the result: a name without the extension gets
      exactly `.csv` appended. */
  lemma FullFileNameAppends(fileName: string)
    requires !EndsWith(fileName, CsvExtension)
    ensures FullFileName(fileName) == fileName + CsvExtension
  {
    var r := FullFileName(fileName);
    assert |r| == |fileName| + 4;
    assert r == r[..|fileName|] + r[|fileName|..];
  }

  /** Normalising an already normalised name changes nothing. */
  lemma FullFileNameIdempotent(fileName: string)
    ensures FullFileName(FullFileName(fileName)) == FullFileName(fileName)
  {
  }

  /** The two cases the source's unit tests check. */
  lemma FullFileNameExamples()
    ensures FullFileName("abc") == "abc.csv"
    ensures FullFileName("abc.csv") == "abc.csv"
  {
    assert !EndsWith("abc", CsvExtension);
    assert EndsWith("abc.csv", CsvExtension) by {
      assert "abc.csv"[3..] == ".csv";
    }
  }
}
