/** The name the CSV download is saved under (`handleDownload`), and the
    name the download dialog announces for it. */
module Download {
  import opened Text

  /** The download name as the handler computes it: `.csv` is appended
      unless the name already ends with it. An empty name gives `.csv`. */
  function DownloadName(fileName: string): (r: string)
    ensures EndsWith(r, ".csv")
    ensures fileName <= r && |r| <= |fileName| + 4
    ensures EndsWith(fileName, ".csv") ==> r == fileName
    ensures !EndsWith(fileName, ".csv") ==> r == fileName + ".csv" && |r| == |fileName| + 4
  {
    if EndsWith(fileName, ".csv") then fileName else fileName + ".csv"
  }

  /** Naming a download twice is naming it once. */
  lemma DownloadNameIdempotent(fileName: string)
    ensures DownloadName(DownloadName(fileName)) == DownloadName(fileName)
  {
  }

  /** The name the dialog announces: `{fileName || "tips"}.csv`. */
  function AnnouncedName(fileName: string): (r: string)
    ensures EndsWith(r, ".csv") && |r| > 4
    ensures fileName != "" ==> r[..|r| - 4] == fileName
    ensures fileName == "" ==> r[..|r| - 4] == "tips"
  {
    (if fileName == "" then "tips" else fileName) + ".csv"
  }

  /** With the name field cleared, the file is saved as `.csv`, not as the
      announced `tips.csv`. */
  lemma EmptyNameMismatch()
    ensures DownloadName("") == ".csv"
    ensures AnnouncedName("") == "tips.csv"
    ensures DownloadName("") != AnnouncedName("")
  {
    assert !EndsWith("", ".csv");
    assert "" + ".csv" == ".csv";
    assert "tips" + ".csv" == "tips.csv";
    assert ".csv"[0] != "tips.csv"[0];
  }

  /** The download name with the dialog's fallback applied: an empty name
      stands for `tips`, so the file has a name before its extension
      unless the user typed exactly `.csv`. */
  function IntendedDownloadName(fileName: string): (r: string)
    ensures EndsWith(r, ".csv")
    ensures r != ".csv" || fileName == ".csv"
  {
    var base := if fileName == "" then "tips" else fileName;
    var r := DownloadName(base);
    assert r != ".csv" || fileName == ".csv" by {
      if EndsWith(base, ".csv") {
        assert r == base;
      } else {
        assert |r| == |base| + 4;
      }
    }
    r
  }

  /** The corrected name is the announced one whenever the announced name
      is not doubled up (a name that already ends in `.csv` is kept as it
      is, as the handler does), and it agrees with the handler on every
      name that is not empty. */
  lemma IntendedKeepsPromise(fileName: string)
    ensures !EndsWith(fileName, ".csv") ==> IntendedDownloadName(fileName) == AnnouncedName(fileName)
    ensures fileName != "" ==> IntendedDownloadName(fileName) == DownloadName(fileName)
  {
    if fileName == "" {
      assert !EndsWith("tips", ".csv");
    }
  }
}
