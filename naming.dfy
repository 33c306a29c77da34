/**
 * File names: the sanitised document date and the two file-name patterns
 * of the download directory (the downloaded sheet and the summary).
 */
module Naming {
  import opened Text

  const SummaryPrefix: string := "Resumen_Fondos_Rendimientos_"
  const TempPrefix: string := "valores_diarios_temp_"
  const Extension: string := ".xlsx"
  /** The sheet the summary is written under. */
  const SheetName: string := "Resumen_Rendimientos"

  /**
   * `docDate.replace(' ', '_').replace('.', '')`: no spaces and no periods
   * are left, and the result is as long as the date less its periods, since
   * spaces become underscores one for one.
   */
  function Sanitise(docDate: string): (r: string)
    ensures ' ' !in r && '.' !in r
    ensures |r| == |docDate| - Count(docDate, '.')
  {
    SpacesGone(docDate);
    ReplaceKeepsCount(docDate, ' ', '_', '.');
    DeleteChar(ReplaceChar(docDate, ' ', '_'), '.')
  }

  /**
   * The summary's file name: the prefix, the sanitised document date, and the
   * run's `YYYYMMDD_HHMM` timestamp (given by the caller).
   */
  function OutputName(docDate: string, stamp: string): (name: string)
    ensures |name| == |SummaryPrefix| + |Sanitise(docDate)| + 1 + |stamp| + |Extension|
    ensures SummaryPrefix <= name
    ensures name[|name| - |Extension|..] == Extension
    ensures name[|SummaryPrefix|..|SummaryPrefix| + |Sanitise(docDate)|] == Sanitise(docDate)
    ensures name[|SummaryPrefix| + |Sanitise(docDate)|] == '_'
    ensures name[|SummaryPrefix| + |Sanitise(docDate)| + 1..|name| - |Extension|] == stamp
  {
    SummaryPrefix + Sanitise(docDate) + "_" + stamp + Extension
  }

  /** The downloaded sheet's file name for a `YYYYMMDD` date (given by the caller). */
  function TempName(today: string): (name: string)
    ensures |name| == |TempPrefix| + |today| + |Extension|
    ensures TempPrefix <= name
    ensures name[|name| - |Extension|..] == Extension
    ensures name[|TempPrefix|..|name| - |Extension|] == today
  {
    TempPrefix + today + Extension
  }

  lemma SpacesGone(s: string)
    ensures ' ' !in ReplaceChar(s, ' ', '_')
  {
    var r := ReplaceChar(s, ' ', '_');
    assert forall i :: 0 <= i < |r| ==> r[i] != ' ';
  }

  /** Replacing one character by another leaves the count of a third unchanged. */
  lemma {:induction false} ReplaceKeepsCount(s: string, from: char, to: char, c: char)
    requires from != c && to != c
    ensures Count(ReplaceChar(s, from, to), c) == Count(s, c)
  {
    if s != [] {
      var r := ReplaceChar(s, from, to);
      assert r[1..] == ReplaceChar(s[1..], from, to);
      ReplaceKeepsCount(s[1..], from, to, c);
    }
  }

  /** Each character is sanitised on its own: the result of a concatenation is the concatenation of results. */
  lemma SanitiseAppend(a: string, b: string)
    ensures Sanitise(a + b) == Sanitise(a) + Sanitise(b)
  {
    ReplaceCharAppend(a, b, ' ', '_');
    DeleteCharAppend(ReplaceChar(a, ' ', '_'), ReplaceChar(b, ' ', '_'), '.');
  }

  /** A space becomes an underscore, a period disappears, any other character stays. */
  lemma SanitiseChar(c: char)
    ensures Sanitise([c]) == if c == ' ' then "_" else if c == '.' then "" else [c]
  {
  }

  /** A date without spaces or periods is its own sanitised form; in particular sanitising is idempotent. */
  lemma {:induction false} SanitiseFixes(docDate: string)
    requires ' ' !in docDate && '.' !in docDate
    ensures Sanitise(docDate) == docDate
  {
    if docDate != [] {
      assert docDate == [docDate[0]] + docDate[1..];
      SanitiseAppend([docDate[0]], docDate[1..]);
      SanitiseChar(docDate[0]);
      SanitiseFixes(docDate[1..]);
    }
  }

  lemma SanitiseIdempotent(docDate: string)
    ensures Sanitise(Sanitise(docDate)) == Sanitise(docDate)
  {
    SanitiseFixes(Sanitise(docDate));
  }

  /**
   * A date written "<month>. <year>" is named "<month>_<year>"; for
   * instance "jun. 2025" becomes "jun_2025".
   */
  lemma SanitiseDottedDate(month: string, year: string)
    requires ' ' !in month && '.' !in month && ' ' !in year && '.' !in year
    ensures Sanitise(month + ". " + year) == month + "_" + year
  {
    SanitiseAppend(month + ". ", year);
    SanitiseAppend(month, ". ");
    SanitiseDotSpace();
    SanitiseFixes(month);
    SanitiseFixes(year);
  }

  /** The worked example: "jun. 2025" is named "jun_2025". */
  lemma SanitiseExample(docDate: string)
    requires docDate == "jun. 2025"
    ensures Sanitise(docDate) == "jun_2025"
  {
    assert docDate == "jun" + ". " + "2025";
    SanitiseDottedDate("jun", "2025");
  }

  lemma SanitiseDotSpace()
    ensures Sanitise(". ") == "_"
  {
    assert ". " == "." + " ";
    SanitiseAppend(".", " ");
    SanitiseChar('.');
    SanitiseChar(' ');
  }

  /**
   * With a timestamp free of periods, the only period of the summary's name
   * is the one of its extension, whatever the document date held.
   */
  lemma OutputNameSingleDot(docDate: string, stamp: string)
    requires '.' !in stamp
    ensures Count(OutputName(docDate, stamp), '.') == 1
  {
    var stem := SummaryPrefix + Sanitise(docDate) + "_" + stamp;
    assert '.' !in SummaryPrefix;
    assert '.' !in stem;
    NoCount(stem, '.');
    CountAppend(stem, Extension, '.');
    ExtensionDots(Extension);
  }

  lemma ExtensionDots(ext: string)
    requires ext == ".xlsx"
    ensures Count(ext, '.') == 1
  {
    assert ext == [ext[0]] + ext[1..];
    CountAppend([ext[0]], ext[1..], '.');
    NoCount(ext[1..], '.');
  }

  lemma {:induction false} NoCount(s: string, c: char)
    requires c !in s
    ensures Count(s, c) == 0
  {
    if s != [] {
      NoCount(s[1..], c);
    }
  }

  /**
   * The summary never takes the name of the downloaded sheet, so writing it
   * cannot overwrite the input and the clean-up cannot delete it.
   */
  lemma OutputNameNotTempName(docDate: string, stamp: string, today: string)
    ensures OutputName(docDate, stamp) != TempName(today)
  {
    assert OutputName(docDate, stamp)[0] == 'R';
    assert TempName(today)[0] == 'v';
  }
}
