/**
 * The three steps of the batch job over the user's download directory:
 * fetching the sheet (`descargar_planilla_cnv`), summarising it with
 * guaranteed clean-up (`procesar_excel_y_crear_resumen`) and the driver
 * (`main`). Everything outside the script is a parameter: the index page's
 * anchors (or a failed request), `urljoin`, the download of a URL, the dates,
 * and whether saving, writing and deleting succeed.
 */
module Pipeline {
  import opened Wrappers
  import opened Text
  import opened Links
  import opened Summary
  import opened Naming

  /** `os.path.join(dir, name)`, kept as the pair it is built from. */
  datatype Path = Path(dir: string, name: string)

  /** The downloaded bytes as the spreadsheet reader sees them. */
  datatype Workbook<C> = Unreadable | Readable(grid: Grid<C>)

  /** A file of the download directory: a downloaded sheet or a summary written by the job. */
  datatype File<C> = Sheet(book: Workbook<C>) | SummaryFile(sheetName: string, rows: seq<SummaryRow<C>>)

  /** `(ruta_temp, fecha_documento)` or `(None, None)`. */
  datatype Fetched = NoDownload | Downloaded(path: Path, docDate: string)

  /** What the driver reports at the end of a run. */
  datatype Report = Aborted | Succeeded | Failed

  /**
   * The fetcher's decision: `None` when the index request fails, no link is
   * selected, the download request fails or the file cannot be saved;
   * otherwise the document date and the saved workbook.
   */
  function FetchOutcome<C>(page: Option<seq<Anchor>>, urljoin: (string, string) -> string,
                           download: string -> Option<Workbook<C>>, saveOk: bool): (f: Option<(string, Workbook<C>)>)
    ensures page.None? || !saveOk ==> f.None?
    ensures page.Some? && Select(page.value, urljoin).NotFound? ==> f.None?
    ensures f.Some? ==> page.Some? && exists k ::
      && 0 <= k < |page.value| && IsDocumentLink(page.value[k]) && page.value[k].href != ""
      && (forall j :: 0 <= j < k ==> !IsDocumentLink(page.value[j]))
      && f.value.0 == Strip(page.value[k].text)
      && download(Resolve(page.value[k].href, urljoin)) == Some(f.value.1)
    ensures page.Some? && saveOk && FirstLink(page.value).Some? ==>
      var a := page.value[FirstLink(page.value).value];
      a.href != "" && download(Resolve(a.href, urljoin)).Some? ==>
        f == Some((Strip(a.text), download(Resolve(a.href, urljoin)).value))
  {
    if page.None? then None
    else match Select(page.value, urljoin)
      case NotFound => None
      case Selected(url, docDate) =>
        SelectedOrigin(page.value, urljoin);
        if download(url).None? || !saveOk then None else Some((docDate, download(url).value))
  }

  /** A fetched document date still names one of the two months the link was chosen for. */
  lemma FetchedDateNamesMonth<C>(page: Option<seq<Anchor>>, urljoin: (string, string) -> string,
                                 download: string -> Option<Workbook<C>>, saveOk: bool)
    requires FetchOutcome(page, urljoin, download, saveOk).Some?
    ensures var docDate := FetchOutcome(page, urljoin, download, saveOk).value.0;
      Contains(docDate, LatestMonth) || Contains(docDate, PreviousMonth)
  {
    SelectedOrigin(page.value, urljoin);
  }

  /** `pd.read_excel(path)`: fails unless the path holds a readable sheet. */
  function ReadSheet<C>(files: map<Path, File<C>>, p: Path): (g: Option<Grid<C>>)
    ensures g.Some? <==> p in files && files[p].Sheet? && files[p].book.Readable?
    ensures g.Some? ==> files[p] == Sheet(Readable(g.value))
  {
    if p in files && files[p].Sheet? && files[p].book.Readable? then Some(files[p].book.grid) else None
  }

  /**
   * The summariser's body: the rows written, or `None` when reading, the
   * column guard or writing fails.
   */
  function SummaryOutcome<C>(sheet: Option<Grid<C>>, writeOk: bool): (w: Option<seq<SummaryRow<C>>>)
    ensures w.Some? <==> sheet.Some? && Width(sheet.value) >= MinColumns && writeOk
    ensures w.Some? ==> w.value == SummaryRows(DataRows(sheet.value))
  {
    match sheet
    case None => None
    case Some(grid) =>
      match Extract(grid)
      case TooFewColumns => None
      case Extracted(rows) => if writeOk then Some(rows) else None
  }

  /** The `finally` block: remove the input if it exists; a failed removal is swallowed. */
  function Cleanup<C>(files: map<Path, File<C>>, p: Path, removeFails: bool): (after: map<Path, File<C>>)
    ensures !removeFails ==> p !in after
    ensures removeFails ==> after == files
    ensures forall q :: q != p ==> (q in after <==> q in files)
    ensures forall q :: q in after ==> q in files && after[q] == files[q]
  {
    if p in files && !removeFails then files - {p} else files
  }

  /** Cleaning up a second time changes nothing and cannot fail. */
  lemma CleanupIdempotent<C>(files: map<Path, File<C>>, p: Path, removeFails: bool)
    ensures Cleanup(Cleanup(files, p, false), p, removeFails) == Cleanup(files, p, false)
  {
  }

  /**
   * The directory after a run that fetched: the download is saved at `temp`,
   * the summary, if written, at `out`, and the clean-up follows. Every other
   * file keeps its content, the download is gone unless its removal failed,
   * the summary is present after a success, and a failure adds no other path.
   */
  lemma {:induction false} AfterFetchedRun<C>(before: map<Path, File<C>>, temp: Path, out: Path, book: Workbook<C>,
                                              written: Option<seq<SummaryRow<C>>>, removeFails: bool)
    requires out != temp
    ensures var fetched := before[temp := Sheet(book)];
      var after := Cleanup(if written.Some? then fetched[out := SummaryFile(SheetName, written.value)] else fetched,
                           temp, removeFails);
      && (forall q :: q in before && q != temp && q != out ==> q in after && after[q] == before[q])
      && (!removeFails ==> temp !in after)
      && (written.Some? ==> out in after && after[out] == SummaryFile(SheetName, written.value))
      && (written.None? ==> forall q :: q in after ==> q in before || q == temp)
  {
  }

  /** The download directory and the files in it. */
  class Downloads<C> {
    /** `os.path.expanduser("~/Downloads")`. */
    const dir: string
    var files: map<Path, File<C>>

    constructor (dir: string, files: map<Path, File<C>>)
      ensures this.dir == dir && this.files == files
    {
      this.dir := dir;
      this.files := files;
    }

    /** `descargar_planilla_cnv`: select the link, download it, save it under today's name. */
    method FetchLatest(page: Option<seq<Anchor>>, urljoin: (string, string) -> string,
                       download: string -> Option<Workbook<C>>, today: string, saveOk: bool)
      returns (r: Fetched)
      modifies this
      ensures var f := FetchOutcome(page, urljoin, download, saveOk);
        && (f.None? ==> r == NoDownload && files == old(files))
        && (f.Some? ==>
              && r == Downloaded(Path(dir, TempName(today)), f.value.0)
              && files == old(files)[Path(dir, TempName(today)) := Sheet(f.value.1)])
    {
      if page.None? {
        return NoDownload;
      }
      var selection := SelectLink(page.value, urljoin);
      if selection.NotFound? {
        return NoDownload;
      }
      var response := download(selection.url);
      if response.None? {
        return NoDownload;
      }
      var temp := Path(dir, TempName(today));
      if !saveOk {
        return NoDownload;
      }
      files := files[temp := Sheet(response.value)];
      return Downloaded(temp, selection.docDate);
    }

    /**
     * `procesar_excel_y_crear_resumen`: summarise the sheet at `input` into a
     * new file named after the document date and the timestamp, then, on
     * every path, remove `input`. The result never depends on the removal.
     */
    method Summarise(input: Path, docDate: string, stamp: string, writeOk: bool, removeFails: bool)
      returns (ok: bool)
      modifies this
      ensures var written := SummaryOutcome(ReadSheet(old(files), input), writeOk);
        && ok == written.Some?
        && files == Cleanup(
             if ok then old(files)[Path(dir, OutputName(docDate, stamp)) := SummaryFile(SheetName, written.value)]
             else old(files),
             input, removeFails)
      ensures !removeFails ==> input !in files
      ensures !ok ==> forall q :: q in files ==> q in old(files)
    {
      ok := false;
      var sheet := ReadSheet(files, input);
      if sheet.Some? {
        var extraction := Extract(sheet.value);
        if extraction.Extracted? {
          var out := Path(dir, OutputName(docDate, stamp));
          if writeOk {
            files := files[out := SummaryFile(SheetName, extraction.rows)];
            ok := true;
          }
        }
      }
      if input in files && !removeFails {
        files := files - {input};
      }
    }

    /**
     * `main`: fetch, and summarise only when something was fetched. After a
     * run that fetched, the downloaded sheet is gone unless its removal
     * failed, and a successful run leaves the summary of the downloaded grid
     * under its output name.
     */
    method Run(page: Option<seq<Anchor>>, urljoin: (string, string) -> string,
               download: string -> Option<Workbook<C>>, today: string, saveOk: bool,
               stamp: string, writeOk: bool, removeFails: bool)
      returns (report: Report)
      modifies this
      ensures var f := FetchOutcome(page, urljoin, download, saveOk);
        && (report == Aborted <==> f.None?)
        && (f.None? ==> files == old(files))
        && (f.Some? ==>
              var temp := Path(dir, TempName(today));
              var out := Path(dir, OutputName(f.value.0, stamp));
              var fetched := old(files)[temp := Sheet(f.value.1)];
              var written := SummaryOutcome(if f.value.1.Readable? then Some(f.value.1.grid) else None, writeOk);
              && report == (if written.Some? then Succeeded else Failed)
              && files == Cleanup(
                   if written.Some? then fetched[out := SummaryFile(SheetName, written.value)] else fetched,
                   temp, removeFails)
              && (forall q :: q in old(files) && q != temp && q != out ==> q in files && files[q] == old(files)[q])
              && (!removeFails ==> temp !in files)
              && (written.Some? ==> out in files && files[out] == SummaryFile(SheetName, written.value))
              && (written.None? ==> forall q :: q in files ==> q in old(files) || q == temp))
    {
      var fetched := FetchLatest(page, urljoin, download, today, saveOk);
      if fetched.NoDownload? {
        return Aborted;
      }
      ghost var f := FetchOutcome(page, urljoin, download, saveOk);
      ghost var written := SummaryOutcome(if f.value.1.Readable? then Some(f.value.1.grid) else None, writeOk);
      assert ReadSheet(files, fetched.path) == if f.value.1.Readable? then Some(f.value.1.grid) else None;
      OutputNameNotTempName(fetched.docDate, stamp, today);
      AfterFetchedRun(old(files), fetched.path, Path(dir, OutputName(fetched.docDate, stamp)), f.value.1,
                      written, removeFails);
      var ok := Summarise(fetched.path, fetched.docDate, stamp, writeOk, removeFails);
      report := if ok then Succeeded else Failed;
    }
  }
}
