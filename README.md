# CNV daily fund values: link selection, summary extraction, naming and clean-up

This project models the decision and transformation rules of the batch job
`descarga_cnv_automatica.py`. The job fetches the index page of fund unit
values ("cuotapartes") published by Argentina's securities regulator (CNV).
It picks the link to the latest daily-values spreadsheet and downloads the
sheet into the user's download directory. It then writes a two-column summary
(fund name, yield) next to the download and deletes the download.

The network, the HTML parser, the spreadsheet reader and writer, the clock and
the console are not modelled. Their outcomes are parameters:

- the index page is the ordered sequence of anchors that carry an href, or a failed request;
- `urljoin` is a function parameter;
- downloading a URL yields a workbook or a failed request;
- the two dates are strings;
- saving, writing and deleting a file each succeed or fail according to a flag.

Modules:

- `Text`: Python's substring test `in`, `str.strip()` (whitespace as `str.isspace` defines it), and the two single-character `str.replace` calls.
- `Links`: the anchor scan of `descargar_planilla_cnv`. `Select` specifies it, `SelectLink` is the loop with its early `break`, and lemmas cover first-match-wins, the "no link" cases and the empty-href quirk.
- `Summary`: the sheet as a header row plus data rows of optional, opaque cells. It models the 10-column guard, columns A (position 0) and J (position 9), the pairing, and `dropna` on the fund name.
- `Naming`: the document date sanitised for file names (spaces to `_`, periods removed). It also holds the summary's name `Resumen_Fondos_Rendimientos_<date>_<stamp>.xlsx` and the download's name `valores_diarios_temp_<YYYYMMDD>.xlsx`.
- `Pipeline`: a class `Downloads<C>` whose `files` map is the download directory. `FetchLatest` saves the download, `Summarise` writes the summary and always runs the `finally` clean-up, and `Run` is `main`.

## Model

| member | source | states |
|---|---|---|
| Text.ContainsIff | descarga_cnv_automatica.py:29 | the recursive substring scan holds exactly when the needle occurs at some position of the text (Python's `in`) |
| Text.LeadingSpaces | descarga_cnv_automatica.py:31 | the number of characters the left strip removes: all of them whitespace, and the next character, if any, is not |
| Text.TrailingSpaces | descarga_cnv_automatica.py:31 | the number of characters the right strip removes: all of them whitespace, and the character before them, if any, is not |
| Text.Strip | descarga_cnv_automatica.py:31 | the stripped text is no longer than the text and, when not empty, neither starts nor ends with whitespace |
| Text.StripIsSlice | descarga_cnv_automatica.py:31 | `strip()` returns a slice `s[i..j]` with only whitespace before `i` and after `j`, and no whitespace at either end of the result |
| Text.StripIdempotent | descarga_cnv_automatica.py:31 | stripping a stripped label changes nothing |
| Text.StripKeepsOccurrence | descarga_cnv_automatica.py:29-31 | a needle that begins and ends with non-whitespace and occurs in the text still occurs in the stripped text |
| Text.ReplaceChar | descarga_cnv_automatica.py:91 | same length; each position holds the replacement where the input held the replaced character, and the input character otherwise |
| Text.DeleteChar | descarga_cnv_automatica.py:91 | the deleted character no longer occurs, the length drops by its number of occurrences, and every other character that was present is still present |
| Text.DeleteCharAppend | descarga_cnv_automatica.py:91 | deleting a character from a concatenation gives the deletion from the first part followed by the deletion from the second part |
| Links.FirstLink | descarga_cnv_automatica.py:28-32 | yields the position of the first anchor whose text contains "jun 2025" or "may 2025", with no such anchor before it, or none exactly when no anchor matches |
| Links.Resolve | descarga_cnv_automatica.py:39-42 | an href that starts with "http" is used unchanged, and any other href is joined to the index URL |
| Links.Select | descarga_cnv_automatica.py:28-42 | a link is selected exactly when some anchor's text contains one of the two months and the first such anchor's href is not empty |
| Links.SelectLink | descarga_cnv_automatica.py:25-42 | the loop that stops at the first match, followed by the falsy-href check and href resolution, returns exactly `Select` of the anchors |
| Links.SelectFirst | descarga_cnv_automatica.py:28-42 | a first matching anchor with a non-empty href is selected. Its href is used unchanged when it starts with "http" and joined to the index URL otherwise, and its stripped text is the document date |
| Links.SelectNone | descarga_cnv_automatica.py:34-36 | a page where no anchor's text contains either month yields "no link" |
| Links.SelectEmptyHref | descarga_cnv_automatica.py:29-36 | when the first matching anchor's href is the empty string, the result is "no link", even if a later anchor matches with a usable href |
| Links.SelectIgnoresLater | descarga_cnv_automatica.py:28-32 | once a page contains a matching anchor, appending more anchors never changes the selection |
| Links.FirstLinkPrefix | descarga_cnv_automatica.py:28-32 | the first match of a page is also the first match of any extension of the page |
| Links.SelectedOrigin | descarga_cnv_automatica.py:29-42 | a selection comes from the first matching anchor with a non-empty href, as its resolved URL and stripped text. The selected date still contains "jun 2025" or "may 2025" |
| Summary.Width | descarga_cnv_automatica.py:73 | the column count is at least the length of every row and equals the length of some row (0 for an empty sheet) |
| Summary.Extract | descarga_cnv_automatica.py:73-88 | fails with "too few columns" exactly when the sheet has fewer than 10 columns, and otherwise yields the summary rows of the rows after the header row |
| Summary.DropMissingNames | descarga_cnv_automatica.py:88 | keeps as many rows as the frame has rows with a present fund name |
| Summary.DropMissingNamesAppend | descarga_cnv_automatica.py:88 | dropping rows from a concatenation is the concatenation of the two results, so the relative order is kept |
| Summary.DropMissingNamesMembers | descarga_cnv_automatica.py:88 | a (name, yield) summary row is present exactly when the frame has that row with the name present |
| Summary.SummaryRowsAppend | descarga_cnv_automatica.py:78-88 | the summary of data rows `a` followed by `b` is the summary of `a` followed by that of `b` |
| Summary.SummaryRowsSingle | descarga_cnv_automatica.py:78-88 | one data row becomes (column A, column J) when column A is present, and nothing otherwise, even when column J holds a value |
| Summary.SummaryRowsCount | descarga_cnv_automatica.py:88-99 | the number of summary rows equals the number of data rows whose column A is present |
| Summary.SummaryRowsCons | descarga_cnv_automatica.py:78-88 | the first data row is summarised on its own and placed before the summary of the remaining rows |
| Summary.ExtractedRows | descarga_cnv_automatica.py:78-88 | with at least 10 columns, extraction succeeds and has one row per data row with a fund name. (n, y) is a summary row exactly when some data row has n in column A and y in column J |
| Summary.FiveRowSheet | descarga_cnv_automatica.py:70-88 | a 12-column sheet with five data rows, the third without a name, gives rows 1, 2, 4 and 5 with their own names and yields |
| Naming.Sanitise | descarga_cnv_automatica.py:91 | the sanitised date has no spaces and no periods, and its length is the date's length minus its number of periods |
| Naming.SanitiseAppend | descarga_cnv_automatica.py:91 | sanitising works character by character: a concatenation sanitises to the concatenation of the two results |
| Naming.SanitiseChar | descarga_cnv_automatica.py:91 | a space becomes `_`, a period disappears, any other character is kept |
| Naming.SanitiseFixes | descarga_cnv_automatica.py:91 | a date without spaces or periods is left unchanged |
| Naming.SanitiseIdempotent | descarga_cnv_automatica.py:91 | sanitising twice is sanitising once |
| Naming.SanitiseDottedDate | descarga_cnv_automatica.py:91 | a date written "<month>. <year>", with neither part holding a space or a period, becomes "<month>_<year>" |
| Naming.SanitiseExample | descarga_cnv_automatica.py:91 | "jun. 2025" becomes "jun_2025" |
| Naming.OutputName | descarga_cnv_automatica.py:92 | the summary's name is `Resumen_Fondos_Rendimientos_`, then the sanitised date, an `_`, the timestamp and `.xlsx`, each at its own position |
| Naming.TempName | descarga_cnv_automatica.py:50 | the download's name starts with `valores_diarios_temp_`, ends with `.xlsx`, and holds exactly the date in between |
| Naming.OutputNameSingleDot | descarga_cnv_automatica.py:91-92 | with a timestamp free of periods, the summary's file name contains exactly one period, the one of `.xlsx` |
| Naming.OutputNameNotTempName | descarga_cnv_automatica.py:50-93 | the summary's file name never equals the downloaded sheet's file name |
| Pipeline.Cleanup | descarga_cnv_automatica.py:111-118 | without a removal failure the input is gone afterwards, and with one the directory is unchanged. No other path is added or removed, and no file's content changes |
| Pipeline.CleanupIdempotent | descarga_cnv_automatica.py:113-118 | cleaning up again after a successful clean-up changes nothing, whether or not that second removal would fail |
| Pipeline.FetchOutcome | descarga_cnv_automatica.py:16-61 | a result is produced exactly when the index page is present, the first anchor whose text contains either month has a non-empty href, the download of its resolved href succeeds and the save succeeds. The result is then that anchor's stripped text and the downloaded workbook |
| Pipeline.ReadSheet | descarga_cnv_automatica.py:70 | reading succeeds exactly when the path holds a readable downloaded sheet, and then yields that sheet's grid |
| Pipeline.SummaryOutcome | descarga_cnv_automatica.py:67-109 | a summary is written exactly when the sheet was read, has at least 10 columns and the write succeeds, and it is then the summary rows of the rows after the header row |
| Pipeline.FetchedDateNamesMonth | descarga_cnv_automatica.py:28-57 | the document date the fetcher returns contains "jun 2025" or "may 2025" |
| Pipeline.AfterFetchedRun | descarga_cnv_automatica.py:53-118 | after the download is saved, the summary is written if it can be, and the clean-up runs, every other file keeps its content. The download is gone unless its removal failed, the summary is present after a success, and a failure adds no path besides the download |
| Pipeline.Downloads.FetchLatest | descarga_cnv_automatica.py:10-61 | on a failed index request, no selected link, a failed download or a failed save, the result is "no download" and the directory is unchanged. Otherwise the workbook is stored under `valores_diarios_temp_<today>.xlsx`, overwriting, and that path is returned with the document date |
| Pipeline.Downloads.Summarise | descarga_cnv_automatica.py:63-118 | the result is true exactly when reading, the 10-column guard and writing all succeed. The summary is then stored under its output name with the sheet name `Resumen_Rendimientos`. The input is removed on every path unless the removal fails, the removal never changes the result, and a failed run adds no file |
| Pipeline.Downloads.Run | descarga_cnv_automatica.py:120-142 | the run aborts exactly when fetching yields nothing, and then the directory is unchanged. Otherwise the new directory is the clean-up of the old one with the download saved and, after a success, the summary written. Every other file keeps its content, the download is gone unless its removal failed, and a failed run adds no file besides a download whose removal failed |

## Left out

- HTTP requests and `raise_for_status` (lines 18-19, 46-47): network I/O. A failed index request is `None` for the page, and a failed download is `None` from the download parameter.
- HTML parsing (lines 22, 25): the anchors that carry an href, each with its visible text and href, are the input.
- `urljoin` (line 40): a library call, passed in as an uninterpreted function.
- `pd.read_excel` and `to_excel` file formats (lines 70, 96): a workbook is either unreadable or a grid of rows of optional opaque cells, and the summary file is stored as its sheet name and rows. The grid is taken as the reader delivers it, with rows padded to the widest row, so a sheet's width is its longest row. Trimming of trailing empty cells and rows, and column-name handling, are not modelled; the code only uses positions.
- Pipeline.ReadSheet: a summary file written by an earlier run reads as unreadable instead of as a two-column sheet. Both paths make the summariser return `False`.
- Pipeline.Downloads.FetchLatest and Pipeline.Downloads.Summarise: a failed save or write leaves the directory unchanged, so an earlier file at the same path keeps its old content. Python's `open(..., 'wb')` truncates that file first (line 53), and partially written files are not modelled.
- `datetime.now()` and `os.path.expanduser` (lines 50-51, 92-93, 125, 142): the date, the timestamp and the download directory are parameters. `os.path.join` is kept as a (directory, name) pair.
- Console output, including the row count and the five-row preview (lines 98-103) and all progress and error messages: plain I/O.
- Yield values are opaque (type parameter `C`): the code never computes on them.
