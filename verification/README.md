# Free Download Manager: a verified model of its parsers and dialogs

This project models the parts of Free Download Manager that hold algorithms or protocols, and proves
what they promise. `dafny verify dfyconfig.toml` checks all of it.

- **CSV reader** (`CsvFormat`, `CsvAgreement`, `CsvRowRoundTrip`, `CsvDocument`, `CsvParser`). Records
  are cut out of the content by an automaton that toggles at every qualifier; fields are cut out of a
  record by looking for runs of odd length. The two agree on every text, the input is conserved, and
  documents in the format of section 2 of RFC 4180 round-trip, with the exact conditions under which
  they do.
- **Linked audio and video** (`LinkedAudio`, `FlvSelectionDlg`). Audio tracks follow the videos that
  use them; the change notification re-enters the dialog.
- **Dialing** (`DialSession`, `DialDlg`). Callbacks with nested retry counters and a counted reference.
- **Batch downloads** (`BatchDialog`). A dialog with two cached lists refines one that has no cache.
- **File trees and lists** (`FileTree`, `FileLeaves`, `CreateDownloadsDlg`, `UrlList`, `TorrentFiles`). Traversals,
  parallel lists and an array that must stay aligned.
- **Text encodings** (`ProxyPage`, `TreeColumns`). `name:port` behind a re-entrant change handler, and
  columns joined by tabs.

Objects that the source updates in place are classes whose methods follow the source; each method is
proved against functions over values, and the main results are lemmas about those functions over all
inputs or all runs. Windows, message boxes, the dialing service, the user's answers, URL cracking and
batch expansion are parameters.

Where the code does not do what one would expect, the code is kept and the exact condition is proved:

- A record's first character is never inspected by the scanner (`CsvDocument.RowRecovered`,
  `CsvDocument.FirstFieldGuard`, `CsvDocument.SwallowingFirstField`,
  `CsvAgreement.ScannerAgreesExactly`, `CsvDocument.DocumentRoundTrip`).
- A qualified field of qualifiers only, even the empty one, keeps its qualifiers
  (`CsvRowRoundTrip.RowRoundTrip`).
- Sorting the root items can match downloads with the wrong files (`FileTree.SortedAlignment`).
- Removing an audio track in use, confirmed or unasked, ends the closed form
  (`LinkedAudio.ClickKeepsSettled`, `LinkedAudio.OpeningDismissal`).
- A track that is missing from the list is taken for the first item (`LinkedAudio.SafeIsExact`,
  `LinkedAudio.SafeRuns`).
- A size query may find no downloads (`BatchDialog.BatchDlg.OnQuerysize`).
- The proxy page does not leave a protocol marked as modified without a name and a port
  (`ProxyPage.ProxyPageDlg.SwitchAndBack`).

## Model

| member | source | states |
|---|---|---|
| `CsvReader.CsvParser.Init` | trunc/CsvParser.cpp:17-32 | separators that are not single characters are replaced by the quotation mark and the comma; reading starts at the beginning |
| `CsvReader.CsvParser.CountQuote` | trunc/CsvParser.cpp:45-56 | -1 exactly for a start outside the text (so also for an empty text), else the length of the run of qualifiers there |
| `CsvReader.CsvParser.FindSingleQuote` | trunc/CsvParser.cpp:58-78 | the end of the first odd run from the start on, or -1, also for starts at or behind the end |
| `CsvReader.CsvParser.FindDelimiter` | trunc/CsvParser.cpp:80-107 | the parity search returns the very delimiter at which the toggling scanner would first re-open its scope |
| `CsvReader.CsvParser.DecodeValue` | trunc/CsvParser.cpp:109-134 | under the source's assertion: qualifiers stripped and un-doubled up to the closing one, the rest kept |
| `CsvReader.CsvParser.ProcLastField` | trunc/CsvParser.cpp:136-141 | the whole record becomes the value and the record is emptied |
| `CsvReader.CsvParser.ProcLastButOneField` | trunc/CsvParser.cpp:143-148 | the record without its trailing delimiter becomes the value and the record is emptied |
| `CsvReader.CsvParser.ProcField` | trunc/CsvParser.cpp:150-155 | the record is cut at the delimiter into value and rest |
| `CsvReader.CsvParser.GetNextField` | trunc/CsvParser.cpp:157-185 | reads one field as specified; true strictly shortens the record, false leaves it empty |
| `CsvReader.CsvParser.Sgets` | trunc/CsvParser.cpp:187-230 | stops where the functional automaton stops, strips only a carriage return in front of the line feed, and re-opens its scope at exactly the automaton's delimiters |
| `CsvReader.CsvParser.ParseNextRecord` | trunc/CsvParser.cpp:34-43 | true exactly if content follows the line feed; then the position has moved by 2 or more and is inside the content |
| `CsvReader.CsvParser.ReadFields` | trunc/orbit_download.cpp:34-34 | looping until false yields all fields of the record |
| `CsvReader.CsvParser.ReadDocument` | trunc/orbit_download.cpp:25-89 | looping over records and fields yields the whole document; the loops end |
| `CsvFormat.FindCut` | trunc/CsvParser.cpp:80-113 | for every row the closing index is -1 or at least 2, inside the row and in front of the delimiter: the assertion of the decoder holds on every call |
| `CsvAgreement.CutInside` | trunc/CsvParser.cpp:58-107 | inside a field the per-character toggling ends exactly behind the first odd run |
| `CsvAgreement.CutAgrees` | trunc/CsvParser.cpp:80-107 | one field: parity search and automaton find the same delimiter, on every text |
| `CsvAgreement.RecognisersAgree` | trunc/CsvParser.cpp:58-107 | all fields: on every text, well formed or not, the two recognisers cut at the same positions |
| `CsvAgreement.ScannerAgrees` | trunc/CsvParser.cpp:192-210 | the delimiters re-opening the scope in a scanned record are the field cuts of that record with its first character, which is never inspected, taken as an ordinary one |
| `CsvAgreement.ScannerAgreesExactly` | trunc/CsvParser.cpp:192-210 | with its own first character a scanned record is cut at the same places by scanner and field reader if and only if the first field's end is the first delimiter behind that character |
| `CsvAgreement.FieldsAreCut` | trunc/CsvParser.cpp:157-185 | a record has one field more than it has cuts |
| `CsvRowRoundTrip.UndoubleDouble` | trunc/CsvParser.cpp:128-131 | un-doubling undoes doubling |
| `CsvRowRoundTrip.OddRunEndDoubled` | trunc/CsvParser.cpp:58-78 | behind an opening qualifier the odd-run search passes every doubled qualifier and finds the closing one |
| `CsvRowRoundTrip.FieldRoundTrip` | trunc/CsvParser.cpp:80-185 | a printed field, last or not, is read back exactly if it is readable: bare without delimiter and with an even number of leading qualifiers, or qualified with something besides qualifiers |
| `CsvRowRoundTrip.ReadAllQuotes` | trunc/CsvParser.cpp:85-104 | a qualified text of qualifiers only, such as the empty one, keeps all its qualifiers |
| `CsvRowRoundTrip.ReadTrailing` | trunc/CsvParser.cpp:109-185 | text behind the closing qualifier is kept as it is, up to the delimiter: only what stands between the qualifiers is un-doubled |
| `CsvRowRoundTrip.ReadUnterminated` | trunc/CsvParser.cpp:91-134 | a qualified field that is never closed is un-doubled to the end of the record |
| `CsvRowRoundTrip.EveryField` | trunc/CsvParser.cpp:80-185 | the first field of every record, well formed or not, is bare text up to the first delimiter, a doubled text that is never closed, or a doubled text between qualifiers with bare text behind it, and its value is that text un-doubled |
| `CsvRowRoundTrip.RowRoundTrip` | trunc/CsvParser.cpp:80-185 | a printed record is read back field by field if and only if all its fields are readable |
| `CsvDocument.LinesConserve` | trunc/CsvParser.cpp:34-43 | for any content, records and separators make it up again; all but the last separator are line ends; n characters hold at most n/2 + 1 records |
| `CsvDocument.DocumentIsLines` | trunc/CsvParser.cpp:34-43 | the document is the fields of those records |
| `CsvDocument.SingleQuoteIsFirstOddRun` | trunc/CsvParser.cpp:58-78 | the search for a single qualifier finds the end of the first maximal run of odd length, or there is none |
| `CsvDocument.RowRecovered` | trunc/CsvParser.cpp:187-230 | any record text in front of a line end, the empty one included, is recovered if and only if it is not empty, the automaton, started behind the first character, meets no line feed outside a field and ends outside, and no carriage return of the record precedes a bare line feed |
| `CsvDocument.FirstFieldOutside` | trunc/CsvParser.cpp:192-221 | if the text read without its qualifier scope (first field behind its first character, or the second field after an empty first one) leaves the automaton outside, the record is recovered if and only if it is not empty and the automaton passes that text |
| `CsvDocument.FirstFieldGuard` | trunc/CsvParser.cpp:192-221 | if that text belongs to a field without delimiter: if and only if the record is not empty and the text has no line feed, qualified or not |
| `CsvDocument.BrokenFirstField` | trunc/CsvParser.cpp:192-221 | a qualified first field with a line break, readable by itself, is torn apart |
| `CsvDocument.SwallowingFirstField` | trunc/CsvParser.cpp:192-221 | a qualified first field with a delimiter can swallow the next line without any line break of its own |
| `CsvDocument.CountFields` | trunc/CsvParser.cpp:109-185 | reading a record's fields loses only qualifiers and the delimiters between the fields: every other character is in the values as often as in the record |
| `CsvDocument.LostRow` | trunc/CsvParser.cpp:157-230 | a record whose text is not recovered as it is never reads back as its fields |
| `CsvDocument.DocumentRoundTrip` | trunc/CsvParser.cpp:34-230 | every document, any records with either line end or, for the last one, none, is read back record by record and field by field if and only if every record has fields, all readable, its text is recovered, and nothing empty stands unterminated behind another record |
| `CsvDocument.SafeRecoverable` | trunc/CsvParser.cpp:187-230 | that holds if in every record, none empty, the first text read has neither delimiter nor line break and the further fields are contained |
| `FlvSelection.FlvSelectionDlg.OnInitDialog` | trunc/DlgCreateFlvDownloads.cpp:59-61 | the selection is cut or filled with selected items to the list's length, nothing is marked as the user's, boxes show the selection, the maps describe the list |
| `FlvSelection.FlvSelectionDlg.BuildMaps` | trunc/DlgCreateFlvDownloads.cpp:78-87 | the three URL maps say what the list says, repeated URLs included |
| `FlvSelection.Maps.AddSays` | trunc/DlgCreateFlvDownloads.cpp:80-87 | one more download keeps the maps in step with the list |
| `FlvSelection.FlvSelectionDlg.SetItemState` | trunc/DlgCreateFlvDownloads.cpp:294-296 | a changed box re-enters the handler and ends up in the selection; nothing else changes |
| `FlvSelection.FlvSelectionDlg.OnItemChanged` | trunc/DlgCreateFlvDownloads.cpp:237-273 | ignored before initialisation, only noted while the dialog changes a box, otherwise one click as specified |
| `FlvSelection.FlvSelectionDlg.LookUp` | trunc/DlgCreateFlvDownloads.cpp:281-281 | the index map makes up a zero for an unknown URL and still says the same |
| `FlvSelection.FlvSelectionDlg.SelectLinkedAudioDownload` | trunc/DlgCreateFlvDownloads.cpp:275-306 | the audio track follows, unless it is the user's or another selected video uses it |
| `FlvSelection.FlvSelectionDlg.ShowLinkedAudioUnselectedWarningIfRequired` | trunc/DlgCreateFlvDownloads.cpp:308-328 | a track in use is selected again unless the user confirms |
| `FlvSelection.FlvSelectionDlg.GetLinkedAudioVideoDownloadCountSelected` | trunc/DlgCreateFlvDownloads.cpp:330-346 | the number of selected videos using the track |
| `FlvSelection.FlvSelectionDlg.UserClick` | trunc/DlgCreateFlvDownloads.cpp:237-273 | a click keeps boxes and selection equal and does what the specification says |
| `FlvSelection.FlvSelectionDlg.UserClicks` | trunc/DlgCreateFlvDownloads.cpp:237-346 | any sequence of clicks takes the dialog through the specified session, so the results below hold of it |
| `LinkedAudio.PinnedStaysSelected` | trunc/DlgCreateFlvDownloads.cpp:237-346 | on every run over any list, with any answers, what the user selected himself is selected |
| `LinkedAudio.LastIndexIsLast` | trunc/DlgCreateFlvDownloads.cpp:80-87 | a repeated URL stands for its last download |
| `LinkedAudio.AudioOfIsLast` | trunc/DlgCreateFlvDownloads.cpp:80-87 | and its track is that of its last download with one |
| `LinkedAudio.CountIsUse` | trunc/DlgCreateFlvDownloads.cpp:330-346 | with distinct URLs, missing tracks or not, the multimap count is positive exactly if a selected video links to the track |
| `LinkedAudio.ClickIs` | trunc/DlgCreateFlvDownloads.cpp:237-328 | a click on an item whose track is in the list changes it and at most its track, by conditions on the links alone |
| `LinkedAudio.ClickMissing` | trunc/DlgCreateFlvDownloads.cpp:281-281 | a click on an item whose track is missing changes it and at most the first item, which follows as if it were the track |
| `LinkedAudio.ClickKeepsSettled` | trunc/DlgCreateFlvDownloads.cpp:237-328 | a click keeps the closed form (track selected iff wanted by the user or used by a selected video) if and only if it is not an unquestioned or confirmed removal of a track in use; the clicked item's track is in the list or the list is safe |
| `LinkedAudio.ClickKeepsNoOrphan` | trunc/DlgCreateFlvDownloads.cpp:237-328 | a click leaves no track selected on its own account, whatever the answers, under the same condition |
| `LinkedAudio.SafeIsExact` | trunc/DlgCreateFlvDownloads.cpp:237-328 | clicks keep the absence of orphans from every choice that has none, and clicks that are no removal keep the closed form from every choice that has it, if and only if no track is missing or the first item is neither a track nor a video with its track in the list |
| `LinkedAudio.SelectingOrphans` | trunc/DlgCreateFlvDownloads.cpp:281-281 | first failure: the first item a track, a video with a missing one is selected |
| `LinkedAudio.UnselectingOrphans` | trunc/DlgCreateFlvDownloads.cpp:281-304 | second failure: the first item a video, unselecting a video with a missing track unselects it and leaves its track behind |
| `LinkedAudio.SessionKeepsSettled` | trunc/DlgCreateFlvDownloads.cpp:237-346 | with the warning enabled and never confirmed, the closed form holds after every run over a safe list |
| `LinkedAudio.SessionKeepsNoOrphan` | trunc/DlgCreateFlvDownloads.cpp:237-346 | over a safe list, whatever the answers, a selected track that is not the user's has a selected video using it |
| `LinkedAudio.SafeRuns` | trunc/DlgCreateFlvDownloads.cpp:59-346 | from the opening, all runs keep the absence of orphans, and all unconfirmed warned ones the closed form, if and only if the list is safe |
| `LinkedAudio.OpeningDismissal` | trunc/DlgCreateFlvDownloads.cpp:59-328 | right after the opening a click on a track keeps the closed form exactly if it is warned and not confirmed |
| `LinkedAudio.OpeningChoice` | trunc/DlgCreateFlvDownloads.cpp:59-61 | the dialog opens in a state with all three properties |
| `LinkedAudio.MissingAudio` | trunc/DlgCreateFlvDownloads.cpp:281-281 | a list of three downloads that is not safe, and the click that goes wrong |
| `LinkedAudio.ClickTwice` | trunc/DlgCreateFlvDownloads.cpp:237-328 | selecting an item and unselecting it again restores the whole choice, if the item's track is in the list or it has none |
| `LinkedAudio.ClickTwiceMissing` | trunc/DlgCreateFlvDownloads.cpp:281-304 | with a missing track exactly if the first item was unselected, the user's, or a track in use |
| `Dialing.DialDlg.OnInitDialog` | trunc/DialDlg.cpp:56-136 | a dialog that finds another reference closes at once; otherwise one reference is taken, a scheduled session dials and an interactive one without entries closes |
| `Dialing.DialDlg.StartConnect` | trunc/DialDlg.cpp:373-394 | counters cleared, one dialing started, the button disabled |
| `Dialing.DialDlg.OnConnect` | trunc/DialDlg.cpp:396-402 | works only while the button is enabled |
| `Dialing.DialDlg.Release` | trunc/DialDlg.cpp:454-461 | the reference goes when the count reaches 0, and the count never goes below |
| `Dialing.DialDlg.CancelInternal` | trunc/DialDlg.cpp:463-500 | hangs up; closes unless an interactive dialing was under way, then enables the button |
| `Dialing.DialDlg.OnCancel` | trunc/DialDlg.cpp:340-350 | keeps the count at the number of references |
| `Dialing.DialDlg.OnNeedEndDialog` | trunc/DialDlg.cpp:404-424 | the release that follows a posted message changes nothing |
| `Dialing.DialDlg.SleepInterval` | trunc/DialDlg.cpp:352-371 | stopped exactly if the user cancels within the polled half seconds, computed in 32 bits |
| `Dialing.DialDlg.RasDialFunc` | trunc/DialDlg.cpp:144-328 | with its nested releases, a callback keeps count and reference in step and has exactly the effect of its verdict |
| `Dialing.DialDlg.RasError` | trunc/DialDlg.cpp:157-245 | errors: retry, give up, or close, with both releases where the session ends |
| `Dialing.DialDlg.RasRedial` | trunc/DialDlg.cpp:199-245 | an error that allows another attempt: counted, then redialed, given up, or interrupted in the pause |
| `Dialing.DialDlg.GiveUp` | trunc/DialDlg.cpp:221-225 | the failure is posted and both references are released, so the session no longer answers |
| `Dialing.DialDlg.RasConnected` | trunc/DialDlg.cpp:266-323 | a line that is too slow is dialed again or given up; a good one succeeds; DialSession.OutcomeExactly says which outcome that is |
| `Dialing.DialDlg.Handle` | trunc/DialDlg.cpp:56-500 | any sequence of callbacks, cancellations, presses and end messages takes the dialog through the specified run, so the results below hold of it; the count stays 0 or 1 |
| `DialSession.OneOutcome` | trunc/DialDlg.cpp:144-328 | over any run at most one outcome is posted; once it is, or the dialog is closed, no callback changes anything |
| `DialSession.OutcomeExactly` | trunc/DialDlg.cpp:144-328 | over any run from the opening: success is posted if and only if an answered callback finds the line up without error at the speed asked for; failure if and only if the session is scheduled and an answered callback brings an unknown error, the last allowed error, or a slow line without repetitions left |
| `DialSession.EndedExactly` | trunc/DialDlg.cpp:340-424 | over any run: the dialog ends with success if and only if a posted success arrives, and with failure if and only if a posted failure arrives or it is closed without an outcome |
| `DialSession.StepDials` | trunc/DialDlg.cpp:144-328 | which events start a dialing, and whose handle is held afterwards |
| `DialSession.DialingsCounted` | trunc/DialDlg.cpp:144-402 | a run starts exactly one dialing for each press of the enabled button, each passing error with attempts left and each slow line with repetitions left |
| `DialSession.PressedOnce` | trunc/DialDlg.cpp:396-402 | pressing the button any number of times dials once |
| `DialSession.PollsTwice` | trunc/DialDlg.cpp:352-371 | a pause of less than 2^31 milliseconds is polled twice a second, one of less than 2^32 is taken as negative and not at all |
| `DialSession.CancelEnds` | trunc/DialDlg.cpp:340-371 | a scheduled session cancelled between callbacks or in a pause starts no dialing and posts nothing any more |
| `DialSession.CancelThenConnect` | trunc/DialDlg.cpp:463-500 | cancelling an interactive dialing with a handle lets the button dial again; without one the dialog closes |
| `DialSession.DialingBounded` | trunc/DialDlg.cpp:199-302 | a scheduled session starts at most (agains + 1) * max(1, attempts) dialings, and max(1, attempts) without a speed limit |
| `DialSession.BoundIsMet` | trunc/DialDlg.cpp:199-302 | some run starts exactly that many |
| `DialSession.NoDialAfterOutcome` | trunc/DialDlg.cpp:144-150 | a scheduled session that is over starts no dialing in any continuation |
| `BatchDialog.BatchDlg.constructor` | trunc/CreateBatchDownload.cpp:167-184 | for any two numbers in the settings, out of range or not, the letters selected are the restored ones; the flag is set and no downloads are cached |
| `BatchDialog.LettersRestored` | trunc/CreateBatchDownload.cpp:167-184 | the letters chosen come back from the settings if and only if there is a second one and it is not the twenty-sixth of the list without a first letter |
| `BatchDialog.BatchDlg.BuildBatchList` | trunc/CreateBatchDownload.cpp:588-612 | succeeds exactly if the values shown expand; afterwards the cache is clean and agrees; a clean cache is left alone |
| `BatchDialog.BatchDlg.GenerateDownloads` | trunc/CreateBatchDownload.cpp:836-850 | one download for each list entry, in order |
| `BatchDialog.BatchDlg.CheckUrl` | trunc/CreateBatchDownload.cpp:620-641 | reads the URL field and accepts what the URL test accepts |
| `BatchDialog.BatchDlg.FillZ` | trunc/CreateBatchDownload.cpp:978-995 | the second list runs from the letter after the first to Z and keeps its letter if it is still there, else takes Z |
| `BatchDialog.BatchDlg.OnSelchangeA` | trunc/CreateBatchDownload.cpp:997-1001 | the displayed letters change as specified and the flag is set |
| `BatchDialog.BatchDlg.OnSelchangeZ` | trunc/CreateBatchDownload.cpp:1003-1006 | the second letter is the one at the position chosen |
| `BatchDialog.BatchDlg.OnEditchangeUrl` | trunc/CreateBatchDownload.cpp:398-409 | the URL changes and the flag is set |
| `BatchDialog.BatchDlg.OnChangeNumbers` | trunc/CreateBatchDownload.cpp:1008-1018 | the numbers change and the flag is set |
| `BatchDialog.BatchDlg.OnResults` | trunc/CreateBatchDownload.cpp:577-586 | shows the list expanded from the values shown, cached or not |
| `BatchDialog.BatchDlg.OnQuerysize` | trunc/CreateBatchDownload.cpp:852-871 | asks the downloads of the values shown; there are none exactly if the list was clean and never turned into downloads |
| `BatchDialog.BatchDlg.OnOK` | trunc/CreateBatchDownload.cpp:643-734 | rejects or hands over exactly what a dialog without any cache would |
| `BatchDialog.BatchDlg.ReadSaveAs` | trunc/CreateBatchDownload.cpp:651-681 | the save-as list is that of the values shown, and passes if it is as long as the URL list and its first name is good |
| `BatchDialog.BatchDlg.GenerateAndAddDownloads` | trunc/CreateBatchDownload.cpp:802-834 | the assertion on the save-as list holds; URLs and names are paired in order; the downloads are released |
| `BatchDialog.BatchDlg.HandleAll` | trunc/CreateBatchDownload.cpp:577-1018 | over any sequence of events every reply is exactly the one worked out afresh from the values shown at that moment; a size query has no downloads to ask exactly if something else was asked first since the last change |
| `BatchDialog.Update` | trunc/CreateBatchDownload.cpp:978-1018 | the letters chosen stay in order and in range |
| `BatchDialog.EnterThen` | trunc/CreateBatchDownload.cpp:398-1018 | after any run, entering a URL, numbers and two letters shows just these and forgets what was asked before |
| `BatchDialog.ResultsOfEntered` | trunc/CreateBatchDownload.cpp:577-612 | the results are then the expansion of that URL with those numbers and those two letters of the alphabet, or a rejection exactly if the URL is not accepted or does not expand |
| `BatchDialog.DownloadsOfEntered` | trunc/CreateBatchDownload.cpp:643-834 | an accepted OK hands over one download for each URL of that expansion, named by the save-as template in the same place, or rejects exactly if the URL, the expansion, the number of names or the first name is bad |
| `BatchDialog.SizeOfEntered` | trunc/CreateBatchDownload.cpp:852-871 | asked first, the size is that of the expansion, and again after the results are shown; asked after the results only, there is nothing to ask |
| `CreateDownloads.CreateDownloadsDlg.AddToList` | trunc/CreateDownloadsDlg.cpp:129-145 | the items of the tree, all checked |
| `CreateDownloads.CreateDownloadsDlg.BuildDownloads` | trunc/CreateDownloadsDlg.cpp:200-235 | appends the URLs of the tree's files in its own order |
| `CreateDownloads.CreateDownloadsDlg.OnInitDialog` | trunc/CreateDownloadsDlg.cpp:104-116 | control and download list describe the same tree, up to the order of the root items |
| `CreateDownloads.CreateDownloadsDlg.StartChecked` | trunc/CreateDownloadsDlg.cpp:321-371 | the counter advances by the number of files; what is started is taken at the counter |
| `CreateDownloads.CreateDownloadsDlg.OnOK` | trunc/CreateDownloadsDlg.cpp:268-302 | the counter ends at the list's length and every index is in range; unsorted, the started downloads are the checked files below checked folders, each with its own URL and folder |
| `FileLeaves.ItemsOfTree` | trunc/CreateDownloadsDlg.cpp:129-145 | the control shows a tree's items where they are in the tree: children to the right, siblings to the left |
| `FileLeaves.LeafHasPath` | trunc/CreateDownloadsDlg.cpp:200-371 | every leaf lies at the end of a path of items to a file; its URL resolves the names along the path, its folder is the names above it, and it is on exactly if all items of the path are checked |
| `FileLeaves.PathHasLeaf` | trunc/CreateDownloadsDlg.cpp:200-371 | and every path to a file has such a leaf |
| `FileLeaves.UrlSpellsPath` | trunc/CreateDownloadsDlg.cpp:200-235 | with names simply appended, the URL is the root, the folders' names each with a slash behind, and the file's name |
| `FileLeaves.ChosenAre` | trunc/CreateDownloadsDlg.cpp:321-371 | what is started are exactly the leaves that are on, each at its own place |
| `FileTree.BuiltForLeaves` | trunc/CreateDownloadsDlg.cpp:200-235 | the k-th download was made for the k-th file of the control |
| `FileTree.PicksAreChosen` | trunc/CreateDownloadsDlg.cpp:321-371 | with the list aligned at the counter, exactly the files that are on are started, in order |
| `FileTree.TraversalsAligned` | trunc/CreateDownloadsDlg.cpp:200-371 | for every tree and every state of the boxes the two traversals stay aligned |
| `FileTree.ReorderedInRange` | trunc/CreateDownloadsDlg.cpp:109-116 | with the root items in any order the counter still ends at the list's length |
| `FileTree.SortedAlignment` | trunc/CreateDownloadsDlg.cpp:109-116 | after sorting, downloads and files match in all states of the boxes if and only if the control lists the same URLs in the same order as the downloads |
| `FileTree.SortingCanMismatch` | trunc/CreateDownloadsDlg.cpp:109-116 | two files in the other order are enough for a mismatch |
| `UrlList.UrlListDlg.WriteUrlsToDialog` | trunc/CreateDownloadListDlg.cpp:470-501 | one row for each URL that can be cracked, carrying its place |
| `UrlList.UrlListDlg.DeleteFromBack` | trunc/CreateDownloadListDlg.cpp:543-544 | deleting ascending positions from the back leaves exactly the other rows, in order |
| `UrlList.UrlListDlg.DeleteSelectedUrls` | trunc/CreateDownloadListDlg.cpp:529-545 | exactly the selected rows go, if the user confirms |
| `UrlList.UrlListDlg.OnFilter` | trunc/CreateDownloadListDlg.cpp:917-942 | in-place removal is filtering by the extension test |
| `UrlList.UrlListDlg.GenerateDownloads` | trunc/CreateDownloadListDlg.cpp:739-871 | each download has the URL its row shows and the cookies and referer of the same place |
| `UrlList.TasksArePlaces` | trunc/CreateDownloadListDlg.cpp:739-871 | the downloads are, in order and one for each row that gives a new one, those of the URL, cookies and referer at the row's place |
| `UrlList.PicksAre` | trunc/CreateDownloadListDlg.cpp:739-871 | those rows are exactly the ones whose URL gives a download that does not exist, in increasing order |
| `UrlList.TasksUnlessAborted` | trunc/CreateDownloadListDlg.cpp:739-871 | there are no downloads exactly if the user aborts at some row that gives one |
| `UrlList.TasksOfAll` | trunc/CreateDownloadListDlg.cpp:739-871 | when every row gives a new download there is one for each row, with the URL and cookies of its place, and the referer of its place unless another one is given |
| `UrlList.DropBelow` | trunc/CreateDownloadListDlg.cpp:543-544 | deleting below everything deleted so far removes just that row |
| `UrlList.DropIsFilter` | trunc/CreateDownloadListDlg.cpp:919-942 | dropping what a test refuses is filtering |
| `UrlList.SessionMatched` | trunc/CreateDownloadListDlg.cpp:470-544 | over any sequence of deletions the places increase strictly and each row shows the URL at its place |
| `UrlList.RowsMatched` | trunc/CreateDownloadListDlg.cpp:470-501 | the filled list is matched, and a URL has a row if and only if it can be cracked |
| `TorrentFiles.FilesPage.AddFiles` | trunc/BtDld_Files.cpp:77-102 | the items for the tree, a folder's box following those below it |
| `TorrentFiles.FilesPage.IsAtLeast1ChildChecked` | trunc/vmsTreeCtrlHelper.cpp:25-40 | some item at any depth below is checked |
| `TorrentFiles.FilesPage.GetFilesPriorities` | trunc/BtDld_Files.cpp:137-161 | the array afterwards is the array before with the boxes' writes applied in order |
| `TorrentFiles.WritesPerFile` | trunc/BtDld_Files.cpp:137-161 | whatever is checked, there is one write for each file, of what its box stands for |
| `TorrentFiles.FilledBoxes` | trunc/BtDld_Files.cpp:95-99 | a file's box is checked exactly if its priority is not 0 |
| `TorrentFiles.FolderBox` | trunc/BtDld_Files.cpp:82-88 | some box at any depth is checked exactly if some file has a priority |
| `TorrentFiles.FolderItem` | trunc/BtDld_Files.cpp:82-88 | a folder's own box is checked exactly if some file below it has a priority |
| `TorrentFiles.SlotsAfterChecking` | trunc/BtDld_Files.cpp:137-161 | a slot is 0 exactly if its file is unchecked, else the original priority or 1 |
| `TorrentFiles.PrioritiesSurvive` | trunc/BtDld_Files.cpp:77-161 | filling the control and writing it back changes no priority |
| `TorrentFiles.ArrayDetermined` | trunc/BtDld_Files.cpp:104-110 | every slot of the uninitialised array is written |
| `ProxyPage.ProxyPageDlg.constructor` | trunc/DownloadProperties_ProxyPage.cpp:287-295 | the page opens showing the first protocol's stored proxy, or blank fields without any protocol |
| `ProxyPage.ProxyPageDlg.CrackProxyName` | trunc/DownloadProperties_ProxyPage.cpp:417-446 | name and port as specified for every text that fits the buffer |
| `ProxyPage.ProxyPageDlg.SetNameText` | trunc/DownloadProperties_ProxyPage.cpp:376-376 | putting a text into the name field re-enters the handler until it leaves the name alone |
| `ProxyPage.ProxyPageDlg.OnChangeProxyname` | trunc/DownloadProperties_ProxyPage.cpp:352-380 | ends with a name the handler would leave alone; marks the protocol unless the page itself is changing the field |
| `ProxyPage.ProxyPageDlg.UpdatePS` | trunc/DownloadProperties_ProxyPage.cpp:593-614 | shows the stored text and changes no stored one |
| `ProxyPage.ProxyPageDlg.ReadPS` | trunc/DownloadProperties_ProxyPage.cpp:515-591 | succeeds exactly if a modified protocol has name and port and the authorisation passes; stores name:port of a modified protocol, or the bare name when the port is blank, even when it fails; shows the next protocol, or what was there; other protocols are untouched |
| `ProxyPage.ProxyPageDlg.SwitchAndBack` | trunc/DownloadProperties_ProxyPage.cpp:646-650 | for any two protocols, modified or not: where the page gets stuck, and that otherwise the first one shows again the name entered and its port in 16 bits (or its stored text if it was not modified) and the other one what it showed |
| `ProxyPage.DigitsDecimal` | trunc/DownloadProperties_ProxyPage.cpp:443-443 | reading a number's decimal digits gives the number |
| `ProxyPage.DigitsSaturate` | trunc/DownloadProperties_ProxyPage.cpp:443-443 | digits beyond the largest number give the largest number |
| `ProxyPage.ToIntReads` | trunc/DownloadProperties_ProxyPage.cpp:443-443 | a port is read behind white space and a sign, up to the first character that is no digit |
| `ProxyPage.CrackWhole` | trunc/DownloadProperties_ProxyPage.cpp:421-433 | a text is left whole if and only if it has no colon, or its last colon is also the first one in front of a slash or the first one in front of a backslash |
| `ProxyPage.CrackAtLast` | trunc/DownloadProperties_ProxyPage.cpp:421-446 | otherwise it is taken apart at its last colon |
| `ProxyPage.PutUrl` | trunc/DownloadProperties_ProxyPage.cpp:352-380 | an address with a scheme is left alone in the name field, whatever the port field holds |
| `ProxyPage.PutPrefix` | trunc/DownloadProperties_ProxyPage.cpp:352-380 | while such an address with one of the usual schemes is typed, the field is never rewritten |
| `ProxyPage.PutUrlWithPort` | trunc/DownloadProperties_ProxyPage.cpp:352-380 | with a port behind it, the port goes to its field and the address stays |
| `ProxyPage.CrackJoined` | trunc/DownloadProperties_ProxyPage.cpp:417-446 | for every name, colons and slashes included, and every 16-bit port, name:port comes apart again |
| `ProxyPage.PutSettles` | trunc/DownloadProperties_ProxyPage.cpp:352-380 | whatever is typed, the handler leaves a name it would leave alone |
| `ProxyPage.ShownWhole` | trunc/DownloadProperties_ProxyPage.cpp:593-606 | a stored text that is left whole is shown with a blank port |
| `ProxyPage.ShownJoined` | trunc/DownloadProperties_ProxyPage.cpp:593-606 | a stored name and port are shown unchanged if and only if the handler leaves the name alone |
| `TreeColumns.ColumnTree.GetItemText` | trunc/ColumnTreeCtrl.cpp:1220-1227 | the part of the item text for the column |
| `TreeColumns.ColumnTree.SetItemText` | trunc/ColumnTreeCtrl.cpp:1229-1241 | the text is rewritten column by column; for a tab-free text that is an array update |
| `TreeColumns.ColumnOfParts` | trunc/ColumnTreeCtrl.cpp:1220-1227 | column k of tab-free parts joined by tabs is the k-th part, and empty if there is none, as for a text without any tab |
| `TreeColumns.EveryText` | trunc/ColumnTreeCtrl.cpp:1220-1227 | every text is some tab-free parts joined by tabs, so that this covers all of them |
| `TreeColumns.SetIsUpdate` | trunc/ColumnTreeCtrl.cpp:1229-1241 | setting a tab-free text changes that column and no other |
| `TreeColumns.SetThenGet` | trunc/ColumnTreeCtrl.cpp:1220-1241 | a text comes back from its column if and only if it has no tab |
| `TreeColumns.SessionIsArray` | trunc/ColumnTreeCtrl.cpp:1220-1241 | over any run of tab-free settings the text behaves as an array of columns |

## Left out

- Embedded null characters and double-byte code pages: the string class of the source stops at the one and steps over the other; characters are single here.
- A parser used before its initialisation: its separators would be empty strings.
- The import of a download list in trunc/orbit_download.cpp beyond its two loops: it uses only fields after which another one follows, and parses numbers out of them.
- Duplicate URLs and tracks with a track of their own are in the model of the selection dialog, but the closed form and the absence of orphans are proved for lists without them.
- The two message boxes of the selection dialog: the first only informs, the answer to the second is a parameter.
- Two dial dialogs at the same time: they share one reference count, and a pending end message of the first would release the second.
- Callbacks that run while the user cancels, except during the pause between attempts: they are taken as atomic.
- Hang-ups of a handle that has just been hung up: those tests of the source never succeed.
- Dialing.DialDlg.OnInitDialog: does not model the list of entries or the automatic start of an interactive dialing, which is a later press of the button.
- BatchDialog.BatchDlg.OnOK: an empty save-as list passes the test of its first name, which the source reads without looking whether there is one.
- The expansion of batch templates and the test of a URL: unknown functions of their arguments, so that the results on the cache hold for any. So are the folder test, the groups and the settings copied into each download.
- The resolution of a name against a URL: an unknown function. The source expects a text that is not empty.
- Tree controls are values: handles, insertion in place and windows are not modelled.
- The comparison by which root items are sorted: any permutation is allowed.
- UrlList.UrlListDlg.GenerateDownloads: does not model user names and passwords, and takes a null referer or cookie as the empty one.
- Clicking a folder of the torrent page, which checks everything below it: the control afterwards is one of the arbitrary states that are covered.
- ProxyPage.ProxyPageDlg.TypePort: a port too large for 32 bits counts as blank.
- User name, password and the authorisation box of the proxy page: only whether they pass.
- The extraction of a substring between separators is modelled after the documentation of the class library, which is not part of the repository.
- Options pages, checksum and duration formatting, and structure copies: they would only add easy members.
