# ForensiCrack core, modelled in Dafny

ForensiCrack is a batch tool for forensic triage. It walks an input directory
and identifies each regular file by its lower-cased extension. It then hands
the file to one engine:

- JPEG images go to stegseek, with a zsteg fallback; PNG and BMP images go to
  zsteg alone; GIF images are counted but nothing is run on them;
- zip and 7-Zip archives get a hashcat mode, or the known-plaintext attack on
  ZipCrypto archives, whose result is extracted into a per-archive directory;
- encrypted PDF and Office documents and `.hash` lists go to hashcat, with a
  John the Ripper fallback.

All cracking engines work through two wordlist tiers, cheapest first, and stop
at the first success. The tool counts the files it processed and its
successes.

The model has one module per source file:

| module | file | form |
|---|---|---|
| `Models` | `forensicrack/models.py` | the `EvidenceFile` record as a datatype; `name` and `ext` are recomputed from the path |
| `FileId` | `forensicrack/file_id.py` | pure functions |
| `Wordlists` | `forensicrack/wordlists.py` | class `WordlistManager` |
| `Archives` | `forensicrack/archives.py` | class `ArchiveEngine`; its state is the map from each extraction directory to the names extracted into it |
| `Steg`, `John` | `forensicrack/steg.py`, `forensicrack/cracking_john.py` | methods with loops, each proved against a specification function |
| `Zsteg` | `forensicrack/steg_zsteg.py` | a function of how the one zsteg run ends |
| `Hashcat` | `forensicrack/cracking_hashcat.py` | mode resolution as functions; the `--show` filter and the wordlist loop as methods proved against functions |
| `App` | `forensicrack/app.py` | class `ForensiCrackApp` with its two counters and its archive engine |

Some small modules support the Python built-ins the code relies on:

- `Strings`: `str.lower`, `str.strip` and `in`;
- `Paths`: `os.path.basename`, `os.path.splitext` and `os.path.join`;
- `Numerals`: `int()` on a string, with its limit on the number of digits;
- `Attempts`: the record of one external program run (`Action`) and the
  shared "try each wordlist in order, stop at the first success"
  specification (`FirstSuccess`).

The world outside is a parameter (`App.World`). It holds:

- the directory listing;
- the set of regular files and the set of existing paths;
- the mime guesses;
- how each external run ends, as a function of the run's full argument record;
- what each zip archive holds;
- the line typed at the mode prompt for each path, or `None` when standard
  input is not a terminal.

Each engine returns its success and the runs it made, in order. The
application's `Execute` returns the concatenation of those runs.

`detect_zip_encryption` returns `None` both for an unreadable archive and for
one without an encrypted member. `resolve_hashcat_mode` then skips the zip
step (`forensicrack/cracking_hashcat.py:192`), and the filename tag or the
prompt decides (`Hashcat.DetectedZipNeverAes`, `App.ArchiveModeOfEntry`).

## Model

| member | source | states |
|---|---|---|
| `Models.NewEvidence` | forensicrack/models.py:5-16 | a record built from a path alone has that path, no hints, no category flags, empty type and metadata |
| `Models.NameFacts` | forensicrack/models.py:18-20 | `name` holds no separator and is the end of the path |
| `Models.ExtForm` | forensicrack/models.py:22-24 | `ext` is empty or a dot followed by no other dot, and has no capital letter |
| `Models.ExtEndsName` | forensicrack/models.py:18-24 | `ext` is a suffix of the lower-cased `name` |
| `Models.DotNameHasNoExt` | forensicrack/models.py:22-24 | a name whose only dot leads it, such as `.hash`, has no extension |
| `FileId.Identify` | forensicrack/file_id.py:12-18 | the extension is the record's `ext`; a failed mime guess becomes `""`; each category flag is raised iff the extension is in that category's set |
| `FileId.AtMostOneFlag` | forensicrack/file_id.py:6-18 | no file is flagged as two categories at once |
| `FileId.ClassifyOffice` | forensicrack/file_id.py:20-26 | an Office class is returned iff the extension is an Office one: office2013 for the x-formats, office2007 for the old ones |
| `FileId.IsPdf` | forensicrack/file_id.py:28-29 | true iff the extension is `.pdf` |
| `FileId.PdfIsNotOffice` | forensicrack/file_id.py:6-10 | a PDF extension is neither Office, graphic nor archive |
| `Wordlists.Tiers` | forensicrack/wordlists.py:10-16 | the tier list for a set of existing paths; `Wordlists.WordlistManager.EscalatingLists` states its properties |
| `Wordlists.WordlistManager.constructor` | forensicrack/wordlists.py:5-8 | the two tier paths are `brockyou.txt` and `passphrases.txt` inside the wordlist directory |
| `Wordlists.WordlistManager.EscalatingLists` | forensicrack/wordlists.py:10-16 | exactly the tiers that exist, brockyou before passphrases, none twice, at most two; empty iff neither exists |
| `Wordlists.WordlistManager.DistinctTiers` | forensicrack/wordlists.py:5-8 | the two tier paths differ |
| `Archives.ZipHintFacts` | forensicrack/archives.py:14-29 | the heuristic never answers `"aes"`; it answers `"zipcrypto"` iff a readable archive has a member with flag bit 0 set; a bad or empty archive gives no hint |
| `Archives.ZipHint` | forensicrack/archives.py:14-29 | the value `detect_zip_encryption` returns for an archive's listing; its properties are in `Archives.ZipHintFacts` |
| `Archives.EntryNames` | forensicrack/archives.py:66-68 | an unreadable archive extracts no name; a readable one extracts one name per member, name `i` being member `i`'s file name |
| `Archives.ArchiveEngine.constructor` | forensicrack/archives.py:9-12 | the engine keeps the archive directory and has extracted nothing yet |
| `Archives.ArchiveEngine.DetectZipEncryption` | forensicrack/archives.py:14-29 | the member scan, which stops at the first encrypted member, returns the heuristic's value |
| `Archives.ArchiveEngine.RunPkcrack` | forensicrack/archives.py:31-53 | runs pkcrack once with the given archives and files; succeeds iff the exit status is 0 |
| `Archives.ArchiveEngine.ExtractToArchiveDir` | forensicrack/archives.py:55-72 | returns `archive_dir/<stem>` even for an unreadable archive; that directory now holds exactly the archive's member names (none if unreadable); no other directory changes |
| `Archives.ArchiveEngine.OutDirFacts` | forensicrack/archives.py:59-61 | the extraction directory's last component is the archive's stem |
| `Attempts.FirstSuccessFacts` | forensicrack/steg.py:12-25 | trying runs in order succeeds iff some run succeeds; it then ends with the first successful run, every earlier run having failed; otherwise every run was made |
| `Attempts.FirstSuccessStops` | forensicrack/steg.py:12-25 | the runs made are a prefix of the plan; on success the last succeeded and every earlier one failed; on failure every run was made and none succeeded |
| `Attempts.StopsAt` | forensicrack/steg.py:12-21 | the attempts stop right after run `i` iff run `i` is the first success |
| `Steg.RunSpec` | forensicrack/steg.py:10-25 | `StegEngine.run` as a function of each run's exit status: stegseek on each wordlist in order, all writing one output file, until a run exits with 0; its properties are in `Steg.RunSpecFacts` and `Steg.RunSpecStops` |
| `Steg.Run` | forensicrack/steg.py:10-25 | the loop's success and runs are those of `Steg.RunSpec` |
| `Steg.RunSpecFacts` | forensicrack/steg.py:10-25 | success iff some wordlist gives exit status 0; runs in wordlist order, a prefix of the wordlists, covering every wordlist on failure; no wordlist, no run; every run writes `<stem>_extracted.out` in the output directory |
| `Steg.RunSpecStops` | forensicrack/steg.py:12-25 | stegseek stops at the first success: on success the last run exited with 0 and every earlier one did not; on failure none did |
| `Zsteg.Run` | forensicrack/steg_zsteg.py:10-30 | `ZstegEngine.run` as a function of how the zsteg run ends; its properties are in `Zsteg.RunFacts` |
| `Zsteg.RunFacts` | forensicrack/steg_zsteg.py:10-30 | success iff zsteg exits normally with output that is not blank and does not contain "nothing to extract" in any case; exactly then the stripped output is saved to `<stem>_zsteg.txt` |
| `Zsteg.SavedIsStripped` | forensicrack/steg_zsteg.py:19-25 | the saved text is not blank and has no surrounding whitespace |
| `Zsteg.OutputFileName` | forensicrack/steg_zsteg.py:12-13 | the output file's name is `<stem>_zsteg.txt` |
| `John.CrackSpec` | forensicrack/cracking_john.py:10-27 | `JohnEngine.crack` as a function of each run's exit status: John on each wordlist in order, all with one pot file, until a run exits with 0; its properties are in `John.CrackSpecFacts` and `John.CrackSpecStops` |
| `John.Crack` | forensicrack/cracking_john.py:10-27 | the loop's success and runs are those of `John.CrackSpec` |
| `John.CrackSpecFacts` | forensicrack/cracking_john.py:10-27 | success iff some wordlist gives exit status 0; runs in wordlist order, a prefix of the wordlists, covering every wordlist on failure; every run passes `--pot=<output_path>` |
| `John.CrackSpecStops` | forensicrack/cracking_john.py:12-27 | John stops at the first success: on success the last run exited with 0 and every earlier one did not; on failure none did |
| `Hashcat.ResolveMode` | forensicrack/cracking_hashcat.py:165-228 | `resolve_hashcat_mode`, step by step; its properties are in the `Hashcat` lemmas from `HashHintWins` to `DetectedZipNeverAes` |
| `Hashcat.FilenameTag` | forensicrack/cracking_hashcat.py:206-213 | the mode a file name announces; its properties are in `Hashcat.FilenameTagFacts` |
| `Hashcat.Ask` | forensicrack/cracking_hashcat.py:215-228 | the prompt step; its properties are in `Hashcat.AskFacts` and `Hashcat.AskNumber` |
| `Hashcat.TagOrAsk` | forensicrack/cracking_hashcat.py:206-228 | the tag, then the prompt; its properties are in `Hashcat.LateSteps` |
| `Hashcat.FindTagFacts` | forensicrack/cracking_hashcat.py:211 | the tag search finds the leftmost match of the tag pattern at or after the start, and finds nothing iff there is no match |
| `Hashcat.FilenameTagFacts` | forensicrack/cracking_hashcat.py:206-213 | a name announces a mode iff the tag pattern matches somewhere; the mode is the value of the leftmost match's digits, which is what `int` gives when there are at most 4300 of them |
| `Hashcat.HashHintWins` | forensicrack/cracking_hashcat.py:166-170 | a known hash hint decides the mode, whatever the container hint and the answer |
| `Hashcat.Md5HintIsModeZero` | forensicrack/cracking_hashcat.py:11-37 | a hash hint that lower-cases to "md5" selects mode 0: the zero mode is returned, not skipped |
| `Hashcat.EncryptionHintWins` | forensicrack/cracking_hashcat.py:172-176 | without a known hash hint, a known encryption hint decides, whatever the extension, container hint, tag or answer |
| `Hashcat.UnknownHashHintFallsThrough` | forensicrack/cracking_hashcat.py:166-170 | an unknown, empty or missing hash hint gives the same result as no hash hint |
| `Hashcat.ZipCryptoHintMeansKnownPlaintext` | forensicrack/cracking_hashcat.py:172-176 | without a known hash hint, the encryption hint "zipcrypto", in any case, selects the known-plaintext attack |
| `Hashcat.ExtensionSteps` | forensicrack/cracking_hashcat.py:178-190 | without a known hint: PDF gives 10700, docx/xlsx/pptx give 9600, doc/xls/ppt give 9400, 7z gives 11600 |
| `Hashcat.ZipStep` | forensicrack/cracking_hashcat.py:192-199 | for a `.zip` without a known hint: a `"zipcrypto"` container hint selects known plaintext; any other non-empty hint gives 13600; a missing or empty hint falls through to the tag and the prompt |
| `Hashcat.LateSteps` | forensicrack/cracking_hashcat.py:201-228 | when no hint, document extension or zip step applies, the tag decides, and without a tag the prompt; that the earlier steps pre-empt them is in `HashHintWins`, `EncryptionHintWins`, `ExtensionSteps` and `ZipStep` |
| `Hashcat.AskFacts` | forensicrack/cracking_hashcat.py:215-228 | the mode is unresolved iff there is no terminal, the answer is blank, or `int` refuses it; otherwise the mode is the integer typed; the prompt never selects known plaintext |
| `Hashcat.AskNumber` | forensicrack/cracking_hashcat.py:219-225 | typing a number, with blanks around it, selects that number if it has at most 4300 digits, and leaves the mode unresolved otherwise |
| `Hashcat.KnownPlaintextOnlyForZipCrypto` | forensicrack/cracking_hashcat.py:165-228 | resolution selects the known-plaintext attack iff there is no known hash hint and either the encryption hint is "zipcrypto" or, with no known encryption hint, the file is a `.zip` with container hint "zipcrypto" |
| `Hashcat.DetectedZipNeverAes` | forensicrack/cracking_hashcat.py:192-199 | with the container hint from the zip heuristic, a hint-free `.zip` never gets 13600: known plaintext if encrypted, else the tag or the prompt |
| `Hashcat.SplitLines` | forensicrack/cracking_hashcat.py:84 | `str.splitlines`; its properties are in `Hashcat.SplitLinesHaveNoBreaks` and `Hashcat.SplitLinesSingle` |
| `Hashcat.SplitLinesSingle` | forensicrack/cracking_hashcat.py:84 | a text without a line boundary is one line, and the empty text has none |
| `Hashcat.SplitLinesHaveNoBreaks` | forensicrack/cracking_hashcat.py:84 | no line from the line splitting holds a line boundary |
| `Hashcat.FilterShowLines` | forensicrack/cracking_hashcat.py:82-99 | the loop keeps exactly the stripped lines the filter accepts, in order |
| `Hashcat.Filtered` | forensicrack/cracking_hashcat.py:82-99 | the result lines of a report, line by line; its properties are in `FilteredAppend`, `FilteredSound`, `FilteredComplete` and `KeepsFacts` |
| `Hashcat.FilteredAppend` | forensicrack/cracking_hashcat.py:82-99 | filtering distributes over concatenation, so input order is kept |
| `Hashcat.FilteredSound` | forensicrack/cracking_hashcat.py:82-99 | every reported line passes the filter and is the stripped form of an input line |
| `Hashcat.FilteredComplete` | forensicrack/cracking_hashcat.py:82-99 | every input line whose stripped form passes the filter is reported |
| `Hashcat.Keeps` | forensicrack/cracking_hashcat.py:86-98 | the test `_filter_show_lines` applies to each stripped line; its properties are in `Hashcat.KeepsFacts` |
| `Hashcat.KeepsFacts` | forensicrack/cracking_hashcat.py:86-98 | a reported line is not blank and has a `:` before its last character |
| `Hashcat.RunShow` | forensicrack/cracking_hashcat.py:101-116 | the result lines of one attempt's `--show` report; none when the attempt raised |
| `Hashcat.CrackSpec` | forensicrack/cracking_hashcat.py:118-163 | `crack_hashfile` as a function of how each attempt ends: hashcat on each wordlist in order, each followed by its `--show` report, until a report has a result line; its properties are in `Hashcat.CrackSpecFacts`, `Hashcat.CrackSpecStops` and `Hashcat.ExitCodeIgnored` |
| `Hashcat.CrackHashfile` | forensicrack/cracking_hashcat.py:64-163 | the loop's success and runs are those of `Hashcat.CrackSpec`, where an attempt succeeds iff its `--show` report has a result line; a file is written iff it succeeds: the last attempt's result lines, one per line, to the output path |
| `Hashcat.CrackSpecFacts` | forensicrack/cracking_hashcat.py:64-163 | success iff some wordlist's report has a result line; attempts in wordlist order, a prefix of the wordlists, covering every wordlist on failure; every attempt uses the given mode, `<output_path>.hashcat.pot` and the output path |
| `Hashcat.CrackSpecStops` | forensicrack/cracking_hashcat.py:118-163 | hashcat stops at the first success: on success the last attempt's report has a result line and every earlier one has none; on failure no report has one |
| `Hashcat.ExitCodeIgnored` | forensicrack/cracking_hashcat.py:145-160 | the outcome depends only on the `--show` reports: exit codes play no part, and an exception counts as an empty report |
| `App.BranchOf` | forensicrack/app.py:59-87 | the branch `execute` takes for an identification; its properties are in `App.BranchByExtension` |
| `App.CrackChainSpec` | forensicrack/app.py:124-132 | hashcat, then John when hashcat fails; its properties are in `App.CrackChainOrder` and `App.CrackChainFacts` |
| `App.GraphicSpec` | forensicrack/app.py:59-69 | the graphic branch; its properties are in `App.GraphicFacts` |
| `App.ZipInfo` | forensicrack/app.py:99-101 | the container hint: the encryption heuristic for a `.zip`, nothing otherwise; its properties are in `Archives.ZipHintFacts` and `App.ArchiveModeOfEntry` |
| `App.ArchiveSpec` | forensicrack/app.py:99-138 | `_handle_archive`; its properties are in `App.ArchiveFacts` and `App.ArchiveExtractsOnlyAfterAttack` |
| `App.DirectCrackSpec` | forensicrack/app.py:140-166 | `_handle_encrypted_file` and `_handle_hash_file`; its properties are in `App.DirectCrackFacts` |
| `App.DispatchSpec` | forensicrack/app.py:46-87 | the branch for one regular file; `App.ForensiCrackApp.Dispatch` is proved against it |
| `App.FileSpec` | forensicrack/app.py:42-91 | one pass of the loop: skipped or processed; `App.ForensiCrackApp.ProcessEntry` is proved against it |
| `App.PassSpec` | forensicrack/app.py:41-91 | the counters' increments and the runs over a listing; its properties are in `App.PassCounts` |
| `App.Replay` | forensicrack/archives.py:55-72 | the archive directories after a sequence of runs; its properties are in `App.ReplayAppend`, `App.ReplayUntouched` and `App.ReplayWithoutExtraction` |
| `App.BranchByExtension` | forensicrack/app.py:59-87 | each file takes exactly one branch, decided by its extension alone: graphic, archive, document, `.hash`, `.txt`, or unsupported |
| `App.EntryEvidence` | forensicrack/app.py:42-53 | the record for an entry has the entry's name, the identified extension and no hints; its crack output goes to `<cracked_dir>/<entry>.pot` |
| `App.CrackChainOrder` | forensicrack/app.py:124-132 | hashcat's runs come first; a hashcat success is the chain's outcome; otherwise hashcat has tried every wordlist and John's runs follow it |
| `App.CrackChainFacts` | forensicrack/app.py:124-132 | hashcat then John: success iff either succeeds; John runs iff hashcat failed and there is a wordlist; every run targets the file with the one output path; nothing is extracted |
| `App.GraphicFacts` | forensicrack/app.py:59-69 | JPEG: zsteg runs iff stegseek failed, after it, and the branch succeeds iff either does; PNG and BMP: zsteg alone; GIF: nothing, failure |
| `App.DecryptedStem` | forensicrack/app.py:113-115 | the decrypted archive's stem, and so its extraction directory, is `decrypted_<name>` |
| `App.ArchiveFacts` | forensicrack/app.py:99-138 | no mode: no run, failure; known plaintext: the branch succeeds iff the attack does, and then it extracts into `<archive_dir>/decrypted_<name>`; a numeric mode: the hashcat-then-John chain |
| `App.ArchiveExtractsOnlyAfterAttack` | forensicrack/app.py:112-138 | an archive is extracted only after a successful known-plaintext attack |
| `App.DirectCrackFacts` | forensicrack/app.py:140-166 | the document and hash-list handlers run nothing and fail unless the mode is a number; then they run the chain; nothing is extracted |
| `App.ArchiveModeOfEntry` | forensicrack/app.py:99-104 | for a hint-free archive entry: a `.7z` gets 11600; a `.zip` gets the known-plaintext attack iff it has an encrypted member, and otherwise the tag or the prompt decides |
| `App.DocumentModeOfEntry` | forensicrack/app.py:140-141 | for a document or hash-list entry: never known plaintext; PDF 10700, x-formats 9600, old Office 9400; `.hash` by tag or prompt |
| `App.ReplayAppend` | forensicrack/app.py:41-91 | the archive-directory state after two stretches of runs is that after the first, then the second |
| `App.ReplayUntouched` | forensicrack/archives.py:55-72 | a directory no run extracts into keeps what it had |
| `App.ReplayWithoutExtraction` | forensicrack/app.py:123-138 | runs that extract nothing leave the archive directories unchanged |
| `App.PassCounts` | forensicrack/app.py:41-91 | the processed count grows by the number of regular entries, and the success count by the number of entries whose branch succeeds; successes never exceed processed files, which never exceed entries; a listing with no regular file changes nothing |
| `App.ForensiCrackApp.constructor` | forensicrack/app.py:17-30 | counters at zero, wordlist manager and archive engine on the configured directories, nothing extracted |
| `App.ForensiCrackApp.CrackWithFallback` | forensicrack/app.py:124-132 | the hashcat-then-John chain, with `<cracked_dir>/<name>.pot` as the output path for both |
| `App.ForensiCrackApp.HandleGraphic` | forensicrack/app.py:59-69 | the graphic branch's specification |
| `App.ForensiCrackApp.HandleArchive` | forensicrack/app.py:99-138 | `_handle_archive`'s specification; the archive directories change only by the extraction it makes |
| `App.ForensiCrackApp.HandleEncryptedFile` | forensicrack/app.py:140-152 | crack chain for a numeric mode, no run otherwise |
| `App.ForensiCrackApp.HandleHashFile` | forensicrack/app.py:154-166 | crack chain for a numeric mode, no run otherwise |
| `App.ForensiCrackApp.Dispatch` | forensicrack/app.py:46-87 | the branch specification for the file's identification; the archive directories change only by its extractions |
| `App.ForensiCrackApp.ProcessEntry` | forensicrack/app.py:41-87 | one loop pass extends the pass specification by that entry's step: skipped if not a regular file, otherwise processed |
| `App.ForensiCrackApp.Execute` | forensicrack/app.py:32-97 | aborts, changing nothing, iff no wordlist tier exists; otherwise the counters grow by the pass's processed files and successes, the runs are the pass's runs in listing order, and the archive directories are their replay |
| `Numerals.ParseIntRoundTrip` | forensicrack/cracking_hashcat.py:224-225 | `int` reads back the decimal spelling of every integer of at most 4300 digits, negative ones included, and refuses a longer spelling |
| `Numerals.ParseIntRejects` | forensicrack/cracking_hashcat.py:224-228 | `int` refuses a sign alone, the empty string and misplaced underscores |
| `Numerals.ParseIntShape` | forensicrack/cracking_hashcat.py:224-225 | a numeral `int` accepts is not empty and holds only digits, underscores and signs |
| `Strings.StripShape` | forensicrack/steg_zsteg.py:19 | `strip` removes exactly the leading and trailing whitespace; the result is empty iff the input is all whitespace |
| `Strings.ContainsAfterStrip` | forensicrack/steg_zsteg.py:19-20 | stripping does not change whether a phrase without edge whitespace occurs, case ignored |
| `Strings.StripPadded` | forensicrack/cracking_hashcat.py:219-221 | stripping a word padded by whitespace gives back the word |
| `Strings.LowerIsLower` | forensicrack/models.py:22-24 | a lower-cased string has no capital letter |
| `Paths.ExtShape` | forensicrack/archives.py:59-60 | the stem and the extension put together give the basename, and neither holds a separator |
| `Paths.NameExtShape` | forensicrack/models.py:22-24 | the extension is empty or starts at a dot after a non-dot character, and holds no other dot |
| `Paths.LeadingDotOnly` | forensicrack/models.py:22-24 | a basename whose only dot leads it has no extension |
| `Paths.JoinBasename` | forensicrack/app.py:42 | joining a directory and a name without separator gives a path whose basename is that name |
| `Paths.StemOfJoined` | forensicrack/app.py:113-118 | the stem and extension of `dir/x.e` are `x` and `.e` |
| `Paths.BasenameShape` | forensicrack/models.py:18-20 | the basename holds no separator and ends the path |

## Left out

- External programs are not run. Each run's ending is an input of the model,
  given for the run's full argument record: the exit status of stegseek, John
  and pkcrack; how zsteg ended; how hashcat ended and what its `--show` printed.
  So are `os.listdir`, `os.path.isfile`, `os.path.exists`, `mimetypes.guess_type`
  and what `zipfile` reads from an archive.
- A missing program, or any exception other than the ones the code catches, is
  not modelled. Only hashcat catches every exception, and the model has that as
  `Raised`. In the code, an exception anywhere else ends the whole pass.
- Directory creation (`os.makedirs`) and logging are left out. The
  `shutil.rmtree` before an extraction is modelled by its effect: the
  extraction directory's contents are replaced by the archive's members; only
  the file-system calls themselves are abstracted. The zsteg and hashcat engines return the file they
  write, but `App` does not keep those files; it keeps only the runs and the
  extraction directories.
- `ForensiCrackApp.__init__` reads `config.PLAINTEXTS_DIR`
  (`forensicrack/app.py:27`), which `Config` (`forensicrack/config.py:4-31`)
  does not define, so in Python the construction raises `AttributeError`.
  Were that attribute present, the call would pass three arguments to
  `ArchiveEngine`, whose constructor takes two (`forensicrack/archives.py:9`),
  and raise `TypeError`. The model builds the engine on the archive directory.
- `Config` defines none of `STEGO_OUTPUT_DIR` (`forensicrack/app.py:60`),
  `CRACKED_OUTPUT_DIR` (`forensicrack/app.py:110`), `EXTRACTED_OUTPUT_DIR`
  (`forensicrack/app.py:114`) or `PLAINTEXTS_DIR`, which `app.py` reads. The
  model takes the first three as fields of `App.Config`, supplied by the
  caller; with `forensicrack/config.py` as written, reading any of them raises
  `AttributeError`.
- `_handle_archive` calls `archive_engine.run_bkcrack`
  (`forensicrack/app.py:116`), which `ArchiveEngine` does not define. The model
  treats it as an external known-plaintext backend: a `KnownPlaintext` run
  whose success is an input. `RunPkcrack` is modelled but unused, as in the
  code.
- `Hashcat.FilenameTag`: for a tag of more than 4300 digits, `int`
  (`forensicrack/cracking_hashcat.py:213`) raises `ValueError`, which nothing
  catches, so the pass ends; the model gives the digits' value instead.
- `Numerals.ParseInt` uses Python's default digit limit of 4300; a limit
  changed with `sys.set_int_max_str_digits` or `PYTHONINTMAXSTRDIGITS` is not
  modelled.
- The stdin check (`sys.stdin.isatty()`) and `input()` are folded into one
  optional answer per file: `None` when there is no terminal.
- `is_text` is set on the record by `execute` but is not a field of
  `EvidenceFile`. The model takes it from the identification.
- `Strings.Lower` and `Strings.IsSpace` cover ASCII and the Unicode whitespace
  `str.strip` removes, but case folding is ASCII only. The tag's `\d`, and
  `int`, accept ASCII digits only, where Python accepts every Unicode decimal
  digit. Byte decoding (`utf-8` with `errors="replace"`) is left out: reports
  are already strings.
- `EvidenceFile.name` uses `os.path.basename`; the tag search uses
  `pathlib.Path.name`. They differ only for a path ending in `/` or in a `.`
  component, which a directory entry joined to the input directory never is. The model uses the first for both.
- `Config` (`forensicrack/config.py`), command-line parsing
  (`forensicrack.py`, `forensicrack/__main__.py`), `forensicrack/core.py`,
  `forensicrack/install.py` and `forensicrack/logging_config.py` are not part
  of this model. The configured directories are a parameter, `App.Config`.
