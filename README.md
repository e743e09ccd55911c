# Beiwe data scripts, modelled in Dafny

Beiwe is a smartphone research platform. Phones record passive data streams such as accelerometer, GPS, calls, texts, Wi-Fi and Bluetooth, plus survey answers and timings, and upload them to a study server. Researchers then use a set of Python 2 scripts on their own machines. The scripts download a study's files, keep a local registry of what has already been downloaded, and list, filter and convert the files on disk. This project models the core of those scripts and proves properties of the model:

- **Local catalog** (`basic.py`), in modules `BasicCatalog`, `BasicTime` and `BasicDuplicates`:
  - `row_count` counts a file's data rows.
  - `list_data_files` and `list_audio_files` walk a user directory. The data listing then narrows the walk by stream name and drops empty files. Both listings can then filter by the time stamped in each file name.
  - `make_timestamp` and `ts_to_utc` convert between UTC civil times and Unix or Java time.
  - `duplicates` flags repeated rows of a call or text log.
- **Plot lane helpers** (`bd_internal.py`, copied verbatim at `basic.py` lines 26-48), in module `BdInternal`. They place each text or call row at a y position, and compute when a call ended.
- **Audio conversion** (`audio.py`), in module `Audio`: the `ffmpeg` command string that `convert_mp4` builds.
- **The download protocol** (`download.py` and the older `data_access_api.py`):
  - Module `Storage` holds the part both copies share: the request parameters and the `master_registry` file.
    - The reply is a zip archive. It is extracted into the working directory.
    - The `registry` member of the reply is then merged into `master_registry`, and the `registry` file is removed.
    - The file system is a `Disk` object: directories by path, and a working directory. `mkdir_p` and the `cd` context manager act on it.
  - Modules `Download` and `DataAccessApi` build each copy's parameter map and tie its `make_request` to the shared synchronisation.
  - `Download` also covers the twelve one-stream `download_*` wrappers.
- **The S3 download script** (`download_script/download_script.py`), in module `DownloadScript`:
  - the file-name sanitiser and the IV/ciphertext split of the decryption;
  - the `_download` loop, which skips names the patient folder already held and writes the decrypted bytes of every other listed object;
  - the fourteen preset wrappers.

Shared helpers sit in `Results` (`Option`, `Result` and the Python exceptions the code can raise), `Seqs` (list comprehensions, `min` and `max`), `Text` (the `str` operations used) and `Calendar` (the proleptic Gregorian calendar of `datetime`, `calendar.timegm`, `strftime` and `strptime` for the fixed layouts used).

The model follows the code, including where it behaves surprisingly:

- **`row_count` on an empty file.** It raises `UnboundLocalError`, so `list_data_files` cannot filter such a file out: one empty file makes the whole listing raise.
- **A file whose name the time filter cannot read.** Whether the name has no time token or a token `strptime` refuses, the listing raises rather than skipping the file.
- **`duplicates`.** It raises `UnboundLocalError` when the first row fails the time test. A row that fails the test repeats the previous row's flag.
- **The time test of `duplicates` is the earlier time minus the later one, below `tbuffer`.** For logs in ascending time order that difference is never positive, so every row is compared with the next whatever the gap (`BasicDuplicates.AscendingComparesAll`).
- **`ts_to_utc`.** It divides by 1000 only when the decimal text has exactly 13 characters.
- **The two `make_request` copies.** The older copy sends lists and times as they were given. `download.py` JSON-encodes the lists and formats `datetime` arguments.

## Model

| member | source | states |
|---|---|---|
| Calendar.CivilFromSeconds | basic.py:307-308 | `utcfromtimestamp` before its range check: the fields are in range and convert back to exactly the given epoch second |
| Calendar.CivilRoundTrip | basic.py:220-221 | every valid date-time survives `timegm` and back, so the epoch second of a date-time determines it |
| Calendar.FormatUtc | basic.py:307-308 | `strftime('%m/%d/%Y %H:%M:%S')` fails exactly for years before 1900 |
| Calendar.FormatApi | download.py:154-166 | the request time layout fails exactly for years before 1900 |
| Calendar.ParseFormatYmd | download.py:154-166 | the year-first layout reads back to the date-time it was written from |
| Calendar.FileStampRoundTrip | basic.py:127-129 | a data-file name stamp `%Y-%m-%d %H_%M_%S` parses back to the epoch second of the time it was written from |
| Calendar.RangeEnds | bd_internal.py:16 | `datetime.min` and `datetime.max` are valid date-times at the first and last representable epoch seconds |
| Calendar.YearInRange | bd_internal.py:16 | an epoch second falls in years 1-9999 exactly when it lies between those two seconds |
| Calendar.ValidInRange | basic.py:131-135 | every valid date-time lies between `datetime.min` and `datetime.max` |
| BasicTime.MakeTimestamp | basic.py:220-226 | a timestamp exists exactly when the fields form a valid `datetime`; it is the epoch second of that time, times 1000 for Java time; otherwise `ValueError` |
| BasicTime.MakeTimestampWholeMinutes | basic.py:220-224 | every made timestamp is a whole number of minutes (60 s or 60000 ms) |
| BasicTime.MakeTimestampOfValid | basic.py:220-226 | every valid civil time without seconds has a timestamp |
| BasicTime.MakeTimestampEpoch | basic.py:220-226 | 1970-01-01 00:00 is time 0 in both units |
| BasicTime.MakeTimestampJava | basic.py:223-224 | Java time fails exactly when Unix time fails and is 1000 times it |
| BasicTime.MakeTimestampInjective | basic.py:220-226 | distinct civil times give distinct timestamps |
| BasicTime.TsToUtc | basic.py:301-302 | `None` in, `None` out, and only then |
| BasicTime.ThirteenDigits | basic.py:305 | for a non-negative value, "13 characters" means 10^12 <= t < 10^13 |
| BasicTime.SecondsAreShort | basic.py:304-306 | the Unix seconds of years 1900-9999 have fewer than 13 characters, so they are never divided |
| BasicTime.DaysOfModernYears | basic.py:304-306 | years 1900-9999 lie between day -25567 and day 2932897 of the epoch |
| BasicTime.TsToUtcOfUnixTime | basic.py:301-308 | rendering `make_timestamp(..., java=False)` shows the given month, day, year, hour and minute with seconds `00` |
| BasicTime.TsToUtcOfJavaTime | basic.py:305-308 | a 13-digit Java time renders exactly as the Unix time it came from |
| BasicCatalog.Lines | basic.py:65-66 | iterating a file yields non-empty lines that concatenate back to its text, each whole line ending at its newline |
| BasicCatalog.LinesOfConcat | basic.py:65-66 | reading whole lines back yields those same lines |
| BasicCatalog.RowCount | basic.py:65-68 | the enumerate loop returns the last line index: `IOError` for a missing file, `UnboundLocalError` for an empty one |
| BasicCatalog.RowCountOf | basic.py:65-68 | `IOError` exactly for a missing file, `UnboundLocalError` exactly for an empty one, otherwise a count of at least zero |
| BasicCatalog.RowCountOfTable | basic.py:60-68 | a header plus n whole data lines counts n rows; a header alone counts 0 |
| BasicCatalog.RowCountOfEmpty | basic.py:65-68 | a file without text raises instead of counting 0 |
| BasicCatalog.JoinAll | basic.py:113 | one joined path per name, in order |
| BasicCatalog.PathJoin | basic.py:113 | `os.path.join` ends with the name, and starts with the directory unless the name is absolute |
| BasicCatalog.AcceptedEndsWith | basic.py:111-113 | every path one walk step adds ends with one of its file names that the test accepts |
| BasicCatalog.Walked | basic.py:109-113 | every walked path ends with a file name that the test accepts |
| BasicCatalog.WalkedEndsWith | basic.py:111-113 | when every accepted name ends with a suffix, so does every walked path |
| BasicCatalog.AcceptedIsJoinKeep | basic.py:111-113 | the inner loop adds the accepted names of one directory, joined to its path, in order |
| BasicCatalog.WalkFiles | basic.py:109-113 | the nested walk loops build every accepted file of every walk step, in walk order |
| BasicCatalog.AppendAccepted | basic.py:111-113 | the inner loop appends exactly the accepted files of one step to the list so far |
| BasicCatalog.WalkedFrom | basic.py:109-113 | every walked path is some step's directory joined with one of its accepted names |
| BasicCatalog.StreamMatchOfComponents | basic.py:116-119 | the stream test reads the parent directory and, only when that fails, the grandparent; a file one level deep whose parent does not match raises `IndexError` |
| BasicCatalog.StreamMatch | basic.py:117-119 | the only exception is `IndexError`, and a path without `/` always raises it |
| BasicCatalog.StreamFilter | basic.py:116-119 | `'all'` keeps the list; otherwise the kept files are, in order, exactly those whose stream test is true, and the only exception is `IndexError` |
| BasicCatalog.NonEmpty | basic.py:123 | succeeds exactly when every file has a row count; then keeps, in order, exactly the files with a data row; otherwise `IOError` or `UnboundLocalError` |
| BasicCatalog.TimeToken | basic.py:127 | the token holds no `.`; the only exception is `IndexError` |
| BasicCatalog.FileTime | basic.py:127-129 | succeeds exactly when the token exists and `strptime` accepts it, with the parsed time; otherwise `IndexError` or `ValueError` |
| BasicCatalog.TokenTime | basic.py:128-129 | `strptime` of one token: its parsed time, or `ValueError` exactly when the token is refused |
| BasicCatalog.FileTimes | basic.py:127-129 | the two comprehensions: succeeds exactly when every file has a token that parses, with each file's time at its index; otherwise `IndexError` or `ValueError` |
| BasicCatalog.TokenlessFileRaises | basic.py:126-129 | with a bound given, one file without a time token makes the whole subset raise `IndexError`, whatever the other tokens parse to, because every token is read before any is parsed |
| BasicCatalog.TokensBeforeParse | basic.py:127-129 | a concrete case: `["d/b.c", "d/n"]` with a start bound and a parser that refuses everything raises `IndexError`, not `ValueError` |
| BasicCatalog.Window | basic.py:137-138 | the boolean mask keeps, in order, exactly the files whose time lies in the inclusive window |
| BasicCatalog.WindowSelects | basic.py:137-138 | the mask's result is fixed entry by entry: its k-th entry is the file at the k-th in-window index, with the in-window indices listed in increasing order, so a repeated path is kept once per in-window position |
| BasicCatalog.TimeWindowKeeps | basic.py:126-138 | with a bound given, every file has a readable time, and each one within the given bounds is kept |
| BasicCatalog.TimeWindowBounds | basic.py:126-138 | every kept file's time lies within the given bounds |
| BasicCatalog.TimeWindow | basic.py:126-138 | no bounds keep the list unchanged; a result is an order-keeping subsequence of the files; the only exceptions are `IndexError`, `ValueError` and `OverflowError` |
| BasicCatalog.EarlyFileOverflows | basic.py:131-132 | without a start, a file stamped in the first hour of year 1 makes the listing raise `OverflowError`, while with both bounds given it succeeds |
| BasicCatalog.LateFileOverflows | basic.py:133-134 | without an end, a file stamped in the last hour of year 9999 makes the listing raise `OverflowError` |
| BasicCatalog.TimeWindowSucceeds | basic.py:126-138 | with a bound and a file, or both bounds, every file readable and every time an hour inside the `datetime` range, the time subset succeeds |
| BasicCatalog.OneSidedKeepsOpenSide | basic.py:131-135 | with only a start, every file at or after it is kept (the missing end lies an hour past the latest file) |
| BasicCatalog.TimeTokenOfName | basic.py:127 | the time token of `<stamp>.<ext>` in any directory is the stamp |
| BasicCatalog.ListDataFiles | basic.py:71-140 | walk for `.csv`, narrow by stream, drop files without data rows, then the time window; any exception a step raises is the result |
| BasicCatalog.ListAudioFiles | basic.py:143-179 | walk for `.mp4` (and `.wav` unless `mp4only`), then the time window |
| BasicCatalog.DataListing | basic.py:71-140 | every listed file is a walked path ending in `.csv`; the only exceptions are `IndexError`, `IOError`, `UnboundLocalError`, `ValueError` and `OverflowError` |
| BasicCatalog.AudioListing | basic.py:143-179 | no bounds give the whole walk; a result is an order-keeping subsequence of the walk, `.mp4` files only under `mp4only`; the only exceptions are `IndexError`, `ValueError` and `OverflowError` |
| BasicCatalog.DataListingIsSubseq | basic.py:108-138 | the data listing is the walked `.csv` files with some left out, order kept |
| BasicCatalog.DataListingMembers | basic.py:108-138 | every listed file is a walked `.csv` file with at least one data row that matches the stream (unless `'all'`) |
| BasicCatalog.DataListingKeeps | basic.py:108-138 | conversely, a walked `.csv` file that matches the stream, holds a data row and lies within the bounds is listed |
| BasicCatalog.DataListingAll | basic.py:108-123 | with `'all'`, no bounds and every file holding a data row, the listing is the whole walk |
| BasicCatalog.NoBoundsNoParse | basic.py:126-166 | without bounds no file time is read, so the listings do not depend on `strptime` |
| BasicDuplicates.Duplicates | basic.py:577-589 | the loop raises `UnboundLocalError` exactly when the first row fails the time test; otherwise flag i means "metadata equals the next row's" when the rows pass the test, else it repeats flag i-1; the last flag is false |
| BasicDuplicates.DupFlagsUnique | basic.py:577-589 | the flag sequence is fully determined by the rows and the buffer |
| BasicDuplicates.IsDupFlags | basic.py:577-589 | the meaning of the flags, one per row: the last false, a row passing the time test flagged exactly when its metadata equals the next row's, any other row repeating the flag before it |
| BasicDuplicates.AscendingComparesAll | basic.py:581 | for ascending timestamps and a positive buffer, every adjacent pair is compared, whatever the gap |
| BasicDuplicates.CarryOverExample | basic.py:578-588 | a row that fails the time test inherits the previous flag, so it is flagged though it differs from the next row |
| BdInternal.SmsSort | bd_internal.py:9-13 | only sent and received texts get a lane: sent ones one spacer above `yval`, received ones one spacer below |
| BdInternal.CallSort | bd_internal.py:20-29 | only incoming, missed and outgoing calls get a lane: outgoing ones one spacer above `yval`, incoming and missed ones one spacer below |
| BdInternal.DefaultLanesAreTicks | basic.py:823 | with the default arguments the four lanes are exactly the plot's tick positions 0.95, 1.05, 1.45, 1.55 |
| BdInternal.MissedSharesIncomingLane | bd_internal.py:23-25 | a missed call is drawn in the incoming-call lane |
| BdInternal.SmsLaneDecides | bd_internal.py:9-13 | with a non-zero spacer a text's lane tells sent from received |
| BdInternal.CallLaneDecides | bd_internal.py:20-29 | with a non-zero spacer a call's lane tells outgoing from incoming or missed |
| BdInternal.LanesOrdered | basic.py:822-825 | with a small positive spacer the four lanes are ordered as the tick labels list them |
| BdInternal.CallEnd | bd_internal.py:15-18 | succeeds exactly when the floored start second and the end second both lie in years 1-9999, and then the end is a valid date-time `duration` seconds after the start; a start out of range raises `ValueError`, otherwise an end out of range raises `OverflowError` |
| BdInternal.CallStart | bd_internal.py:16 | succeeds exactly when the floored second of the millisecond timestamp lies in years 1-9999, giving that second; otherwise `ValueError` |
| BdInternal.CallEndOfValid | bd_internal.py:15-18 | whenever the start and end seconds are those of valid date-times, the start and the end are returned as exactly those date-times |
| BdInternal.CallLastsDuration | bd_internal.py:15-18 | when the end exists, the start exists and the end minus the start is the duration |
| Audio.DefaultOutput | audio.py:40-41 | the default output ends in `.wav`, has the input's length and keeps all of the input but its last four characters; a name of four characters or fewer gives `.wav` |
| Audio.ConvertCommand | audio.py:39-43 | the command is `ffmpeg -i <input>`, then the fixed options, then exactly the output name |
| Audio.Mp4BecomesWav | audio.py:40-41 | `x.mp4` converts to `x.wav` |
| Audio.CommandDeterminesOutput | audio.py:39-43 | the command determines the output name |
| Storage.BaseValues | download.py:151-153 | every request carries exactly the study id and both keys |
| Storage.Merge | download.py:193 | the merged registry holds every key of both, with the received value winning |
| Storage.MergeIdempotent | download.py:193 | merging the same received registry twice equals merging it once |
| Storage.MergeTwice | download.py:193 | two merges in a row are one merge of the later registries, the latest winning |
| Storage.MergeNotCommutative | download.py:193 | on a conflict the order of the merge matters |
| Storage.Names | download.py:198 | the member names in archive order |
| Storage.EntriesKeys | download.py:182-183 | extraction writes exactly one file per member name |
| Storage.EntriesLastWins | download.py:182-183 | a file holds the content of the last member of that name |
| Storage.Entries | download.py:182-183 | the last member of the archive always supplies the file of its name |
| Storage.ExtractAll | download.py:182-183 | every member name is written, and a file of the directory that no member names is left as it was |
| Storage.ExtractAllIdempotent | download.py:183 | extracting the same archive twice equals extracting it once |
| Storage.NewFiles | download.py:198-199 | the new files are the member names other than `registry`, in member order, with every repeat kept: a subsequence of the names with the same count of each name but none of `registry` |
| Storage.KeepDropsRegistry | download.py:198-199 | dropping `registry` from a list of names removes every copy of it and keeps every other name as often as it occurs |
| Storage.WithRegistry | download.py:169-173 | a `registry` parameter is sent exactly when `master_registry` existed, holding its contents |
| Storage.LoadMaster | download.py:169-173 | `None` exactly when `master_registry` is absent; `JsonError` only for a present file that is not JSON; otherwise the object the file holds |
| Storage.Sync | download.py:169-199 | a failure before sending changes no file, and a failed request changes no file; success sends a request, removes `registry` and leaves `master_registry` an object; the only exceptions are `JsonError`, `UrlError` and `IOError` |
| Storage.SyncSends | download.py:169-178 | a request is sent exactly when `master_registry` is absent or readable; it carries every given parameter, plus the loaded registry |
| Storage.SyncSuccess | download.py:169-199 | after success `master_registry` is the merge of the old and received registries, `registry` is gone, and every other member's last copy is on disk |
| Storage.SyncWithoutRegistry | download.py:190-191 | a reply without `registry` raises `IOError` after extraction, leaving `master_registry` as it was |
| Storage.SyncEarlyFailure | download.py:169-180 | an unreadable `master_registry` or a failed request changes no file, and only the former stops the request |
| Storage.NextRequestSendsMerged | download.py:169-196 | the request after a successful one reports the merged registry |
| Storage.SyncOkPath | download.py:169-199 | the successful synchronisation, step by step |
| Storage.SyncReplay | download.py:182-196 | replaying the same reply leaves the directory the first synchronisation left |
| Storage.FirstDownload | download.py:169-199 | a first download into an empty folder writes the file and a `master_registry` naming it |
| Storage.SecondDownload | download.py:169-199 | a second download sends the first registry and leaves both files and the merged registry |
| Storage.TwoDownloads | download.py:169-205 | two downloads in a row: the second sends the first registry, and `master_registry` names both files |
| Storage.Disk.MkdirP | download.py:26-39 | creates the directory unless it exists; only the empty path raises (`OSError`), and then nothing changes |
| Storage.Disk.Write | download.py:194-195 | writes one file of the working directory, nothing else changes |
| Storage.Disk.Remove | download.py:196 | removes one file that the working directory holds, nothing else changes |
| Storage.Disk.ExtractHere | download.py:182-183 | writing the members one by one leaves the extraction of the whole archive |
| Storage.Disk.SyncHere | download.py:169-199 | the file operations of one synchronisation leave the directory, the sent parameters and the result that `Sync` describes |
| Storage.Disk.MergeRegistryHere | download.py:188-199 | after the extraction: `IOError` without `registry`, `JsonError` for an unreadable one, otherwise `master_registry` becomes the merge, `registry` is removed and the new files are returned |
| Storage.Resolve | download.py:72 | `.` names the working directory itself |
| Storage.Cd.constructor | download.py:71-72 | remembers the target path |
| Storage.Cd.Enter | download.py:74-76 | saves the working directory and changes to the target, which must exist; otherwise `OSError` and nothing changes |
| Storage.Cd.Exit | download.py:78-79 | returns to the saved directory |
| Download.ApiTime | download.py:159-166 | a string is sent as it is; a `datetime` is formatted so that it reads back to itself, and fails exactly before 1900 |
| Download.DownloadValues | download.py:151-167 | the parameter map: the three base keys; `user_ids` and `data_streams` JSON-encoded exactly when non-empty; the times exactly when truthy, formatted; `ValueError` exactly when a `datetime` is before 1900 |
| Download.BuildValues | download.py:151-167 | the dict filled key by key is that parameter map |
| Download.Prepared | download.py:146-147 | `mkdir_p` leaves every existing directory as it was and adds the resolved folder, empty if it was missing; `.` changes nothing |
| Download.Requested | download.py:146-205 | the outcome of `make_request` from the directories before it: `OSError` and no change for an empty folder; otherwise the prepared folder, then the parameter error or the synchronisation inside the folder; every sent request carries the given parameters |
| Download.MakeRequest | download.py:146-205 | makes the folder unless it is `.`, synchronises inside it and returns to the working directory; the new files are returned only with `return_new`; every sent request carries the given parameters; an empty folder name raises `OSError` (the predicate `Requested` gathers all of this) |
| Download.StreamNamesDistinct | download.py:12-23 | every wrapper asks for a different stream |
| Download.DownloadStream | download.py:208-373 | a wrapper leaves the disk, the sent request and the errors of `make_request` with its own arguments, exactly its one stream and `return_new` False, and returns nothing |
| DataAccessApi.ApiValues | data_access_api.py:28-43 | the parameter map: lists and times passed unencoded, each exactly when truthy |
| DataAccessApi.BuildValues | data_access_api.py:28-43 | the dict filled key by key is that parameter map |
| DataAccessApi.MakeRequest | data_access_api.py:25-73 | synchronises in the working directory and returns nothing; every sent request carries the given parameters |
| DataAccessApi.SameParameterNames | data_access_api.py:28-43 | both copies send the same parameter names |
| DataAccessApi.UserListsEncodedDifferently | data_access_api.py:32 | a non-empty user list is sent differently by the two copies |
| DownloadScript.SanitizeFileName | download_script/download_script.py:62-66 | the local name holds no `/` and is never longer than the key; a key without `/` is unchanged; otherwise the first segment is dropped and the remaining `/` become `_` |
| DownloadScript.SanitizeDropsFirstSegment | download_script/download_script.py:66 | the first segment is dropped, whatever it is |
| DownloadScript.ReplaceCharAppend | download_script/download_script.py:66 | replacement works piece by piece |
| DownloadScript.SanitizeKeepsLaterSegments | download_script/download_script.py:64-66 | `study/user/type/file` becomes `user_type_file` |
| DownloadScript.SanitizeIdempotent | download_script/download_script.py:66 | sanitising twice equals sanitising once |
| DownloadScript.Head | download_script/download_script.py:70 | `s[:n]` has n elements, or all of a shorter `s` |
| DownloadScript.Tail | download_script/download_script.py:71 | `s[:n] + s[n:]` is `s` |
| DownloadScript.DecryptFile | download_script/download_script.py:68-71 | the first 16 bytes are the IV and only the bytes after them are deciphered |
| DownloadScript.DecryptSplit | download_script/download_script.py:70-71 | IV and ciphertext together are the whole object, with no byte lost or repeated |
| DownloadScript.Prefix | download_script/download_script.py:79 | the listing prefix is `<study>/<patient>/` followed by exactly the data type |
| DownloadScript.Listing | download_script/download_script.py:80 | the listed objects are exactly the bucket's objects under the prefix, in bucket order |
| DownloadScript.DownloadAllCoversEveryType | download_script/download_script.py:92-93 | `download_all` lists every object that any data type lists |
| DownloadScript.FetchOne | download_script/download_script.py:83-90 | one pass never removes a file |
| DownloadScript.Fetch | download_script/download_script.py:82-90 | the loop never removes a file |
| DownloadScript.FetchKeepsExtant | download_script/download_script.py:77-87 | a file the folder held before the loop is never rewritten |
| DownloadScript.FetchWritesOnlyListed | download_script/download_script.py:82-90 | every new file is the sanitised name of a listed object, absent from the folder before the loop |
| DownloadScript.FetchLastWins | download_script/download_script.py:77-90 | after a completed loop, a new name holds the decrypted bytes of the last listed object with that name |
| DownloadScript.FetchTwo | download_script/download_script.py:82-90 | two objects run the loop body twice unless the first raises |
| DownloadScript.LaterDuplicateWins | download_script/download_script.py:77-90 | two new objects with the same local name: the later one's bytes remain |
| DownloadScript.FetchSnoc | download_script/download_script.py:82-90 | one more object runs the loop body once more, unless it has already stopped |
| DownloadScript.FetchStops | download_script/download_script.py:82-90 | after an exception, later objects change nothing |
| DownloadScript.DownloadObjects | download_script/download_script.py:73-90 | creates the patient folder if missing, then leaves it as the loop over the prefix listing leaves it, from a listing taken once beforehand |
| DownloadScript.FetchAll | download_script/download_script.py:82-90 | the loop leaves the folder and the result that `Fetch` describes |
| DownloadScript.StoreOne | download_script/download_script.py:83-90 | one loop body leaves the folder and the result that `FetchOne` describes; a failed decryption leaves an empty file |
| DownloadScript.DailyTimingsAsWrittenListsNoTimings | download_script/download_script.py:131-132 | as written, the daily survey-timings wrapper lists no survey-timings object |
| DownloadScript.PresetAsWritten | download_script/download_script.py:92-132 | the fourteen literals as written: only `download_all` passes the empty type, and no type starts with `/` |
| DownloadScript.PresetsDistinct | download_script/download_script.py:92-132 | the fourteen wrappers pass pairwise different literals |
| DownloadScript.PresetType | download_script/download_script.py:92-132 | every preset's data type as written, except that the daily survey-timings one is corrected |
| DownloadScript.SurveyPresetsPaired | download_script/download_script.py:122-132 | corrected, the daily and weekly survey presets differ only in the period, and daily timings lists exactly the `surveyTimings/Daily` objects |
| DownloadScript.DownloadPreset | download_script/download_script.py:92-132 | a preset wrapper downloads, for the patient, the objects listed under the data type it passes as written |
| DownloadScript.DownloadCorrectedPreset | download_script/download_script.py:131-132 | the wrappers with the daily survey-timings data type corrected: each downloads the objects listed under `PresetType` |

## Left out

- Plotting, `import_df`, `describe_user` and `ts_to_local`: they are not part of this model. Only the constants their code shares with the lane helpers (the tick positions) are stated.
- HTTP (`urllib2`), URL encoding, the zip codec and the JSON text format are left out. The reply is given as an optional member list (`None` for a failed request). A file either holds a JSON object of strings (the `JsonObject` content kind) or is not JSON at all, so `json.load` fails on it.
- The verbose `print` statements are I/O and are left out.
- Storage.LoadMaster: JSON values other than an object of strings are not modelled. Python loads `[]` or `{"a": 1}` from `master_registry` or `registry` without error, and the failure comes later. For example, `update` raises `AttributeError` at download.py:193 after the reply was extracted. The model has no such file.
- S3, boto, the credential prompts and the `users` list built at download_script/download_script.py:134-135 are left out. The bucket is a sequence of objects in listing order, and `_bucket.list` is a prefix filter over it.
- AES-CFB is left out. It is the `Cipher` parameter: a function of the key, the IV and the ciphertext that may reject them.
- The `ffmpeg` subprocess is left out; only its command string is modelled.
- `os.walk` is given as the sequence of steps it yields. Directory traversal and its order are not modelled.
- `strptime` of a file's time token is a parameter that may refuse the token.
- `os.path.expanduser`, path normalisation (`..`, repeated `/`), symbolic links and permissions are not modelled. The disk is a flat map from directory path to files.
- Storage.Disk.MkdirP: only the empty path raises. The `errno` cases of `os.makedirs` (a file in the way, a missing permission) are not modelled.
- DownloadScript.DownloadObjects: the `os.mkdir` failure for a missing parent directory is not modelled.
- In the model the folder `Storage.Disk.MkdirP` creates is the folder `Storage.Cd.Enter` changes to, so inside `make_request` the `OSError` branch of `Enter` does not arise. In Python it can: `mkdir_p` works on the folder as given (download.py:147), while `cd` changes to `os.path.expanduser(folder)` (download.py:72, 76). A folder such as `~/x` is created as `./~/x` and the `chdir` then goes to `$HOME/x`; that raises `OSError` when `$HOME/x` is missing, and otherwise the download lands in a folder other than the one created. A folder that exists without search permission also makes `chdir` fail, since `mkdir_p` passes over it silently. Both cases need `expanduser` and permissions, which are left out above.
- Floating point is left out. The lane positions are exact reals, and `CallEnd` takes the duration in whole seconds.
- `ts_to_utc` accepts a string and converts it with `int(...)`. The model takes the integer.
- BasicTime.TsToUtc: its own contract states only the `None` case. The rendered text is stated by `TsToUtcOfUnixTime` and `TsToUtcOfJavaTime` for years 1900-9999.
- Storage.Resolve: its contract states only that `.` resolves to the working directory. Other paths are concatenated, and that is not stated as a property.
- DownloadScript.Fetch: its own contract states only that no file is removed. What it writes is stated by `FetchKeepsExtant`, `FetchWritesOnlyListed`, `FetchLastWins` and `LaterDuplicateWins`.
- `make_timestamp(java=...)` tests `java is True`. The model takes a boolean, so a truthy non-boolean such as `1` is not covered.
- The time window takes `np.array(flist)[bools]` of two empty arrays as the empty list. For empty arrays numpy versions differ.
- The copy of the lane helpers at basic.py:26-48 is identical to bd_internal.py and is modelled once.
- A file whose time token does not parse makes the whole listing raise `ValueError` (basic.py:127-129); the model follows the code. Every file's token is read before any is parsed, so a file without a token raises `IndexError` even when an earlier token would not parse.
- The `strptime` parameter of the time window may return any integer: the model puts no condition on it. `datetime.strptime` itself only yields date-times of years 1-9999. The window compares the returned seconds, and the `OverflowError` checks on the hour margin cover values at or beyond the ends of that range.

## Findings

| source | as written | input that shows it | evidently intended | confidence | as-written member | corrected member |
|---|---|---|---|---|---|---|
| download_script/download_script.py:131-132 | `download_daily_survey_timings_data` passes `"surveytimings/Weekly"`, with a lower-case `t` and the weekly period | a bucket whose only objects are `<study>/<patient>/surveyTimings/Daily/...`: the wrapper lists none of them | `"surveyTimings/Daily"`, matching `surveyAnswers/Daily` and `surveyTimings/Weekly` | medium, not executed | DownloadScript.DailyTimingsAsWrittenListsNoTimings | DownloadScript.SurveyPresetsPaired |
