# fdb-utils: archive check, FDB description and wipe selection in Dafny

This project models the parts of MeteoSwiss fdb-utils that decide things, and proves
properties about them. fdb-utils is a set of helpers around an FDB archive of ICON
ensemble forecasts. Three parts are modelled:

- **The CI archive check** (`fdb_utils/ci/check_archive_status.py`). For the latest run of a
  model's collection, the check asks the FDB, member by member, which steps of three
  parameters are archived. Each parameter stands for one file type: `c`, `p` and the file
  with no suffix. The answers form one 0/1 matrix per file suffix. The check then
  summarises the run as COMPLETE, INCOMPLETE or MISSING, names the missing fxshare files,
  and summarises the `forecasts - 1` runs before it. `main` fails when the latest run is
  not complete, or when any run is missing.
- **FDB description** (`fdb_utils/user/describe.py`).
  - `list_all_values` collects the values per key of the records that the FDB lists for a
    request. It checks the filter against the schema keys, turns `number` and `levelist`
    values into integers, and drops requested keys that have no values.
  - `get_archived_forecasts` turns the `date:time` keys of the listed records into sorted
    run starts.
- **Retention** (`fdb_utils/management/wipe.py`). `wipe_fdb` sorts the archived forecasts,
  picks the one at index `exception` (0 is the oldest) and builds the `date=…,time=…`
  filter that `fdb-wipe` is given.

Modelling choices:

- The FDB listing (`pyfdb.list`) is a function parameter `fdb` from a request to the
  sequence of records it lists. Each record maps its keys to string values.
- The current time is a parameter `now`.
- Times are whole seconds since 1970-01-01T00:00 UTC. The `Calendar` module converts them
  to and from civil dates and proves both round trips. It also prints the `%Y%m%d`,
  `%H00`, `%H%M` and `%y%m%d%H00` forms and parses `%Y%m%d:%H%M` keys.
- A Python dict whose order matters (the status per suffix) is an association list
  `seq<(string, Matrix)>`, kept in insertion order.
- The Python loops are `method`s with loop invariants. Each method is proved equal to a
  function that states the same computation as a fold. The lemmas say what those
  functions mean in terms of the listing: which cells are 1, which file names are
  reported, which runs the history covers, and when the check passes.
- `wipe_fdb` works on an `array` that it sorts in place, as `list.sort()` does.
- `int()` is modelled as an optional sign followed by ASCII digits (`Decimal.ParseInt`).
- The integer-key test of `list_all_values` (describe.py:66 and 72) is
  `key not in ('number, levelist')`. The parenthesised value is one string, not a tuple,
  so the test is a substring test. `Describe.IsIntKey` models that substring test.
  `Describe.IntKeysOfSchema` shows that among the schema keys it selects exactly `number`
  and `levelist`.
- The `list_all_values` call of `get_param_status` (check_archive_status.py:108) is a
  parameter `query` of type `ArchiveStatus.StepQuery`, which the whole check is written
  over. `ArchiveStatus.AsWrittenQuery` is `list_all_values` as written, which is what the
  source runs. `ArchiveStatus.CorrectedQuery` uses the corrected `list_all_values` (see
  ## Findings). The `AsWritten` lemmas (`ArchiveStatus.ArchiveStatusAsWritten`,
  `StatusReport.CheckAsWritten` and the ones below them) show that the two agree unless a
  member's request lists nothing, where the check as written ends with KeyError('step').
  The lemmas about cells, verdicts and history speak of the corrected version.
- In `get_param_status`, `param_filter` is the same dictionary as `filter_values`
  (check_archive_status.py:105-107). Each member's filter is therefore built on top of the
  previous member's. `ArchiveStatus.ReusedFilter` proves that this gives the same filter
  as a fresh one per member, which is how `ArchiveStatus.MemberFilter` states it.

## Model

| member | source | states |
|---|---|---|
| Decimal.ToDecimal | fdb_utils/ci/check_archive_status.py:106 | `str(n)` of a natural number is a digit string of its minimal width that reads back as n |
| Decimal.Pad | fdb_utils/ci/check_archive_status.py:131 | `{:0w}` formatting has width max(w, digits of n), holds only digits and reads back as n |
| Decimal.PadExactWidth | fdb_utils/ci/check_archive_status.py:131 | a number below 10^w pads to exactly w characters |
| Decimal.PadOfParseDigits | fdb_utils/ci/check_archive_status.py:131 | padding the value of a digit string to its own length gives the string back |
| Decimal.DigitsRoundTrip | fdb_utils/ci/check_archive_status.py:131 | the w-digit form of a number below 10^w reads back as that number |
| Decimal.ParseInt | fdb_utils/user/describe.py:66 | `int(s)` succeeds only on a nonempty string |
| Decimal.ParseIntOfDecimal | fdb_utils/user/describe.py:66 | `int(str(n))` is n for every natural n |
| Decimal.ParseIntOfNegative | fdb_utils/user/describe.py:66 | `int("-" + str(n))` is -n |
| Calendar.FromTimestamp | fdb_utils/ci/check_archive_status.py:85 | every timestamp gives a valid civil date and time (month, day within the month, hour, minute, second in range) |
| Calendar.TimestampRoundTrip | fdb_utils/ci/check_archive_status.py:85 | converting a timestamp to a date and back gives the same timestamp |
| Calendar.DateTimeRoundTrip | fdb_utils/ci/check_archive_status.py:82 | converting a valid date to a timestamp and back gives the same date |
| Calendar.TimestampInjective | fdb_utils/user/describe.py:115 | two valid dates with the same timestamp are equal |
| Calendar.DateStringWidth | fdb_utils/ci/check_archive_status.py:119 | `%Y%m%d` of a date in years 1-9999 has 8 characters |
| Calendar.ToTimestamp | fdb_utils/ci/check_archive_status.py:82 | `.timestamp()` of a UTC date; TimestampRoundTrip and DateTimeRoundTrip relate it to FromTimestamp |
| Calendar.DateString | fdb_utils/ci/check_archive_status.py:119 | `strftime("%Y%m%d")`; DateStringWidth and PrintedKeyParsesBack are proved about it |
| Calendar.HourString | fdb_utils/ci/check_archive_status.py:120 | `strftime("%H00")`: the two-digit hour followed by `00` |
| Calendar.HourMinuteString | fdb_utils/management/wipe.py:29 | `strftime("%H%M")`; PrintedKeyParsesBack and ParsedKeyPrintsBack are proved about it |
| Calendar.LabelString | fdb_utils/ci/check_archive_status.py:178 | `strftime("%y%m%d%H00")`: two-digit year, month, day and hour, then `00` |
| Calendar.ParseForecastKey | fdb_utils/user/describe.py:112 | a `%Y%m%d:%H%M` key that parses gives a valid date in years 1-9999 with zero seconds |
| Calendar.ParsedKeyPrintsBack | fdb_utils/user/describe.py:112 | a key that parses is printed back identically in `%Y%m%d:%H%M` form |
| Calendar.PrintedKeyParsesBack | fdb_utils/user/describe.py:112 | the printed key of a valid date with zero seconds parses back to that date |
| Calendar.ParseJoinedKey | fdb_utils/user/describe.py:105 | a key joined from digit fields of widths 4, 2, 2, 2, 2 parses exactly when the fields form a valid date |
| Calendar.ForecastKeyInjective | fdb_utils/user/describe.py:111-113 | two keys that parse to the same date are the same key |
| Sorting.InsertionSort | fdb_utils/management/wipe.py:26 | after the sort the array is sorted and is a permutation of what it held |
| Sorting.SortedDistinctIncreases | fdb_utils/user/describe.py:115 | sorting distinct values gives a strictly increasing sequence |
| Sorting.SortedHeadIsLeast | fdb_utils/management/wipe.py:26-28 | the first element of a sorted permutation is in the original and no larger than any of its elements |
| Describe.ValidateFilter | fdb_utils/user/describe.py:10-13 | no error exactly when every filter key is a schema key; an error names only offending keys, and at least one |
| Describe.PrepareRequest | fdb_utils/user/describe.py:53-57 | an empty filter gives the empty request; otherwise the filter itself, or an error exactly when some key is outside the schema |
| Describe.IntKeysOfSchema | fdb_utils/user/describe.py:8 | among the schema keys the substring test selects exactly number and levelist |
| Describe.StepIsText | fdb_utils/user/describe.py:66 | step values are kept as strings |
| Describe.MergeOneMore | fdb_utils/user/describe.py:68-72 | taking one more key from a record adds that key with its converted value and changes no other key |
| Describe.CollectOutcome | fdb_utils/user/describe.py:59-72 | the fold over the listing succeeds exactly when every value it reads of an integer key converts; otherwise it fails with the int() error |
| Describe.CollectContents | fdb_utils/user/describe.py:59-72 | after the fold each collected key holds exactly the values the listing has for it; the keys are the requested ones (none for an empty listing), or every key listed when none was requested |
| Describe.CollectStep | fdb_utils/user/describe.py:61-72 | one more record extends the fold by merging the keys taken from that record, or fails when one of them does not convert |
| Describe.CollectPrefixFailure | fdb_utils/user/describe.py:66 | once a record fails to convert, the whole fold fails with that error |
| Describe.ListAllValuesRequested | fdb_utils/user/describe.py:16-87 | corrected (see ## Findings): with requested keys, the result holds exactly the requested keys that some record carries, each with all its listed values |
| Describe.ListAllValuesAll | fdb_utils/user/describe.py:16-87 | corrected (see ## Findings): without requested keys, the result holds every listed key with all its values, none empty |
| Describe.ListAllValuesFailure | fdb_utils/user/describe.py:53-72 | corrected (see ## Findings): the call fails exactly when the filter has a non-schema key, or a listed integer-key value does not convert |
| Describe.SingleTextKey | fdb_utils/user/describe.py:16-87 | corrected (see ## Findings): for one requested text key and a schema filter, the call succeeds and the values are exactly the strings some listed record carries for that key |
| Describe.AsWrittenRaisesOnEmptyListing | fdb_utils/user/describe.py:74-77 | when nothing is listed, the code as written raises KeyError for the first requested key, while the corrected version returns an empty result |
| Describe.AsWrittenRaisesOnRepeatedKey | fdb_utils/user/describe.py:68-77 | a key requested twice that no listed record carries makes the code as written raise KeyError even when the listing is not empty, while the corrected version returns an empty result |
| Describe.AsWrittenSingleKey | fdb_utils/user/describe.py:53-77 | with one requested key, the code as written raises KeyError for that key exactly when the filter is valid and nothing is listed; otherwise it returns what the corrected version returns |
| Describe.ListAllValuesSpec | fdb_utils/user/describe.py:16-87 | the corrected list_all_values as a value: schema check, fold over the listing, pruning that skips keys never created; ListAllValuesRequested, ListAllValuesAll and ListAllValuesFailure state what it returns |
| Describe.PruneAsWritten | fdb_utils/user/describe.py:74-77 | the pruning loop as written, `result[requested_key]` raising KeyError for a key not in the result; AsWrittenRaisesOnEmptyListing and AsWrittenRaisesOnRepeatedKey exhibit it |
| Describe.ListAllValuesAsWritten | fdb_utils/user/describe.py:16-87 | list_all_values exactly as written; AsWrittenSingleKey relates it to the corrected version |
| Describe.BuildRequest | fdb_utils/user/describe.py:53-57 | computes the request that PrepareRequest specifies |
| Describe.MergeAllKeys | fdb_utils/user/describe.py:62-66 | succeeds exactly when every key of the record converts, and then merges all its keys |
| Describe.MergeRequestedKeys | fdb_utils/user/describe.py:67-72 | succeeds exactly when the requested keys the record carries convert, and then merges those keys |
| Describe.Prune | fdb_utils/user/describe.py:74-77 | corrected (see ## Findings): drops exactly the requested keys whose value set is empty, skipping a requested key that was never created |
| Describe.CollectListing | fdb_utils/user/describe.py:59-72 | the loop over the listing computes the fold Collect |
| Describe.Collect | fdb_utils/user/describe.py:59-72 | the loop over the listing as a fold; ValuesOfCarried, ListAllValuesRequested and ListAllValuesAll state what it collects |
| Describe.ListAllValues | fdb_utils/user/describe.py:16-87 | corrected (see ## Findings): the method computes list_all_values as ListAllValuesSpec specifies it |
| Describe.ArchiveRequest | fdb_utils/user/describe.py:97-102 | a missing or empty request is replaced by the default request `levtype=sfc, step=0, number=1`; any other request is kept |
| Describe.DateTimeKey | fdb_utils/user/describe.py:104-107 | a record gives the key `date:time` exactly when it carries both; otherwise the error names the missing key, date first |
| Describe.KeyOfTime | fdb_utils/user/describe.py:111-113 | two keys that parse to the same run start are the same key |
| Describe.NewKeyNewTime | fdb_utils/user/describe.py:104-113 | a key not yet parsed adds a run start not yet collected |
| Describe.CollectDateTimeKeys | fdb_utils/user/describe.py:104-107 | succeeds exactly when every record carries date and time, and then gives the set of their `date:time` keys; a failure is the first record's missing key |
| Describe.ParseKeys | fdb_utils/user/describe.py:109-113 | succeeds exactly when every key parses, and then gives the run starts of the keys, without repetition |
| Describe.GetArchivedForecasts | fdb_utils/user/describe.py:91-115 | fails with the first record's missing key, or with a bad date when a key does not parse; on success returns the run starts of all listed keys, strictly increasing |
| Describe.ForecastTimes | fdb_utils/user/describe.py:91-115 | get_archived_forecasts as a value; GetArchivedForecasts computes it and states what it returns |
| ArchiveStatus.CollectionsWellFormed | fdb_utils/ci/check_archive_status.py:33-50 | every collection is stored under its own model name and runs at a positive interval |
| ArchiveStatus.LastRunTime | fdb_utils/ci/check_archive_status.py:79-85 | the result is a multiple of the interval, at most the delayed time, and less than one interval before it |
| ArchiveStatus.LastRunTimeUnique | fdb_utils/ci/check_archive_status.py:79-85 | the result is the only multiple of the interval with that property |
| ArchiveStatus.LastRunTimeMonotone | fdb_utils/ci/check_archive_status.py:79-85 | a later time never gives an earlier last run |
| ArchiveStatus.LastRunTimeCh1Examples | test/test_check_archive_status.py:54-113 | the ICON-CH1 cases of the tests: three-hour runs, with a delay of 2h30 |
| ArchiveStatus.LastRunTimeCh2Examples | test/test_check_archive_status.py:80-104 | the ICON-CH2 cases of the tests: six-hour runs, with a delay of 3h30 |
| ArchiveStatus.Reassign | fdb_utils/ci/check_archive_status.py:105-107 | setting the number again, and merging the field filter again, on a filter already built is the same as building it once from the base |
| ArchiveStatus.ReusedFilter | fdb_utils/ci/check_archive_status.py:101-107 | updating the previous member's filter in place gives the next member's filter |
| ArchiveStatus.MemberFilterInSchema | fdb_utils/ci/check_archive_status.py:101-107 | every member filter uses schema keys only |
| ArchiveStatus.MemberFilter | fdb_utils/ci/check_archive_status.py:101-107 | the filter of one member: parameter id, model, date, time and member number, overridden by the parameter's field filter; MemberFilterInSchema and ReusedFilter are proved about it |
| ArchiveStatus.ParamStatusOf | fdb_utils/ci/check_archive_status.py:88-112 | get_param_status as a value; GetParamStatus computes it, ParamStatusMeaning and ParamStatusAsWritten state what it returns |
| ArchiveStatus.ArchiveStatusOf | fdb_utils/ci/check_archive_status.py:115-126 | get_archive_status as a value; GetArchiveStatus computes it, ArchiveStatusKnownModel and ArchiveStatusAsWritten state what it returns |
| ArchiveStatus.StepsPresentAreListed | fdb_utils/ci/check_archive_status.py:108 | with the corrected list_all_values (see ## Findings), the step listing of a member succeeds, and its steps are exactly the step strings the member's records carry |
| ArchiveStatus.StepsRowMatches | fdb_utils/ci/check_archive_status.py:109 | a step row has one cell per step, each 0 or 1, and 1 exactly when the listing carries that step |
| ArchiveStatus.RowsStep | fdb_utils/ci/check_archive_status.py:104-110 | one more member appends its row, or the loop stops with that member's error |
| ArchiveStatus.RowsFailure | fdb_utils/ci/check_archive_status.py:104-110 | once a member's query fails, no later member changes the outcome |
| ArchiveStatus.MemberRowOfListing | fdb_utils/ci/check_archive_status.py:108-109 | a member's row is the step row of what the given list_all_values returns for that member's filter, or that call's error |
| ArchiveStatus.MemberRows | fdb_utils/ci/check_archive_status.py:103-112 | for the list_all_values it is given, the member loop computes one row per member in order, or the first failing call's error |
| ArchiveStatus.GetParamStatus | fdb_utils/ci/check_archive_status.py:88-112 | for the list_all_values it is given (as written or corrected), computes the status matrix ParamStatusOf specifies: KeyError for a model outside the collection table, else one row per member in order, or the first failing call's error |
| ArchiveStatus.ParamRowsMeaning | fdb_utils/ci/check_archive_status.py:103-112 | with the corrected list_all_values (see ## Findings), all n rows are computed, and row m has one cell per step, set exactly when member m's records carry that step |
| ArchiveStatus.ParamStatusFailure | fdb_utils/ci/check_archive_status.py:95-108 | as written, a parameter's status fails exactly when the model is not in the collection table or some member's request lists nothing |
| ArchiveStatus.ParamStatusMeaning | fdb_utils/ci/check_archive_status.py:88-112 | with the corrected list_all_values (see ## Findings), for a known model the matrix has one row per member and one cell per step (one for a constant parameter), 1 exactly where the member's listing carries the step |
| ArchiveStatus.Assign | fdb_utils/ci/check_archive_status.py:125 | `d[key] = m` maps the key to m and keeps every other key; a new key goes at the end, and an existing key keeps its place |
| ArchiveStatus.StatusFromStep | fdb_utils/ci/check_archive_status.py:123-125 | one more parameter assigns its matrix under its suffix, or stops with its error |
| ArchiveStatus.StatusFromFailure | fdb_utils/ci/check_archive_status.py:123-125 | once a parameter fails, the whole status fails with that error |
| ArchiveStatus.StatusFromDistinct | fdb_utils/ci/check_archive_status.py:122-126 | for parameters with distinct suffixes that all succeed, the status lists each suffix once, in order, with its matrix |
| ArchiveStatus.ParamSuffixes | fdb_utils/ci/check_archive_status.py:60-76 | the parameters' suffixes are `c`, `p` and the empty suffix, and they are distinct |
| ArchiveStatus.ParamSuffixEntries | fdb_utils/ci/check_archive_status.py:60-76 | a status with one entry per parameter, in order, has the keys `c`, `p`, `""` |
| ArchiveStatus.ParamsInSchema | fdb_utils/ci/check_archive_status.py:60-76 | every parameter's field filter uses schema keys only |
| ArchiveStatus.KnownModelParamsSucceed | fdb_utils/ci/check_archive_status.py:123-124 | with the corrected list_all_values (see ## Findings), for a known model the status of every parameter succeeds |
| ArchiveStatus.CollectStatus | fdb_utils/ci/check_archive_status.py:122-126 | for the list_all_values it is given, the loop over the parameters computes the status fold in order, stopping at the first failing parameter |
| ArchiveStatus.GetArchiveStatus | fdb_utils/ci/check_archive_status.py:115-126 | for the list_all_values it is given, computes the archive status of a run start, with date `%Y%m%d` and time `%H00` |
| ArchiveStatus.ArchiveStatusUnknownModel | fdb_utils/ci/check_archive_status.py:95 | for either list_all_values, the status of a model outside the collection table fails with that model |
| ArchiveStatus.ArchiveStatusKnownModel | fdb_utils/ci/check_archive_status.py:115-126 | with the corrected list_all_values (see ## Findings), for a known model the status has the keys `c`, `p`, `""`, in that order, each with its parameter's matrix for the run's date and hour |
| ArchiveStatus.StatusOfKnownModel | fdb_utils/ci/check_archive_status.py:122-126 | with the corrected list_all_values (see ## Findings), for a known model the status of the three parameters succeeds, in order, each under its own suffix |
| ArchiveStatus.MemberRowAsWritten | fdb_utils/ci/check_archive_status.py:108 | as written, a member whose request lists nothing gets KeyError('step'); any other member gets the corrected row |
| ArchiveStatus.ParamRowsAsWritten | fdb_utils/ci/check_archive_status.py:103-112 | as written, the member loop gives the corrected rows when every member has something listed, and KeyError('step') otherwise |
| ArchiveStatus.RowsOneError | fdb_utils/ci/check_archive_status.py:103-112 | when the corrected rows never fail and each row as written is the corrected one or one error, the loop as written gives the corrected rows or that error |
| ArchiveStatus.RowsSucceed | fdb_utils/ci/check_archive_status.py:103-112 | a member loop whose rows never fail gives a matrix |
| ArchiveStatus.ParamStatusAsWritten | fdb_utils/ci/check_archive_status.py:88-112 | as written, get_param_status of a known model is KeyError('step') when some member has nothing listed, and the corrected status otherwise |
| ArchiveStatus.StatusFromOneError | fdb_utils/ci/check_archive_status.py:122-126 | when the corrected statuses never fail and each status as written is the corrected one or one error, the parameter loop as written gives the corrected dictionary or that error |
| ArchiveStatus.StatusFromSucceeds | fdb_utils/ci/check_archive_status.py:122-126 | a parameter loop whose statuses never fail gives a dictionary |
| ArchiveStatus.ArchiveStatusAsWritten | fdb_utils/ci/check_archive_status.py:115-126 | as written, get_archive_status of a known model is KeyError('step') when some member of some parameter has nothing listed for the run, and the corrected status otherwise |
| ArchiveStatus.AsWrittenQuery | fdb_utils/ci/check_archive_status.py:108 | the call `list_all_values("step", **param_filter)` as the source makes it |
| ArchiveStatus.CorrectedQuery | fdb_utils/ci/check_archive_status.py:108 | the same call with the corrected list_all_values |
| StatusReport.FxFilenameRoundTrip | fdb_utils/ci/check_archive_status.py:129-135 | for members below 1000 and steps below 2400, the suffix, member and step can be read back from the file name |
| StatusReport.ParsedFxFilenamePrintsBack | fdb_utils/ci/check_archive_status.py:129-135 | a name that parses is the file name of the member and step it parses to |
| StatusReport.FxFilenameInjective | fdb_utils/ci/check_archive_status.py:129-135 | distinct (member, step) pairs in range give distinct file names |
| StatusReport.FxFilenameExamples | test/test_check_archive_status.py:34-37 | the file names the tests expect |
| StatusReport.FxFilename | fdb_utils/ci/check_archive_status.py:129-135 | fx_filename: the prefix, `{dd:02}{hh:02}000_{mmm:03}` of the step's days and hours and the member, then the suffix; FxFilenameRoundTrip, FxFilenameInjective and FxFilenameExamples are proved about it |
| StatusReport.FailedFilesExample | test/test_check_archive_status.py:40-51 | for the matrices of the test under any two suffixes, the failed files are the four names the test expects, in its order: (member, step) (0, 2) and (1, 0) of the first entry, then (0, 0) and (2, 1) of the second |
| StatusReport.FailedFileNamesOfFirstEntry | test/test_check_archive_status.py:46-47 | for any suffix, the names of member 0, step 2 and member 1, step 0 are `_FXINP_lfrf0002000_000` and `_FXINP_lfrf0000000_001` followed by the suffix |
| StatusReport.FailedFileNamesOfSecondEntry | test/test_check_archive_status.py:48-49 | for any suffix, the names of member 0, step 0 and member 2, step 1 are `_FXINP_lfrf0000000_000` and `_FXINP_lfrf0001000_002` followed by the suffix |
| StatusReport.FailedInRowOfThree | fdb_utils/ci/check_archive_status.py:142-144 | the failed files of a row of three cells are those of its 0 cells, in step order |
| StatusReport.FailedInMatrixOfRows | fdb_utils/ci/check_archive_status.py:141-144 | the failed files of a matrix of two or three rows are those of its rows, member by member |
| StatusReport.FailedFilesOfTwo | fdb_utils/ci/check_archive_status.py:140-144 | the failed files of a dictionary of two entries are those of its entries, in order |
| StatusReport.FailedFilesComplete | fdb_utils/ci/check_archive_status.py:138-145 | every 0 cell is reported under its suffix, member and step |
| StatusReport.FailedFilesSound | fdb_utils/ci/check_archive_status.py:138-145 | every reported name is the file name of some 0 cell |
| StatusReport.FailedFilesCount | fdb_utils/ci/check_archive_status.py:138-145 | the number of reported names plus the number of set cells is the number of cells |
| StatusReport.FailedFiles | fdb_utils/ci/check_archive_status.py:138-145 | get_failed_files as a value; FailedFilesComplete, FailedFilesSound and FailedFilesCount state what it lists |
| StatusReport.GetFailedFiles | fdb_utils/ci/check_archive_status.py:138-145 | the three nested loops compute FailedFiles |
| StatusReport.AddMatrixFailures | fdb_utils/ci/check_archive_status.py:141-144 | the member loop appends the failed files of one matrix |
| StatusReport.AddRowFailures | fdb_utils/ci/check_archive_status.py:142-144 | the step loop appends the failed files of one row |
| StatusReport.SummaryStatus | fdb_utils/ci/check_archive_status.py:154-166 | the loop computes COMPLETE when every cell is set, INCOMPLETE when some are, and MISSING otherwise |
| StatusReport.SummaryByFailedFiles | fdb_utils/ci/check_archive_status.py:154-166 | COMPLETE exactly when no file failed; INCOMPLETE exactly when some failed and some cell is set; MISSING exactly when some failed and no cell is set |
| StatusReport.SummaryExamples | test/test_check_archive_status.py:10-31 | the missing, complete and incomplete cases of the tests; an empty status counts as COMPLETE |
| StatusReport.Summary | fdb_utils/ci/check_archive_status.py:154-166 | summary_status as a value; SummaryStatus computes it and SummaryByFailedFiles relates it to the failed files |
| StatusReport.GetPastSummary | fdb_utils/ci/check_archive_status.py:176-177 | for the list_all_values it is given, the summary of a past run's archive status, or its error |
| StatusReport.PastSummary | fdb_utils/ci/check_archive_status.py:176-177 | one past run's summary as a value; GetPastSummary computes it, PastSummaryAsWritten relates the two versions |
| StatusReport.History | fdb_utils/ci/check_archive_status.py:169-179 | historical_summary_status as a fold; HistoricalSummaryStatus computes it, HistoryKnownModel and HistoryAsWritten state what it returns |
| StatusReport.PastStartDistance | fdb_utils/ci/check_archive_status.py:173-175 | after n steps back, the past start is n intervals before the last run |
| StatusReport.RunStartsSpacing | fdb_utils/ci/check_archive_status.py:173-178 | the k-th past run starts k + 1 intervals before the last run |
| StatusReport.LabelsAt | fdb_utils/ci/check_archive_status.py:178 | each label is the `%y%m%d%H00` label of its run start |
| StatusReport.HistoryAdvance | fdb_utils/ci/check_archive_status.py:174-178 | one more past run appends its summary and its label |
| StatusReport.HistoryStops | fdb_utils/ci/check_archive_status.py:174-177 | a past run whose status fails makes the whole history fail with its error |
| StatusReport.HistoryStep | fdb_utils/ci/check_archive_status.py:174-177 | the history of k runs extends that of k - 1 runs with the summary of the k-th run |
| StatusReport.HistoryFailure | fdb_utils/ci/check_archive_status.py:174-177 | a failure at some run is the failure of every longer history |
| StatusReport.HistoryOfSummaries | fdb_utils/ci/check_archive_status.py:169-179 | when every summary succeeds, the history has one summary per past run, newest first |
| StatusReport.HistoricalSummaryStatus | fdb_utils/ci/check_archive_status.py:169-179 | for the list_all_values it is given, the loop computes the summaries and labels of the `forecasts - 1` runs before the last run, or the first failing run's error |
| StatusReport.HistoryKnownModel | fdb_utils/ci/check_archive_status.py:169-179 | with the corrected list_all_values (see ## Findings), for a known model the history holds n summaries and n labels; entry k is the summary and label of the run k + 1 intervals before the last run |
| StatusReport.ArchiveStatusSucceeds | fdb_utils/ci/check_archive_status.py:176-177 | with the corrected list_all_values (see ## Findings), for a known model every run's status and summary succeed |
| StatusReport.HistoryUnknownModel | fdb_utils/ci/check_archive_status.py:176 | for either list_all_values, a nonempty history of a model outside the table fails with that model |
| StatusReport.VerdictMeaning | fdb_utils/ci/check_archive_status.py:247-282 | the history is the latest summary followed by the past ones; the check passes exactly when the latest run is complete and no run is missing; failed files are logged exactly when the latest run is not complete |
| StatusReport.RunCheck | fdb_utils/ci/check_archive_status.py:240-282 | for the list_all_values it is given, main computes the report CheckOf specifies |
| StatusReport.CheckKnownModel | fdb_utils/ci/check_archive_status.py:240-282 | with the corrected list_all_values (see ## Findings), for a known model the check always reaches the verdict of the latest run at the last run time and of the runs before it |
| StatusReport.HistoryOneError | fdb_utils/ci/check_archive_status.py:174-178 | when the corrected summaries never fail and each summary as written is the corrected one or one error, the history as written is the corrected one or that error |
| StatusReport.HistorySucceeds | fdb_utils/ci/check_archive_status.py:174-178 | a history whose runs all have a summary succeeds |
| StatusReport.PastSummaryAsWritten | fdb_utils/ci/check_archive_status.py:176-177 | as written, a past run's summary is KeyError('step') when some member of the run has nothing listed, and the corrected summary otherwise |
| StatusReport.HistoryAsWritten | fdb_utils/ci/check_archive_status.py:169-179 | as written, the history is KeyError('step') when some member of some past run has nothing listed, and the corrected history otherwise |
| StatusReport.CheckAsWritten | fdb_utils/ci/check_archive_status.py:240-282 | as written, main of a known model ends with KeyError('step') when some member of some run it looks at has nothing listed, and reaches the corrected verdict otherwise |
| StatusReport.EmptyParamStatus | fdb_utils/ci/check_archive_status.py:103-112 | with the corrected list_all_values and nothing archived, every cell of a parameter's status is 0 |
| StatusReport.NoneSetMissing | fdb_utils/ci/check_archive_status.py:154-166 | a status with at least one cell and no set cell is MISSING |
| StatusReport.EmptyArchiveMissing | fdb_utils/ci/check_archive_status.py:154-166 | with the corrected list_all_values and nothing archived, every run of a known model is MISSING |
| StatusReport.EmptyArchiveCheck | fdb_utils/ci/check_archive_status.py:108 | with nothing archived, the check as written ends with KeyError('step'), while the corrected check reports the latest run MISSING and fails |
| StatusReport.CheckOf | fdb_utils/ci/check_archive_status.py:240-282 | main as a value; RunCheck computes it, and VerdictMeaning, CheckKnownModel and CheckAsWritten state what it returns |
| StatusReport.Verdict | fdb_utils/ci/check_archive_status.py:250-282 | the end of main once the statuses are known; VerdictMeaning states when it passes and when it names failed files |
| Wipe.Selected | fdb_utils/management/wipe.py:19-28 | a forecast is selected exactly when the list is nonempty and the index is in Python's range -n..n-1, and the selected forecast is one of the list's |
| Wipe.WipeFdb | fdb_utils/management/wipe.py:13-30 | an empty list or an index that is too large fails before the sort and leaves the list unchanged; otherwise the list ends sorted and permuted, and the filter is that of the selected forecast |
| Wipe.DefaultWipesOldest | fdb_utils/management/wipe.py:13-28 | with exception 0 the oldest forecast is deleted |
| Wipe.ExceptionOneKeepsOldest | fdb_utils/management/wipe.py:16 | with exception 1 and distinct forecasts, the oldest forecast is kept and the one deleted is the next oldest |
| Wipe.MinusOneWipesNewest | fdb_utils/management/wipe.py:22-28 | exception -1 passes the check and deletes the newest forecast |
| Wipe.WipeFilterOfListedForecast | fdb_utils/management/wipe.py:28-30 | the filter of a forecast read from a `%Y%m%d:%H%M` key names that key's date and time |
| Wipe.WipeExamples | test/test_fdb_management.py:25-46 | the cases of the tests: an empty list, an index too large, and the default on 2023-01-01 |
| Wipe.NewYearFilter | fdb_utils/management/wipe.py:28-30 | a run at 2023-01-01 00:00 is wiped with `date=20230101,time=0000` |
| Wipe.WipeFilter | fdb_utils/management/wipe.py:28-30 | the `date=%Y%m%d,time=%H%M` filter of a run start; WipeFilterOfListedForecast and NewYearFilter state what it names |
| Wipe.WipeOf | fdb_utils/management/wipe.py:19-30 | wipe_fdb as a value: the error of the selection, or the filter of the selected forecast; WipeFdb computes it |

## Left out

- Plotting (`create_figure`, `plot_status`, `plot_history`, the figure title and the saved heatmap): they only draw, and none of them affects the verdict.
- The command line of the check (argument parsing and the exit status): `StatusReport.RunCheck` returns main's boolean inside its report.
- The wall clock: `now` is a parameter of `StatusReport.RunCheck`.
- `pyfdb.list` and the FDB itself: the listing is a function parameter.
- Printing and logging in `list_all_values`, `main` and `wipe_fdb`: they are not modelled. `failedFiles` in the report is what main logs.
- The call of `fdb-wipe` (wipe.py:32-41): reading `FDB5_HOME`, the check that the executable exists and `subprocess.run`. The model stops at the filter that would be passed.
- The other modules of the repository (`env.py`, `fdb_utils.py`, the configuration, file-system and GRIB helpers, the CLI entry points): they are not part of this model.
- Timestamps are whole seconds in UTC. Python's fractional seconds and time-zone handling are not modelled.
- Calendar.ParseForecastKey: accepts only the fixed-width form `YYYYMMDD:HHMM` in years 1-9999. strptime also accepts shorter fields, and those are not modelled.
- Python's datetime refuses years before 1 and after 9999. The model does not raise there, and the printed date of such a year is not 8 characters long.
- Decimal.ParseInt: models `int()` on an optional sign followed by ASCII digits. Surrounding whitespace, underscores and non-ASCII digits are not accepted.
- StatusReport.FxFilenameRoundTrip: stated only for members below 1000 and steps below 2400. Beyond that, the `{:02}` and `{:03}` fields grow, and a name no longer splits at fixed positions.
- Describe.MergeAllKeys: merges a record's keys in an arbitrary order, where Python follows the record's key order. The result is the same map, and the `NotAnInteger` error does not name the key.
- The order of keys in the dictionary `list_all_values` returns is not modelled (it is a `map`), and neither is the order of the `date:time` set before sorting.
- The tests of `summary_status` call it `overall_status`. The modelled cases (`StatusReport.SummaryExamples`) are those of test/test_check_archive_status.py:10-31, applied to `summary_status`.
- Describe.ValidateFilter: the error carries every filter key outside the schema, where the source raises on the first one in the filter's insertion order. A `map` has no order, and only the text of the error differs.
- `get_param_status` reuses and mutates one filter dictionary. The model builds each member's filter from the base filter, and `ArchiveStatus.ReusedFilter` proves the two agree; aliasing itself is not modelled.

## Findings

| source | as written | input that shows it | evidently intended | confidence | as-written member | corrected member |
|---|---|---|---|---|---|---|
| fdb_utils/user/describe.py:74-77 | the pruning loop reads `result[requested_key]`, but a requested key only enters `result` inside the loop over the listed records | `list_all_values("step", date="20240202")` when the FDB lists no record for that request | an empty result, the same as when the records lack the key | not executed | Describe.AsWrittenRaisesOnEmptyListing | Describe.ListAllValues |
| fdb_utils/user/describe.py:68-77 | after the first pass over a repeated requested key pops its empty set, the second pass reads `result[requested_key]` again | `list_all_values("step", "step")` when the listed records carry no `step` | the key is dropped once, and the result has no `step` | not executed | Describe.AsWrittenRaisesOnRepeatedKey | Describe.ListAllValues |
| fdb_utils/ci/check_archive_status.py:108 | `list_all_values(...).get("step", [])` expects a missing `step` key when nothing is archived for a member, but the call as written raises KeyError('step') before `get` runs, so the check ends with that error | an FDB that lists nothing for any member of the latest run | a row of zeros for that member, so the run is reported MISSING and the check fails with its verdict | not executed | StatusReport.EmptyArchiveCheck | StatusReport.CheckKnownModel |

