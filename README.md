# DWD Climate Data Center retrieval, modelled in Dafny

The script `retrieve_data_from_dwd_cdc.py` downloads ten-minute historical
observations from the Climate Data Center (CDC) of the Deutscher Wetterdienst
(DWD). It covers temperature, wind and solar radiation, for every station in
Schleswig-Holstein. For each measurement it does the following:

- reads the fixed-width station list;
- keeps the stations of the region and saves them as JSON;
- pads each station ID to five digits;
- for each station, requests the measurement's index page and picks the `.zip`
  links that name the station;
- downloads each archive, extracts it into the measurement's data directory and
  deletes it;
- waits after each station.

Before all this it creates any missing data directories.

The model is split into modules, one per concern:

- `Config` (config.dfy) holds the constants: the measurements in the key order of
  `DATA_URLS`, the region, the delay, the data directories as path components, the
  URLs and the file names.
- `StationMetadata` (station_metadata.dfy) models `read_fwf`. It covers the nine
  column ranges, the blank stripping of each field, the header and the skipped
  divider line, and the `Bundesland` mask.
- `StationIds` (station_ids.dfy) models `astype(str).str.zfill(5)` on the ID
  column. Python's `zfill` is written out in full, sign handling included. So is
  the rendering of an integer-typed ID back to text.
- `ArchiveLocator` (archive_locator.dfy) models `find_filenames_for_station`:
  - the status check;
  - `re.findall(r'href="([^"]+\.zip)"', text)` as a scanning function, proved
    against a declarative description of `findall`'s leftmost, non-overlapping
    matches (that description has exactly one solution);
  - the station filter `"_" + id + "_" in link`.
- `Trace` (trace.dfy) describes each step of the run as a list of effect events:
  directory creation, station-list read, JSON save, index request, download,
  extraction, deletion and sleep. It also describes the filesystem (a set of
  directories and a set of files) that replaying those events produces, and
  proves ordering and counting facts about the events.
- `Pipeline` (pipeline.dfy) has class `Host`, whose methods run the loops of
  `create_data_folder_structure`, `retrieve_data_for_station`,
  `unpack_and_remove_zip` and `main` step by step. Each method updates the host's
  directories, files and trace, and is proved to produce exactly the events and
  the filesystem that `Trace` specifies.
- `Seqs` (seqs.dfy) and `Wrappers` (wrappers.dfy) hold the shared filter,
  subsequence and substring definitions, and `Option`/`Result`.

A link carrying `_017660_` is not kept for station 01766, because the code
requires an underscore right after the ID (`ArchiveLocator.RejectsLongerId`).

The network and the station-list file are parameters. A `Remote` value gives the
lines of the station list at a URL and the response (status and text) to a GET of
an index page.

## Model

| member | source | states |
|---|---|---|
| StationIds.ZFill | src/simultaneousness_analysis/retrieve_data_from_dwd_cdc.py:128 | the result has length max(\|s\|, width); a string already that long is returned unchanged; otherwise the result ends with `s` and everything before it is '0', except that a leading sign stays first, with the zeros inserted after it |
| StationIds.StationId | src/simultaneousness_analysis/retrieve_data_from_dwd_cdc.py:128 | a normalised ID is at least 5 characters long, never truncated; for a numeric field it is a digit string with the same numeric value as the field, and a result longer than five digits has no leading zero ("000044" gives "00044"), which with the value fixes it |
| StationIds.ShortIdPadded | src/simultaneousness_analysis/retrieve_data_from_dwd_cdc.py:128 | an ID of at most five digits becomes exactly five digits: the same digits, left-padded with '0' ("44" and "00044" both give "00044") |
| StationIds.LongIdUnchanged | src/simultaneousness_analysis/retrieve_data_from_dwd_cdc.py:128 | an ID with no leading zero and five or more digits is returned unchanged ("123456" stays "123456") |
| StationIds.AsString | src/simultaneousness_analysis/retrieve_data_from_dwd_cdc.py:128 | `astype(str)` on an ID: a digit string becomes the decimal form of its value, a digit string with the same value and no leading zero ("044" gives "44"); any other text is kept as it is |
| StationIds.GetStationIdsFromMetadata | src/simultaneousness_analysis/retrieve_data_from_dwd_cdc.py:116-129 | one ID per row of the table, in row order: the i-th ID is the normalised ID field of the i-th row, at least 5 long, with the field's numeric value |
| StationMetadata.ColumnsContiguous | src/simultaneousness_analysis/retrieve_data_from_dwd_cdc.py:69-79 | the nine column ranges are non-empty, the first starts at 0, each starts where the previous one ends, and the last ends at 140 |
| StationMetadata.ColumnNames | src/simultaneousness_analysis/retrieve_data_from_dwd_cdc.py:82-93 | one column name per column range; column 0 is `Stations_id` and column 7 is `Bundesland`, the two the code reads |
| StationMetadata.CutTiles | src/simultaneousness_analysis/retrieve_data_from_dwd_cdc.py:69-79 | any ranges that start at 0 and each begin where the previous one ends cut a line into pieces that concatenate to its prefix up to the last range's end |
| StationMetadata.FieldsTileLine | src/simultaneousness_analysis/retrieve_data_from_dwd_cdc.py:69-79 | the nine raw fields of a line, concatenated in order, give back exactly the line's first 140 characters, so every character there lands in exactly one column |
| StationMetadata.SliceLine | src/simultaneousness_analysis/retrieve_data_from_dwd_cdc.py:69-81 | a row has one field per column range, and field k is the text of column k of the line with its surrounding blanks stripped |
| StationMetadata.Strip | src/simultaneousness_analysis/retrieve_data_from_dwd_cdc.py:66-81 | a stripped field is a contiguous part of the raw field that neither starts nor ends with a blank; everything removed around it is blank |
| StationMetadata.ParseStationTable | src/simultaneousness_analysis/retrieve_data_from_dwd_cdc.py:66-81 | a file with no lines is EmptyData; otherwise there is one row per line from line 2 on, since line 0 is the header and line 1 is skipped; row i is data line i+2 cut by the column ranges |
| StationMetadata.RegionFilter | src/simultaneousness_analysis/retrieve_data_from_dwd_cdc.py:93 | a row is kept if and only if its `Bundesland` field equals the region; the kept rows are a subsequence of the table, in table order; none are kept if the region never occurs |
| StationMetadata.RegionFilterAppend | src/simultaneousness_analysis/retrieve_data_from_dwd_cdc.py:93 | the mask decides row by row: appending a row to the table appends it to the result exactly when its region matches |
| StationMetadata.GetStationMetadata | src/simultaneousness_analysis/retrieve_data_from_dwd_cdc.py:66-94 | fails (EmptyData) if and only if the file has no lines |
| StationMetadata.GetStationMetadataRows | src/simultaneousness_analysis/retrieve_data_from_dwd_cdc.py:66-94 | for a non-empty file the result is exactly the rows cut from data lines (line 2 on) whose `Bundesland` is the region, as a subsequence of the parsed table |
| ArchiveLocator.NextQuote | src/simultaneousness_analysis/retrieve_data_from_dwd_cdc.py:156 | the position of the first '"' at or after i, or the end of the text; no quote lies in between |
| ArchiveLocator.MatchAt | src/simultaneousness_analysis/retrieve_data_from_dwd_cdc.py:156 | a group reported at a position is a real match of `href="([^"]+\.zip)"` there |
| ArchiveLocator.MatchAtComplete | src/simultaneousness_analysis/retrieve_data_from_dwd_cdc.py:156 | wherever the pattern matches, the attempt finds it, with the only group possible at that position |
| ArchiveLocator.Scan | src/simultaneousness_analysis/retrieve_data_from_dwd_cdc.py:156 | the matches found from position i start at or after i and inside the text, and each starts at or after the end of the previous one, so they are in text order and do not overlap |
| ArchiveLocator.ScanFindsAll | src/simultaneousness_analysis/retrieve_data_from_dwd_cdc.py:156 | the scan returns real matches, in text order and non-overlapping, and every position where the pattern matches lies inside one of them (findall's contract) |
| ArchiveLocator.SkipPosition | src/simultaneousness_analysis/retrieve_data_from_dwd_cdc.py:156 | where nothing matches at i, findall's result from i+1 is its result from i |
| ArchiveLocator.PrependMatch | src/simultaneousness_analysis/retrieve_data_from_dwd_cdc.py:156 | a match at i followed by findall's result from its end is findall's result from i |
| ArchiveLocator.FindAllUnique | src/simultaneousness_analysis/retrieve_data_from_dwd_cdc.py:156 | two lists that both satisfy findall's contract are equal, so the contract determines the result |
| ArchiveLocator.TailIsFindAll | src/simultaneousness_analysis/retrieve_data_from_dwd_cdc.py:156 | after the first match, the remaining matches are findall's result from the end of that match |
| ArchiveLocator.FindZipLinksSpec | src/simultaneousness_analysis/retrieve_data_from_dwd_cdc.py:156 | the extracted links are the groups of findall's matches in order; each ends in `.zip`, is at least 5 long, holds no '"', and stands in the text as `href="` + link + `"` |
| ArchiveLocator.FindZipLinks | src/simultaneousness_analysis/retrieve_data_from_dwd_cdc.py:156 | every extracted link ends in `.zip`, is at least 5 long, holds no '"', and occurs in the text as `href="` + link + `"` |
| ArchiveLocator.LinksInText | src/simultaneousness_analysis/retrieve_data_from_dwd_cdc.py:156 | the group of every match findall reports is such a link and stands in the text between `href="` and `"` |
| ArchiveLocator.MatchInText | src/simultaneousness_analysis/retrieve_data_from_dwd_cdc.py:156 | a match is the literal text `href="` + group + `"` at its position |
| ArchiveLocator.StationToken | src/simultaneousness_analysis/retrieve_data_from_dwd_cdc.py:157 | the station token is the ID with one '_' before and one after it |
| ArchiveLocator.FindFilenamesForStation | src/simultaneousness_analysis/retrieve_data_from_dwd_cdc.py:151-158 | the result is an error if and only if the status is not 200; the error's message ends with the requested URL |
| ArchiveLocator.StationLinks | src/simultaneousness_analysis/retrieve_data_from_dwd_cdc.py:156-158 | on status 200 the result is the subsequence of the extracted links, in text order, holding every link that contains `_<id>_`, as many times as it was extracted, and only those (possibly none) |
| ArchiveLocator.TokenIsField | src/simultaneousness_analysis/retrieve_data_from_dwd_cdc.py:157 | in a name of underscore-free fields joined by '_', an occurrence of `_<id>_` means some inner field equals the ID |
| ArchiveLocator.FieldIsToken | src/simultaneousness_analysis/retrieve_data_from_dwd_cdc.py:157 | an inner field equal to the ID puts `_<id>_` into the joined name |
| ArchiveLocator.SelectsByIdField | src/simultaneousness_analysis/retrieve_data_from_dwd_cdc.py:157 | a name of underscore-free fields is kept for a station if and only if one of its inner fields equals the station's ID |
| ArchiveLocator.KeepsOwnArchive | src/simultaneousness_analysis/retrieve_data_from_dwd_cdc.py:157 | `10minutenwerte_TU_01766_19930101_20231231_hist.zip` is kept for station 01766 |
| ArchiveLocator.RejectsLongerId | src/simultaneousness_analysis/retrieve_data_from_dwd_cdc.py:157 | the archive named with `_017660_` is not kept for station 01766, because the trailing '_' is required |
| ArchiveLocator.RejectsOuterField | src/simultaneousness_analysis/retrieve_data_from_dwd_cdc.py:157 | an ID that is the first or the last field of a name is not kept |
| Trace.Ancestors | src/simultaneousness_analysis/retrieve_data_from_dwd_cdc.py:48 | `mkdir(parents=True)` creates the directory and every missing parent of it, and nothing but prefixes of it |
| Trace.ReplayConcat | src/simultaneousness_analysis/retrieve_data_from_dwd_cdc.py:205-220 | replaying two event lists one after the other equals replaying their concatenation |
| Trace.ProvisionEvents | src/simultaneousness_analysis/retrieve_data_from_dwd_cdc.py:46-49 | provisioning gives at most one event per listed path, and every event is a directory creation (the notice that goes with it) |
| Trace.ProvisionStep | src/simultaneousness_analysis/retrieve_data_from_dwd_cdc.py:46-48 | each listed path, in list order, adds a creation exactly when neither a directory nor a file exists there after the earlier paths |
| Trace.ProvisionOnlyCreates | src/simultaneousness_analysis/retrieve_data_from_dwd_cdc.py:46-49 | provisioning only creates directories: files are untouched and no directory disappears |
| Trace.ProvisionCreatesAll | src/simultaneousness_analysis/retrieve_data_from_dwd_cdc.py:46-49 | afterwards something exists at every listed path: each listed path that was not a file is a directory, and one taken by a file stays a file |
| Trace.ProvisionLast | src/simultaneousness_analysis/retrieve_data_from_dwd_cdc.py:46-48 | the step for the last listed path removes no directory, changes no file, and leaves that path a directory unless a file was there |
| Trace.ProvisionNothingToDo | src/simultaneousness_analysis/retrieve_data_from_dwd_cdc.py:46-49 | when something (a directory or a file) exists at every listed path, provisioning does nothing and prints no notice |
| Trace.ProvisionIdempotent | src/simultaneousness_analysis/retrieve_data_from_dwd_cdc.py:17-22 | provisioning DATA_DIRECTORIES a second time creates nothing and prints no notice |
| Trace.DirsOrigin | src/simultaneousness_analysis/retrieve_data_from_dwd_cdc.py:47-48 | a directory exists after a trace only if it existed before or a creation in the trace covers it |
| Trace.ProvisionNoticeOnlyIfAbsent | src/simultaneousness_analysis/retrieve_data_from_dwd_cdc.py:46-49 | a "Created" notice is given only for a listed path at which nothing, neither a directory nor a file, existed beforehand |
| Trace.ProvisionNoticeIfAbsent | src/simultaneousness_analysis/retrieve_data_from_dwd_cdc.py:46-49 | when the listed paths all have the same depth, each one at which nothing existed gets its notice |
| Trace.SameDepthNotCreated | src/simultaneousness_analysis/retrieve_data_from_dwd_cdc.py:46-48 | when the listed paths have one depth, an unlisted path of that depth that was not a directory is not one after provisioning, since creating a listed directory only adds it and its shorter parents |
| Trace.ProvisionNotices | src/simultaneousness_analysis/retrieve_data_from_dwd_cdc.py:17-22 | a "Created" notice names a path if and only if it is one of the four data directories and nothing (directory or file) existed there beforehand |
| Trace.RetrieveOutcome | src/simultaneousness_analysis/retrieve_data_from_dwd_cdc.py:188-197 | retrieving a station starts with the index request; it fails if and only if the index page does not answer 200, and then it holds only that request and a ConnectionError |
| Trace.LinkEventsOrder | src/simultaneousness_analysis/retrieve_data_from_dwd_cdc.py:189-197 | for the k-th link, events 3k..3k+2 are exactly: download to `zip/<link>`, extract into the measurement's directory, delete the archive |
| Trace.LinkEventsKinds | src/simultaneousness_analysis/retrieve_data_from_dwd_cdc.py:189-197 | a station's archive handling holds only downloads, extractions and deletions |
| Trace.ReplayLinkSteps | src/simultaneousness_analysis/retrieve_data_from_dwd_cdc.py:172-174 | download, extract and delete of one archive leaves the filesystem as before, minus that archive's scratch file |
| Trace.ArchivesRemoved | src/simultaneousness_analysis/retrieve_data_from_dwd_cdc.py:189-197 | after a station's archives are handled, none of their scratch files is left, and nothing else changed |
| Trace.StationsEventKinds | src/simultaneousness_analysis/retrieve_data_from_dwd_cdc.py:218-220 | the station loop produces only index requests, archive steps and sleeps |
| Trace.RetrieveNoSleep | src/simultaneousness_analysis/retrieve_data_from_dwd_cdc.py:188-200 | retrieving one station never sleeps |
| Trace.OneSleepPerStation | src/simultaneousness_analysis/retrieve_data_from_dwd_cdc.py:218-220 | a complete station loop sleeps exactly once per station, whether or not any archive was found for it |
| Trace.LinkEventsDownloads | src/simultaneousness_analysis/retrieve_data_from_dwd_cdc.py:189-192 | handling n links downloads n times |
| Trace.OneDownloadPerArchive | src/simultaneousness_analysis/retrieve_data_from_dwd_cdc.py:188-192 | a complete station loop downloads as many archives as were found for its stations |
| Trace.StationsOutcome | src/simultaneousness_analysis/retrieve_data_from_dwd_cdc.py:218-220 | the station loop succeeds if and only if there are no stations or the index page answers 200; any error is the index ConnectionError |
| Trace.IndexFailureStops | src/simultaneousness_analysis/retrieve_data_from_dwd_cdc.py:153-155 | an index page that does not answer 200 (every request of the index URL gets the same answer) stops the loop at its first station: one request, no download, and a ConnectionError naming the index URL |
| Trace.MeasurementOutcome | src/simultaneousness_analysis/retrieve_data_from_dwd_cdc.py:207-219 | a measurement's first event is reading its station list; it fails with the empty-file error if and only if that list has no lines |
| Trace.MeasurementEvents | src/simultaneousness_analysis/retrieve_data_from_dwd_cdc.py:207-219 | a measurement whose station list cannot be read does nothing after reading it; otherwise it reads it, saves the filtered rows and then runs the station loop on their IDs |
| Trace.SavedBeforeStations | src/simultaneousness_analysis/retrieve_data_from_dwd_cdc.py:207-219 | any index request of a measurement comes after its station list is read and saved: the read is the first event, the save of the filtered list is the second, and the request is later |
| Trace.MeasurementFetches | src/simultaneousness_analysis/retrieve_data_from_dwd_cdc.py:207-219 | a measurement reads its own station list once, as its first event, and reads no other |
| Trace.MeasurementsFetchOrder | src/simultaneousness_analysis/retrieve_data_from_dwd_cdc.py:207-211 | the station lists are read one per measurement, in list order |
| Trace.MeasurementKeyOrder | src/simultaneousness_analysis/retrieve_data_from_dwd_cdc.py:28-32 | the measurements are visited in the key order of DATA_URLS: temperature, wind, solar |
| Trace.RunFetchOrder | src/simultaneousness_analysis/retrieve_data_from_dwd_cdc.py:205-211 | a complete run reads the temperature, wind and solar station lists, in that order and nothing else |
| Trace.MeasurementSleeps | src/simultaneousness_analysis/retrieve_data_from_dwd_cdc.py:216-220 | a complete measurement sleeps once per station of the region |
| Trace.MeasurementsSleeps | src/simultaneousness_analysis/retrieve_data_from_dwd_cdc.py:207-220 | complete measurements sleep as often as they have stations in total |
| Trace.RunSleeps | src/simultaneousness_analysis/retrieve_data_from_dwd_cdc.py:205-220 | a complete run sleeps once per station of the region, summed over the three measurements |
| Trace.StationsErrorPersists | src/simultaneousness_analysis/retrieve_data_from_dwd_cdc.py:218-220 | once a station has failed, the later stations add no events |
| Trace.MeasurementsErrorPersists | src/simultaneousness_analysis/retrieve_data_from_dwd_cdc.py:207-220 | once a measurement has failed, the later measurements add no events |
| Trace.MeasurementsOutcome | src/simultaneousness_analysis/retrieve_data_from_dwd_cdc.py:207-220 | when the measurements all complete, each one of them completed on its own |
| Trace.RunOutcome | src/simultaneousness_analysis/retrieve_data_from_dwd_cdc.py:205-220 | a run that completes found a non-empty station list for every measurement |
| Trace.CompleteRunReadsAll | src/simultaneousness_analysis/retrieve_data_from_dwd_cdc.py:205-220 | the three measurements are temperature, wind and solar, so completing them all means each of the three station lists has lines |
| Pipeline.Host.Perform | src/simultaneousness_analysis/retrieve_data_from_dwd_cdc.py:48 | one effect is appended to the trace, and the filesystem becomes that effect applied to the old one |
| Pipeline.Host.CreateDataFolderStructure | src/simultaneousness_analysis/retrieve_data_from_dwd_cdc.py:44-49 | the loop, testing `exists()` as "a directory or a file is there", appends the provisioning events for the old filesystem and leaves the filesystem as their replay |
| Pipeline.Host.SaveStationMetadataJson | src/simultaneousness_analysis/retrieve_data_from_dwd_cdc.py:97-113 | one save of the rows to `data/cdc/raw/station_metadata_<key>.json`; that file now exists and nothing else changes |
| Pipeline.Host.UnpackAndRemoveZip | src/simultaneousness_analysis/retrieve_data_from_dwd_cdc.py:161-174 | extraction then deletion are appended; the archive file is gone and the directories are unchanged |
| Pipeline.Host.FetchArchives | src/simultaneousness_analysis/retrieve_data_from_dwd_cdc.py:189-197 | the loop appends the steps of every link in order and leaves the filesystem as their replay |
| Pipeline.Host.RetrieveDataForStation | src/simultaneousness_analysis/retrieve_data_from_dwd_cdc.py:177-200 | the appended events, the error and the new filesystem are those of the station's specified retrieval |
| Pipeline.Host.RetrieveStations | src/simultaneousness_analysis/retrieve_data_from_dwd_cdc.py:218-220 | the station loop appends the specified events, returns the specified error and leaves the specified filesystem |
| Pipeline.Host.ProcessMeasurement | src/simultaneousness_analysis/retrieve_data_from_dwd_cdc.py:207-220 | one measurement appends the specified read, save and station events, returns the specified error and leaves the specified filesystem |
| Pipeline.Host.ProcessMeasurements | src/simultaneousness_analysis/retrieve_data_from_dwd_cdc.py:207-220 | the loop over the measurements appends the specified events of each in turn, stops at the first error and leaves the filesystem as their replay |
| Pipeline.Host.Run | src/simultaneousness_analysis/retrieve_data_from_dwd_cdc.py:203-220 | `main` appends exactly the events of the specified run, returns its error and leaves the filesystem as their replay, so every property proved of the run's events holds of the run |

## Left out

- HTTP: `requests.get` (with its timeout) and `urlretrieve` are not performed. A
  `Remote` value gives each GET's status and text and each station list's lines.
  The same URL is taken to answer the same way every time it is requested, and
  downloads always succeed.
- `urljoin` is not resolved. The data and metadata URLs are written as the
  concatenations `urljoin` yields for these inputs (base ending in '/', plain
  relative parts). A download event records the index URL and the link rather than
  the joined URL.
- Archive contents: `ZipFile.extractall` is an event with no effect on the modelled
  filesystem, because extracted entries are not tracked. A broken archive is not
  modelled.
- The filesystem holds only directories and files as path lists relative to the
  working directory; `Path.cwd()` is the root. A link containing '/' is treated as
  a single file name.
- `read_fwf` beyond the column ranges, the header and `skiprows` is not modelled:
  ISO-8859-1 decoding, skipping of blank lines, NaN for empty fields, and any read
  error other than a file with no lines. An ID field is rendered per field (a
  digit string becomes its integer's decimal form, anything else stays as it is)
  rather than by pandas' per-column type inference.
- `to_json` formatting: a save event records the path and the rows, not the JSON
  text.
- `sleep` duration: a sleep event carries DELAY_SECONDS, but time is not modelled.
- `print` output: only the "Created data directory" notice is modelled, as the
  directory-creation event. The "Retrieved and extracted" message is not.
- Exceptions other than the ConnectionError of a non-200 index page and the
  missing header of an empty station list are not modelled.
- `main.py` and the tests are not part of this model: they hold a template
  `main` and an addition helper, unrelated to the retrieval.
- Pipeline.Host.CreateDataFolderStructure: takes the directory list as a
  parameter. `Run` passes DATA_DIRECTORIES, in the dictionary's value order.
- Trace.ProvisionNoticeIfAbsent: proved only for lists whose directories all have
  the same depth, as the four data directories do. When one listed directory
  contains another, the source's `exists()` check can suppress a notice.
- A file at a parent of a listed directory (for example a file named `data`) makes
  `mkdir(parents=True)` raise. The model does not raise there; it records the
  creation as if the parent were a directory.
