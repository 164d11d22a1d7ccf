/**
 * The retrieval run as it executes: `create_data_folder_structure`,
 * `save_station_metadata_json`, `unpack_and_remove_zip`,
 * `retrieve_data_for_station` and `main`, each appending its effects to the
 * trace and updating the local filesystem. Each method is proved to produce
 * the trace that module Trace specifies.
 */
module Pipeline {
  import opened Wrappers
  import opened Seqs
  import opened Config
  import opened StationMetadata
  import opened StationIds
  import opened ArchiveLocator
  import opened Trace

  /** The local filesystem the run works on, and the record of what the run did. */
  class Host {
    var dirs: set<Path>
    var files: set<Path>
    var trace: seq<Event>

    function State(): FsState
      reads this
    {
      FsState(dirs, files)
    }

    constructor (existingDirs: set<Path>, existingFiles: set<Path>)
      ensures State() == FsState(existingDirs, existingFiles) && trace == []
    {
      dirs, files, trace := existingDirs, existingFiles, [];
    }

    /** Carries out one effect on the filesystem and records it. */
    method Perform(e: Event)
      modifies this
      ensures trace == old(trace) + [e]
      ensures State() == Apply(old(State()), e)
    {
      match e {
        case MakeDirectory(p) => dirs := dirs + Ancestors(p);
        case SaveJson(p, _) => files := files + {p};
        case Download(_, _, dest) => files := files + {dest};
        case Unlink(p) => files := files - {p};
        case _ =>
      }
      trace := trace + [e];
    }

    /**
     * `create_data_folder_structure`: create each directory of
     * `directories` at which nothing exists yet (the run passes DATA_DIRECTORIES), with its notice.
     */
    method CreateDataFolderStructure(directories: seq<Path>)
      modifies this
      ensures trace == old(trace) + ProvisionEvents(old(State()), directories)
      ensures State() == Replay(old(State()), ProvisionEvents(old(State()), directories))
    {
      ghost var st0 := State();
      ghost var t0 := trace;
      for i := 0 to |directories|
        invariant trace == t0 + ProvisionEvents(st0, directories[..i])
        invariant State() == Replay(st0, ProvisionEvents(st0, directories[..i]))
      {
        var directory := directories[i];
        ghost var pre := ProvisionEvents(st0, directories[..i]);
        ProvisionStep(st0, directories, i);
        if !Exists(State(), directory) {
          Perform(MakeDirectory(directory));
          ReplayStep(st0, pre, MakeDirectory(directory));
          AppendAssoc3(t0, pre, [MakeDirectory(directory)]);
        }
      }
      assert directories[..|directories|] == directories;
    }

    /** `save_station_metadata_json`: write the station list of a measurement. */
    method SaveStationMetadataJson(df: seq<Row>, measurement: Measurement)
      modifies this
      ensures trace == old(trace) + [SaveJson(MetadataJsonPath(measurement), df)]
      ensures files == old(files) + {MetadataJsonPath(measurement)} && dirs == old(dirs)
    {
      Perform(SaveJson(MetadataJsonPath(measurement), df));
    }

    /** `unpack_and_remove_zip`: extract the archive, then delete it. */
    method UnpackAndRemoveZip(zipFilePath: Path, extractTo: Path)
      modifies this
      ensures trace == old(trace) + [Extract(zipFilePath, extractTo), Unlink(zipFilePath)]
      ensures files == old(files) - {zipFilePath} && dirs == old(dirs)
    {
      Perform(Extract(zipFilePath, extractTo));
      Perform(Unlink(zipFilePath));
    }

    /**
     * The loop over the found file names in `retrieve_data_for_station`:
     * download each archive to the zip directory, extract it, delete it.
     */
    method FetchArchives(measurement: Measurement, filenames: seq<string>)
      modifies this
      ensures trace == old(trace) + LinkEvents(measurement, filenames)
      ensures State() == Replay(old(State()), LinkEvents(measurement, filenames))
    {
      var dataUrl := DataUrl(measurement);
      ghost var t0 := trace;
      ghost var s0 := State();
      for i := 0 to |filenames|
        invariant trace == t0 + LinkEvents(measurement, filenames[..i])
        invariant dirs == s0.dirs && files == s0.files - ZipPaths(filenames[..i])
      {
        var filename := filenames[i];
        var zipFilename := ZipPath(filename);
        ghost var done := LinkEvents(measurement, filenames[..i]);
        Perform(Download(dataUrl, filename, zipFilename));
        UnpackAndRemoveZip(zipFilename, DataDirectory(measurement));
        assert filenames[..i + 1][..i] == filenames[..i];
        assert LinkEvents(measurement, filenames[..i + 1]) == done + LinkSteps(measurement, filename);
        assert [Download(dataUrl, filename, zipFilename)] + [Extract(zipFilename, DataDirectory(measurement)),
          Unlink(zipFilename)] == LinkSteps(measurement, filename);
        AppendAssoc(t0, done, [Download(dataUrl, filename, zipFilename)],
          [Extract(zipFilename, DataDirectory(measurement)), Unlink(zipFilename)]);
        AppendAssoc3(done, [Download(dataUrl, filename, zipFilename)],
          [Extract(zipFilename, DataDirectory(measurement)), Unlink(zipFilename)]);
        assert ZipPaths(filenames[..i + 1]) == ZipPaths(filenames[..i]) + {zipFilename};
      }
      assert filenames[..|filenames|] == filenames;
      ArchivesRemoved(s0, measurement, filenames);
    }

    /**
     * `retrieve_data_for_station`: request the index page, then fetch every
     * archive found for the station; a failed request ends it with an error.
     */
    method RetrieveDataForStation(remote: Remote, measurement: Measurement, stationId: string)
      returns (err: Option<RunError>)
      modifies this
      ensures trace == old(trace) + RetrieveOutcome(measurement, stationId, remote.index(DataUrl(measurement))).events
      ensures err == RetrieveOutcome(measurement, stationId, remote.index(DataUrl(measurement))).error
      ensures State() == Replay(old(State()), RetrieveOutcome(measurement, stationId, remote.index(DataUrl(measurement))).events)
    {
      ghost var spec := RetrieveOutcome(measurement, stationId, remote.index(DataUrl(measurement)));
      var dataUrl := DataUrl(measurement);
      Perform(RequestIndex(dataUrl));
      ReplaySingle(old(State()), RequestIndex(dataUrl));
      var response := remote.index(dataUrl);
      var found := FindFilenamesForStation(response.status, dataUrl, response.text, stationId);
      if found.Failure? {
        assert spec == Outcome([RequestIndex(dataUrl)], Some(IndexFailed(found.error)));
        return Some(IndexFailed(found.error));
      }
      var filenames := found.value;
      assert spec == Outcome([RequestIndex(dataUrl)] + LinkEvents(measurement, filenames), None);
      FetchArchives(measurement, filenames);
      ReplayConcat(old(State()), [RequestIndex(dataUrl)], LinkEvents(measurement, filenames));
      AppendAssoc3(old(trace), [RequestIndex(dataUrl)], LinkEvents(measurement, filenames));
      err := None;
    }

    /**
     * The loop over the station IDs in `main`: retrieve each station, then
     * sleep; the first error ends it.
     */
    method RetrieveStations(remote: Remote, measurement: Measurement, stationIds: seq<string>)
      returns (err: Option<RunError>)
      modifies this
      ensures trace == old(trace) + StationsOutcome(measurement, stationIds, remote.index(DataUrl(measurement))).events
      ensures err == StationsOutcome(measurement, stationIds, remote.index(DataUrl(measurement))).error
      ensures State() == Replay(old(State()), StationsOutcome(measurement, stationIds, remote.index(DataUrl(measurement))).events)
    {
      ghost var resp := remote.index(DataUrl(measurement));
      ghost var t0 := trace;
      ghost var s0 := State();
      for j := 0 to |stationIds|
        invariant trace == t0 + StationsOutcome(measurement, stationIds[..j], resp).events
        invariant State() == Replay(s0, StationsOutcome(measurement, stationIds[..j], resp).events)
        invariant StationsOutcome(measurement, stationIds[..j], resp).error.None?
      {
        ghost var pre := StationsOutcome(measurement, stationIds[..j], resp).events;
        assert stationIds[..j + 1][..j] == stationIds[..j];
        err := RetrieveDataForStation(remote, measurement, stationIds[j]);
        ghost var r := RetrieveOutcome(measurement, stationIds[j], resp);
        ReplayConcat(s0, pre, r.events);
        AppendAssoc3(t0, pre, r.events);
        if err.Some? {
          StationsErrorPersists(measurement, stationIds, resp, j + 1);
          return;
        }
        Perform(Sleep(DELAY_SECONDS));
        ReplayStep(s0, pre + r.events, Sleep(DELAY_SECONDS));
        assert StationsOutcome(measurement, stationIds[..j + 1], resp).events
          == pre + r.events + [Sleep(DELAY_SECONDS)];
        AppendAssoc(t0, pre, r.events, [Sleep(DELAY_SECONDS)]);
      }
      assert stationIds[..|stationIds|] == stationIds;
      err := None;
    }

    /**
     * One iteration of the loop over the measurements in `main`: read the
     * station list, save it, then retrieve its stations.
     */
    method ProcessMeasurement(remote: Remote, measurement: Measurement) returns (err: Option<RunError>)
      modifies this
      ensures trace == old(trace) + MeasurementOutcome(measurement, remote).events
      ensures err == MeasurementOutcome(measurement, remote).error
      ensures State() == Replay(old(State()), MeasurementOutcome(measurement, remote).events)
    {
      var metadataUrl := MetadataFile(measurement);
      Perform(FetchMetadata(metadataUrl));
      ReplaySingle(old(State()), FetchMetadata(metadataUrl));
      var metadata := GetStationMetadata(remote.metadata(metadataUrl), BUNDESLAND);
      if metadata.Failure? {
        return Some(MetadataFailed(metadata.error));
      }
      var save := SaveJson(MetadataJsonPath(measurement), metadata.value);
      SaveStationMetadataJson(metadata.value, measurement);
      ghost var head := [FetchMetadata(metadataUrl), save];
      ReplayStep(old(State()), [], FetchMetadata(metadataUrl));
      ReplayStep(old(State()), [FetchMetadata(metadataUrl)], save);
      assert [] + [FetchMetadata(metadataUrl)] == [FetchMetadata(metadataUrl)];
      assert [FetchMetadata(metadataUrl)] + [save] == head;
      assert State() == Replay(old(State()), head);
      assert trace == old(trace) + head;
      var stationIds := GetStationIdsFromMetadata(metadata.value);
      err := RetrieveStations(remote, measurement, stationIds);
      ghost var stations := StationsOutcome(measurement, stationIds, remote.index(DataUrl(measurement))).events;
      ReplayConcat(old(State()), head, stations);
      AppendAssoc3(old(trace), head, stations);
    }

    /**
     * The loop over the measurements in `main` (the run passes the keys of
     * DATA_URLS in order); the first error ends it.
     */
    method ProcessMeasurements(remote: Remote, measurements: seq<Measurement>) returns (err: Option<RunError>)
      modifies this
      ensures trace == old(trace) + MeasurementsOutcome(measurements, remote).events
      ensures err == MeasurementsOutcome(measurements, remote).error
      ensures State() == Replay(old(State()), MeasurementsOutcome(measurements, remote).events)
    {
      ghost var t0 := trace;
      ghost var s0 := State();
      for i := 0 to |measurements|
        invariant trace == t0 + MeasurementsOutcome(measurements[..i], remote).events
        invariant State() == Replay(s0, MeasurementsOutcome(measurements[..i], remote).events)
        invariant MeasurementsOutcome(measurements[..i], remote).error.None?
      {
        ghost var pre := MeasurementsOutcome(measurements[..i], remote).events;
        assert measurements[..i + 1][..i] == measurements[..i];
        err := ProcessMeasurement(remote, measurements[i]);
        ghost var r := MeasurementOutcome(measurements[i], remote);
        ReplayConcat(s0, pre, r.events);
        AppendAssoc3(t0, pre, r.events);
        assert MeasurementsOutcome(measurements[..i + 1], remote) == Outcome(pre + r.events, r.error);
        if err.Some? {
          MeasurementsErrorPersists(measurements, remote, i + 1);
          return;
        }
      }
      assert measurements[..|measurements|] == measurements;
      err := None;
    }

    /**
     * `main`: provision the folders, then process each measurement in turn.
     * The first error stops the run.
     */
    method Run(remote: Remote) returns (err: Option<RunError>)
      modifies this
      ensures trace == old(trace) + RunOutcome(old(State()), remote).events
      ensures err == RunOutcome(old(State()), remote).error
      ensures State() == Replay(old(State()), RunOutcome(old(State()), remote).events)
    {
      ghost var st0 := State();
      CreateDataFolderStructure(DATA_DIRECTORIES);
      ghost var provision := ProvisionEvents(st0, DATA_DIRECTORIES);
      err := ProcessMeasurements(remote, MEASUREMENTS);
      ghost var run := MeasurementsOutcome(MEASUREMENTS, remote);
      ReplayConcat(st0, provision, run.events);
      AppendAssoc3(old(trace), provision, run.events);
    }
  }
}
