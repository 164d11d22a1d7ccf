/**
 * The retrieval run as a trace of effects. Each network, filesystem and timer
 * call of the run is one event; the local filesystem is a set of directories
 * and a set of files, and replaying the trace over it gives the state after
 * the run. The functions here say which trace a run produces; the methods in
 * module Pipeline produce it step by step.
 */
module Trace {
  import opened Wrappers
  import opened Seqs
  import opened Config
  import opened StationMetadata
  import opened StationIds
  import opened ArchiveLocator

  /** A response to an HTTP GET. */
  datatype Response = Response(status: int, text: string)

  /**
   * The remote server: the lines of the station list at a URL, and the
   * response to a GET of an index page URL.
   */
  datatype Remote = Remote(metadata: string -> seq<string>, index: string -> Response)

  datatype Event =
    /** `mkdir(parents=True, exist_ok=True)` and its "Created data directory" notice. */
    | MakeDirectory(path: Path)
    /** `read_fwf` of a station list. */
    | FetchMetadata(url: string)
    /** `to_json` of the filtered station list. */
    | SaveJson(path: Path, records: seq<Row>)
    /** `requests.get` of an index page. */
    | RequestIndex(url: string)
    /** `urlretrieve` of a link, resolved against an index page, to a local file. */
    | Download(indexUrl: string, link: string, dest: Path)
    /** `ZipFile.extractall` of a downloaded archive into a directory. */
    | Extract(archive: Path, into: Path)
    /** `Path.unlink` of a file. */
    | Unlink(path: Path)
    /** `sleep`. */
    | Sleep(seconds: nat)

  /** Why a run stops: a station list with no lines, or an index page that did not answer 200. */
  datatype RunError = MetadataFailed(metadataError: MetadataError) | IndexFailed(locatorError: LocatorError)

  /** The events a step produces, and the error it stopped with, if any. */
  datatype Outcome = Outcome(events: seq<Event>, error: Option<RunError>)

  /** The local filesystem: existing directories and files. */
  datatype FsState = FsState(dirs: set<Path>, files: set<Path>)

  /** A directory and every parent up to the working directory. */
  function Ancestors(p: Path): (a: set<Path>)
    ensures p != [] ==> p in a
    ensures forall k :: 1 <= k <= |p| ==> p[..k] in a
    ensures forall q :: q in a ==> 0 < |q| <= |p| && q == p[..|q|]
  {
    assert p != [] ==> p[..|p|] == p;
    set k | 1 <= k <= |p| :: p[..k]
  }

  /** The filesystem after one event. Extracted archive entries are not tracked. */
  function Apply(st: FsState, e: Event): FsState
  {
    match e
    case MakeDirectory(p) => st.(dirs := st.dirs + Ancestors(p))
    case SaveJson(p, _) => st.(files := st.files + {p})
    case Download(_, _, dest) => st.(files := st.files + {dest})
    case Unlink(p) => st.(files := st.files - {p})
    case _ => st
  }

  /** The filesystem after a sequence of events. */
  function Replay(st: FsState, events: seq<Event>): FsState
  {
    if events == [] then st else Apply(Replay(st, events[..|events| - 1]), events[|events| - 1])
  }

  lemma {:induction false} ReplayConcat(st: FsState, a: seq<Event>, b: seq<Event>)
    ensures Replay(st, a + b) == Replay(Replay(st, a), b)
    decreases |b|
  {
    if b == [] {
      assert a + b == a;
    } else {
      var n := |b| - 1;
      assert (a + b)[..|a + b| - 1] == a + b[..n];
      ReplayConcat(st, a, b[..n]);
    }
  }

  // ----- Folder provisioning (create_data_folder_structure) -----

  /** `Path.exists()`: something, a directory or a file, is at `p`. */
  predicate Exists(st: FsState, p: Path) { p in st.dirs || p in st.files }

  /** The paths of `ps` at which nothing exists when reached are created, in order. */
  function ProvisionEvents(st: FsState, ps: seq<Path>): (events: seq<Event>)
    ensures |events| <= |ps|
    ensures forall k :: 0 <= k < |events| ==> events[k].MakeDirectory?
  {
    if ps == [] then []
    else
      var pre := ProvisionEvents(st, ps[..|ps| - 1]);
      var p := ps[|ps| - 1];
      if Exists(Replay(st, pre), p) then pre else pre + [MakeDirectory(p)]
  }

  /** Provisioning one more path of a list: create it exactly when nothing exists there yet. */
  lemma ProvisionStep(st: FsState, ps: seq<Path>, i: nat)
    requires i < |ps|
    ensures ProvisionEvents(st, ps[..i + 1]) ==
      if Exists(Replay(st, ProvisionEvents(st, ps[..i])), ps[i]) then ProvisionEvents(st, ps[..i])
      else ProvisionEvents(st, ps[..i]) + [MakeDirectory(ps[i])]
  {
    assert ps[..i + 1][..i] == ps[..i];
  }

  /** Provisioning only creates directories and leaves the files alone. */
  lemma {:induction false} ProvisionOnlyCreates(st: FsState, ps: seq<Path>)
    ensures forall e :: e in ProvisionEvents(st, ps) ==> e.MakeDirectory?
    ensures Replay(st, ProvisionEvents(st, ps)).files == st.files
    ensures st.dirs <= Replay(st, ProvisionEvents(st, ps)).dirs
    decreases |ps|
  {
    if ps != [] {
      ProvisionOnlyCreates(st, ps[..|ps| - 1]);
      var pre := ProvisionEvents(st, ps[..|ps| - 1]);
      var p := ps[|ps| - 1];
      if !Exists(Replay(st, pre), p) {
        ReplayConcat(st, pre, [MakeDirectory(p)]);
        assert Replay(Replay(st, pre), [MakeDirectory(p)]) == Apply(Replay(st, pre), MakeDirectory(p));
      }
    }
  }

  /**
   * Afterwards every listed path that was not a file is a directory; a listed
   * path taken by a file stays a file. No directory was removed.
   */
  lemma {:induction false} ProvisionCreatesAll(st: FsState, ps: seq<Path>)
    requires forall p :: p in ps ==> p != []
    ensures forall p :: p in ps && p !in st.files ==> p in Replay(st, ProvisionEvents(st, ps)).dirs
    ensures forall p :: p in ps ==> Exists(Replay(st, ProvisionEvents(st, ps)), p)
    ensures st.dirs <= Replay(st, ProvisionEvents(st, ps)).dirs
    decreases |ps|
  {
    if ps == [] {
      ProvisionOnlyCreates(st, ps);
    } else {
      var init := ps[..|ps| - 1];
      var p := ps[|ps| - 1];
      assert ps == init + [p];
      assert forall q :: q in init ==> q in ps;
      assert p in ps;
      ProvisionCreatesAll(st, init);
      ProvisionOnlyCreates(st, init);
      ProvisionLast(st, ps);
      ProvisionGrows(Replay(st, ProvisionEvents(st, init)), Replay(st, ProvisionEvents(st, ps)), st.files, init, p);
    }
  }

  /** What holds for the listed paths before the last step still holds after it, and for the last path too. */
  lemma ProvisionGrows(now: FsState, fin: FsState, files: set<Path>, init: seq<Path>, p: Path)
    requires forall q :: q in init ==> Exists(now, q) && (q !in files ==> q in now.dirs)
    requires now.dirs <= fin.dirs && now.files == fin.files && now.files == files
    requires p in fin.dirs || p in now.files
    ensures forall q :: q in init + [p] ==> Exists(fin, q) && (q !in files ==> q in fin.dirs)
  {
  }

  /** The step for the last listed path: it keeps what existed and leaves something at that path. */
  lemma ProvisionLast(st: FsState, ps: seq<Path>)
    requires ps != [] && ps[|ps| - 1] != []
    ensures Replay(st, ProvisionEvents(st, ps[..|ps| - 1])).dirs <= Replay(st, ProvisionEvents(st, ps)).dirs
    ensures Replay(st, ProvisionEvents(st, ps[..|ps| - 1])).files == Replay(st, ProvisionEvents(st, ps)).files
    ensures ps[|ps| - 1] in Replay(st, ProvisionEvents(st, ps)).dirs ||
      ps[|ps| - 1] in Replay(st, ProvisionEvents(st, ps[..|ps| - 1])).files
  {
    var pre := ProvisionEvents(st, ps[..|ps| - 1]);
    var p := ps[|ps| - 1];
    var now := Replay(st, pre);
    if !Exists(now, p) {
      ReplayConcat(st, pre, [MakeDirectory(p)]);
      assert Replay(now, [MakeDirectory(p)]) == Apply(now, MakeDirectory(p));
    }
  }

  /** When something exists at every listed path, provisioning does nothing. */
  lemma {:induction false} ProvisionNothingToDo(st: FsState, ps: seq<Path>)
    requires forall p :: p in ps ==> Exists(st, p)
    ensures ProvisionEvents(st, ps) == []
    decreases |ps|
  {
    if ps != [] {
      ProvisionNothingToDo(st, ps[..|ps| - 1]);
      assert ps[|ps| - 1] in ps;
    }
  }

  /** A second provisioning creates nothing and changes nothing. */
  lemma ProvisionIdempotent(st: FsState)
    ensures ProvisionEvents(Replay(st, ProvisionEvents(st, DATA_DIRECTORIES)), DATA_DIRECTORIES) == []
  {
    ProvisionCreatesAll(st, DATA_DIRECTORIES);
    ProvisionNothingToDo(Replay(st, ProvisionEvents(st, DATA_DIRECTORIES)), DATA_DIRECTORIES);
  }

  /** A directory is in the replayed state only if it was there or a creation added it. */
  lemma {:induction false} DirsOrigin(st: FsState, events: seq<Event>, d: Path)
    requires d in Replay(st, events).dirs
    ensures d in st.dirs || exists q :: MakeDirectory(q) in events && d in Ancestors(q)
    decreases |events|
  {
    if events != [] {
      var n := |events| - 1;
      var pre := events[..n];
      if d in Replay(st, pre).dirs {
        DirsOrigin(st, pre, d);
        if d !in st.dirs {
          var q :| MakeDirectory(q) in pre && d in Ancestors(q);
          assert MakeDirectory(q) in events;
        }
      } else {
        assert events[n].MakeDirectory? && d in Ancestors(events[n].path);
        assert MakeDirectory(events[n].path) in events;
      }
    }
  }

  /** A "created" notice is given only for a listed path at which nothing existed before. */
  lemma {:induction false} ProvisionNoticeOnlyIfAbsent(st: FsState, ps: seq<Path>, p: Path)
    requires MakeDirectory(p) in ProvisionEvents(st, ps)
    ensures p in ps && !Exists(st, p)
    decreases |ps|
  {
    var init := ps[..|ps| - 1];
    var pre := ProvisionEvents(st, init);
    var last := ps[|ps| - 1];
    if MakeDirectory(p) in pre {
      ProvisionNoticeOnlyIfAbsent(st, init, p);
    } else {
      assert p == last && !Exists(Replay(st, pre), p);
      ProvisionOnlyCreates(st, init);
    }
  }

  /**
   * When no listed directory is a parent of another (here: all have the same
   * depth), every listed path at which nothing existed gets its notice.
   */
  lemma {:induction false} ProvisionNoticeIfAbsent(st: FsState, ps: seq<Path>, n: nat, p: Path)
    requires forall q :: q in ps ==> |q| == n
    requires p in ps && !Exists(st, p)
    ensures MakeDirectory(p) in ProvisionEvents(st, ps)
    decreases |ps|
  {
    var init := ps[..|ps| - 1];
    assert forall q :: q in init ==> q in ps;
    if p in init {
      ProvisionNoticeIfAbsent(st, init, n, p);
    } else {
      assert ps == init + [p];
      ProvisionOnlyCreates(st, init);
      SameDepthNotCreated(st, init, n, p);
    }
  }

  /** A path of the common depth that is not listed is never created as a parent of a listed one. */
  lemma SameDepthNotCreated(st: FsState, ps: seq<Path>, n: nat, p: Path)
    requires forall q :: q in ps ==> |q| == n
    requires |p| == n && p !in ps && p !in st.dirs
    ensures p !in Replay(st, ProvisionEvents(st, ps)).dirs
  {
    var events := ProvisionEvents(st, ps);
    if p in Replay(st, events).dirs {
      DirsOrigin(st, events, p);
      var q :| MakeDirectory(q) in events && p in Ancestors(q);
      ProvisionNoticeOnlyIfAbsent(st, ps, q);
      assert false;
    }
  }

  /** The notices of a provisioning: exactly the data directories at which nothing existed. */
  lemma ProvisionNotices(st: FsState, p: Path)
    ensures MakeDirectory(p) in ProvisionEvents(st, DATA_DIRECTORIES) <==>
      p in DATA_DIRECTORIES && !Exists(st, p)
  {
    if MakeDirectory(p) in ProvisionEvents(st, DATA_DIRECTORIES) {
      ProvisionNoticeOnlyIfAbsent(st, DATA_DIRECTORIES, p);
    }
    if p in DATA_DIRECTORIES && !Exists(st, p) {
      ProvisionNoticeIfAbsent(st, DATA_DIRECTORIES, 4, p);
    }
  }

  // ----- Archive retrieval (retrieve_data_for_station, unpack_and_remove_zip) -----

  /** Download to the scratch directory, extract into the measurement's directory, delete. */
  function LinkSteps(m: Measurement, link: string): seq<Event>
  {
    [Download(DataUrl(m), link, ZipPath(link)),
     Extract(ZipPath(link), DataDirectory(m)),
     Unlink(ZipPath(link))]
  }

  /** The steps for each link in turn. */
  function LinkEvents(m: Measurement, links: seq<string>): seq<Event>
  {
    if links == [] then [] else LinkEvents(m, links[..|links| - 1]) + LinkSteps(m, links[|links| - 1])
  }

  /** `retrieve_data_for_station`: request the index page, then handle each link found. */
  function RetrieveOutcome(m: Measurement, stationId: string, resp: Response): (r: Outcome)
    ensures r.events != [] && r.events[0] == RequestIndex(DataUrl(m))
    ensures r.error.Some? <==> resp.status != HTTP_OK
    ensures r.error.Some? ==> r.events == [RequestIndex(DataUrl(m))] && r.error.value.IndexFailed?
  {
    var url := DataUrl(m);
    match FindFilenamesForStation(resp.status, url, resp.text, stationId)
    case Failure(e) => Outcome([RequestIndex(url)], Some(IndexFailed(e)))
    case Success(links) => Outcome([RequestIndex(url)] + LinkEvents(m, links), None)
  }

  /** The stations of one measurement in turn, each followed by a sleep; the first error stops. */
  function StationsOutcome(m: Measurement, ids: seq<string>, resp: Response): (r: Outcome)
    ensures r.error.None? <==> ids == [] || resp.status == HTTP_OK
    ensures r.error.Some? ==> r.error.value.IndexFailed?
  {
    if ids == [] then Outcome([], None)
    else
      var pre := StationsOutcome(m, ids[..|ids| - 1], resp);
      if pre.error.Some? then pre
      else
        var r := RetrieveOutcome(m, ids[|ids| - 1], resp);
        if r.error.Some? then Outcome(pre.events + r.events, r.error)
        else Outcome(pre.events + r.events + [Sleep(DELAY_SECONDS)], None)
  }

  /** The station IDs a measurement's run visits, or none if its station list is empty. */
  function MeasurementStations(m: Measurement, remote: Remote): seq<string>
  {
    match GetStationMetadata(remote.metadata(MetadataFile(m)), BUNDESLAND)
    case Failure(_) => []
    case Success(rows) => GetStationIdsFromMetadata(rows)
  }

  /** One iteration of the loop in `main`: read and save the station list, then the stations. */
  function MeasurementOutcome(m: Measurement, remote: Remote): (r: Outcome)
    ensures r.events != [] && r.events[0] == FetchMetadata(MetadataFile(m))
    ensures (r.error.Some? && r.error.value.MetadataFailed?) <==> remote.metadata(MetadataFile(m)) == []
  {
    var url := MetadataFile(m);
    match GetStationMetadata(remote.metadata(url), BUNDESLAND)
    case Failure(e) => Outcome([FetchMetadata(url)], Some(MetadataFailed(e)))
    case Success(rows) =>
      var s := StationsOutcome(m, GetStationIdsFromMetadata(rows), remote.index(DataUrl(m)));
      Outcome([FetchMetadata(url), SaveJson(MetadataJsonPath(m), rows)] + s.events, s.error)
  }

  /** The measurements in turn; the first error stops. */
  function MeasurementsOutcome(ms: seq<Measurement>, remote: Remote): (r: Outcome)
    ensures r.error.None? ==> forall k :: 0 <= k < |ms| ==> MeasurementOutcome(ms[k], remote).error.None?
  {
    if ms == [] then Outcome([], None)
    else
      assert forall k :: 0 <= k < |ms| - 1 ==> ms[..|ms| - 1][k] == ms[k];
      var pre := MeasurementsOutcome(ms[..|ms| - 1], remote);
      if pre.error.Some? then pre
      else
        var r := MeasurementOutcome(ms[|ms| - 1], remote);
        Outcome(pre.events + r.events, r.error)
  }

  /** `main`: provision the folders, then every measurement. */
  function RunOutcome(st: FsState, remote: Remote): (r: Outcome)
    ensures r.error.None? ==> forall m: Measurement :: remote.metadata(MetadataFile(m)) != []
  {
    var s := MeasurementsOutcome(MEASUREMENTS, remote);
    assert s.error.None? ==> forall m: Measurement :: remote.metadata(MetadataFile(m)) != [] by {
      if s.error.None? {
        CompleteRunReadsAll(remote);
      }
    }
    Outcome(ProvisionEvents(st, DATA_DIRECTORIES) + s.events, s.error)
  }

  /** A run that completes found a non-empty station list for every measurement. */
  lemma CompleteRunReadsAll(remote: Remote)
    requires MeasurementsOutcome(MEASUREMENTS, remote).error.None?
    ensures forall m: Measurement :: remote.metadata(MetadataFile(m)) != []
  {
    forall m: Measurement ensures remote.metadata(MetadataFile(m)) != [] {
      var k := if m == Temperature then 0 else if m == Wind then 1 else 2;
      assert MEASUREMENTS[k] == m;
      assert MeasurementOutcome(MEASUREMENTS[k], remote).error.None?;
    }
  }

  // ----- What a run's trace guarantees -----

  predicate IsSleep(e: Event) { e.Sleep? }

  predicate IsFetch(e: Event) { e.FetchMetadata? }

  predicate IsDownload(e: Event) { e.Download? }

  /** The scratch files of a list of links. */
  function ZipPaths(links: seq<string>): set<Path>
  {
    set l | l in links :: ZipPath(l)
  }

  /** Per link: download to `zip/<link>`, then extract, then delete, and nothing in between. */
  lemma {:induction false} LinkEventsOrder(m: Measurement, links: seq<string>)
    ensures |LinkEvents(m, links)| == 3 * |links|
    ensures forall k :: 0 <= k < |links| ==>
      LinkEvents(m, links)[3 * k..3 * k + 3] == LinkSteps(m, links[k])
    decreases |links|
  {
    if links != [] {
      var n := |links| - 1;
      var init := links[..n];
      LinkEventsOrder(m, init);
      var ev := LinkEvents(m, links);
      assert ev == LinkEvents(m, init) + LinkSteps(m, links[n]);
      forall k | 0 <= k < |links| ensures ev[3 * k..3 * k + 3] == LinkSteps(m, links[k]) {
        if k < n {
          assert ev[3 * k..3 * k + 3] == LinkEvents(m, init)[3 * k..3 * k + 3];
          assert init[k] == links[k];
        } else {
          assert ev[3 * k..3 * k + 3] == LinkSteps(m, links[n]);
        }
      }
    }
  }

  /** The retrieval steps of a station contain only downloads, extractions and deletions. */
  lemma {:induction false} LinkEventsKinds(m: Measurement, links: seq<string>)
    ensures forall e :: e in LinkEvents(m, links) ==> e.Download? || e.Extract? || e.Unlink?
    decreases |links|
  {
    if links != [] {
      LinkEventsKinds(m, links[..|links| - 1]);
    }
  }

  lemma ReplayLinkSteps(st: FsState, m: Measurement, link: string)
    ensures Replay(st, LinkSteps(m, link)) == st.(files := st.files - {ZipPath(link)})
  {
    var steps := LinkSteps(m, link);
    assert steps[..2][..1] == [steps[0]];
    assert Replay(st, steps[..2][..1]) == Apply(st, steps[0]);
    assert Replay(st, steps[..2]) == Apply(Apply(st, steps[0]), steps[1]);
  }

  /**
   * After a station's archives are handled, none of them is left in the scratch
   * directory, and nothing else changed.
   */
  lemma {:induction false} ArchivesRemoved(st: FsState, m: Measurement, links: seq<string>)
    ensures Replay(st, LinkEvents(m, links)) == st.(files := st.files - ZipPaths(links))
    decreases |links|
  {
    if links != [] {
      var n := |links| - 1;
      var init := links[..n];
      ArchivesRemoved(st, m, init);
      ReplayConcat(st, LinkEvents(m, init), LinkSteps(m, links[n]));
      ReplayLinkSteps(Replay(st, LinkEvents(m, init)), m, links[n]);
      assert ZipPaths(links) == ZipPaths(init) + {ZipPath(links[n])} by {
        assert links == init + [links[n]];
      }
    }
  }

  /** The events of the stations of one measurement are index requests and retrieval steps. */
  lemma {:induction false} StationsEventKinds(m: Measurement, ids: seq<string>, resp: Response)
    ensures forall e :: e in StationsOutcome(m, ids, resp).events ==>
      e.RequestIndex? || e.Download? || e.Extract? || e.Unlink? || e.Sleep?
    decreases |ids|
  {
    if ids != [] {
      StationsEventKinds(m, ids[..|ids| - 1], resp);
      var r := FindFilenamesForStation(resp.status, DataUrl(m), resp.text, ids[|ids| - 1]);
      if r.Success? {
        LinkEventsKinds(m, r.value);
      }
    }
  }

  /** Retrieving one station's archives never sleeps. */
  lemma RetrieveNoSleep(m: Measurement, stationId: string, resp: Response)
    ensures Filter(RetrieveOutcome(m, stationId, resp).events, IsSleep) == []
  {
    var r := FindFilenamesForStation(resp.status, DataUrl(m), resp.text, stationId);
    var ev := RetrieveOutcome(m, stationId, resp).events;
    if r.Success? {
      LinkEventsKinds(m, r.value);
      assert ev == [RequestIndex(DataUrl(m))] + LinkEvents(m, r.value);
    } else {
      assert ev == [RequestIndex(DataUrl(m))];
    }
    assert forall e :: e in ev ==> !IsSleep(e);
  }

  /**
   * Exactly one sleep per station, whether or not any archive was found for it:
   * a complete pass over a measurement's stations sleeps as often as there are stations.
   */
  lemma {:induction false} OneSleepPerStation(m: Measurement, ids: seq<string>, resp: Response)
    requires StationsOutcome(m, ids, resp).error.None?
    ensures |Filter(StationsOutcome(m, ids, resp).events, IsSleep)| == |ids|
    decreases |ids|
  {
    if ids != [] {
      var init := ids[..|ids| - 1];
      var pre := StationsOutcome(m, init, resp);
      OneSleepPerStation(m, init, resp);
      var r := RetrieveOutcome(m, ids[|ids| - 1], resp);
      RetrieveNoSleep(m, ids[|ids| - 1], resp);
      FilterConcat(pre.events, r.events, IsSleep);
      FilterConcat(pre.events + r.events, [Sleep(DELAY_SECONDS)], IsSleep);
    }
  }

  /** The number of archives found for the stations of one measurement. */
  function LinksFound(m: Measurement, ids: seq<string>, resp: Response): nat
  {
    if ids == [] then 0
    else
      var r := FindFilenamesForStation(resp.status, DataUrl(m), resp.text, ids[|ids| - 1]);
      LinksFound(m, ids[..|ids| - 1], resp) + if r.Success? then |r.value| else 0
  }

  lemma {:induction false} LinkEventsDownloads(m: Measurement, links: seq<string>)
    ensures |Filter(LinkEvents(m, links), IsDownload)| == |links|
    decreases |links|
  {
    if links != [] {
      var n := |links| - 1;
      LinkEventsDownloads(m, links[..n]);
      FilterConcat(LinkEvents(m, links[..n]), LinkSteps(m, links[n]), IsDownload);
      var dest := ZipPath(links[n]);
      StepsDownloadOnce(DataUrl(m), links[n], dest, DataDirectory(m));
    }
  }

  /** The three steps of one link hold one download. */
  lemma StepsDownloadOnce(url: string, link: string, dest: Path, into: Path)
    ensures |Filter([Download(url, link, dest), Extract(dest, into), Unlink(dest)], IsDownload)| == 1
  {
    var steps := [Download(url, link, dest), Extract(dest, into), Unlink(dest)];
    assert steps[1..][1..][1..] == [];
    assert Filter(steps[1..], IsDownload) == [];
  }

  /** A complete pass over the stations downloads every archive found, once. */
  lemma {:induction false} OneDownloadPerArchive(m: Measurement, ids: seq<string>, resp: Response)
    requires StationsOutcome(m, ids, resp).error.None?
    ensures |Filter(StationsOutcome(m, ids, resp).events, IsDownload)| == LinksFound(m, ids, resp)
    decreases |ids|
  {
    if ids != [] {
      var init := ids[..|ids| - 1];
      var pre := StationsOutcome(m, init, resp);
      OneDownloadPerArchive(m, init, resp);
      var r := RetrieveOutcome(m, ids[|ids| - 1], resp);
      var found := FindFilenamesForStation(resp.status, DataUrl(m), resp.text, ids[|ids| - 1]);
      assert pre.error.None? && r.error.None? && found.Success?;
      var links := found.value;
      assert r.events == [RequestIndex(DataUrl(m))] + LinkEvents(m, links);
      assert StationsOutcome(m, ids, resp).events == pre.events + r.events + [Sleep(DELAY_SECONDS)];
      LinkEventsDownloads(m, links);
      NoDownload(RequestIndex(DataUrl(m)));
      NoDownload(Sleep(DELAY_SECONDS));
      FilterConcat([RequestIndex(DataUrl(m))], LinkEvents(m, links), IsDownload);
      FilterConcat(pre.events, r.events, IsDownload);
      FilterConcat(pre.events + r.events, [Sleep(DELAY_SECONDS)], IsDownload);
    }
  }

  lemma NoDownload(e: Event)
    requires !e.Download?
    ensures Filter([e], IsDownload) == []
  {
    assert [e][1..] == [];
  }

  /**
   * An index page that does not answer 200 stops the run at the first station:
   * one request, no download, and a ConnectionError naming the index URL.
   */
  lemma {:induction false} IndexFailureStops(m: Measurement, ids: seq<string>, resp: Response)
    requires resp.status != HTTP_OK && ids != []
    ensures StationsOutcome(m, ids, resp) ==
      Outcome([RequestIndex(DataUrl(m))], Some(IndexFailed(ConnectionError(ERROR_PREFIX + DataUrl(m)))))
    decreases |ids|
  {
    if |ids| > 1 {
      IndexFailureStops(m, ids[..|ids| - 1], resp);
    }
  }

  /**
   * Within a measurement, the filtered station list is saved (as its second
   * event, right after it is read) before any station's index page is requested.
   */
  lemma SavedBeforeStations(m: Measurement, remote: Remote, k: nat)
    requires k < |MeasurementOutcome(m, remote).events|
    requires MeasurementOutcome(m, remote).events[k].RequestIndex?
    ensures MeasurementOutcome(m, remote).events[0] == FetchMetadata(MetadataFile(m))
    ensures GetStationMetadata(remote.metadata(MetadataFile(m)), BUNDESLAND).Success?
    ensures 1 < k
    ensures MeasurementOutcome(m, remote).events[1] ==
      SaveJson(MetadataJsonPath(m), GetStationMetadata(remote.metadata(MetadataFile(m)), BUNDESLAND).value)
  {
    var url := MetadataFile(m);
    var md := GetStationMetadata(remote.metadata(url), BUNDESLAND);
    MeasurementEvents(m, remote);
    if md.Failure? {
      assert false;
    }
    var ev := MeasurementOutcome(m, remote).events;
    var head := [FetchMetadata(url), SaveJson(MetadataJsonPath(m), md.value)];
    assert ev[1] == head[1];
  }

  /** The events of a measurement: one read when the station list fails, else read, save and the stations. */
  lemma MeasurementEvents(m: Measurement, remote: Remote)
    ensures GetStationMetadata(remote.metadata(MetadataFile(m)), BUNDESLAND).Failure? ==>
      MeasurementOutcome(m, remote).events == [FetchMetadata(MetadataFile(m))]
    ensures GetStationMetadata(remote.metadata(MetadataFile(m)), BUNDESLAND).Success? ==>
      var rows := GetStationMetadata(remote.metadata(MetadataFile(m)), BUNDESLAND).value;
      MeasurementOutcome(m, remote).events ==
        [FetchMetadata(MetadataFile(m)), SaveJson(MetadataJsonPath(m), rows)] +
        StationsOutcome(m, GetStationIdsFromMetadata(rows), remote.index(DataUrl(m))).events
  {
  }

  /** The two events that open a measurement: reading its station list and saving it. */
  lemma HeadFilters(url: string, path: Path, rows: seq<Row>)
    ensures Filter([FetchMetadata(url)], IsFetch) == [FetchMetadata(url)]
    ensures Filter([FetchMetadata(url), SaveJson(path, rows)], IsFetch) == [FetchMetadata(url)]
    ensures Filter([FetchMetadata(url)], IsSleep) == []
    ensures Filter([FetchMetadata(url), SaveJson(path, rows)], IsSleep) == []
  {
    var h := [FetchMetadata(url), SaveJson(path, rows)];
    assert h[1..][1..] == [] && [FetchMetadata(url)][1..] == [];
  }

  /** Of a measurement's events, only the first reads a station list. */
  lemma MeasurementFetches(m: Measurement, remote: Remote)
    ensures |MeasurementOutcome(m, remote).events| > 0 &&
      MeasurementOutcome(m, remote).events[0] == FetchMetadata(MetadataFile(m))
    ensures Filter(MeasurementOutcome(m, remote).events, IsFetch) == [FetchMetadata(MetadataFile(m))]
  {
    var url := MetadataFile(m);
    var md := GetStationMetadata(remote.metadata(url), BUNDESLAND);
    MeasurementEvents(m, remote);
    if md.Success? {
      var head := [FetchMetadata(url), SaveJson(MetadataJsonPath(m), md.value)];
      var ids := GetStationIdsFromMetadata(md.value);
      var s := StationsOutcome(m, ids, remote.index(DataUrl(m)));
      StationsEventKinds(m, ids, remote.index(DataUrl(m)));
      assert Filter(s.events, IsFetch) == [];
      HeadFilters(url, MetadataJsonPath(m), md.value);
      FilterConcat(head, s.events, IsFetch);
    } else {
      HeadFilters(url, MetadataJsonPath(m), []);
    }
  }

  /** The reads of the station lists of `ms`, in order. */
  function MetadataReads(ms: seq<Measurement>): seq<Event>
  {
    if ms == [] then [] else MetadataReads(ms[..|ms| - 1]) + [FetchMetadata(MetadataFile(ms[|ms| - 1]))]
  }

  /** The station lists are read one per measurement, in the order of the list of measurements. */
  lemma {:induction false} MeasurementsFetchOrder(ms: seq<Measurement>, remote: Remote)
    requires MeasurementsOutcome(ms, remote).error.None?
    ensures Filter(MeasurementsOutcome(ms, remote).events, IsFetch) == MetadataReads(ms)
    decreases |ms|
  {
    if ms != [] {
      var n := |ms| - 1;
      var pre := MeasurementsOutcome(ms[..n], remote);
      var r := MeasurementOutcome(ms[n], remote);
      assert pre.error.None? && MeasurementsOutcome(ms, remote).events == pre.events + r.events;
      MeasurementsFetchOrder(ms[..n], remote);
      MeasurementFetches(ms[n], remote);
      FilterConcat(pre.events, r.events, IsFetch);
    }
  }

  /** A complete run reads the station lists of temperature, wind and solar, in that order. */
  lemma RunFetchOrder(st: FsState, remote: Remote)
    requires RunOutcome(st, remote).error.None?
    ensures Filter(RunOutcome(st, remote).events, IsFetch) ==
      [FetchMetadata(MetadataFile(Temperature)), FetchMetadata(MetadataFile(Wind)),
       FetchMetadata(MetadataFile(Solar))]
  {
    var prov := ProvisionEvents(st, DATA_DIRECTORIES);
    var run := MeasurementsOutcome(MEASUREMENTS, remote);
    assert RunOutcome(st, remote).events == prov + run.events;
    ProvisionOnlyCreates(st, DATA_DIRECTORIES);
    assert Filter(prov, IsFetch) == [];
    MeasurementsFetchOrder(MEASUREMENTS, remote);
    FilterConcat(prov, run.events, IsFetch);
    MeasurementKeyOrder();
  }

  /** The key order of `DATA_URLS`: temperature, wind, solar. */
  lemma MeasurementKeyOrder()
    ensures MetadataReads(MEASUREMENTS) ==
      [FetchMetadata(MetadataFile(Temperature)), FetchMetadata(MetadataFile(Wind)),
       FetchMetadata(MetadataFile(Solar))]
  {
    var ms := MEASUREMENTS;
    assert ms[..2][..1][..0] == [];
    assert MetadataReads(ms[..2][..1]) == [FetchMetadata(MetadataFile(Temperature))];
    assert MetadataReads(ms[..2]) ==
      [FetchMetadata(MetadataFile(Temperature)), FetchMetadata(MetadataFile(Wind))];
  }

  /** The number of stations of the region over a list of measurements. */
  function StationTotal(ms: seq<Measurement>, remote: Remote): nat
  {
    if ms == [] then 0
    else StationTotal(ms[..|ms| - 1], remote) + |MeasurementStations(ms[|ms| - 1], remote)|
  }

  lemma MeasurementSleeps(m: Measurement, remote: Remote)
    requires MeasurementOutcome(m, remote).error.None?
    ensures |Filter(MeasurementOutcome(m, remote).events, IsSleep)| == |MeasurementStations(m, remote)|
  {
    var url := MetadataFile(m);
    var md := GetStationMetadata(remote.metadata(url), BUNDESLAND);
    var head := [FetchMetadata(url), SaveJson(MetadataJsonPath(m), md.value)];
    var ids := GetStationIdsFromMetadata(md.value);
    var s := StationsOutcome(m, ids, remote.index(DataUrl(m)));
    assert MeasurementOutcome(m, remote).events == head + s.events;
    assert MeasurementStations(m, remote) == ids;
    OneSleepPerStation(m, ids, remote.index(DataUrl(m)));
    HeadFilters(url, MetadataJsonPath(m), md.value);
    FilterConcat(head, s.events, IsSleep);
  }

  lemma {:induction false} MeasurementsSleeps(ms: seq<Measurement>, remote: Remote)
    requires MeasurementsOutcome(ms, remote).error.None?
    ensures |Filter(MeasurementsOutcome(ms, remote).events, IsSleep)| == StationTotal(ms, remote)
    decreases |ms|
  {
    if ms != [] {
      var n := |ms| - 1;
      MeasurementsSleeps(ms[..n], remote);
      MeasurementSleeps(ms[n], remote);
      FilterConcat(MeasurementsOutcome(ms[..n], remote).events, MeasurementOutcome(ms[n], remote).events, IsSleep);
    }
  }

  /** A complete run sleeps once per station of the region, over all measurements. */
  lemma RunSleeps(st: FsState, remote: Remote)
    requires RunOutcome(st, remote).error.None?
    ensures |Filter(RunOutcome(st, remote).events, IsSleep)| == StationTotal(MEASUREMENTS, remote)
  {
    var prov := ProvisionEvents(st, DATA_DIRECTORIES);
    var run := MeasurementsOutcome(MEASUREMENTS, remote);
    assert RunOutcome(st, remote).events == prov + run.events;
    ProvisionOnlyCreates(st, DATA_DIRECTORIES);
    assert Filter(prov, IsSleep) == [];
    MeasurementsSleeps(MEASUREMENTS, remote);
    FilterConcat(prov, run.events, IsSleep);
  }

  // ----- Stopping at the first error -----

  /** Once a station has failed, later stations add nothing. */
  lemma {:induction false} StationsErrorPersists(m: Measurement, ids: seq<string>, resp: Response, k: nat)
    requires k <= |ids| && StationsOutcome(m, ids[..k], resp).error.Some?
    ensures StationsOutcome(m, ids, resp) == StationsOutcome(m, ids[..k], resp)
    decreases |ids| - k
  {
    if k < |ids| {
      assert ids[..k + 1][..k] == ids[..k];
      StationsErrorPersists(m, ids, resp, k + 1);
    } else {
      assert ids[..k] == ids;
    }
  }

  /** Once a measurement has failed, later measurements add nothing. */
  lemma {:induction false} MeasurementsErrorPersists(ms: seq<Measurement>, remote: Remote, k: nat)
    requires k <= |ms| && MeasurementsOutcome(ms[..k], remote).error.Some?
    ensures MeasurementsOutcome(ms, remote) == MeasurementsOutcome(ms[..k], remote)
    decreases |ms| - k
  {
    if k < |ms| {
      assert ms[..k + 1][..k] == ms[..k];
      assert MeasurementsOutcome(ms[..k + 1], remote) == MeasurementsOutcome(ms[..k], remote);
      MeasurementsErrorPersists(ms, remote, k + 1);
    } else {
      assert ms[..k] == ms;
    }
  }

  lemma ReplaySingle(st: FsState, e: Event)
    ensures Replay(st, [e]) == Apply(st, e)
  {
    assert [e][..0] == [];
  }

  lemma ReplayStep(st: FsState, events: seq<Event>, e: Event)
    ensures Replay(st, events + [e]) == Apply(Replay(st, events), e)
  {
    assert (events + [e])[..|events|] == events;
  }
}
