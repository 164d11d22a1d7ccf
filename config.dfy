/**
 * The fixed configuration of the retrieval run: the measurements, the data
 * directories, the DWD Climate Data Center URLs, the region and the delay.
 *
 * Paths are lists of path components relative to the working directory.
 */
module Config {

  datatype Measurement = Temperature | Wind | Solar
  {
    /** The key of this measurement in the source's dictionaries. */
    function Key(): string
    {
      match this
      case Temperature => "temperature"
      case Wind => "wind"
      case Solar => "solar"
    }
  }

  /** The key order of `DATA_URLS`, in which the run visits the measurements. */
  const MEASUREMENTS: seq<Measurement> := [Temperature, Wind, Solar]

  /** Seconds to wait after each station. */
  const DELAY_SECONDS: nat := 5

  /** The region whose stations are retrieved. */
  const BUNDESLAND: string := "Schleswig-Holstein"

  type Path = seq<string>

  const DATA_BASE_PATH: Path := ["data"]

  const RAW_PATH: Path := DATA_BASE_PATH + ["cdc", "raw"]

  /** Where the archives of a measurement are extracted to. */
  function DataDirectory(m: Measurement): Path
  {
    match m
    case Temperature => RAW_PATH + ["air_temperature"]
    case Solar => RAW_PATH + ["solar"]
    case Wind => RAW_PATH + ["wind"]
  }

  /** Where archives are downloaded to before extraction. */
  const ZIP_DIRECTORY: Path := RAW_PATH + ["zip"]

  /** The values of `DATA_DIRECTORIES`, in its key order. */
  const DATA_DIRECTORIES: seq<Path> :=
    [DataDirectory(Temperature), DataDirectory(Solar), DataDirectory(Wind), ZIP_DIRECTORY]

  const BASE_URL: string :=
    "https://opendata.dwd.de/climate_environment/CDC/observations_germany/climate/"

  /** The index page listing a measurement's historical archives. */
  function DataUrl(m: Measurement): string
  {
    match m
    case Temperature => BASE_URL + "10_minutes/air_temperature/historical/"
    case Wind => BASE_URL + "10_minutes/wind/historical/"
    case Solar => BASE_URL + "10_minutes/solar/historical/"
  }

  /** The fixed-width station list of a measurement. */
  function MetadataFile(m: Measurement): string
  {
    match m
    case Temperature => DataUrl(m) + "zehn_min_tu_Beschreibung_Stationen.txt"
    case Wind => DataUrl(m) + "zehn_min_ff_Beschreibung_Stationen.txt"
    case Solar => DataUrl(m) + "zehn_min_sd_Beschreibung_Stationen.txt"
  }

  /** The JSON file the filtered station list of a measurement is saved to. */
  function MetadataJsonPath(m: Measurement): Path
  {
    RAW_PATH + ["station_metadata_" + m.Key() + ".json"]
  }

  /** Where a located archive is downloaded to. */
  function ZipPath(filename: string): Path
  {
    ZIP_DIRECTORY + [filename]
  }
}
