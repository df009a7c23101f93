/**
 * What the installer knows of a time zone bundle: the names of the files inside an unpacked
 * bundle, its version record, and the code outside the installer that it calls.
 */
module Bundle {
  import opened Exceptions
  import opened Storage

  /*
   * Names of the files inside an unpacked bundle. They are defined by TimeZoneBundle, which is
   * not part of this model; only their being distinct matters here.
   */
  const BUNDLE_VERSION_FILE_NAME: string := "bundle_version"
  const TZDATA_FILE_NAME: string := "tzdata"
  const ICU_DATA_FILE_NAME: string := "icu/icu_tzdata.dat"

  /** BundleVersion: the format version, the IANA rules version and the revision. */
  datatype BundleVersion = BundleVersion(
    majorFormatVersion: int,
    minorFormatVersion: int,
    rulesVersion: string,
    revision: int)

  /** What BundleVersion.fromBytes makes of a version record: a version, null, or a BundleException. */
  datatype Parse = Parsed(version: BundleVersion) | ParsedNull | Malformed

  /** BundleVersion.BUNDLE_VERSION_FILE_LENGTH is a positive constant. */
  type Positive = n: nat | n > 0 witness 1

  /**
   * The code the installer calls whose source is not part of this model, as total functions:
   * BundleVersion.BUNDLE_VERSION_FILE_LENGTH, BundleVersion.fromBytes,
   * BundleVersion.isCompatibleWithThisDevice, TimeZoneBundle's archive extraction (None: the
   * archive cannot be read), whether ZoneInfoDB.TzData loads a file, whether the loaded data
   * passes TzData.validate, and ZoneInfoDB.TzData.getRulesVersion (None: IOException).
   */
  datatype Collaborators = Collaborators(
    bundleVersionFileLength: Positive,
    fromBytes: seq<bv8> -> Parse,
    isCompatibleWithThisDevice: BundleVersion -> bool,
    extract: seq<bv8> -> Option<map<string, File>>,
    loadTzData: seq<bv8> -> bool,
    validate: seq<bv8> -> bool,
    getRulesVersion: seq<bv8> -> Option<string>)

  /** FileUtils.readBytes: at most `maxBytes` leading bytes of the file. */
  function ReadBytes(f: File, maxBytes: nat): (r: Result<seq<bv8>>)
    ensures r.Ok? <==> f.readable
    ensures r.Throw? ==> r.exc == IOException
    ensures r.Ok? ==> |r.value| <= maxBytes && r.value <= f.bytes
    ensures r.Ok? && |r.value| < maxBytes ==> r.value == f.bytes
  {
    if !f.readable then Throw(IOException)
    else if |f.bytes| <= maxBytes then Ok(f.bytes)
    else Ok(f.bytes[..maxBytes])
  }
}
