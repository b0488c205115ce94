/** The entities the upload monitor works on: job records, listener entries,
    and the answers of the collaborators it consults (agent dispatch,
    secondary-storage VM lookups). */
module UploadTypes {
  import opened Wrappers

  /** The kind of subject a job moves (`Upload.Type`). */
  datatype Type = Template | Iso | Volume

  /** How a job moves its subject (`Upload.Mode`). */
  datatype Mode = FtpUpload | HttpDownload

  /** The job states used by the monitor (`Upload.Status`). */
  datatype Status =
    | NotUploaded | UploadInProgress | CopyInProgress
    | Uploaded | UploadError | Abandoned
    | DownloadUrlNotCreated | DownloadUrlCreated | Error

  /** One persisted job row (`UploadVO`); `None` fields are SQL NULL. The clock
      is a number of milliseconds. */
  datatype Record = Record(
    id: int,
    hostId: int,
    typeId: int,
    kind: Type,
    mode: Mode,
    status: Status,
    lastUpdated: int,
    uploadUrl: Option<string>,
    installPath: Option<string>,
    errorString: Option<string>)

  /** What the registry keeps about an outstanding upload command
      (`UploadListener`): where it was sent, for which job and URL, and whether
      the first dispatch failed, in which case the listener was marked
      disconnected and a status check was scheduled. */
  datatype Listener = Listener(hostId: int, uploadId: int, kind: Type, url: string, disconnected: bool)

  /** The template being exported (`VMTemplateVO`): its id, whether its image
      format is ISO, and the file extension of that format. */
  datatype TemplateRef = TemplateRef(id: int, isIso: bool, fileExtension: string)

  /** Where a template copy lives (`VMTemplateHostVO`). */
  datatype TemplateHost = TemplateHost(hostId: int, installPath: string)

  /** A secondary-storage VM host picked for a storage host (`HostVO`);
      its public address may be null. */
  datatype Ssvm = Ssvm(id: int, publicIp: Option<string>)

  /** The running secondary-storage VMs of a zone, as far as the monitor looks:
      none at all, or the first one with its (nullable) public address. */
  datatype RunningSsvm = NoneRunning | Running(publicIp: Option<string>)

  /** The outcome of one agent dispatch: accepted, or `AgentUnavailableException`
      carrying its message. */
  datatype SendOutcome = Sent | Unavailable(message: string)

  /** The Java exceptions the monitor's operations can raise. */
  datatype Exception =
    | CloudRuntimeException(message: string)
    | NullPointerException
    | IndexOutOfBoundsException
    | StringIndexOutOfBoundsException

  /** `Type.toString()`: the enum constant's name. */
  function TypeName(t: Type): string {
    match t
    case Template => "TEMPLATE"
    case Iso => "ISO"
    case Volume => "VOLUME"
  }

  /** The subject kind of a template: ISO images are `Iso`, every other format `Template`. */
  function TemplateType(t: TemplateRef): (r: Type)
    ensures r != Volume
    ensures r == Iso <==> t.isIso
  {
    if t.isIso then Iso else Template
  }

  /** Java's rendering of a possibly-null string inside a concatenation. */
  function JavaString(s: Option<string>): string {
    match s
    case Some(v) => v
    case None => "null"
  }

  /** Decimal digits of a natural number, as `Long.toString` writes them. */
  function NatToString(n: nat): string
    decreases n
  {
    if n < 10 then ["0123456789"[n]] else NatToString(n / 10) + ["0123456789"[n % 10]]
  }

  /** `Long.toString`. */
  function IntToString(n: int): string {
    if n < 0 then "-" + NatToString(-n) else NatToString(n)
  }
}
