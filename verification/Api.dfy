/** The API objects the controllers and the HTTP side read. */
module Api {
  import opened FileTree
  import opened UrlUtil
  import opened ArtifactStore
  import opened Assembly

  datatype Key = Key(namespace: string, name: string)

  datatype ArtifactPhase = NoPhase | PendingArtifact | Downloading | ReadyArtifact | ErrorArtifact

  datatype ArtifactSpec = ArtifactSpec(url: Url, sha256: Option<string>, sha512: Option<string>)

  predicate HexDigit(c: char) {
    '0' <= c <= '9' || 'a' <= c <= 'f' || 'A' <= c <= 'F'
  }

  predicate HexDigits(s: string, n: nat) {
    |s| == n && forall c | c in s :: HexDigit(c)
  }

  predicate ClimbsAt(s: string, i: nat) {
    i + 3 <= |s| && s[i..i + 3] == "/.."
  }

  /** What the API server admits: an https URL that climbs nowhere, and one hash of the right length. */
  predicate Admitted(spec: ArtifactSpec) {
    && "https://" <= spec.url.raw
    && (forall i | 0 <= i < |spec.url.raw| :: !ClimbsAt(spec.url.raw, i))
    && (spec.sha256.Some? <==> spec.sha512 == None)
    && (spec.sha256.Some? ==> HexDigits(spec.sha256.value, 64))
    && (spec.sha512.Some? ==> HexDigits(spec.sha512.value, 128))
  }

  /** failureCount is an int32 in the API. */
  datatype ArtifactStatus = ArtifactStatus(
    phase: ArtifactPhase, failureCount: int, lastFailureTime: Option<nat>, lastChecked: Option<nat>)

  datatype Artifact = Artifact(key: Key, version: nat, spec: ArtifactSpec, status: ArtifactStatus)

  /** Where an artifact's file is installed. */
  function RefOf(a: Artifact): Ref {
    Ref(a.key.name, FilenameFromURL(a.spec.url))
  }

  datatype NetbootSpec = NetbootSpec(kernelRef: string, initrdRef: string, firmwareRef: string)

  datatype IsoSpec = IsoSpec(artifactRef: string, kernelPath: string, initrdPath: string)

  datatype ConfigSpec = ConfigSpec(netboot: Option<NetbootSpec>, iso: Option<IsoSpec>, kernelArgs: string)

  datatype Role = KernelRole | InitrdRole | FirmwareRole | IsoRole

  /** A status message, by what it says. */
  datatype Message =
    | NoMessage
    | NotFound(role: Role, name: string)
    | WaitingFor(role: Role, name: string)
    | BadPath(role: Role, path: string)
    | StageFailed(stage: Stage)

  datatype ConfigPhase = Unset | Pending | Ready | Error

  datatype ConfigStatus = ConfigStatus(phase: ConfigPhase, message: Message)

  datatype BootConfig = BootConfig(key: Key, spec: ConfigSpec, status: ConfigStatus)

  /** What reading one object yields. */
  datatype Lookup<+T> = Found(value: T) | Missing | Unavailable

  type Artifacts = Key -> Lookup<Artifact>
}
