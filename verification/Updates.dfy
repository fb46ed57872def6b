/** internal/handler/update_helpers.go and the update handlers as file-system steps. Each operation is a function of how
    far it got: a value of its progress type stands for one way it can fail, be cut short by a crash, or finish.
    Contents survive a crash as written and a rename is atomic. */
module Updates {
  import opened Crypto

  /** The executable, the download in progress and complete, the backup of a version, a temporary file. */
  datatype Path = Exec | Part | New | Backup(version: string) | Temp(n: nat)

  type Files = map<Path, Bytes>

  const MAX_DOWNLOAD := 50 * 1024 * 1024

  function Prefix(b: Bytes, k: nat): Bytes {
    if k < |b| then b[..k] else b
  }

  function Renamed(f: Files, p: Path, q: Path): Files
    requires p in f
  {
    f[q := f[p]] - {p}
  }

  // ---------------------------------------------------------------- copyFileAtomic

  /** Nothing was done; the temporary file has some of the bytes; it was removed again; it was renamed into place. */
  datatype CopyProgress = NotBegun | Begun(part: Bytes) | Undone(part: Bytes) | Moved

  function Copy(f: Files, b: Bytes, tmp: Path, dst: Path, x: CopyProgress): Files {
    match x
    case NotBegun => f
    case Begun(part) => f[tmp := []][tmp := part]
    case Undone(part) => f[tmp := []][tmp := part] - {tmp}
    case Moved => Renamed(f[tmp := []][tmp := b], tmp, dst)
  }

  // ---------------------------------------------------------------- replaceFile

  /** Before the rename; renamed; the copy that follows a refused rename, as far as it got; the source removed after
      it. */
  datatype ReplaceProgress =
    | NotReplaced
    | Renaming(ok: bool)
    | Copying(tmp: Path, copy: CopyProgress)
    | Copied(tmp: Path)

  function Replace(f: Files, src: Path, dst: Path, y: ReplaceProgress): Files {
    if src !in f then f
    else match y
      case NotReplaced => f
      case Renaming(_) => Renamed(f, src, dst)
      case Copying(tmp, x) => Copy(f, f[src], tmp, dst, x)
      case Copied(tmp) => Copy(f, f[src], tmp, dst, Moved) - {src}
  }

  predicate Finished(y: ReplaceProgress) {
    y == Renaming(true) || y.Copied?
  }

  predicate SwapTemps(y: ReplaceProgress) {
    y.Copying? || y.Copied? ==> y.tmp.Temp?
  }

  // ---------------------------------------------------------------- downloadFile

  datatype Response = NoResponse | BadStatus | Body(bytes: Bytes)

  /** The payload of agent.update, and what the server would answer. */
  datatype Request = Request(id: string, version: string, https: bool, sha: string, response: Response)

  /** What the limited reader lets through. */
  function Limited(b: Bytes): Bytes {
    Prefix(b, MAX_DOWNLOAD + 1)
  }

  function Got(r: Request): Bytes {
    if r.response.Body? then Limited(r.response.bytes) else []
  }

  /** The checks of a complete download; the size check is skipped when the file cannot be examined. */
  predicate Accepts(hash: Bytes -> string, r: Request, examined: bool) {
    r.https && r.response.Body? && (examined ==> |Got(r)| <= MAX_DOWNLOAD) && hash(Got(r)) == r.sha
  }

  /** The download in progress may be left with anything, or nothing; or it was renamed. */
  datatype DownloadProgress = Untried | PartLeft(part: Bytes) | PartGone | Complete(examined: bool, ok: bool)

  function Download(f: Files, r: Request, z: DownloadProgress): Files {
    match z
    case Untried => f
    case PartLeft(part) => f[Part := part]
    case PartGone => f - {Part}
    case Complete(_, _) => Renamed(f[Part := Got(r)], Part, New)
  }

  predicate DownloadFits(hash: Bytes -> string, r: Request, z: DownloadProgress) {
    z.Complete? ==> Accepts(hash, r, z.examined)
  }

  // ---------------------------------------------------------------- DownloadAndApply

  datatype ApplyProgress =
    | InDownload(get: DownloadProgress)
    | InBackup(get: DownloadProgress, tmp: Path, copy: CopyProgress)
    | InReplace(get: DownloadProgress, tmp: Path, swap: ReplaceProgress)

  function Apply(f: Files, r: Request, current: string, a: ApplyProgress): Files
    requires Exec in f
  {
    var f1 := Download(f, r, a.get);
    match a
    case InDownload(_) => f1
    case InBackup(_, tmp, x) => Copy(f1, f[Exec], tmp, Backup(current), x)
    case InReplace(_, tmp, y) => Replace(Copy(f1, f[Exec], tmp, Backup(current), Moved), New, Exec, y)
  }

  /** This progress is possible: later stages follow a complete download and backup. */
  predicate ApplyFits(hash: Bytes -> string, r: Request, a: ApplyProgress) {
    && DownloadFits(hash, r, a.get)
    && (!a.InDownload? ==> a.get.Complete? && a.get.ok && a.tmp.Temp?)
    && (a.InReplace? ==> SwapTemps(a.swap))
  }

  // ---------------------------------------------------------------- the handlers

  /** The node's files, and what its store holds of the update; "" for nothing. */
  datatype Disk = Disk(files: Files, version: string, updateID: string)

  /** How the update went, and which of the two store writes after it took effect. */
  datatype UpdateProgress = UpdateProgress(apply: ApplyProgress, done: bool, versionPut: bool, idPut: bool)

  /** handleAgentUpdate. */
  function Update(d: Disk, hash: Bytes -> string, r: Request, u: UpdateProgress): Disk {
    if d.updateID == r.id || Exec !in d.files then d
    else if hash(d.files[Exec]) == r.sha then d.(updateID := if u.idPut then r.id else d.updateID)
    else if d.version == "" then d
    else
      var d1 := d.(files := Apply(d.files, r, d.version, u.apply));
      if !u.done then d1
      else d1.(version := if u.versionPut then r.version else d.version,
               updateID := if u.idPut then r.id else d.updateID)
  }

  predicate UpdateFits(hash: Bytes -> string, r: Request, u: UpdateProgress) {
    ApplyFits(hash, r, u.apply) && (u.done ==> u.apply.InReplace? && Finished(u.apply.swap))
  }

  /** handleAgentRollback. */
  function Rollback(d: Disk, y: ReplaceProgress): Disk {
    if d.version == "" then d else d.(files := Replace(d.files, Backup(d.version), Exec, y))
  }

  /** A start: the binary at the executable path records the version built into it, if the write takes effect. */
  function Restart(d: Disk, builtin: Bytes -> string, put: bool): Disk {
    if Exec in d.files && put then d.(version := builtin(d.files[Exec])) else d
  }
}
