/** What an update, a rollback and every run of them leave at the executable path, wherever they fail or crash. */
module UpdateSafety {
  import opened Crypto
  import opened Updates

  // ---------------------------------------------------------------- one update

  predicate Kept(f: Files, f': Files, p: Path) {
    (p in f <==> p in f') && (p in f ==> f'[p] == f[p])
  }

  predicate Holds(f: Files, p: Path, b: Bytes) {
    p in f && f[p] == b
  }

  /** However far it got, a copy leaves its target untouched or holding all of the source, and nothing else but the
      temporary file differs, which is gone once it was moved or removed. */
  lemma CopyLeaves(f: Files, b: Bytes, tmp: Path, dst: Path, x: CopyProgress, p: Path)
    requires tmp.Temp? && !dst.Temp? && !p.Temp?
    ensures var f' := Copy(f, b, tmp, dst, x);
            && (p != dst ==> Kept(f, f', p))
            && (if x.Moved? then Holds(f', dst, b) else Kept(f, f', dst))
            && (x.Moved? || x.Undone? ==> tmp !in f') && (forall q: Path :: q.Temp? && q != tmp ==> Kept(f, f', q))
  {
  }

  /** However far it got, a replacement leaves its target untouched or holding all of the source, and the source is gone
      only once the target holds it. */
  lemma ReplaceLeaves(f: Files, src: Path, dst: Path, y: ReplaceProgress, p: Path)
    requires SwapTemps(y) && !src.Temp? && !dst.Temp? && src != dst && !p.Temp?
    ensures var f' := Replace(f, src, dst, y);
            && (p != src && p != dst ==> Kept(f, f', p))
            && (Kept(f, f', src) || src !in f')
            && (Kept(f, f', dst) || (src in f && Holds(f', dst, f[src])))
            && (src in f && src !in f' ==> Holds(f', dst, f[src]))
            && (src in f && Finished(y) ==> Holds(f', dst, f[src]) && src !in f')
            && (Finished(y) ==> forall q: Path :: q.Temp? && q !in f ==> q !in f')
  {
    if src in f && (y.Copying? || y.Copied?) {
      var x := if y.Copying? then y.copy else Moved;
      CopyLeaves(f, f[src], y.tmp, dst, x, p);
      CopyLeaves(f, f[src], y.tmp, dst, x, src);
    }
  }

  lemma DownloadLeaves(f: Files, r: Request, z: DownloadProgress, p: Path)
    ensures var f' := Download(f, r, z);
            && (p != Part && p != New ==> Kept(f, f', p))
            && (if z.Complete? then Holds(f', New, Got(r)) && Part !in f' else Kept(f, f', New))
  {
  }

  /** Before and after an update from one binary. */
  ghost predicate Updated(f: Files, f': Files, hash: Bytes -> string, r: Request, current: string)
    requires Exec in f
  {
    || Holds(f', Exec, f[Exec])
    || (Holds(f', Exec, Got(r)) && hash(Got(r)) == r.sha && Holds(f', Backup(current), f[Exec]))
  }

  /** Wherever DownloadAndApply stops, the executable is the old binary, whole, or the new one, whole and verified, and
      then the backup of the current version is the old one. */
  lemma ApplySafe(f: Files, hash: Bytes -> string, r: Request, current: string, a: ApplyProgress)
    requires Exec in f && ApplyFits(hash, r, a)
    ensures Updated(f, Apply(f, r, current, a), hash, r, current)
    ensures a.InReplace? && Finished(a.swap) ==>
              Holds(Apply(f, r, current, a), Exec, Got(r)) && Holds(Apply(f, r, current, a), Backup(current), f[Exec])
  {
    var f1 := Download(f, r, a.get);
    DownloadLeaves(f, r, a.get, Exec);
    if a.InBackup? {
      CopyLeaves(f1, f[Exec], a.tmp, Backup(current), a.copy, Exec);
    } else if a.InReplace? {
      CopyLeaves(f1, f[Exec], a.tmp, Backup(current), Moved, Exec);
      CopyLeaves(f1, f[Exec], a.tmp, Backup(current), Moved, New);
      ReplaceLeaves(Copy(f1, f[Exec], a.tmp, Backup(current), Moved), New, Exec, a.swap, Backup(current));
    }
  }

  /** And no other version's backup is touched. */
  lemma OtherBackupsStay(f: Files, hash: Bytes -> string, r: Request, current: string, a: ApplyProgress, v: string)
    requires Exec in f && ApplyFits(hash, r, a) && v != current
    ensures Kept(f, Apply(f, r, current, a), Backup(v))
  {
    var f1 := Download(f, r, a.get);
    DownloadLeaves(f, r, a.get, Backup(v));
    if a.InBackup? {
      CopyLeaves(f1, f[Exec], a.tmp, Backup(current), a.copy, Backup(v));
    } else if a.InReplace? {
      CopyLeaves(f1, f[Exec], a.tmp, Backup(current), Moved, Backup(v));
      ReplaceLeaves(Copy(f1, f[Exec], a.tmp, Backup(current), Moved), New, Exec, a.swap, Backup(v));
    }
  }

  /** A finished one leaves neither the download nor a temporary file behind. */
  lemma ApplyCleansUp(f: Files, hash: Bytes -> string, r: Request, current: string, a: ApplyProgress)
    requires Exec in f && ApplyFits(hash, r, a) && a.InReplace? && Finished(a.swap)
    ensures var f' := Apply(f, r, current, a);
            Part !in f' && New !in f' && forall q: Path :: q.Temp? && q !in f ==> q !in f'
  {
    var f1 := Download(f, r, a.get);
    var f2 := Copy(f1, f[Exec], a.tmp, Backup(current), Moved);
    DownloadLeaves(f, r, a.get, Exec);
    CopyLeaves(f1, f[Exec], a.tmp, Backup(current), Moved, New);
    CopyLeaves(f1, f[Exec], a.tmp, Backup(current), Moved, Part);
    ReplaceLeaves(f2, New, Exec, a.swap, Part);
    forall q: Path | q.Temp? && q !in f ensures q !in Apply(f, r, current, a) {
      assert q !in f1;
      assert q !in f2;
    }
  }

  /** The same for the handler: the backup is that of the version the store had. */
  lemma UpdateSafe(d: Disk, hash: Bytes -> string, r: Request, u: UpdateProgress)
    requires Exec in d.files && UpdateFits(hash, r, u)
    ensures Updated(d.files, Update(d, hash, r, u).files, hash, r, d.version)
  {
    ApplySafe(d.files, hash, r, d.version, u.apply);
  }

  // ---------------------------------------------------------------- every run

  datatype Event = Updating(r: Request, u: UpdateProgress) | RollingBack(y: ReplaceProgress) | Starting(put: bool)

  predicate Fits(hash: Bytes -> string, e: Event) {
    match e
    case Updating(r, u) => UpdateFits(hash, r, u)
    case RollingBack(y) => SwapTemps(y)
    case Starting(_) => true
  }

  function Do(d: Disk, hash: Bytes -> string, builtin: Bytes -> string, e: Event): Disk {
    match e
    case Updating(r, u) => Update(d, hash, r, u)
    case RollingBack(y) => Rollback(d, y)
    case Starting(put) => Restart(d, builtin, put)
  }

  function DoAll(d: Disk, hash: Bytes -> string, builtin: Bytes -> string, es: seq<Event>): Disk {
    if es == [] then d else Do(DoAll(d, hash, builtin, es[..|es| - 1]), hash, builtin, es[|es| - 1])
  }

  /** The original binary, or one with a hash that some update of the run asked for. */
  ghost predicate Trusted(hash: Bytes -> string, original: Bytes, es: seq<Event>, b: Bytes) {
    b == original || exists i :: 0 <= i < |es| && es[i].Updating? && es[i].r.sha == hash(b)
  }

  predicate Runnable(p: Path) {
    p.Exec? || p.New? || p.Backup?
  }

  ghost predicate Sound(f: Files, good: Bytes -> bool) {
    Exec in f && forall p :: Runnable(p) && p in f ==> good(f[p])
  }

  lemma CopyKeepsSound(f: Files, b: Bytes, tmp: Path, dst: Path, x: CopyProgress, good: Bytes -> bool)
    requires Sound(f, good) && good(b) && tmp.Temp? && Runnable(dst)
    ensures Sound(Copy(f, b, tmp, dst, x), good)
  {
    var f' := Copy(f, b, tmp, dst, x);
    CopyLeaves(f, b, tmp, dst, x, Exec);
    forall p | Runnable(p) && p in f' ensures good(f'[p]) {
      CopyLeaves(f, b, tmp, dst, x, p);
    }
  }

  lemma ReplaceKeepsSound(f: Files, src: Path, y: ReplaceProgress, good: Bytes -> bool)
    requires Sound(f, good) && SwapTemps(y) && Runnable(src) && src != Exec
    ensures Sound(Replace(f, src, Exec, y), good)
  {
    var f' := Replace(f, src, Exec, y);
    ReplaceLeaves(f, src, Exec, y, Exec);
    forall p | Runnable(p) && p in f' ensures good(f'[p]) {
      ReplaceLeaves(f, src, Exec, y, p);
    }
  }

  lemma DownloadKeepsSound(f: Files, r: Request, z: DownloadProgress, good: Bytes -> bool)
    requires Sound(f, good) && (z.Complete? ==> good(Got(r)))
    ensures Sound(Download(f, r, z), good)
  {
    var f' := Download(f, r, z);
    DownloadLeaves(f, r, z, Exec);
    forall p | Runnable(p) && p in f' ensures good(f'[p]) {
      DownloadLeaves(f, r, z, p);
    }
  }

  lemma ApplyKeepsSound(f: Files, hash: Bytes -> string, r: Request, current: string, a: ApplyProgress,
                        good: Bytes -> bool)
    requires Sound(f, good) && ApplyFits(hash, r, a) && forall b :: hash(b) == r.sha ==> good(b)
    ensures Sound(Apply(f, r, current, a), good)
  {
    var f1 := Download(f, r, a.get);
    DownloadKeepsSound(f, r, a.get, good);
    if a.InBackup? {
      CopyKeepsSound(f1, f[Exec], a.tmp, Backup(current), a.copy, good);
    } else if a.InReplace? {
      CopyKeepsSound(f1, f[Exec], a.tmp, Backup(current), Moved, good);
      ReplaceKeepsSound(Copy(f1, f[Exec], a.tmp, Backup(current), Moved), New, a.swap, good);
    }
  }

  lemma DoKeepsSound(d: Disk, hash: Bytes -> string, builtin: Bytes -> string, e: Event, good: Bytes -> bool)
    requires Sound(d.files, good) && Fits(hash, e) && (e.Updating? ==> forall b :: hash(b) == e.r.sha ==> good(b))
    ensures Sound(Do(d, hash, builtin, e).files, good)
  {
    match e
    case Updating(r, u) => ApplyKeepsSound(d.files, hash, r, d.version, u.apply, good);
    case RollingBack(y) => ReplaceKeepsSound(d.files, Backup(d.version), y, good);
    case Starting(_) =>
  }

  lemma {:induction false} AllKeepSound(d: Disk, hash: Bytes -> string, builtin: Bytes -> string, es: seq<Event>,
                                        good: Bytes -> bool)
    requires Sound(d.files, good)
    requires forall e :: e in es ==> Fits(hash, e) && (e.Updating? ==> forall b :: hash(b) == e.r.sha ==> good(b))
    ensures Sound(DoAll(d, hash, builtin, es).files, good)
  {
    if es != [] {
      AllKeepSound(d, hash, builtin, es[..|es| - 1], good);
      DoKeepsSound(DoAll(d, hash, builtin, es[..|es| - 1]), hash, builtin, es[|es| - 1], good);
    }
  }

  /** Over every run of updates, rollbacks and starts, each stopped anywhere, from a node with only its executable: the
      executable, the finished download and every backup are each the original or hash as some update asked. */
  lemma EveryRunIsTrusted(original: Bytes, version: string, hash: Bytes -> string, builtin: Bytes -> string,
                          es: seq<Event>, p: Path)
    requires forall e :: e in es ==> Fits(hash, e)
    ensures var f := DoAll(Disk(map[Exec := original], version, ""), hash, builtin, es).files;
            Exec in f && (Runnable(p) && p in f ==> Trusted(hash, original, es, f[p]))
  {
    ghost var good := b => Trusted(hash, original, es, b);
    forall e, b | e in es && e.Updating? && hash(b) == e.r.sha ensures good(b) {
    }
    AllKeepSound(Disk(map[Exec := original], version, ""), hash, builtin, es, good);
  }

  // ---------------------------------------------------------------- rollback and redelivery

  /** The update was not refused and ran to its end. */
  predicate Applied(d: Disk, hash: Bytes -> string, r: Request, u: UpdateProgress) {
    Exec in d.files && d.updateID != r.id && hash(d.files[Exec]) != r.sha && d.version != "" &&
    UpdateFits(hash, r, u) && u.done
  }

  /** A finished rollback after a finished update brings the old binary back if and only if the version stored by then
      is the one stored before the update, or has a backup that was the old binary anyway. Without a restart that is
      the version the update named; after one, the version built into the new binary. */
  lemma RollbackRestoresIff(d: Disk, hash: Bytes -> string, builtin: Bytes -> string, r: Request, u: UpdateProgress,
                            restarted: bool, put: bool, y: ReplaceProgress)
    requires Applied(d, hash, r, u) && SwapTemps(y) && Finished(y)
    ensures var d1 := Update(d, hash, r, u);
            var d2 := if restarted then Restart(d1, builtin, put) else d1;
            Holds(Rollback(d2, y).files, Exec, d.files[Exec]) <==>
              d2.version != "" && (d2.version == d.version || Holds(d.files, Backup(d2.version), d.files[Exec]))
  {
    var d1 := Update(d, hash, r, u);
    var d2 := if restarted then Restart(d1, builtin, put) else d1;
    var v := d2.version;
    ApplySafe(d.files, hash, r, d.version, u.apply);
    if v != d.version {
      OtherBackupsStay(d.files, hash, r, d.version, u.apply, v);
    }
    ReplaceLeaves(d1.files, Backup(v), Exec, y, Exec);
  }

  /** So the documented rollback does not happen after the first upgrade of a node to a binary of another version: once
      restarted, there is no backup under the version now stored, and nothing changes. */
  lemma FirstUpgradeCannotRollBack(original: Bytes, version: string, hash: Bytes -> string, builtin: Bytes -> string,
                                   r: Request,
                                   u: UpdateProgress, y: ReplaceProgress)
    requires var d := Disk(map[Exec := original], version, ""); Applied(d, hash, r, u) && builtin(Got(r)) != version
    ensures var d2 := Restart(Update(Disk(map[Exec := original], version, ""), hash, r, u), builtin, true);
            Rollback(d2, y) == d2 && Holds(d2.files, Exec, Got(r))
  {
    var d := Disk(map[Exec := original], version, "");
    ApplySafe(d.files, hash, r, version, u.apply);
    OtherBackupsStay(d.files, hash, r, version, u.apply, builtin(Got(r)));
  }

  /** An update that ran to its end has put the verified download in place of the old binary, that under the version it
      replaced, and, if the store takes the writes, recorded the version and the id it was sent under. */
  lemma AppliedTakesHold(d: Disk, hash: Bytes -> string, r: Request, u: UpdateProgress)
    requires Applied(d, hash, r, u)
    ensures var d1 := Update(d, hash, r, u);
            && Holds(d1.files, Exec, Got(r)) && hash(Got(r)) == r.sha
            && Holds(d1.files, Backup(d.version), d.files[Exec])
            && New !in d1.files && Part !in d1.files
            && d1.version == (if u.versionPut then r.version else d.version)
            && d1.updateID == (if u.idPut then r.id else d.updateID)
  {
    ApplySafe(d.files, hash, r, d.version, u.apply);
    ApplyCleansUp(d.files, hash, r, d.version, u.apply);
  }

  /** One that asks for the binary that is running already, or reaches a node that does not know its version, changes no
      file and no version; the first is recorded as applied, the second is not. */
  lemma UnappliedLeaves(d: Disk, hash: Bytes -> string, r: Request, u: UpdateProgress)
    requires Exec in d.files && (hash(d.files[Exec]) == r.sha || d.version == "")
    ensures var d1 := Update(d, hash, r, u);
            && d1.files == d.files && d1.version == d.version
            && d1.updateID == (if hash(d.files[Exec]) == r.sha && u.idPut then r.id else d.updateID)
  {
  }

  lemma {:induction false} IdStays(d: Disk, hash: Bytes -> string, builtin: Bytes -> string, es: seq<Event>)
    requires forall e :: e in es ==> !e.Updating?
    ensures DoAll(d, hash, builtin, es).updateID == d.updateID
  {
    if es != [] {
      IdStays(d, hash, builtin, es[..|es| - 1]);
    }
  }

  /** Once its id is recorded an update is not carried out again, whatever starts and rollbacks came in between and
      whatever binary they left. */
  lemma RedeliveryById(d: Disk, hash: Bytes -> string, builtin: Bytes -> string, r: Request, u: UpdateProgress,
                       es: seq<Event>, again: UpdateProgress)
    requires Exec in d.files && u.idPut && (Applied(d, hash, r, u) || hash(d.files[Exec]) == r.sha)
    requires forall e :: e in es ==> !e.Updating?
    ensures var d2 := DoAll(Update(d, hash, r, u), hash, builtin, es); Update(d2, hash, r, again) == d2
  {
    IdStays(Update(d, hash, r, u), hash, builtin, es);
  }

  /** Delivered again after it took hold, restarts or not, an update changes neither file nor version. */
  lemma RedeliveryIsQuiet(d: Disk, hash: Bytes -> string, builtin: Bytes -> string, r: Request, u: UpdateProgress,
                          put: bool, again: UpdateProgress)
    requires Exec in d.files && UpdateFits(hash, r, u)
    requires var d1 := Update(d, hash, r, u); !Holds(d1.files, Exec, d.files[Exec])
    ensures var d2 := Restart(Update(d, hash, r, u), builtin, put);
            var d3 := Update(d2, hash, r, again);
            d3.files == d2.files && d3.version == d2.version
  {
    UpdateSafe(d, hash, r, u);
  }
}
