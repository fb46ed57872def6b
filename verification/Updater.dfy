/** The updating agent as it runs: every operation may fail or be the last before a crash, as a scenario says, and each
    method leaves the files that the functions of Updates give for some progress. */
module UpdaterProcess {
  import opened Crypto
  import opened Updates
  import opened UpdateSafety

  datatype Outcome = Done | Fails(bytes: nat) | Dies(bytes: nat)

  class Updater {
    const scenario: nat -> Outcome
    const hash: Bytes -> string
    var files: Files
    var version: string
    var updateID: string
    var clock: nat
    var dead: bool

    constructor (scenario: nat -> Outcome, hash: Bytes -> string, binary: Bytes, version: string)
      ensures this.scenario == scenario && this.hash == hash && State() == Disk(map[Exec := binary], version, "")
      ensures !dead
    {
      this.scenario, this.hash := scenario, hash;
      files, this.version, updateID, clock, dead := map[Exec := binary], version, "", 0, false;
    }

    function State(): Disk
      reads this
    {
      Disk(files, version, updateID)
    }

    /** Nothing fails. */
    ghost predicate Smooth() {
      forall t :: scenario(t).Done?
    }

    /** One operation without effect on any content: chmod, stat, a directory sync, a request. */
    method Issue() returns (ok: bool)
      modifies this`clock, this`dead
      ensures ok <==> !old(dead) && scenario(old(clock)).Done?
      ensures ok || old(dead) ==> dead == old(dead)
    {
      if dead {
        return false;
      }
      ok := scenario(clock).Done?;
      dead := scenario(clock).Dies?;
      clock := clock + 1;
    }

    method CreateFile(p: Path) returns (ok: bool)
      modifies this`files, this`clock, this`dead
      ensures ok ==> !dead
      ensures files == if ok then old(files)[p := []] else old(files)
      ensures Smooth() && !old(dead) ==> ok
    {
      ok := Issue();
      if ok {
        files := files[p := []];
      }
    }

    /** Copying into an open file, up to and including sync and close. */
    method WriteFile(p: Path, b: Bytes) returns (ok: bool, ghost written: Bytes)
      requires !dead
      modifies this`files, this`clock, this`dead
      ensures ok ==> !dead && written == b
      ensures written <= b && files == old(files)[p := written]
      ensures Smooth() ==> ok
    {
      var outcome := scenario(clock);
      ok := Issue();
      var left := if ok then b else Prefix(b, outcome.bytes);
      files := files[p := left];
      written := left;
    }

    method RemoveFile(p: Path) returns (ok: bool)
      modifies this`files, this`clock, this`dead
      ensures ok ==> !dead
      ensures files == if ok then old(files) - {p} else old(files)
      ensures Smooth() && !old(dead) ==> ok
    {
      ok := Issue();
      if ok {
        files := files - {p};
      }
    }

    method RenameFile(p: Path, q: Path) returns (ok: bool)
      modifies this`files, this`clock, this`dead
      ensures ok ==> !dead && p in old(files)
      ensures files == if ok then Renamed(old(files), p, q) else old(files)
      ensures Smooth() && !old(dead) && p in old(files) ==> ok
    {
      ok := Issue();
      if ok && p in files {
        files := files[q := files[p]];
        files := files - {p};
      } else {
        ok := false;
      }
    }

    method CopyFileAtomic(src: Path, dst: Path) returns (ok: bool, tmp: Path, ghost x: CopyProgress)
      requires src in files && !dst.Temp?
      modifies this`files, this`clock, this`dead
      ensures tmp.Temp? && (ok ==> !dead && x == Moved)
      ensures files == Copy(old(files), old(files[src]), tmp, dst, x)
      ensures Smooth() && !old(dead) ==> ok
    {
      var content := files[src];
      tmp, x := Temp(clock), NotBegun;
      ok := CreateFile(tmp);
      if !ok {
        return;
      }
      ghost var part;
      ok, part := WriteFile(tmp, content);
      x := Begun(part);
      if ok {
        ok := RenameFile(tmp, dst);
        x := if ok then Moved else x;
      }
      if ok {
        ok := Issue();
      }
      ghost var before := files;
      var swept := RemoveFile(tmp);
      if x == Moved {
        assert files == before;
      } else if swept {
        x := Undone(part);
      }
      ok := ok && !dead;
    }

    method ReplaceFile(src: Path, dst: Path) returns (ok: bool, ghost y: ReplaceProgress)
      requires !src.Temp? && !dst.Temp? && src != dst
      modifies this`files, this`clock, this`dead
      ensures SwapTemps(y) && (ok ==> !dead && src in old(files) && Finished(y))
      ensures files == Replace(old(files), src, dst, y)
      ensures Smooth() && !old(dead) && src in old(files) ==> ok
    {
      y := NotReplaced;
      if src !in files {
        return false, y;
      }
      ok := Issue();
      if !ok {
        return;
      }
      ok := RenameFile(src, dst);
      if ok {
        ok := Issue();
        y := Renaming(ok);
        return;
      }
      var tmp; ghost var x;
      ok, tmp, x := CopyFileAtomic(src, dst);
      y := Copying(tmp, x);
      if ok {
        ok := RemoveFile(src);
        y := if ok then Copied(tmp) else y;
      }
    }

    /** downloadFile from the open temporary file on. */
    method ReceiveBody(r: Request) returns (ok: bool, ghost z: DownloadProgress)
      requires !dead && r.https && r.response.Body?
      modifies this`files, this`clock, this`dead
      ensures DownloadFits(hash, r, z) && !z.Untried? && (ok ==> !dead && z.Complete? && z.ok)
      ensures files == Download(old(files), r, z)
      ensures Smooth() && Accepts(hash, r, true) ==> ok
    {
      var got := Limited(r.response.bytes);
      ghost var part;
      ok, part := WriteFile(Part, got);
      z := PartLeft(part);
      if !ok {
        var gone := RemoveFile(Part);
        z := if gone then PartGone else z;
        return;
      }
      var examined := Issue();
      if (examined && |got| > MAX_DOWNLOAD) || hash(got) != r.sha {
        var gone := RemoveFile(Part);
        z := if gone then PartGone else z;
        return false, z;
      }
      ok := RenameFile(Part, New);
      if ok {
        ok := Issue();
        z := Complete(examined, ok);
      }
    }

    method DownloadFile(r: Request) returns (ok: bool, ghost z: DownloadProgress)
      modifies this`files, this`clock, this`dead
      ensures DownloadFits(hash, r, z) && (ok ==> !dead && z.Complete? && z.ok)
      ensures files == Download(old(files), r, z)
      ensures Smooth() && !old(dead) && Accepts(hash, r, true) ==> ok
    {
      z := Untried;
      if !r.https {
        return false, z;
      }
      ok := RemoveFile(Part);
      if !ok {
        return;
      }
      z := PartGone;
      if !r.response.Body? {
        return false, z;
      }
      ok := CreateFile(Part);
      if !ok {
        return;
      }
      ok, z := ReceiveBody(r);
    }

    method DownloadAndApply(r: Request, current: string) returns (ok: bool, ghost a: ApplyProgress)
      requires Exec in files
      modifies this`files, this`clock, this`dead
      ensures ApplyFits(hash, r, a) && (ok ==> !dead && a.InReplace? && Finished(a.swap))
      ensures files == Apply(old(files), r, current, a)
      ensures Smooth() && !old(dead) && Accepts(hash, r, true) ==> ok
    {
      a := InDownload(Untried);
      ok := Issue();
      if !ok {
        return;
      }
      ghost var z;
      ok, z := DownloadFile(r);
      a := InDownload(z);
      if !ok {
        return;
      }
      var tmp; ghost var x;
      ok, tmp, x := CopyFileAtomic(Exec, Backup(current));
      a := InBackup(z, tmp, x);
      if !ok {
        return;
      }
      ghost var y;
      ok, y := ReplaceFile(New, Exec);
      a := InReplace(z, tmp, y);
    }

    method StoreVersion(v: string) returns (ghost put: bool)
      modifies this`version, this`clock, this`dead
      ensures version == if put then v else old(version)
      ensures Smooth() && !old(dead) ==> put && !dead
    {
      var ok := Issue();
      if ok {
        version := v;
      }
      put := ok;
    }

    method StoreUpdateID(id: string) returns (ghost put: bool)
      modifies this`updateID, this`clock, this`dead
      ensures updateID == if put then id else old(updateID)
      ensures Smooth() && !old(dead) ==> put && !dead
    {
      var ok := Issue();
      if ok {
        updateID := id;
      }
      put := ok;
    }

    method HandleAgentUpdate(r: Request) returns (restarts: bool, ghost u: UpdateProgress)
      modifies this`files, this`version, this`updateID, this`clock, this`dead
      ensures UpdateFits(hash, r, u) && (restarts ==> u.done)
      ensures State() == Update(old(State()), hash, r, u)
      ensures Smooth() && !old(dead) && Accepts(hash, r, true)
              && old(updateID) != r.id && Exec in old(files) && old(version) != "" ==>
                && updateID == r.id
                && (if hash(old(files)[Exec]) == r.sha then !restarts && files == old(files) && version == old(version)
                    else restarts && version == r.version && Holds(files, Exec, Got(r)) &&
                         Holds(files, Backup(old(version)), old(files)[Exec]))
    {
      restarts, u := false, UpdateProgress(InDownload(Untried), false, false, false);
      if updateID == r.id || Exec !in files {
        return;
      }
      if hash(files[Exec]) == r.sha {
        ghost var put := StoreUpdateID(r.id);
        u := u.(idPut := put);
        return;
      }
      if version == "" {
        return;
      }
      ghost var a;
      restarts, a := DownloadAndApply(r, version);
      u := u.(apply := a);
      if restarts {
        ghost var versionPut := StoreVersion(r.version);
        ghost var idPut := StoreUpdateID(r.id);
        u := UpdateProgress(a, true, versionPut, idPut);
        AppliedTakesHold(old(State()), hash, r, u);
      }
    }

    method HandleAgentRollback() returns (restarts: bool, ghost y: ReplaceProgress)
      modifies this`files, this`clock, this`dead
      ensures SwapTemps(y) && (restarts ==> version != "" && Backup(version) in old(files) && Finished(y))
      ensures State() == Rollback(old(State()), y)
      ensures Smooth() && !old(dead) && version != "" && Backup(version) in old(files) ==> restarts
      ensures restarts ==> Holds(files, Exec, old(files)[Backup(version)]) && Backup(version) !in files
    {
      restarts, y := false, NotReplaced;
      if version != "" {
        restarts, y := ReplaceFile(Backup(version), Exec);
        ReplaceLeaves(old(files), Backup(version), Exec, y, Exec);
      }
    }

    /** The start of the process, with whatever binary is at the executable path. */
    method Start(built: string) returns (ghost put: bool)
      modifies this`version, this`clock, this`dead
      ensures version == if put then built else old(version)
      ensures Smooth() ==> put
    {
      dead := false;
      put := StoreVersion(built);
    }
  }
}
