/** File replacement: a reader after any fault or crash sees the whole former or the whole new content. */
module Persistence {
  import opened Wrappers
  import opened Manifests

  type Path = nat

  /** Content that has not been flushed may be lost or torn by a crash. */
  datatype File = File(content: Bytes, synced: bool)
  type Files = map<Path, File>

  /** What a machine that stops may leave of `a`: flushed files survive, others may hold anything. */
  predicate Survives(a: Files, b: Files) {
    forall p :: p in a && a[p].synced ==> p in b && b[p] == a[p]
  }

  function At(files: Files, p: Path): Option<File> { if p in files then Some(files[p]) else None }

  /** Files other than the named ones are as they were. */
  predicate OnlyTouched(a: Files, b: Files, touched: set<Path>) {
    && (forall p :: p in a && p !in touched ==> p in b && b[p] == a[p])
    && (forall p :: p in b && p !in touched ==> p in a)
  }

  /** The backup still has its former value, or the former destination, flushed. */
  predicate BackupOk(a: Files, b: Files, destination: Path, backup: Option<Path>) {
    backup.Some? ==> At(b, backup.value) == At(a, backup.value)
                     || (destination in a && At(b, backup.value) == Some(File(a[destination].content, true)))
  }

  /** The former destination is kept in the backup. */
  predicate BackedUp(a: Files, b: Files, destination: Path, backup: Option<Path>) {
    backup.Some? && destination in a ==> At(b, backup.value) == Some(File(a[destination].content, true))
  }

  /**
   Everything a replacement may leave: the destination is untouched, or it is the flushed new
   content and then the former content is already in the backup.
   */
  predicate OldOrNew(a: Files, b: Files, destination: Path, content: Bytes, backup: Option<Path>) {
    && (At(b, destination) == At(a, destination)
        || (At(b, destination) == Some(File(content, true)) && BackedUp(a, b, destination, backup)))
    && BackupOk(a, b, destination, backup)
  }

  /** What a reader finds after the machine stopped, if the former content had been flushed. */
  lemma ReaderSeesOldOrNew(a: Files, b: Files, c: Files, destination: Path, content: Bytes, backup: Option<Path>)
    requires OldOrNew(a, b, destination, content, backup) && Survives(b, c)
    requires destination in a && a[destination].synced
    ensures destination in c && (c[destination].content == a[destination].content || c[destination].content == content)
    ensures c[destination].content != a[destination].content && backup.Some? ==>
              backup.value in c && c[backup.value].content == a[destination].content
  {
  }

  /** A file that is neither destination nor backup plays no part. */
  lemma OtherFilesAreApart(a: Files, a1: Files, b1: Files, b: Files, destination: Path, content: Bytes, backup: Option<Path>, other: Path)
    requires other != destination && (backup.Some? ==> other != backup.value)
    requires OnlyTouched(a, a1, {other}) && OnlyTouched(b1, b, {other}) && OldOrNew(a1, b1, destination, content, backup)
    ensures OldOrNew(a, b, destination, content, backup)
    ensures BackedUp(a1, b1, destination, backup) ==> BackedUp(a, b, destination, backup)
  {
  }

  class FileSystem {
    var files: Files
    var fates: seq<Fate>
    var crashed: bool

    constructor (files: Files, fates: seq<Fate>)
      ensures this.files == files && this.fates == fates && !crashed
    {
      this.files, this.fates, this.crashed := files, fates, false;
    }

    ghost predicate Reliable()
      reads this
    {
      fates == [] && !crashed
    }

    method Attempt() returns (happens: bool, ok: bool)
      modifies this`fates, this`crashed
      ensures ok ==> happens && !crashed
      ensures old(Reliable()) ==> ok && Reliable()
      ensures old(crashed) ==> !happens && crashed
    {
      if crashed { return false, false; }
      if fates == [] { return true, true; }
      var fate := fates[0];
      fates := fates[1..];
      match fate
      case Proceed => return true, true;
      case FailBefore => return false, false;
      case FailAfter => return true, false;
      case CrashBefore => crashed := true; return false, false;
      case CrashAfter => crashed := true; return true, false;
    }

    /** Writes a file; when it fails midway only `torn` bytes have arrived. */
    method Write(p: Path, content: Bytes, torn: nat) returns (ok: bool)
      modifies this
      ensures OnlyTouched(old(files), files, {p})
      ensures ok ==> At(files, p) == Some(File(content, false))
      ensures old(Reliable()) ==> ok && Reliable()
    {
      var happens, done := Attempt();
      if happens {
        var arrived := if done || torn > |content| then content else content[..torn];
        files := files[p := File(arrived, false)];
      }
      return done;
    }

    method Sync(p: Path) returns (ok: bool)
      modifies this
      ensures OnlyTouched(old(files), files, {p})
      ensures p in old(files) ==> p in files && files[p].content == old(files)[p].content
      ensures ok && p in files ==> files[p].synced
      ensures old(Reliable()) ==> ok && Reliable()
    {
      var happens, done := Attempt();
      if happens && p in files { files := files[p := files[p].(synced := true)]; }
      return done;
    }

    /** `replace_path_raw`: one rename over whatever was there. */
    method Rename(source: Path, destination: Path) returns (ok: bool)
      requires source in files && source != destination
      modifies this
      ensures ok ==> files == old(files)[destination := old(files)[source]] - {source}
      ensures files == old(files) || files == old(files)[destination := old(files)[source]] - {source}
      ensures old(Reliable()) ==> ok && Reliable()
    {
      var happens, done := Attempt();
      if happens { files := files[destination := files[source]] - {source}; }
      return done;
    }

    method Remove(p: Path)
      modifies this
      ensures files == old(files) || files == old(files) - {p}
      ensures old(Reliable()) ==> Reliable() && p !in files
    {
      var happens, _ := Attempt();
      if happens { files := files - {p}; }
    }

    /** Copies the destination into the backup, through a flushed temporary file. */
    method MakeBackup(destination: Path, backup: Path, temporary: Path, torn: nat) returns (ok: bool)
      requires destination in files && temporary !in {destination, backup} && destination != backup && temporary !in files
      modifies this
      ensures OnlyTouched(old(files), files, {backup, temporary})
      ensures BackupOk(old(files), files, destination, Some(backup))
      ensures ok ==> BackedUp(old(files), files, destination, Some(backup)) && temporary !in files
      ensures old(Reliable()) ==> ok && Reliable()
    {
      var copied := Write(temporary, files[destination].content, torn);
      if !copied { Remove(temporary); return false; }
      var synced := Sync(temporary);
      if !synced { Remove(temporary); return false; }
      var renamed := Rename(temporary, backup);
      if !renamed { Remove(temporary); return false; }
      var _, settled := Attempt();
      if !settled { Remove(temporary); }
      return settled;
    }

    /** `replace_file` */
    method ReplaceFile(source: Path, destination: Path, backup: Option<Path>, temporary: Path, torn: nat) returns (ok: bool)
      requires temporary !in {source, destination} && source != destination && temporary !in files
      requires backup.Some? ==> backup.value !in {source, destination, temporary}
      modifies this
      ensures ok ==> source in old(files) && At(files, destination) == Some(File(old(files)[source].content, true))
                     && BackedUp(old(files), files, destination, backup) && source !in files && temporary !in files
      ensures source in old(files) ==> OldOrNew(old(files), files, destination, old(files)[source].content, backup)
      ensures source !in old(files) ==> files == old(files)
      ensures OnlyTouched(old(files), files, {source, destination, temporary} + if backup.Some? then {backup.value} else {})
      ensures old(Reliable()) ==> Reliable() && (ok <==> source in old(files))
    {
      if source !in files { return false; }
      var synced := Sync(source);
      if !synced { return false; }
      if backup.Some? && destination in files {
        var saved := MakeBackup(destination, backup.value, temporary, torn);
        if !saved { return false; }
      }
      var renamed := Rename(source, destination);
      if !renamed { return false; }
      var _, settled := Attempt();
      return settled;
    }

    /**
     `atomic_write`: success means the new content is in place and flushed; an error may come
     before or after the replacement, and a crash never leaves anything else.
     */
    method AtomicWrite(path: Path, content: Bytes, backup: Option<Path>, temporary: Path, backupTemporary: Path, torn: nat)
      returns (ok: bool)
      requires path !in {temporary, backupTemporary} && temporary != backupTemporary
      requires temporary !in files && backupTemporary !in files
      requires backup.Some? ==> backup.value !in {path, temporary, backupTemporary}
      modifies this
      ensures ok ==> At(files, path) == Some(File(content, true)) && BackedUp(old(files), files, path, backup)
                     && temporary !in files && backupTemporary !in files
      ensures OldOrNew(old(files), files, path, content, backup)
      ensures OnlyTouched(old(files), files, {path, temporary, backupTemporary} + if backup.Some? then {backup.value} else {})
      ensures old(Reliable()) ==> ok && Reliable()
    {
      var _, ready := Attempt();
      if !ready { return false; }
      var written := Write(temporary, content, torn);
      if !written { Remove(temporary); return false; }
      ghost var before := files;
      ok := ReplaceFile(temporary, path, backup, backupTemporary, torn);
      ghost var after := files;
      if !ok { Remove(temporary); }
      hide BackedUp, OldOrNew, At;
      OtherFilesAreApart(old(files), before, after, files, path, content, backup, temporary);
    }
  }
}
