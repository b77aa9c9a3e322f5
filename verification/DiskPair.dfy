// Replacing a persistent disk and its metadata (src/disk.ts:129-174, src/utils.ts:20-27): a transaction over files
// with backups and a rollback. Which forward operations fail is arbitrary; rollback operations succeed.
module DiskPair {
  import opened Bytes

  type Content = seq<byte>

  // The forward operations that can fail. A failed check reports that the file is absent.
  datatype Op = WriteMeta | CheckDisk | BackupDisk | CheckMeta | BackupMeta | PlaceDisk | PlaceMeta | CleanDisk | CleanMeta

  datatype Paths = Paths(disk: string, meta: string, tmpDisk: string, tmpMeta: string, backupDisk: string,
      backupMeta: string)

  // The six paths differ, and the ones with a fresh random id name no file yet.
  ghost predicate Distinct(p: Paths) {
    && p.disk !in {p.meta, p.tmpDisk, p.tmpMeta, p.backupDisk, p.backupMeta}
    && p.meta !in {p.tmpDisk, p.tmpMeta, p.backupDisk, p.backupMeta}
    && p.tmpDisk !in {p.tmpMeta, p.backupDisk, p.backupMeta}
    && p.tmpMeta !in {p.backupDisk, p.backupMeta}
    && p.backupDisk != p.backupMeta
  }

  ghost predicate Ready(files: map<string, Content>, p: Paths) {
    Distinct(p) && p.tmpDisk in files && p.tmpMeta !in files && p.backupDisk !in files && p.backupMeta !in files
  }

  function Lookup(files: map<string, Content>, path: string): Option<Content> {
    if path in files then Some(files[path]) else None
  }

  class FileSystem {
    var files: map<string, Content>

    // A write that fails may leave part of the data behind.
    method WriteFile(path: string, data: Content, fails: bool, left: Option<Content>) returns (ok: bool)
      modifies this
      ensures ok == !fails
      ensures files == if ok then old(files)[path := data] else if left.Some? then old(files)[path := left.value]
              else old(files)
    {
      ok := !fails;
      if ok { files := files[path := data]; } else if left.Some? { files := files[path := left.value]; }
    }

    method Rename(from: string, to: string, fails: bool) returns (ok: bool)
      modifies this
      ensures ok == (!fails && from in old(files))
      ensures files == if ok then (old(files) - {from})[to := old(files)[from]] else old(files)
    {
      ok := !fails && from in files;
      if ok { files := (files - {from})[to := files[from]]; }
    }

    // rm with force
    method Remove(path: string, fails: bool)
      modifies this
      ensures files == if fails then old(files) else old(files) - {path}
    {
      if !fails { files := files - {path}; }
    }
  }

  // An existing file was taken for absent, and then a later step failed, so the rollback removed it.
  ghost predicate Lost(files: map<string, Content>, p: Paths, failing: set<Op>) {
    && Clears(files, p, failing) && (PlaceDisk in failing || PlaceMeta in failing)
    && ((p.disk in files && CheckDisk in failing) || (p.meta in files && CheckMeta in failing))
  }

  ghost predicate OldPair(was: map<string, Content>, now: map<string, Content>, p: Paths) {
    Lookup(now, p.disk) == Lookup(was, p.disk) && Lookup(now, p.meta) == Lookup(was, p.meta)
  }

  ghost predicate NewPair(was: map<string, Content>, now: map<string, Content>, p: Paths, metadata: Content)
    requires p.tmpDisk in was
  {
    Lookup(now, p.disk) == Some(was[p.tmpDisk]) && Lookup(now, p.meta) == Some(metadata)
  }

  // No file but the six changed.
  ghost predicate Elsewhere(was: map<string, Content>, now: map<string, Content>, p: Paths) {
    forall q :: q !in {p.disk, p.meta, p.tmpDisk, p.tmpMeta, p.backupDisk, p.backupMeta}
        ==> Lookup(now, q) == Lookup(was, q)
  }

  // No temporary file or backup is left, and no other file changed.
  ghost predicate Tidy(was: map<string, Content>, now: map<string, Content>, p: Paths) {
    p.tmpDisk !in now && p.tmpMeta !in now && p.backupDisk !in now && p.backupMeta !in now && Elsewhere(was, now, p)
  }

  // The forward part up to targetsCleared, or to the first failure.
  method BackUp(fs: FileSystem, p: Paths, metadata: Content, failing: set<Op>, left: Option<Content>)
    returns (backedDisk: bool, backedMeta: bool, cleared: bool)
    requires Ready(fs.files, p)
    modifies fs
    ensures InBackups(old(fs.files), fs.files, p, backedDisk, backedMeta)
    ensures cleared <==> Clears(old(fs.files), p, failing)
    ensures cleared <==> && WriteMeta !in failing
                         && (p.disk in old(fs.files) && CheckDisk !in failing ==> BackupDisk !in failing)
                         && (p.meta in old(fs.files) && CheckMeta !in failing ==> BackupMeta !in failing)
    ensures cleared ==> Lookup(fs.files, p.tmpMeta) == Some(metadata)
    ensures cleared ==> Lookup(fs.files, p.tmpDisk) == Lookup(old(fs.files), p.tmpDisk)
    ensures cleared ==> (backedDisk <==> p.disk in old(fs.files) && CheckDisk !in failing)
    ensures cleared ==> (backedMeta <==> p.meta in old(fs.files) && CheckMeta !in failing)
  {
    backedDisk, backedMeta, cleared := false, false, false;
    var wrote := fs.WriteFile(p.tmpMeta, metadata, WriteMeta in failing, left);
    if !wrote { return; }
    if p.disk in fs.files && CheckDisk !in failing {
      var moved := fs.Rename(p.disk, p.backupDisk, BackupDisk in failing);
      if !moved { return; }
      backedDisk := true;
    }
    if p.meta in fs.files && CheckMeta !in failing {
      var moved := fs.Rename(p.meta, p.backupMeta, BackupMeta in failing);
      if !moved { return; }
      backedMeta := true;
    }
    cleared := true;
  }

  // The forward part after targetsCleared.
  method Place(fs: FileSystem, p: Paths, failing: set<Op>) returns (ok: bool)
    requires Distinct(p) && p.tmpDisk in fs.files && p.tmpMeta in fs.files
    modifies fs
    ensures ok <==> PlaceDisk !in failing && PlaceMeta !in failing
    ensures ok ==> Lookup(fs.files, p.disk) == Lookup(old(fs.files), p.tmpDisk)
                   && Lookup(fs.files, p.meta) == Lookup(old(fs.files), p.tmpMeta)
    ensures ok ==> p.tmpDisk !in fs.files && p.tmpMeta !in fs.files
    ensures ok && CleanDisk !in failing ==> p.backupDisk !in fs.files
    ensures ok && CleanMeta !in failing ==> p.backupMeta !in fs.files
    ensures !ok ==> Lookup(fs.files, p.backupDisk) == Lookup(old(fs.files), p.backupDisk)
                    && Lookup(fs.files, p.backupMeta) == Lookup(old(fs.files), p.backupMeta)
    ensures Elsewhere(old(fs.files), fs.files, p)
  {
    ok := fs.Rename(p.tmpDisk, p.disk, PlaceDisk in failing);
    if !ok { return; }
    ok := fs.Rename(p.tmpMeta, p.meta, PlaceMeta in failing);
    if !ok { return; }
    fs.Remove(p.backupDisk, CleanDisk in failing);
    fs.Remove(p.backupMeta, CleanMeta in failing);
  }

  // The forward operations before targetsCleared all succeed.
  ghost predicate Clears(was: map<string, Content>, p: Paths, failing: set<Op>) {
    && WriteMeta !in failing
    && !(p.disk in was && CheckDisk !in failing && BackupDisk in failing)
    && !(p.meta in was && CheckMeta !in failing && BackupMeta in failing)
  }

  // What was backed up is in its backup, and the rest is where it was.
  ghost predicate InBackups(was: map<string, Content>, now: map<string, Content>, p: Paths, backedDisk: bool,
      backedMeta: bool) {
    && (backedDisk ==> p.disk in was) && (backedMeta ==> p.meta in was)
    && Lookup(now, p.backupDisk) == (if backedDisk then Lookup(was, p.disk) else None)
    && Lookup(now, p.backupMeta) == (if backedMeta then Lookup(was, p.meta) else None)
    && Lookup(now, p.disk) == (if backedDisk then None else Lookup(was, p.disk))
    && Lookup(now, p.meta) == (if backedMeta then None else Lookup(was, p.meta))
    && Elsewhere(was, now, p)
  }

  function Renamed(files: map<string, Content>, from: string, to: string): map<string, Content> {
    if from in files then (files - {from})[to := files[from]] else files
  }

  lemma RenamedLookup(files: map<string, Content>, from: string, to: string, q: string)
    requires from in files && from != to
    ensures Lookup(Renamed(files, from, to), q)
         == if q == to then Lookup(files, from) else if q == from then None else Lookup(files, q)
  {
  }

  // The files once the temporary files are gone, and the targets if they had been cleared.
  function Swept(files: map<string, Content>, p: Paths, cleared: bool): map<string, Content> {
    var f := files - {p.tmpDisk} - {p.tmpMeta};
    if cleared then f - {p.disk} - {p.meta} else f
  }

  lemma SweptLookup(files: map<string, Content>, p: Paths, cleared: bool, q: string)
    ensures Lookup(Swept(files, p, cleared), q)
         == if q == p.tmpDisk || q == p.tmpMeta || (cleared && (q == p.disk || q == p.meta)) then None
            else Lookup(files, q)
  {
  }

  // The whole rollback on the map of files.
  function RolledBack(files: map<string, Content>, p: Paths, backedDisk: bool, backedMeta: bool, cleared: bool):
      map<string, Content> {
    var f := Swept(files, p, cleared);
    var g := if backedDisk then Renamed(f, p.backupDisk, p.disk) else f;
    if backedMeta then Renamed(g, p.backupMeta, p.meta) else g
  }

  lemma RolledBackLookup(files: map<string, Content>, p: Paths, backedDisk: bool, backedMeta: bool, cleared: bool,
      q: string)
    requires Distinct(p) && (backedDisk ==> p.backupDisk in files) && (backedMeta ==> p.backupMeta in files)
    ensures Lookup(RolledBack(files, p, backedDisk, backedMeta, cleared), q)
         == if backedDisk && q == p.disk then Lookup(files, p.backupDisk)
            else if backedMeta && q == p.meta then Lookup(files, p.backupMeta)
            else if (backedDisk && q == p.backupDisk) || (backedMeta && q == p.backupMeta) then None
            else Lookup(Swept(files, p, cleared), q)
  {
    hide Renamed, Swept;
    var f := Swept(files, p, cleared);
    SweptLookup(files, p, cleared, p.backupDisk);
    SweptLookup(files, p, cleared, p.backupMeta);
    if backedDisk {
      RenamedLookup(f, p.backupDisk, p.disk, q);
      RenamedLookup(f, p.backupDisk, p.disk, p.backupMeta);
    }
    if backedMeta {
      RenamedLookup(if backedDisk then Renamed(f, p.backupDisk, p.disk) else f, p.backupMeta, p.meta, q);
    }
  }

  // What the rollback restores.
  lemma RollBackRestores(was: map<string, Content>, files: map<string, Content>, p: Paths, backedDisk: bool,
      backedMeta: bool, cleared: bool)
    requires Distinct(p) && Elsewhere(was, files, p)
    requires (backedDisk ==> p.disk in was) && (backedMeta ==> p.meta in was)
    requires Lookup(files, p.backupDisk) == if backedDisk then Lookup(was, p.disk) else None
    requires Lookup(files, p.backupMeta) == if backedMeta then Lookup(was, p.meta) else None
    requires !cleared ==> InBackups(was, files, p, backedDisk, backedMeta)
    ensures var now := RolledBack(files, p, backedDisk, backedMeta, cleared);
      && Tidy(was, now, p)
      && Lookup(now, p.disk) == (if cleared && !backedDisk then None else Lookup(was, p.disk))
      && Lookup(now, p.meta) == (if cleared && !backedMeta then None else Lookup(was, p.meta))
  {
    hide RolledBack, Swept;
    forall q ensures Lookup(RolledBack(files, p, backedDisk, backedMeta, cleared), q)
         == if backedDisk && q == p.disk then Lookup(files, p.backupDisk)
            else if backedMeta && q == p.meta then Lookup(files, p.backupMeta)
            else if (backedDisk && q == p.backupDisk) || (backedMeta && q == p.backupMeta) then None
            else if q == p.tmpDisk || q == p.tmpMeta || (cleared && (q == p.disk || q == p.meta)) then None
            else Lookup(files, q)
    {
      RolledBackLookup(files, p, backedDisk, backedMeta, cleared, q);
      SweptLookup(files, p, cleared, q);
    }
    var now := RolledBack(files, p, backedDisk, backedMeta, cleared);
    assert Lookup(now, p.tmpDisk) == Lookup(now, p.tmpMeta) == None;
    assert Lookup(now, p.backupDisk) == Lookup(now, p.backupMeta) == None;
  }

  // The catch block, from a failure before or after the targets were cleared.
  method RollBack(fs: FileSystem, p: Paths, backedDisk: bool, backedMeta: bool, cleared: bool, ghost was: map<string,
      Content>)
    requires Distinct(p) && Elsewhere(was, fs.files, p)
    requires (backedDisk ==> p.disk in was) && (backedMeta ==> p.meta in was)
    requires Lookup(fs.files, p.backupDisk) == if backedDisk then Lookup(was, p.disk) else None
    requires Lookup(fs.files, p.backupMeta) == if backedMeta then Lookup(was, p.meta) else None
    requires !cleared ==> InBackups(was, fs.files, p, backedDisk, backedMeta)
    modifies fs
    ensures Tidy(was, fs.files, p)
    ensures Lookup(fs.files, p.disk) == if cleared && !backedDisk then None else Lookup(was, p.disk)
    ensures Lookup(fs.files, p.meta) == if cleared && !backedMeta then None else Lookup(was, p.meta)
  {
    hide Lookup, Distinct, Elsewhere, Tidy, InBackups;
    RollBackRestores(was, fs.files, p, backedDisk, backedMeta, cleared);
    fs.Remove(p.tmpDisk, false);
    fs.Remove(p.tmpMeta, false);
    if cleared {
      fs.Remove(p.disk, false);
      fs.Remove(p.meta, false);
    }
    assert fs.files == Swept(old(fs.files), p, cleared);
    if backedDisk { var _ := fs.Rename(p.backupDisk, p.disk, false); }
    if backedMeta { var _ := fs.Rename(p.backupMeta, p.meta, false); }
    assert fs.files == RolledBack(old(fs.files), p, backedDisk, backedMeta, cleared);
  }

  // Whatever forward operations fail: success leaves the new pair; failure leaves exactly the old pair, or
  // its absence, unless an existing file had been taken for absent.
  method InstallPersistentDiskPair(fs: FileSystem, p: Paths, metadata: Content, failing: set<Op>, left: Option<Content>)
    returns (ok: bool)
    requires Ready(fs.files, p)
    modifies fs
    ensures ok <==> && WriteMeta !in failing && PlaceDisk !in failing && PlaceMeta !in failing
                    && (p.disk in old(fs.files) && CheckDisk !in failing ==> BackupDisk !in failing)
                    && (p.meta in old(fs.files) && CheckMeta !in failing ==> BackupMeta !in failing)
    ensures failing == {} ==> ok
    ensures ok ==> NewPair(old(fs.files), fs.files, p, metadata)
    ensures !ok ==> (OldPair(old(fs.files), fs.files, p) <==> !Lost(old(fs.files), p, failing))
    ensures !ok || failing * {CleanDisk, CleanMeta} == {} ==> Tidy(old(fs.files), fs.files, p)
  {
    ghost var was := fs.files;
    var backedDisk, backedMeta, cleared := BackUp(fs, p, metadata, failing, left);
    ok := cleared;
    if cleared { ok := Place(fs, p, failing); }
    if !ok {
      RollBack(fs, p, backedDisk, backedMeta, cleared, was);
    } else {
      assert CleanDisk in failing ==> CleanDisk in failing * {CleanDisk, CleanMeta};
      assert CleanMeta in failing ==> CleanMeta in failing * {CleanDisk, CleanMeta};
    }
  }

  // With at most one failing operation nothing is lost.
  lemma OneFailure(files: map<string, Content>, p: Paths, failing: set<Op>)
    requires |failing| <= 1
    ensures !Lost(files, p, failing)
  {
    if Lost(files, p, failing) {
      var late := if PlaceDisk in failing then PlaceDisk else PlaceMeta;
      var early := if p.disk in files && CheckDisk in failing then CheckDisk else CheckMeta;
      assert failing == {late, early} + failing;
      assert |{late, early}| == 2;
      SubsetSize({late, early}, failing);
      assert false;
    }
  }

  // Two failures can lose a file: the check takes an existing disk for absent, and then it cannot be placed.
  lemma LosingCase(files: map<string, Content>, p: Paths)
    requires p.disk in files
    ensures Lost(files, p, {CheckDisk, PlaceDisk})
  {
  }

  lemma {:induction false} SubsetSize(a: set<Op>, b: set<Op>)
    requires a <= b
    ensures |a| <= |b|
  {
    if a != {} {
      var x :| x in a;
      SubsetSize(a - {x}, b - {x});
    }
  }
}
