/**
 A database file as the maintenance tools see it, and what may go wrong around it:
 a step that fails, and a foreign writer that acts between two steps.
 */
module DatabaseFiles {
  import opened Bytes
  import opened TaskResults

  /** Logical content and the number of bytes its pages take; the digest of a file stands for both. */
  datatype Image = Image(db: Db, bytes: nat)

  datatype FileState = FileState(size: nat, mtime: nat, digest: Image)

  datatype Window = BeforeLock | BeforeBackup | AfterBackup | BeforeBegin | AfterWrite | BeforeRestore

  datatype Stage = LockStage | BackupStage | CommitStage | ReplaceStage | CheckStage | RestoreStage | RestoreCheckStage

  /** What a foreign writer leaves behind; its write always raises the modification time. */
  datatype Move = Move(image: Image, wal: nat, later: nat)

  datatype Script = Script(faults: set<Stage>, moves: map<Window, Move>)

  ghost predicate ValidScript(script: Script) {
    forall w :: w in script.moves ==> ValidDb(script.moves[w].image.db)
  }

  predicate Quiet(script: Script) {
    script.moves == map[]
  }

  /** What the file holds once the foreign writer has had its turn in a window. */
  function After(script: Script, window: Window, before: Image): Image {
    if window in script.moves then script.moves[window].image else before
  }

  function WalAfter(script: Script, window: Window, before: nat): nat {
    if window in script.moves then script.moves[window].wal else before
  }

  /** The file as some foreign write left it. */
  predicate ForeignImage(script: Script, image: Image) {
    exists w :: w in script.moves && script.moves[w].image == image
  }

  class DatabaseFile {
    var image: Image
    var mtime: nat
    var wal: nat       // bytes of the write-ahead log beside the file
    var shm: nat       // bytes of the shared-memory file beside the file

    constructor (image: Image, mtime: nat)
      ensures this.image == image && this.mtime == mtime && wal == shm == 0
    {
      this.image, this.mtime, wal, shm := image, mtime, 0, 0;
    }

    /** Refuses to describe a file whose write-ahead log still holds pages. */
    function State(): (state: Option<FileState>)
      reads this
    {
      if wal != 0 then None else Some(FileState(image.bytes, mtime, image))
    }

    method Replace(image: Image)
      modifies this
      ensures this.image == image && mtime > old(mtime) && wal == shm == 0
    {
      this.image, mtime, wal, shm := image, mtime + 1, 0, 0;
    }

    /**
     Puts a candidate in the file's place.  A write-ahead log that still holds pages
     stops it; an inactive log and the shared-memory file are removed before the rename,
     which may fail in turn.
     */
    method Switch(script: Script, candidate: Image) returns (ok: bool)
      modifies this
      ensures ok <==> old(wal) == 0 && ReplaceStage !in script.faults
      ensures ok ==> image == candidate && mtime > old(mtime) && wal == shm == 0
      ensures !ok ==>
                image == old(image) && mtime == old(mtime) && wal == old(wal) && shm == (if wal == 0 then 0 else old(shm))
    {
      if wal != 0 {
        return false;
      }
      shm := 0;
      if ReplaceStage in script.faults {
        return false;
      }
      Replace(candidate);
      return true;
    }

    /**
     Writes a backup over the file.  Its binding to the plan or its copying may fail, and
     then nothing is written; the check that follows may fail as well.
     */
    method Restore(script: Script, backup: Image) returns (ok: bool)
      modifies this
      ensures ok <==> RestoreStage !in script.faults && RestoreCheckStage !in script.faults
      ensures RestoreStage in script.faults ==>
                image == old(image) && mtime == old(mtime) && wal == old(wal) && shm == old(shm)
      ensures RestoreStage !in script.faults ==>
                image == backup && mtime > old(mtime) && wal == shm == 0
    {
      if RestoreStage in script.faults {
        return false;
      }
      Replace(backup);
      ok := RestoreCheckStage !in script.faults;
    }

    /** The foreign writer's turn. */
    method Turn(script: Script, window: Window)
      requires ValidDb(image.db) && ValidScript(script)
      modifies this
      ensures ValidDb(image.db)
      ensures image == After(script, window, old(image)) && wal == WalAfter(script, window, old(wal)) && shm == old(shm)
      ensures if window in script.moves then mtime > old(mtime) else mtime == old(mtime)
    {
      if window in script.moves {
        var move := script.moves[window];
        image, wal, mtime := move.image, move.wal, mtime + 1 + move.later;
      }
    }
  }
}
