/** Backing up and restoring a single configuration file. */
module BackupFiles {
  import opened Basics
  import opened FramedData

  /** The start of the last occurrence of sep. */
  method FindLast(s: Bytes, sep: Bytes) returns (r: Option<nat>)
    ensures r == LastIndex(s, sep)
  {
    if |sep| > |s| {
      return None;
    }
    var i := |s| - |sep| + 1;
    while i > 0
      invariant 0 <= i <= |s| - |sep| + 1
      invariant forall j: nat | i <= j :: !OccursAt(s, sep, j)
    {
      i := i - 1;
      if s[i..i + |sep|] == sep {
        assert OccursAt(s, sep, i);
        return Some(i);
      }
    }
    return None;
  }

  class BackupFile {
    const sha: Bytes -> Bytes
    const isTmp: bool
    var main: Option<Bytes>
    var backup: Option<Bytes>

    ghost function Value(): Files
      reads this
    {
      Files(main, backup)
    }

    constructor (sha: Bytes -> Bytes, isTmp: bool, main: Option<Bytes>, backup: Option<Bytes>)
      ensures this.sha == sha && this.isTmp == isTmp && Value() == Files(main, backup)
    {
      this.sha, this.isTmp, this.main, this.backup := sha, isTmp, main, backup;
    }

    method BackUp(env: Env) returns (ok: bool)
      modifies this`backup
      ensures (Value(), ok) == FramedData.BackUp(sha, isTmp, old(Value()), env)
    {
      if isTmp {
        return true;
      }
      if main.None? || !env.loads || |main.value| > LIMIT {
        return false;
      }
      var fileData := main.value;
      var checksum := sha(fileData);
      var backupBytes := fileData + FLAG + checksum;
      if !env.permits {
        return false;
      }
      if !env.writes {
        backup := Some(env.torn);
        return false;
      }
      backup := Some(backupBytes);
      return true;
    }

    method Restore(env: Env) returns (ok: bool)
      modifies this`main
      ensures (Value(), ok) == FramedData.Restore(sha, isTmp, old(Value()), env)
    {
      if isTmp || backup.None? || !env.loads || |backup.value| > LIMIT {
        return false;
      }
      var fullData := backup.value;
      var index := FindLast(fullData, FLAG);
      if index.None? {
        return false;
      }
      var fileData := fullData[..index.value];
      var recordChecksum := fullData[index.value + |FLAG|..];
      if sha(fileData) != recordChecksum || !env.permits {
        return false;
      }
      if !env.writes {
        main := Some(env.torn);
        return false;
      }
      main := Some(fileData);
      return env.resets;
    }

    /** accepts says whether the caller's start from the file succeeds. */
    method InitConfig(accepts: Option<Bytes> -> bool, env: Env) returns (ok: bool)
      modifies this
      ensures (Value(), ok) == FramedData.InitConfig(sha, isTmp, accepts, old(Value()), env)
    {
      if accepts(main) {
        var backedUp := BackUp(env);
        return true;
      }
      ok := Restore(env);
      if !ok {
        return false;
      }
      return accepts(main);
    }
  }
}
