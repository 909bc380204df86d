/**
 Data kept in a file together with its checksum: the data, a flag, and the digest of the data. The
 frame is split at the last flag in the file.
 */
module FramedData {
  import opened Basics

  /** The flag; its first byte is a newline and no other byte is. */
  const FLAG: Bytes := [10, 60, 47, 61, 45, 45, 42, 94, 94, 124, 124, 94, 94, 45, 45, 42, 61, 47, 62]

  const DIGEST_LENGTH := 32

  predicate OccursAt(s: Bytes, sep: Bytes, i: nat) {
    i + |sep| <= |s| && s[i..i + |sep|] == sep
  }

  /** The start of the last occurrence of sep; an empty sep occurs last at the very end. */
  function LastIndex(s: Bytes, sep: Bytes): (r: Option<nat>)
    ensures r.Some? ==> OccursAt(s, sep, r.value) && forall j: nat | OccursAt(s, sep, j) :: j <= r.value
    ensures r.None? ==> forall j: nat :: !OccursAt(s, sep, j)
  {
    LastIndexBelow(s, sep, |s| + 1)
  }

  function LastIndexBelow(s: Bytes, sep: Bytes, n: nat): (r: Option<nat>)
    ensures r.Some? ==> r.value < n && OccursAt(s, sep, r.value)
    ensures r.Some? ==> forall j: nat | j < n && OccursAt(s, sep, j) :: j <= r.value
    ensures r.None? ==> forall j: nat | j < n :: !OccursAt(s, sep, j)
  {
    if n == 0 then None
    else if OccursAt(s, sep, n - 1) then Some(n - 1)
    else LastIndexBelow(s, sep, n - 1)
  }

  predicate FlagFree(s: Bytes) {
    LastIndex(s, FLAG).None?
  }

  function Frame(data: Bytes, digest: Bytes): Bytes {
    data + FLAG + digest
  }

  lemma StartsWithFirst(s: Bytes, sep: Bytes, j: nat)
    requires sep != []
    ensures OccursAt(s, sep, j) ==> s[j] == sep[0]
  {
    if OccursAt(s, sep, j) {
      assert s[j..j + |sep|][0] == s[j];
    }
  }

  /** The flag cannot start inside itself, so framing is undone even for data that holds the flag. */
  lemma FrameSplits(data: Bytes, digest: Bytes)
    requires FlagFree(digest)
    ensures LastIndex(Frame(data, digest), FLAG) == Some(|data|)
  {
    var s := Frame(data, digest);
    assert s[|data|..|data| + |FLAG|] == FLAG;
    assert OccursAt(s, FLAG, |data|);
    forall j: nat | j > |data|
      ensures !OccursAt(s, FLAG, j)
    {
      if j < |data| + |FLAG| {
        assert s[j] == FLAG[j - |data|];
        StartsWithFirst(s, FLAG, j);
      } else if j + |FLAG| <= |s| {
        var k: nat := j - |data| - |FLAG|;
        assert digest[k..k + |FLAG|] == s[j..j + |FLAG|];
        assert !OccursAt(digest, FLAG, k);
      }
    }
  }

  /** What a framed file tells: its data and its digest. */
  function Unframe(s: Bytes, flag: Bytes): (r: Option<(Bytes, Bytes)>)
    ensures r.Some? ==> s == r.value.0 + flag + r.value.1
  {
    match LastIndex(s, flag)
    case None => None
    case Some(i) =>
      assert s == s[..i] + s[i..i + |flag|] + s[i + |flag|..];
      Some((s[..i], s[i + |flag|..]))
  }

  lemma UnframeUndoesFrame(data: Bytes, digest: Bytes)
    requires FlagFree(digest)
    ensures Unframe(Frame(data, digest), FLAG) == Some((data, digest))
  {
    FrameSplits(data, digest);
  }

  // ---------- reading files ----------

  const LIMIT := 10 * 1024 * 1024

  /** A larger file is not read at all. */
  predicate Readable(content: Option<Bytes>) {
    content.Some? && |content.value| <= LIMIT
  }

  /** A digest of fixed length in which the flag does not occur. */
  ghost predicate GoodDigest(sha: Bytes -> Bytes) {
    forall d :: |sha(d)| == DIGEST_LENGTH && FlagFree(sha(d))
  }

  predicate Fits(data: Bytes) {
    |data| + |FLAG| + DIGEST_LENGTH <= LIMIT
  }

  /** A file whose content is a frame with the right digest. */
  predicate Sealed(sha: Bytes -> Bytes, content: Bytes, data: Bytes) {
    content == Frame(data, sha(data))
  }

  /** The data of a file that has a frame with the right digest. */
  function Checked(sha: Bytes -> Bytes, content: Option<Bytes>): (r: Option<Bytes>)
    ensures r.Some? ==> content.Some? && Sealed(sha, content.value, r.value)
  {
    if !Readable(content) then None
    else
      match Unframe(content.value, FLAG)
      case None => None
      case Some((data, digest)) => if sha(data) == digest then Some(data) else None
  }

  /** A sealed file gives its data back exactly when the whole frame is within the limit. */
  lemma SealedIsReadWhenItFits(sha: Bytes -> Bytes, data: Bytes)
    requires GoodDigest(sha)
    ensures Checked(sha, Some(Frame(data, sha(data)))) == if Fits(data) then Some(data) else None
  {
    UnframeUndoesFrame(data, sha(data));
  }

  // ---------- one file and its backup ----------

  /** A configuration file and its backup beside it. */
  datatype Files = Files(main: Option<Bytes>, backup: Option<Bytes>)

  /** What the system does: whether files can be read, made writable, written and reset; a failing write leaves torn. */
  datatype Env = Env(loads: bool, permits: bool, writes: bool, torn: Bytes, resets: bool)

  const WORKING := Env(true, true, true, [], true)

  function BackUp(sha: Bytes -> Bytes, isTmp: bool, f: Files, env: Env): (Files, bool) {
    if isTmp then (f, true)
    else if !Readable(f.main) || !env.loads || !env.permits then (f, false)
    else
      var frame := Frame(f.main.value, sha(f.main.value));
      (f.(backup := Some(if env.writes then frame else env.torn)), env.writes)
  }

  function Restore(sha: Bytes -> Bytes, isTmp: bool, f: Files, env: Env): (Files, bool) {
    if isTmp || !env.loads then (f, false)
    else
      match Checked(sha, f.backup)
      case None => (f, false)
      case Some(data) =>
        if !env.permits then (f, false)
        else (f.(main := Some(if env.writes then data else env.torn)), env.writes && env.resets)
  }

  /**
   A restore brings back what was backed up, whatever became of the file, exactly when the whole frame
   is within the limit. A file a few bytes below the limit is backed up but cannot be restored.
   */
  lemma RestoreUndoesBackUp(sha: Bytes -> Bytes, data: Bytes, backup: Option<Bytes>, damaged: Option<Bytes>)
    requires GoodDigest(sha)
    ensures var (f, saved) := BackUp(sha, false, Files(Some(data), backup), WORKING);
            && (saved <==> |data| <= LIMIT)
            && (saved ==> Restore(sha, false, f.(main := damaged), WORKING)
                          == if Fits(data) then (f.(main := Some(data)), true) else (f.(main := damaged), false))
  {
    SealedIsReadWhenItFits(sha, data);
  }

  /** A restore that succeeds has written data with the right digest; one that is refused has changed nothing. */
  lemma RestoreWritesCheckedData(sha: Bytes -> Bytes, isTmp: bool, f: Files, env: Env)
    ensures var (g, ok) := Restore(sha, isTmp, f, env);
            && g.backup == f.backup
            && (ok ==> f.backup.Some? && g.main.Some? && Sealed(sha, f.backup.value, g.main.value))
            && (!ok && env.writes && env.resets ==> g == f)
  {
  }

  // ---------- starting from a configuration ----------

  /** One or two tries to start from the file; a file that works is backed up, one that does not is restored. */
  function InitConfig(sha: Bytes -> Bytes, isTmp: bool, accepts: Option<Bytes> -> bool, f: Files, env: Env): (Files, bool) {
    if accepts(f.main) then (BackUp(sha, isTmp, f, env).0, true)
    else
      var (g, ok) := Restore(sha, isTmp, f, env);
      (g, ok && accepts(g.main))
  }

  /** A configuration that worked once can be started from again, whatever becomes of the file. */
  lemma InitSurvivesDamage(
    sha: Bytes -> Bytes, accepts: Option<Bytes> -> bool, data: Bytes, backup: Option<Bytes>, damaged: Option<Bytes>)
    requires GoodDigest(sha) && accepts(Some(data)) && !accepts(damaged)
    ensures var (f, ok) := InitConfig(sha, false, accepts, Files(Some(data), backup), WORKING);
            && ok
            && (|data| <= LIMIT ==>
                  InitConfig(sha, false, accepts, f.(main := damaged), WORKING)
                  == if Fits(data) then (f.(main := Some(data)), true) else (f.(main := damaged), false))
  {
    RestoreUndoesBackUp(sha, data, backup, damaged);
  }

  /** A start that succeeds leaves a file that works, and a backup is only ever replaced by the frame of such a file. */
  lemma InitKeepsWorkingFiles(sha: Bytes -> Bytes, accepts: Option<Bytes> -> bool, f: Files, env: Env)
    requires env.writes
    ensures var (g, ok) := InitConfig(sha, false, accepts, f, env);
            && (ok ==> accepts(g.main))
            && (g.backup == f.backup
                || (f.main.Some? && accepts(f.main) && g.main == f.main && Sealed(sha, g.backup.value, f.main.value)))
  {
  }
}
