/**
 Important data kept in two files, each a frame of the data; a file whose digest is wrong is repaired
 from the other.
 */
module SealedPair {
  import opened Basics
  import opened BackupFiles
  import opened FramedData

  /** The object through which the files are read and written. */
  datatype Instance = Instance(data: Bytes, split: Bytes, checkSum: Bytes)

  /** Whether the system lets each file be read and written; a write that fails leaves torn content. */
  datatype DiskEnv = DiskEnv(
    loadsMain: bool, loadsBackup: bool, writesMain: bool, writesBackup: bool, torn: Bytes)

  const FINE := DiskEnv(true, true, true, true, [])

  datatype Reading = Reading(inst: Instance, files: Files, data: Bytes, ok: bool)

  function NewInstance(sha: Bytes -> Bytes, data: Bytes): Instance {
    Instance(data, FLAG, if data == [] then [] else sha(data))
  }

  predicate Verifies(sha: Bytes -> Bytes, data: Bytes, checkSum: Bytes) {
    data != [] && checkSum != [] && sha(data) == checkSum
  }

  // ---------- what the code does ----------

  function WriteToDisk(inst: Instance, f: Files, env: DiskEnv): (Files, bool) {
    var final := inst.data + inst.split + inst.checkSum;
    if inst.data == [] then (f, false)
    else if !env.writesMain then (f.(main := Some(env.torn)), false)
    else if !env.writesBackup then (Files(Some(final), Some(env.torn)), false)
    else (Files(Some(final), Some(final)), true)
  }

  function ReadFromFile(sha: Bytes -> Bytes, inst: Instance, f: Files, env: DiskEnv, isMain: bool): Reading
    decreases isMain
  {
    var content := if isMain then f.main else f.backup;
    if !Readable(content) || !(if isMain then env.loadsMain else env.loadsBackup) then
      if isMain then ReadFromFile(sha, inst, f, env, false) else Reading(inst, f, [], false)
    else
      match Unframe(content.value, inst.split)
      case None => Reading(inst.(data := content.value, split := []), f, content.value, true)
      case Some((data, checkSum)) =>
        var inst' := inst.(data := data, checkSum := checkSum);
        if !Verifies(sha, data, checkSum) then
          if isMain then ReadFromFile(sha, inst', f, env, false) else Reading(inst', f, [], false)
        else
          var (f', ok) := WriteToDisk(inst', f, env);
          Reading(inst', f', data, ok)
  }

  function ReadFromDisk(sha: Bytes -> Bytes, inst: Instance, f: Files, env: DiskEnv): Reading {
    if f.main.Some? then ReadFromFile(sha, inst, f, env, true)
    else if f.backup.None? then Reading(inst, f, [], false)
    else ReadFromFile(sha, inst, f, env, false)
  }

  /** Both files as a write of the data leaves them. */
  function Written(sha: Bytes -> Bytes, data: Bytes): Files {
    Files(Some(Frame(data, sha(data))), Some(Frame(data, sha(data))))
  }

  // ---------- what a file is worth ----------

  datatype Worth = Useless | Unframed(content: Bytes) | Good(data: Bytes)

  /** A file is useless, or it has no flag and is taken on trust, or its digest is right. */
  function WorthOf(sha: Bytes -> Bytes, content: Option<Bytes>): Worth {
    if !Readable(content) then Useless
    else
      match Unframe(content.value, FLAG)
      case None => Unframed(content.value)
      case Some((data, checkSum)) => if Verifies(sha, data, checkSum) then Good(data) else Useless
  }

  lemma GoodIsSealed(sha: Bytes -> Bytes, content: Option<Bytes>)
    requires WorthOf(sha, content).Good?
    ensures content.Some? && Sealed(sha, content.value, WorthOf(sha, content).data)
  {
  }

  /** The file that a read goes by: the main one unless it is useless. */
  function Chosen(sha: Bytes -> Bytes, f: Files): Worth {
    if WorthOf(sha, f.main).Useless? then WorthOf(sha, f.backup) else WorthOf(sha, f.main)
  }

  /**
   What a read with a new object returns: the data of the file it goes by, and then, if that is framed,
   both files hold that file's frame; an unframed file is returned unverified and nothing is repaired.
   */
  lemma ReadGoesByWorth(sha: Bytes -> Bytes, inst: Instance, f: Files)
    requires inst.split == FLAG
    ensures var r := ReadFromDisk(sha, inst, f, FINE);
            match Chosen(sha, f)
            case Useless => !r.ok && r.files == f
            case Unframed(content) => r.ok && r.files == f && r.data == content && r.inst.split == []
            case Good(data) =>
              r.ok && r.data == data && r.inst.split == FLAG &&
              r.files == Written(sha, data)
  {
    ReadBackup(sha, inst, f);
    if Readable(f.main) {
      match Unframe(f.main.value, FLAG)
      case None =>
      case Some((data, checkSum)) => ReadBackup(sha, inst.(data := data, checkSum := checkSum), f);
    }
  }

  lemma ReadBackup(sha: Bytes -> Bytes, inst: Instance, f: Files)
    requires inst.split == FLAG
    ensures var r := ReadFromFile(sha, inst, f, FINE, false);
            match WorthOf(sha, f.backup)
            case Useless => !r.ok && r.files == f
            case Unframed(content) => r.ok && r.files == f && r.data == content && r.inst.split == []
            case Good(data) =>
              r.ok && r.data == data && r.inst.split == FLAG &&
              r.files == Written(sha, data)
  {
  }

  /** In any conditions: a framed read that succeeds returns verified data and leaves both files identical. */
  lemma FramedReadIsVerified(sha: Bytes -> Bytes, inst: Instance, f: Files, env: DiskEnv)
    requires inst.split == FLAG
    ensures var r := ReadFromDisk(sha, inst, f, env);
            r.ok && r.inst.split == FLAG ==>
              && r.data != []
              && r.files == Written(sha, r.data)
              && (f.main == r.files.main || f.backup == r.files.backup)
  {
    FileReadIsVerified(sha, inst, f, env, false);
    if f.main.Some? {
      FileReadIsVerified(sha, inst, f, env, true);
    }
  }

  lemma {:induction false} FileReadIsVerified(sha: Bytes -> Bytes, inst: Instance, f: Files, env: DiskEnv, isMain: bool)
    requires inst.split == FLAG
    ensures var r := ReadFromFile(sha, inst, f, env, isMain);
            r.ok && r.inst.split == FLAG ==>
              && r.data != []
              && r.files == Written(sha, r.data)
              && (f.main == r.files.main || f.backup == r.files.backup)
    decreases isMain
  {
    if isMain {
      FileReadIsVerified(sha, inst, f, env, false);
      if Readable(f.main) && Unframe(f.main.value, FLAG).Some? {
        var (data, checkSum) := Unframe(f.main.value, FLAG).value;
        FileReadIsVerified(sha, inst.(data := data, checkSum := checkSum), f, env, false);
      }
    }
  }

  // ---------- writing, then reading ----------

  lemma WrittenIsGood(sha: Bytes -> Bytes, data: Bytes)
    requires GoodDigest(sha) && data != []
    ensures WorthOf(sha, Some(Frame(data, sha(data)))) == if Fits(data) then Good(data) else Useless
  {
    UnframeUndoesFrame(data, sha(data));
  }

  /**
   Data once written is read back although either file is lost or damaged, provided the frame fits the
   limit and a damaged main file still shows that it was framed. Then both files are whole again.
   */
  lemma EitherFileIsEnough(
    sha: Bytes -> Bytes, data: Bytes, f: Files, main: Option<Bytes>, backup: Option<Bytes>, reader: Instance)
    requires GoodDigest(sha) && data != [] && Fits(data) && reader.split == FLAG
    ensures var (g, ok) := WriteToDisk(NewInstance(sha, data), f, FINE);
            && ok
            && (WorthOf(sha, main).Useless? ==>
                  var r := ReadFromDisk(sha, reader, g.(main := main), FINE); r.ok && r.data == data && r.files == g)
            && var r := ReadFromDisk(sha, reader, g.(backup := backup), FINE); r.ok && r.data == data && r.files == g
  {
    var g := WriteToDisk(NewInstance(sha, data), f, FINE).0;
    WrittenIsGood(sha, data);
    ReadGoesByWorth(sha, reader, g.(main := main));
    ReadGoesByWorth(sha, reader, g.(backup := backup));
  }

  /** The files when a write of the data over others breaks off, in the main file or in the backup. */
  function TornMain(sha: Bytes -> Bytes, data: Bytes, f: Files, torn: Bytes): Files {
    WriteToDisk(NewInstance(sha, data), f, FINE.(writesMain := false, torn := torn)).0
  }

  function TornBackup(sha: Bytes -> Bytes, data: Bytes, f: Files, torn: Bytes): Files {
    WriteToDisk(NewInstance(sha, data), f, FINE.(writesBackup := false, torn := torn)).0
  }

  /**
   A write that breaks off, whatever it leaves: torn while writing the main file, the old data is read and
   both files hold it again exactly when what is left of the main file is useless or the old data; torn
   while writing the backup, the new data is read and both files hold it.
   */
  lemma BrokenWrite(sha: Bytes -> Bytes, before: Bytes, after: Bytes, torn: Bytes, reader: Instance)
    requires GoodDigest(sha) && before != [] && after != [] && Fits(before) && Fits(after)
    requires reader.split == FLAG
    ensures var f := Written(sha, before);
            var r := ReadFromDisk(sha, reader, TornMain(sha, after, f, torn), FINE);
            var worth := WorthOf(sha, Some(torn));
            && (r.ok && r.files == f <==> worth.Useless? || worth == Good(before))
            && (r.ok && r.files == f ==> r.data == before)
    ensures var r := ReadFromDisk(sha, reader, TornBackup(sha, after, Written(sha, before), torn), FINE);
            r.ok && r.data == after && r.files == Written(sha, after)
  {
    var f := Written(sha, before);
    WrittenIsGood(sha, before);
    WrittenIsGood(sha, after);
    ReadGoesByWorth(sha, reader, TornMain(sha, after, f, torn));
    ReadGoesByWorth(sha, reader, TornBackup(sha, after, f, torn));
  }

  lemma PrefixIsFlagFree(s: Bytes, k: nat)
    requires FlagFree(s) && k <= |s|
    ensures FlagFree(s[..k])
  {
    forall j: nat
      ensures !OccursAt(s[..k], FLAG, j)
    {
      if j + |FLAG| <= k {
        assert s[..k][j..j + |FLAG|] == s[j..j + |FLAG|];
        assert !OccursAt(s, FLAG, j);
      }
    }
  }

  /** A flag that has only begun does not make another one. */
  lemma BegunFlagIsNone(data: Bytes, i: nat)
    requires FlagFree(data) && i < |FLAG|
    ensures FlagFree(data + FLAG[..i])
  {
    var s := data + FLAG[..i];
    forall j: nat
      ensures !OccursAt(s, FLAG, j)
    {
      if j + |FLAG| <= |data| {
        assert data[j..j + |FLAG|] == s[j..j + |FLAG|];
        assert !OccursAt(data, FLAG, j);
      } else if j + |FLAG| <= |s| {
        var m := |data| - j;
        assert s[j..j + |FLAG|][m] == s[|data|] == FLAG[0];
        assert FLAG[m] != FLAG[0];
      }
    }
  }

  /** What a broken write of a frame is worth: nothing once the flag is out, and before that it passes for data. */
  lemma WorthOfPrefix(sha: Bytes -> Bytes, data: Bytes, k: nat)
    requires GoodDigest(sha) && Fits(data) && k < |data| + |FLAG| + DIGEST_LENGTH
    ensures |Frame(data, sha(data))| == |data| + |FLAG| + DIGEST_LENGTH
    ensures var torn := Frame(data, sha(data))[..k];
            && (k >= |data| + |FLAG| ==> WorthOf(sha, Some(torn)).Useless?)
            && ((k < |data| + |FLAG| && FlagFree(data)) || k == 0 ==> WorthOf(sha, Some(torn)) == Unframed(torn))
  {
    var torn := Frame(data, sha(data))[..k];
    if k >= |data| + |FLAG| {
      var part := sha(data)[..k - |data| - |FLAG|];
      assert torn == Frame(data, part);
      PrefixIsFlagFree(sha(data), |part|);
      UnframeUndoesFrame(data, part);
    } else if k == 0 {
      assert torn == [];
    } else if FlagFree(data) {
      if k <= |data| {
        assert torn == data[..k];
        PrefixIsFlagFree(data, k);
      } else {
        assert torn == data + FLAG[..k - |data|];
        BegunFlagIsNone(data, k - |data|);
      }
    }
  }

  /**
   A write that breaks off after k bytes of the main file: the old data is read and both files hold it again
   once the flag has been written; before that, for data without a flag of its own, the bytes written so
   far are read as data, unverified, although the backup is whole. A file that was only emptied gives no
   bytes and no error.
   */
  lemma TruncatedWrite(sha: Bytes -> Bytes, before: Bytes, after: Bytes, k: nat, reader: Instance)
    requires GoodDigest(sha) && before != [] && after != [] && Fits(before) && Fits(after)
    requires reader.split == FLAG && k < |Frame(after, sha(after))|
    ensures var f, torn := Written(sha, before), Frame(after, sha(after))[..k];
            var left := TornMain(sha, after, f, torn);
            var r := ReadFromDisk(sha, reader, left, FINE);
            && (k >= |after| + |FLAG| ==> r.ok && r.data == before && r.files == f)
            && ((k < |after| + |FLAG| && FlagFree(after)) || k == 0 ==> r.ok && r.data == torn && r.files == left != f)
  {
    var torn := Frame(after, sha(after))[..k];
    WorthOfPrefix(sha, after, k);
    BrokenWrite(sha, before, after, torn, reader);
    ReadGoesByWorth(sha, reader, TornMain(sha, after, Written(sha, before), torn));
  }

  /** Reading again with the same object gives the same data after a framed read, and fails after an unframed one. */
  lemma ReadingAgain(sha: Bytes -> Bytes, inst: Instance, f: Files)
    requires inst.split == FLAG
    ensures var r := ReadFromDisk(sha, inst, f, FINE);
            var again := ReadFromDisk(sha, r.inst, r.files, FINE);
            r.ok ==>
              (again.ok <==> r.inst.split == FLAG) &&
              (again.ok ==> again.data == r.data && again.files == r.files)
  {
    var r := ReadFromDisk(sha, inst, f, FINE);
    ReadGoesByWorth(sha, inst, f);
    if r.ok && r.inst.split == FLAG {
      GoodIsSealed(sha, if WorthOf(sha, f.main).Useless? then f.backup else f.main);
      ReadGoesByWorth(sha, r.inst, r.files);
    } else if r.ok {
      NothingIsFramedByNothing(sha, r.inst, r.files);
    }
  }

  /** With an empty flag every file seems to end in an empty digest, which is refused. */
  lemma NothingIsFramedByNothing(sha: Bytes -> Bytes, inst: Instance, f: Files)
    requires inst.split == []
    ensures !ReadFromDisk(sha, inst, f, FINE).ok
  {
  }

  // ---------- the object ----------

  class Disk {
    var main: Option<Bytes>
    var backup: Option<Bytes>

    ghost function Value(): Files
      reads this
    {
      Files(main, backup)
    }

    constructor (main: Option<Bytes>, backup: Option<Bytes>)
      ensures Value() == Files(main, backup)
    {
      this.main, this.backup := main, backup;
    }
  }

  class BackUpInstance {
    const sha: Bytes -> Bytes
    var data: Bytes
    var split: Bytes
    var checkSum: Bytes

    ghost function Value(): Instance
      reads this
    {
      Instance(data, split, checkSum)
    }

    constructor (sha: Bytes -> Bytes, data: Bytes)
      ensures this.sha == sha && Value() == NewInstance(sha, data)
    {
      this.sha, this.data, split := sha, data, FLAG;
      checkSum := if data == [] then [] else sha(data);
    }

    method Write(disk: Disk, env: DiskEnv) returns (ok: bool)
      modifies disk
      ensures (disk.Value(), ok) == WriteToDisk(Value(), old(disk.Value()), env)
    {
      if data == [] {
        return false;
      }
      var finalData := data + split + checkSum;
      if !env.writesMain {
        disk.main := Some(env.torn);
        return false;
      }
      disk.main := Some(finalData);
      if !env.writesBackup {
        disk.backup := Some(env.torn);
        return false;
      }
      disk.backup := Some(finalData);
      return true;
    }

    method Verify() returns (ok: bool)
      ensures ok <==> Verifies(sha, data, checkSum)
    {
      if data == [] || checkSum == [] {
        return false;
      }
      return sha(data) == checkSum;
    }

    method Read(disk: Disk, env: DiskEnv) returns (content: Bytes, ok: bool)
      modifies this, disk
      ensures Reading(Value(), disk.Value(), content, ok)
              == ReadFromDisk(sha, old(Value()), old(disk.Value()), env)
    {
      if disk.main.Some? {
        content, ok := ReadFile(disk, env, true);
      } else if disk.backup.None? {
        return [], false;
      } else {
        content, ok := ReadFile(disk, env, false);
      }
    }

    method ReadFile(disk: Disk, env: DiskEnv, isMain: bool) returns (content: Bytes, ok: bool)
      modifies this, disk
      ensures Reading(Value(), disk.Value(), content, ok)
              == ReadFromFile(sha, old(Value()), old(disk.Value()), env, isMain)
      decreases isMain
    {
      var file, loads := disk.backup, env.loadsBackup;
      if isMain {
        file, loads := disk.main, env.loadsMain;
      }
      if file.None? || |file.value| > LIMIT || !loads {
        if isMain {
          content, ok := ReadFile(disk, env, false);
          return;
        }
        return [], false;
      }
      var fullData := file.value;
      var idx := FindLast(fullData, split);
      if idx.None? {
        data, split := fullData, [];
        return fullData, true;
      }
      data, checkSum := fullData[..idx.value], fullData[idx.value + |split|..];
      var verified := Verify();
      if !verified {
        if isMain {
          content, ok := ReadFile(disk, env, false);
          return;
        }
        return [], false;
      }
      ok := Write(disk, env);
      return data, ok;
    }
  }
}
