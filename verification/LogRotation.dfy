/**
 Rotating log files: the file being written and its backups, each named by the time of its rotation.
 */
module LogRotation {
  import opened Basics

  type Stamp = nat    // milliseconds since 1970; the precision of a backup's name

  // ---------- what is on disk, oldest first ----------

  ghost predicate IsOldest(stamps: set<Stamp>, k: Stamp) {
    k in stamps && forall l | l in stamps :: k <= l
  }

  ghost predicate IsNewest(stamps: set<Stamp>, k: Stamp) {
    k in stamps && forall l | l in stamps :: l <= k
  }

  lemma {:induction false} HasEnds(stamps: set<Stamp>)
    requires stamps != {}
    ensures (exists k :: IsOldest(stamps, k)) && exists k :: IsNewest(stamps, k)
  {
    var x :| x in stamps;
    var rest := stamps - {x};
    assert stamps == rest + {x};
    if rest == {} {
      assert IsOldest(stamps, x) && IsNewest(stamps, x);
    } else {
      HasEnds(rest);
      var k, l :| IsOldest(rest, k) && IsNewest(rest, l);
      assert IsOldest(stamps, if x < k then x else k);
      assert IsNewest(stamps, if x > l then x else l);
    }
  }

  ghost function Oldest(stamps: set<Stamp>): (k: Stamp)
    requires stamps != {}
    ensures IsOldest(stamps, k)
  {
    HasEnds(stamps);
    var k :| IsOldest(stamps, k);
    k
  }

  /** The bytes of the backups, from the oldest backup to the newest. */
  ghost function Contents(backups: map<Stamp, Bytes>): Bytes
    decreases |backups|
  {
    if backups == map[] then []
    else
      var k := Oldest(backups.Keys);
      assert |(backups - {k}).Keys| < |backups.Keys| by {
        assert backups.Keys == (backups - {k}).Keys + {k};
      }
      backups[k] + Contents(backups - {k})
  }

  ghost predicate IsSuffix(a: Bytes, b: Bytes) {
    |a| <= |b| && b[|b| - |a|..] == a
  }

  lemma SuffixTransitive(a: Bytes, b: Bytes, c: Bytes)
    requires IsSuffix(a, b) && IsSuffix(b, c)
    ensures IsSuffix(a, c)
  {
  }

  lemma SuffixExtends(a: Bytes, b: Bytes, more: Bytes)
    requires IsSuffix(a, b)
    ensures IsSuffix(a + more, b + more)
  {
  }

  /** A backup newer than all others comes last. */
  lemma {:induction false} NewestComesLast(backups: map<Stamp, Bytes>, k: Stamp, d: Bytes)
    requires forall l | l in backups :: l < k
    ensures Contents(backups[k := d]) == Contents(backups) + d
    decreases |backups|
  {
    var more := backups[k := d];
    if backups == map[] {
      assert more.Keys == {k} && more - {k} == map[];
    } else {
      var o := Oldest(backups.Keys);
      assert o in more && Oldest(more.Keys) == o;
      assert more - {o} == (backups - {o})[k := d];
      assert |(backups - {o}).Keys| < |backups.Keys| by {
        assert backups.Keys == (backups - {o}).Keys + {o};
      }
      NewestComesLast(backups - {o}, k, d);
    }
  }

  /** Every backup outside the set is newer than every backup in it. */
  ghost predicate OlderThanRest(gone: set<Stamp>, stamps: set<Stamp>) {
    forall k, l | k in gone && l in stamps && l !in gone :: k < l
  }

  /** Deleting the oldest backups leaves a suffix. */
  lemma {:induction false} DroppingOldestLeavesSuffix(backups: map<Stamp, Bytes>, gone: set<Stamp>)
    requires gone <= backups.Keys && OlderThanRest(gone, backups.Keys)
    ensures IsSuffix(Contents(backups - gone), Contents(backups))
    decreases |backups|
  {
    if gone == {} {
      assert backups - gone == backups;
    } else {
      var o := Oldest(backups.Keys);
      assert o in gone;
      assert |(backups - {o}).Keys| < |backups.Keys| by {
        assert backups.Keys == (backups - {o}).Keys + {o};
      }
      DroppingOldestLeavesSuffix(backups - {o}, gone - {o});
      assert (backups - {o}) - (gone - {o}) == backups - gone;
      SuffixTransitive(Contents(backups - gone), Contents(backups - {o}), Contents(backups));
    }
  }

  // ---------- when the log stays gapless ----------

  /** What becomes of the log file: nothing, a copy beside it, or it is moved away. */
  datatype Change = Nothing | Copied | Moved

  /** The backups once some are gone and the file's bytes are, or are not, stored under the name now. */
  ghost function Remaining(
    change: Change, backups: map<Stamp, Bytes>, gone: set<Stamp>, now: Stamp, file: Bytes): map<Stamp, Bytes>
  {
    if change == Nothing then backups - gone else (backups - gone)[now := file]
  }

  ghost function Leaves(
    change: Change, backups: map<Stamp, Bytes>, gone: set<Stamp>, now: Stamp, file: Bytes): Bytes
  {
    Contents(Remaining(change, backups, gone, now, file)) + if change == Moved then [] else file
  }

  /** Whatever backups of these names and the file contain, what is left is the end of it. */
  ghost predicate KeepsSuffix(change: Change, names: set<Stamp>, gone: set<Stamp>, now: Stamp) {
    forall backups: map<Stamp, Bytes>, file: Bytes | backups.Keys == names ::
      IsSuffix(Leaves(change, backups, gone, now, file), Contents(backups) + file)
  }

  /** The backups that stay are the newest; a file moves to a later name than theirs, or there are none. */
  ghost predicate InOrder(change: Change, names: set<Stamp>, gone: set<Stamp>, now: Stamp) {
    match change
    case Nothing => OlderThanRest(gone * names, names)
    case Copied => false
    case Moved =>
      || names <= gone + {now}
      || (now !in names && OlderThanRest(gone * names, names) && forall k | k in names - gone :: k < now)
  }

  function At(backups: map<Stamp, Bytes>, k: Stamp): Bytes {
    if k in backups then backups[k] else []
  }

  lemma {:induction false} TwoEntries(backups: map<Stamp, Bytes>, k: Stamp, l: Stamp)
    requires k < l && forall x | x in backups && x != k && x != l :: backups[x] == []
    ensures Contents(backups) == At(backups, k) + At(backups, l)
    decreases |backups|
  {
    if backups != map[] {
      var o := Oldest(backups.Keys);
      assert |(backups - {o}).Keys| < |backups.Keys| by {
        assert backups.Keys == (backups - {o}).Keys + {o};
      }
      var rest := backups - {o};
      TwoEntries(rest, k, l);
      assert Contents(backups) == backups[o] + Contents(rest);
      if o == k {
        assert At(rest, k) == [] && At(rest, l) == At(backups, l);
      } else if o == l {
        assert At(backups, k) == [] && At(rest, k) == [] && At(rest, l) == [];
      } else {
        assert backups[o] == [] && At(rest, k) == At(backups, k) && At(rest, l) == At(backups, l);
      }
    }
  }

  ghost function TwoFilled(names: set<Stamp>, k: Stamp, b: Byte, l: Stamp, c: Byte): map<Stamp, Bytes> {
    map x | x in names :: if x == k then [b] else if x == l then [c] else []
  }

  /** A backup goes, or is replaced, and an older one stays. */
  lemma GapShows(change: Change, names: set<Stamp>, gone: set<Stamp>, now: Stamp, k: Stamp, l: Stamp)
    requires l in names - gone && k in names && l < k
    requires if change == Nothing then k in gone else change == Moved && k in gone + {now} && l < now
    ensures !KeepsSuffix(change, names, gone, now)
  {
    var backups := TwoFilled(names, l, 1, k, 2);
    var left := Remaining(change, backups, gone, now, [3]);
    TwoEntries(backups, l, k);
    TwoEntries(left, l, if change == Nothing then k else now);
    assert Leaves(change, backups, gone, now, [3]) == [1, 3];
    assert (Contents(backups) + [3])[1..] == [2, 3];
  }

  /** The file moves to a name before one that stays. */
  lemma DisorderShows(names: set<Stamp>, gone: set<Stamp>, now: Stamp, k: Stamp)
    requires k in names - gone && now < k
    ensures !KeepsSuffix(Moved, names, gone, now)
  {
    var backups := TwoFilled(names, k, 1, k, 1);
    TwoEntries(backups, now, k);
    TwoEntries(Remaining(Moved, backups, gone, now, [3]), now, k);
    assert Leaves(Moved, backups, gone, now, [3]) == [3, 1];
    assert (Contents(backups) + [3])[0..] == [1, 3];
  }

  /** The bytes are there twice. */
  lemma CopyShows(names: set<Stamp>, gone: set<Stamp>, now: Stamp)
    ensures !KeepsSuffix(Copied, names, gone, now)
  {
    var backups := TwoFilled(names, now, 1, now + 1, 1);
    backups := map x | x in names :: [];
    TwoEntries(backups, now, now + 1);
    TwoEntries(Remaining(Copied, backups, gone, now, [3]), now, now + 1);
    assert |Leaves(Copied, backups, gone, now, [3])| == 2 && |Contents(backups) + [3]| == 1;
  }

  lemma InOrderKeepsSuffix(
    change: Change, backups: map<Stamp, Bytes>, gone: set<Stamp>, now: Stamp, file: Bytes)
    requires InOrder(change, backups.Keys, gone, now)
    ensures IsSuffix(Leaves(change, backups, gone, now, file), Contents(backups) + file)
  {
    match change
    case Nothing => DeletingOldestKeepsEnd(backups, gone, file);
    case Moved =>
      MovingKeepsEnd(backups, gone, now, file);
      assert Leaves(change, backups, gone, now, file) == Contents((backups - gone)[now := file]);
    case Copied =>
  }

  lemma MovingKeepsEnd(backups: map<Stamp, Bytes>, gone: set<Stamp>, now: Stamp, file: Bytes)
    requires InOrder(Moved, backups.Keys, gone, now)
    ensures IsSuffix(Contents((backups - gone)[now := file]), Contents(backups) + file)
  {
    if backups.Keys <= gone + {now} {
      assert (backups - gone)[now := file] == map[][now := file];
      NewestComesLast(map[], now, file);
    } else {
      DeletingOldestKeepsEnd(backups, gone, file);
      NewestComesLast(backups - gone, now, file);
    }
  }

  lemma DeletingOldestKeepsEnd(backups: map<Stamp, Bytes>, gone: set<Stamp>, file: Bytes)
    requires OlderThanRest(gone * backups.Keys, backups.Keys)
    ensures IsSuffix(Contents(backups - gone) + file, Contents(backups) + file)
  {
    assert backups - gone == backups - gone * backups.Keys;
    DroppingOldestLeavesSuffix(backups, gone * backups.Keys);
    SuffixExtends(Contents(backups - gone), Contents(backups), file);
  }

  /**
   Deleting backups and moving the file keep the log gapless whatever it contains exactly when the backups
   that stay are the newest and the file moves to a later name than theirs, or none stays; a copy whose
   source stays never does.
   */
  lemma SuffixExactly(change: Change, names: set<Stamp>, gone: set<Stamp>, now: Stamp)
    ensures KeepsSuffix(change, names, gone, now) <==> InOrder(change, names, gone, now)
  {
    if InOrder(change, names, gone, now) {
      forall backups: map<Stamp, Bytes>, file: Bytes | backups.Keys == names
        ensures IsSuffix(Leaves(change, backups, gone, now, file), Contents(backups) + file)
      {
        InOrderKeepsSuffix(change, backups, gone, now, file);
      }
    } else if change == Copied {
      CopyShows(names, gone, now);
    } else if change == Moved && exists k :: k in names - gone && now < k {
      var k :| k in names - gone && now < k;
      DisorderShows(names, gone, now, k);
    } else if change == Moved && now in names {
      var l :| l in names && l !in gone + {now};
      GapShows(change, names, gone, now, now, l);
    } else {
      var k, l :| k in gone * names && l in names && l !in gone * names && l <= k;
      GapShows(change, names, gone, now, k, l);
    }
  }

  // ---------- which backups a purge keeps ----------

  const ONE_DAY_SECONDS := 24 * 60 * 60

  predicate Expired(saveTime: int, k: Stamp, now: Stamp) {
    saveTime > 0 && k / 1000 <= now / 1000 - saveTime * ONE_DAY_SECONDS
  }

  predicate ParamsInRange(saveVolume: int, saveTime: int) {
    (saveVolume != 0 ==> 1 <= saveVolume <= 30) && (saveTime != 0 ==> 7 <= saveTime <= 700)
  }

  /** The limits that a purge takes: up to thirty backups, and one to a hundred weeks; zero means none. */
  lemma LimitsTaken(saveVolume: int, saveTime: int)
    ensures ParamsInRange(saveVolume, saveTime) <==> 0 <= saveVolume <= 30 && (saveTime == 0 || 7 <= saveTime <= 700)
  {
  }

  ghost function UnexpiredNewer(stamps: set<Stamp>, saveTime: int, k: Stamp, now: Stamp): set<Stamp> {
    set l | l in stamps && l > k && !Expired(saveTime, l, now)
  }

  /** The unexpired backups with fewer than saveVolume newer ones; zero means no limit. */
  ghost predicate Kept(stamps: set<Stamp>, saveVolume: int, saveTime: int, k: Stamp, now: Stamp) {
    && k in stamps
    && !Expired(saveTime, k, now)
    && (saveVolume > 0 ==> |UnexpiredNewer(stamps, saveTime, k, now)| < saveVolume)
  }

  ghost function Purged(stamps: set<Stamp>, saveVolume: int, saveTime: int, now: Stamp): set<Stamp> {
    set k | k in stamps && !Kept(stamps, saveVolume, saveTime, k, now)
  }

  /** A purge takes only backups older than those it keeps. */
  lemma PurgeTakesOldest(stamps: set<Stamp>, saveVolume: int, saveTime: int, now: Stamp)
    ensures OlderThanRest(Purged(stamps, saveVolume, saveTime, now), stamps)
  {
    var gone := Purged(stamps, saveVolume, saveTime, now);
    forall k, l | k in gone && l in stamps && l !in gone
      ensures k < l
    {
      if l <= k {
        SubsetSize(UnexpiredNewer(stamps, saveTime, k, now), UnexpiredNewer(stamps, saveTime, l, now));
      }
    }
  }

  /** A purge leaves at most saveVolume backups. */
  lemma PurgeLeavesFew(stamps: set<Stamp>, saveVolume: int, saveTime: int, now: Stamp)
    requires saveVolume > 0
    ensures |stamps - Purged(stamps, saveVolume, saveTime, now)| <= saveVolume
  {
    var kept := stamps - Purged(stamps, saveVolume, saveTime, now);
    if kept != {} {
      var o := Oldest(kept);
      assert kept - {o} <= UnexpiredNewer(stamps, saveTime, o, now);
      SubsetSize(kept - {o}, UnexpiredNewer(stamps, saveTime, o, now));
      assert kept == (kept - {o}) + {o};
    }
  }

  /** A backup expires once it is saveTime days old, in whole seconds; zero keeps it for ever. */
  lemma ExpiresWithAge(saveTime: nat, k: Stamp, now: Stamp)
    ensures Expired(saveTime, k, now) <==> saveTime > 0 && now / 1000 - k / 1000 >= saveTime * 86400
  {
  }

  /** A purge takes every expired backup, and of the others only what exceeds saveVolume. */
  lemma PurgeKeepsAllItMay(stamps: set<Stamp>, saveVolume: nat, saveTime: int, now: Stamp)
    ensures var kept := stamps - Purged(stamps, saveVolume, saveTime, now);
            var young := set k | k in stamps && !Expired(saveTime, k, now);
            && kept <= young
            && |kept| == (if saveVolume == 0 || |young| <= saveVolume then |young| else saveVolume)
  {
    var kept := stamps - Purged(stamps, saveVolume, saveTime, now);
    var young := set k | k in stamps && !Expired(saveTime, k, now);
    if saveVolume == 0 {
      assert kept == young;
    } else {
      CountKept(stamps, saveVolume, saveTime, now, young);
      assert kept == set k | k in young && |NewerIn(young, k)| < saveVolume;
    }
  }

  ghost function NewerIn(stamps: set<Stamp>, k: Stamp): set<Stamp> {
    set l | l in stamps && l > k
  }

  /** Of a set, those with fewer than n newer ones are n, or all there are. */
  lemma {:induction false} CountKept(stamps: set<Stamp>, n: nat, saveTime: int, now: Stamp, young: set<Stamp>)
    requires n > 0 && young == set k | k in stamps && !Expired(saveTime, k, now)
    ensures forall k | k in young :: UnexpiredNewer(stamps, saveTime, k, now) == NewerIn(young, k)
    ensures |set k | k in young && |NewerIn(young, k)| < n| == if |young| <= n then |young| else n
  {
    NewestCount(young, n);
  }

  lemma {:induction false} NewestCount(stamps: set<Stamp>, n: nat)
    ensures |set k | k in stamps && |NewerIn(stamps, k)| < n| == if |stamps| <= n then |stamps| else n
    decreases |stamps|
  {
    var few := set k | k in stamps && |NewerIn(stamps, k)| < n;
    if stamps == {} {
      assert few == {};
    } else {
      var o := Oldest(stamps);
      var rest := stamps - {o};
      assert stamps == rest + {o};
      NewestCount(rest, n);
      assert NewerIn(stamps, o) == rest;
      assert forall k | k in rest :: NewerIn(stamps, k) == NewerIn(rest, k);
      var fewer := set k | k in rest && |NewerIn(rest, k)| < n;
      assert few == if |rest| < n then fewer + {o} else fewer;
    }
  }

  // ---------- lists of names ----------

  lemma LastAreOldest(stamps: set<Stamp>, files: seq<Stamp>, i: nat)
    requires i <= |files| && Descending(files) && forall k :: k in files <==> k in stamps
    ensures Last(files, i) <= stamps && OlderThanRest(Last(files, i), stamps)
    ensures |Last(files, i)| == |files| - i && (i == 0 ==> Last(files, i) == stamps)
  {
    LastFacts(files, i);
    forall k | k in stamps && i == 0
      ensures k in Last(files, i)
    {
      var j :| 0 <= j < |files| && files[j] == k;
    }
  }

  /** In the list of the unexpired, newest first, a name's place says how many newer ones there are. */
  lemma PlaceCountsNewer(stamps: set<Stamp>, remaining: seq<Stamp>, saveTime: int, now: Stamp, i: nat)
    requires i < |remaining| && Descending(remaining)
    requires forall k :: k in remaining <==> k in stamps && !Expired(saveTime, k, now)
    ensures |UnexpiredNewer(stamps, saveTime, remaining[i], now)| == i
  {
    LastFacts(remaining, 0);
    LastFacts(remaining, i);
    assert UnexpiredNewer(stamps, saveTime, remaining[i], now) == Last(remaining, 0) - Last(remaining, i);
  }

  lemma SurplusIsPurged(stamps: set<Stamp>, remaining: seq<Stamp>, saveVolume: int, saveTime: int, now: Stamp)
    requires Descending(remaining) && saveVolume > 0
    requires forall k :: k in remaining <==> k in stamps && !Expired(saveTime, k, now)
    ensures forall k | k in remaining ::
              k in Purged(stamps, saveVolume, saveTime, now)
              <==> saveVolume < |remaining| && k in remaining[saveVolume..]
  {
    forall i | 0 <= i < |remaining|
      ensures remaining[i] in Purged(stamps, saveVolume, saveTime, now) <==> saveVolume <= i
    {
      PlaceCountsNewer(stamps, remaining, saveTime, now, i);
    }
    forall k | k in remaining
      ensures k in Purged(stamps, saveVolume, saveTime, now)
              <==> saveVolume < |remaining| && k in remaining[saveVolume..]
    {
      var i :| 0 <= i < |remaining| && remaining[i] == k;
      assert saveVolume <= i ==> remaining[saveVolume..][i - saveVolume] == k;
    }
  }

  predicate Descending(files: seq<Stamp>) {
    forall i, j | 0 <= i < j < |files| :: files[i] > files[j]
  }

  ghost function Last(files: seq<Stamp>, i: nat): set<Stamp> {
    set j | i <= j < |files| :: files[j]
  }

  /** The backups that are left when some are deleted and the stuck ones stay. */
  ghost function Undeleted(backups: map<Stamp, Bytes>, gone: set<Stamp>, stuck: set<Stamp>): map<Stamp, Bytes> {
    backups - (gone - stuck)
  }

  lemma DropOneMore(backups: map<Stamp, Bytes>, gone: set<Stamp>, k: Stamp, stuck: set<Stamp>)
    ensures Undeleted(backups, gone + {k}, stuck)
            == if k in stuck then Undeleted(backups, gone, stuck) else Undeleted(backups, gone, stuck) - {k}
    ensures (gone + {k}) * stuck == {} <==> gone * stuck == {} && k !in stuck
  {
    assert (gone + {k}) - stuck == if k in stuck then gone - stuck else (gone - stuck) + {k};
    assert (gone + {k}) * stuck == if k in stuck then gone * stuck + {k} else gone * stuck;
  }

  /** The names from i on, in a list that starts with the newest. */
  lemma {:induction false} LastFacts(files: seq<Stamp>, i: nat)
    requires i <= |files| && Descending(files)
    ensures |Last(files, i)| == |files| - i
    ensures forall k, l | k in Last(files, i) && l in files && l !in Last(files, i) :: k < l
    decreases |files| - i
  {
    if i < |files| {
      LastFacts(files, i + 1);
      assert Last(files, i) == Last(files, i + 1) + {files[i]};
      assert files[i] !in Last(files, i + 1);
    }
  }

  // ---------- the log ----------

  const MBYTE := 1024 * 1024
  const DEFAULT_CAPACITY := 20
  const MAX_CAPACITY := 400

  /** What the operating system may refuse during one call. */
  datatype Fault =
    | Switched      // rotation is disabled because the user was switched
    | StatFile | StatOpenFile | ListBackups | Sync | CloseFile | MakeDir | Move | RemoveSource | ChangeMode
    | OpenOld | OpenNew

  /** What one call meets: the time, the refusals, whether the i-th look finds space, and backups that stay. */
  datatype Env = Env(now: Stamp, fails: set<Fault>, enough: nat -> bool, stuck: set<Stamp>)

  lemma StaysGapless(
    change: Change, backups: map<Stamp, Bytes>, gone: set<Stamp>, now: Stamp, file: Bytes, written: Bytes)
    ensures InOrder(change, backups.Keys, gone, now) && IsSuffix(Contents(backups) + file, written) ==>
              IsSuffix(Leaves(change, backups, gone, now, file), written)
  {
    if InOrder(change, backups.Keys, gone, now) && IsSuffix(Contents(backups) + file, written) {
      InOrderKeepsSuffix(change, backups, gone, now, file);
      SuffixTransitive(Leaves(change, backups, gone, now, file), Contents(backups) + file, written);
    }
  }

  class Logs {
    const capacity: int
    const saveVolume: int
    const saveTime: int
    const inPlace: bool             // no backup directory of its own: backups are renamed files
    var open: bool
    var length: int
    var current: Option<Bytes>      // the log file, if there is one
    var backups: map<Stamp, Bytes>
    ghost var written: Bytes        // every byte ever put into the log file

    ghost predicate Valid()
      reads this
    {
      open ==> current.Some?
    }

    function File(): Bytes
      reads this
    {
      if current.Some? then current.value else []
    }

    ghost function OnDisk(): Bytes
      reads this
    {
      Contents(backups) + File()
    }

    /** No byte is missing but the oldest: the files are a suffix of all that was written. */
    ghost predicate NoGaps()
      reads this
    {
      IsSuffix(OnDisk(), written)
    }

    // What the calls below do, seen from the state they start in.

    predicate Closes(env: Env)
      reads this
    {
      open ==> Sync !in env.fails && CloseFile !in env.fails
    }

    /** What becomes of the log file when it should become a backup beside backups of these names. */
    function Backing(names: set<Stamp>, env: Env): Change
      reads this
    {
      if current.None? || Move in env.fails || (!inPlace && env.now in names) then Nothing
      else if !inPlace && RemoveSource in env.fails then Copied
      else Moved
    }

    predicate Creates(names: set<Stamp>, env: Env)
      reads this
    {
      && MakeDir !in env.fails && OpenNew !in env.fails
      && (current.Some? ==> Backing(names, env) == Moved && ChangeMode !in env.fails)
    }

    predicate Looks(env: Env)
      reads this
    {
      current.Some? && StatFile !in env.fails && ListBackups !in env.fails
    }

    /** A rotation gets as far as creating a file, having tried to delete some backups. */
    ghost predicate MakesSpace(tried: set<Stamp>, env: Env)
      reads this
    {
      Switched !in env.fails && Closes(env) && Looks(env) && env.enough(|tried|)
    }

    ghost predicate Rotates(tried: set<Stamp>, env: Env)
      reads this
    {
      MakesSpace(tried, env) && Creates(backups.Keys - (tried - env.stuck), env)
    }

    /** The log file takes that many more bytes as it is; a file not yet open is not filled to the brim. */
    predicate Fits(writeLen: nat, env: Env)
      reads this
    {
      && current.Some?
      && if open then writeLen + |current.value| <= MaxLenth()
         else writeLen + |current.value| < MaxLenth() && OpenOld !in env.fails
    }

    /** A log file that is not open can be opened, or another one made. */
    ghost predicate Opens(writeLen: nat, tried: set<Stamp>, env: Env)
      reads this
    {
      && Switched !in env.fails && StatFile !in env.fails
      && (|| Fits(writeLen, env)
          || if writeLen + |File()| >= MaxLenth() && current.Some? then Rotates(tried, env)
             else Creates(backups.Keys, env))
    }

    constructor (capacity: int, saveVolume: int, saveTime: int, inPlace: bool,
                 current: Option<Bytes>, backups: map<Stamp, Bytes>)
      ensures Valid() && NoGaps() && !open
      ensures this.current == current && this.backups == backups
      ensures this.capacity == capacity && this.saveVolume == saveVolume
      ensures this.saveTime == saveTime && this.inPlace == inPlace && written == OnDisk()
    {
      this.capacity, this.saveVolume, this.saveTime, this.inPlace := capacity, saveVolume, saveTime, inPlace;
      this.open, this.length, this.current, this.backups := false, 0, current, backups;
      this.written := Contents(backups) + if current.Some? then current.value else [];
    }

    function MaxLenth(): (m: int)
      ensures MBYTE <= m < MAX_CAPACITY * MBYTE
      ensures 1 <= capacity <= 399 ==> m == capacity * 1048576
      ensures capacity < 1 || 399 < capacity ==> m == 20 * 1048576
    {
      if 0 < capacity < MAX_CAPACITY then capacity * MBYTE else DEFAULT_CAPACITY * MBYTE
    }

    /** The newest of some names. */
    static method Newest(stamps: set<Stamp>) returns (k: Stamp)
      requires stamps != {}
      ensures IsNewest(stamps, k)
    {
      var rest := stamps;
      k :| k in rest;
      rest := rest - {k};
      while rest != {}
        invariant k in stamps && rest <= stamps && forall l | l in stamps && l !in rest :: l <= k
      {
        var l :| l in rest;
        rest := rest - {l};
        if l > k {
          k := l;
        }
      }
    }

    /** The backups' names, newest first. */
    method OldFilesList() returns (files: seq<Stamp>)
      ensures Descending(files)
      ensures forall k :: k in files <==> k in backups
    {
      files := [];
      var rest := backups.Keys;
      while rest != {}
        invariant rest <= backups.Keys
        invariant Descending(files)
        invariant forall i, l | 0 <= i < |files| && l in rest :: l < files[i]
        invariant forall k :: k in files || k in rest <==> k in backups
      {
        var k := Newest(rest);
        files, rest := files + [k], rest - {k};
      }
    }

    /** Deletes one backup; a stuck one stays. */
    method Remove(k: Stamp, env: Env) returns (ok: bool)
      modifies this`backups
      ensures ok <==> k !in env.stuck
      ensures backups == if ok then old(backups) - {k} else old(backups)
    {
      ok := k !in env.stuck;
      if ok {
        backups := backups - {k};
      }
    }

    /** The oldest backups go, one by one, until there is space for one more; tried says which. */
    method MakeSureBackupSpaceAvailable(env: Env) returns (ok: bool, ghost tried: set<Stamp>)
      modifies this`backups
      ensures tried <= old(backups).Keys && OlderThanRest(tried, old(backups).Keys)
      ensures backups == Undeleted(old(backups), tried, env.stuck)
      ensures forall i: nat | i < |tried| :: !env.enough(i)
      ensures if Looks(env) then tried == old(backups).Keys || env.enough(|tried|) else tried == {}
      ensures ok <==> Looks(env) && env.enough(|tried|)
    {
      tried := {};
      if current.None? || StatFile in env.fails || ListBackups in env.fails {
        assert {} - env.stuck == {} && backups - {} == backups;
        return false, {};
      }
      ok, tried := DropOldest(env);
    }

    method DropOldest(env: Env) returns (ok: bool, ghost tried: set<Stamp>)
      modifies this`backups
      ensures tried <= old(backups).Keys && OlderThanRest(tried, old(backups).Keys)
      ensures backups == Undeleted(old(backups), tried, env.stuck)
      ensures forall i: nat | i < |tried| :: !env.enough(i)
      ensures tried == old(backups).Keys || env.enough(|tried|)
      ensures ok == env.enough(|tried|)
    {
      ghost var names := backups.Keys;
      var files := OldFilesList();
      assert forall k :: k in files <==> k in names;
      var i := DropUntilEnough(files, env);
      tried := Last(files, i);
      LastAreOldest(names, files, i);
      assert |tried| == |files| - i;
      ok := env.enough(|files| - i);
    }

    /** The loop over the list, which starts with the newest; it stops before the first i names. */
    method DropUntilEnough(files: seq<Stamp>, env: Env) returns (i: nat)
      requires Descending(files)
      modifies this`backups
      ensures i <= |files| && backups == Undeleted(old(backups), Last(files, i), env.stuck)
      ensures forall j: nat | j < |files| - i :: !env.enough(j)
      ensures i > 0 ==> env.enough(|files| - i)
    {
      i := |files|;
      while i > 0
        invariant i <= |files|
        invariant backups == Undeleted(old(backups), Last(files, i), env.stuck)
        invariant forall j: nat | j < |files| - i :: !env.enough(j)
      {
        if env.enough(|files| - i) {
          return;
        }
        i := i - 1;
        DropOneMore(old(backups), Last(files, i + 1), files[i], env.stuck);
        assert Last(files, i) == Last(files, i + 1) + {files[i]};
        var gone := Remove(files[i], env);
      }
    }

    method Close(env: Env) returns (ok: bool)
      requires Valid()
      modifies this`open
      ensures Valid() && (ok <==> old(Closes(env)))
      ensures open <==> old(open) && Sync in env.fails
    {
      if !open {
        return true;
      }
      if Sync in env.fails {
        return false;
      }
      open := false;
      ok := CloseFile !in env.fails;
    }

    /**
     Without a backup directory the file is renamed, over a backup of that name; otherwise it is copied,
     to a new one only.
     */
    method BackupFile(env: Env) returns (ok: bool)
      requires current.Some?
      modifies this`current, this`backups
      ensures ok <==> old(Backing(backups.Keys, env)) == Moved
      ensures backups == Remaining(old(Backing(backups.Keys, env)), old(backups), {}, env.now, old(File()))
      ensures current == if ok then None else old(current)
    {
      assert backups - {} == backups;
      if Move in env.fails || (!inPlace && env.now in backups) {
        return false;
      }
      backups := backups[env.now := current.value];
      if !inPlace && RemoveSource in env.fails {
        return false;
      }
      current := None;
      return true;
    }

    /** The file becomes a backup and a new one is opened. */
    method Create(env: Env) returns (ok: bool, ghost change: Change)
      requires Valid() && !open
      modifies this`open, this`length, this`current, this`backups
      ensures Valid() && open == ok && (ok <==> old(Creates(backups.Keys, env)))
      ensures change == if MakeDir in env.fails then Nothing else old(Backing(backups.Keys, env))
      ensures backups == Remaining(change, old(backups), {}, env.now, old(File()))
      ensures File() == if change == Moved then [] else old(File())
      ensures ok ==> current == Some([]) && length == 0
      ensures !ok ==> current == if change == Moved then None else old(current)
      ensures old(NoGaps()) && InOrder(change, old(backups).Keys, {}, env.now) ==> NoGaps()
    {
      change := if MakeDir in env.fails then Nothing else Backing(backups.Keys, env);
      StaysGapless(change, backups, {}, env.now, File(), written);
      assert backups - {} == backups;
      if MakeDir in env.fails {
        return false, change;
      }
      if current.Some? {
        var backedUp := BackupFile(env);
        if !backedUp || ChangeMode in env.fails {
          return false, change;
        }
      }
      if OpenNew in env.fails {
        return false, change;
      }
      open, length, current := true, 0, Some([]);
      return true, change;
    }

    /** The first half of a rotation: the file is closed, and backups go until there is space. */
    method MakeSpace(env: Env) returns (ok: bool, ghost tried: set<Stamp>)
      requires Valid()
      modifies this`open, this`backups
      ensures Valid() && (ok <==> old(MakesSpace(tried, env))) && (ok ==> !open)
      ensures tried <= old(backups).Keys && OlderThanRest(tried, old(backups).Keys)
      ensures backups == Undeleted(old(backups), tried, env.stuck)
      ensures forall i: nat | i < |tried| :: !env.enough(i)
      ensures if Switched !in env.fails && old(Closes(env) && Looks(env))
              then tried == old(backups).Keys || env.enough(|tried|) else tried == {}
    {
      tried := {};
      assert {} - env.stuck == {} && backups - {} == backups;
      if Switched in env.fails {
        return false, tried;
      }
      ok := Close(env);
      if ok {
        ok, tried := MakeSureBackupSpaceAvailable(env);
      }
    }

    method Rotate(env: Env) returns (ok: bool, ghost tried: set<Stamp>, ghost change: Change)
      requires Valid()
      modifies this`open, this`length, this`current, this`backups
      ensures Valid() && (ok <==> old(Rotates(tried, env)))
      ensures tried <= old(backups).Keys && OlderThanRest(tried, old(backups).Keys)
      ensures forall i: nat | i < |tried| :: !env.enough(i)
      ensures if Switched !in env.fails && old(Closes(env) && Looks(env))
              then tried == old(backups).Keys || env.enough(|tried|) else tried == {}
      ensures change == if old(MakesSpace(tried, env)) && MakeDir !in env.fails
                        then old(Backing(backups.Keys - (tried - env.stuck), env)) else Nothing
      ensures backups == Remaining(change, old(backups), tried - env.stuck, env.now, old(File()))
      ensures File() == if change == Moved then [] else old(File())
      ensures ok ==> open && current == Some([]) && length == 0
      ensures old(NoGaps()) && InOrder(change, old(backups).Keys, tried - env.stuck, env.now) ==> NoGaps()
    {
      ok, tried := MakeSpace(env);
      change := Nothing;
      ghost var gone := tried - env.stuck;
      if ok {
        assert backups.Keys == old(backups).Keys - gone;
        assert Backing(backups.Keys, env) == old(Backing(backups.Keys - gone, env));
        ok, change := Create(env);
        assert (old(backups) - gone) - {} == old(backups) - gone;
      }
      StaysGapless(change, old(backups), gone, env.now, old(File()), written);
    }

    /** What a write finds or makes: a file with room for writeLen more bytes. */
    method OpenOrCreateFile(writeLen: nat, env: Env) returns (ok: bool, ghost tried: set<Stamp>, ghost change: Change)
      requires Valid() && !open && writeLen <= MaxLenth()
      modifies this`open, this`length, this`current, this`backups
      ensures Valid() && (ok <==> old(Opens(writeLen, tried, env)))
      ensures tried <= old(backups).Keys && OlderThanRest(tried, old(backups).Keys)
      ensures forall i: nat | i < |tried| :: !env.enough(i)
      ensures backups == Remaining(change, old(backups), tried - env.stuck, env.now, old(File()))
      ensures File() == if change == Moved then [] else old(File())
      ensures ok ==> open && writeLen + |current.value| <= MaxLenth()
      ensures ok ==>
                if old(current.Some? && !Fits(writeLen, env)) then change == Moved else change == Nothing && tried == {}
      ensures old(NoGaps()) && InOrder(change, old(backups).Keys, tried - env.stuck, env.now) ==> NoGaps()
    {
      tried, change := {}, Nothing;
      assert {} - env.stuck == {} && backups - {} == backups;
      if Switched in env.fails || StatFile in env.fails {
        return false, tried, change;
      }
      if current.None? {
        ok, change := Create(env);
      } else if writeLen + |current.value| >= MaxLenth() {
        ok, tried, change := Rotate(env);
      } else if OpenOld in env.fails {
        ok, change := Create(env);
      } else {
        open, length := true, |current.value|;
        ok := true;
      }
    }

    /** The log file gets room for writeLen more bytes when it is open or can be opened. */
    ghost predicate HasRoom(writeLen: nat, tried: set<Stamp>, env: Env)
      reads this
    {
      if open then Fits(writeLen, env) || Rotates(tried, env) else Opens(writeLen, tried, env)
    }

    /** Opens or rotates until the log file has room for writeLen more bytes. */
    method MakeRoom(writeLen: nat, env: Env) returns (ok: bool, ghost tried: set<Stamp>, ghost change: Change)
      requires Valid() && writeLen <= MaxLenth()
      modifies this`open, this`length, this`current, this`backups
      ensures Valid() && (ok <==> StatOpenFile !in env.fails && old(HasRoom(writeLen, tried, env)))
      ensures tried <= old(backups).Keys && OlderThanRest(tried, old(backups).Keys)
      ensures forall i: nat | i < |tried| :: !env.enough(i)
      ensures backups == Remaining(change, old(backups), tried - env.stuck, env.now, old(File()))
      ensures File() == if change == Moved then [] else old(File())
      ensures ok ==> open && length == |current.value| && writeLen + length <= MaxLenth()
      ensures ok ==>
                if old(current.Some? && !Fits(writeLen, env)) then change == Moved else change == Nothing && tried == {}
      ensures old(NoGaps()) && InOrder(change, old(backups).Keys, tried - env.stuck, env.now) ==> NoGaps()
    {
      tried, change := {}, Nothing;
      assert {} - env.stuck == {} && backups - {} == backups;
      if !open {
        ok, tried, change := OpenOrCreateFile(writeLen, env);
        if !ok {
          return;
        }
      }
      if StatOpenFile in env.fails {
        return false, tried, change;
      }
      length := |current.value|;
      ok := true;
      if writeLen + length > MaxLenth() {
        ok, tried, change := Rotate(env);
      }
    }

    /** Writes d, of which the system takes the first wrote bytes; fewer than all is an error. */
    method Write(d: Bytes, wrote: nat, env: Env)
      returns (n: nat, ok: bool, ghost tried: set<Stamp>, ghost change: Change)
      requires Valid() && wrote <= |d|
      modifies this
      ensures Valid() && n == (if ok then |d| else 0)
      ensures ok <==>
              wrote == |d| <= MaxLenth() && StatOpenFile !in env.fails && old(HasRoom(|d|, tried, env))
      ensures tried <= old(backups).Keys && OlderThanRest(tried, old(backups).Keys)
      ensures forall i: nat | i < |tried| :: !env.enough(i)
      ensures backups == Remaining(change, old(backups), tried - env.stuck, env.now, old(File()))
      ensures var file := if change == Moved then [] else old(File());
              || (!ok && File() == file && written == old(written))
              || (File() == file + d[..wrote] && written == old(written) + d[..wrote])
      ensures ok ==> open && length == |current.value| <= MaxLenth()
      ensures ok ==>
                if old(current.Some? && !Fits(|d|, env)) then change == Moved else change == Nothing && tried == {}
      ensures |d| > MaxLenth() ==> unchanged(this)
      ensures old(NoGaps()) && InOrder(change, old(backups).Keys, tried - env.stuck, env.now) ==> NoGaps()
    {
      if |d| > MaxLenth() {
        assert {} - env.stuck == {} && backups - {} == backups;
        return 0, false, {}, Nothing;
      }
      n := 0;
      ok, tried, change := MakeRoom(|d|, env);
      if ok {
        Append(d[..wrote]);
        if wrote < |d| {
          return 0, false, tried, change;
        }
        length := length + wrote;
        n := wrote;
      }
    }

    method Append(d: Bytes)
      requires open && Valid()
      modifies this`current, this`written
      ensures current == Some(old(current.value) + d) && written == old(written) + d
      ensures old(NoGaps()) ==> NoGaps()
    {
      if NoGaps() {
        SuffixExtends(OnDisk(), written, d);
        assert OnDisk() + d == Contents(backups) + (current.value + d);
      }
      current, written := Some(current.value + d), written + d;
    }

    // ---------- purging ----------

    method SplitExpired(files: seq<Stamp>, now: Stamp) returns (removeFiles: seq<Stamp>, remaining: seq<Stamp>)
      requires Descending(files)
      ensures Descending(remaining)
      ensures forall k :: k in remaining <==> k in files && !Expired(saveTime, k, now)
      ensures forall k :: k in removeFiles <==> k in files && Expired(saveTime, k, now)
    {
      removeFiles, remaining := [], [];
      for i := 0 to |files|
        invariant Descending(remaining) && forall j | 0 <= j < |remaining| :: i < |files| ==> remaining[j] > files[i]
        invariant forall k :: k in remaining <==> k in files[..i] && !Expired(saveTime, k, now)
        invariant forall k :: k in removeFiles <==> k in files[..i] && Expired(saveTime, k, now)
      {
        if Expired(saveTime, files[i], now) {
          removeFiles := removeFiles + [files[i]];
        } else {
          remaining := remaining + [files[i]];
        }
      }
    }

    /** The files after the first saveVolume. */
    method Surplus(files: seq<Stamp>) returns (removeFiles: seq<Stamp>)
      requires Descending(files) && saveVolume > 0
      ensures removeFiles == if saveVolume < |files| then files[saveVolume..] else []
    {
      removeFiles := [];
      if saveVolume >= |files| {
        return;
      }
      var saved := {};
      for i := 0 to |files|
        invariant |saved| == i && forall k | k in saved :: i < |files| ==> k > files[i]
        invariant removeFiles == if saveVolume < i then files[saveVolume..i] else []
      {
        saved := saved + {files[i]};
        if saveVolume < |saved| {
          removeFiles := removeFiles + [files[i]];
        }
      }
    }

    method RemoveAll(files: seq<Stamp>, env: Env) returns (ok: bool)
      modifies this`backups
      ensures backups == Undeleted(old(backups), Elements(files), env.stuck)
      ensures ok <==> Elements(files) * env.stuck == {}
    {
      ok := true;
      for i := 0 to |files|
        invariant backups == Undeleted(old(backups), Elements(files[..i]), env.stuck)
        invariant ok <==> Elements(files[..i]) * env.stuck == {}
      {
        DropOneMore(old(backups), Elements(files[..i]), files[i], env.stuck);
        assert Elements(files[..i + 1]) == Elements(files[..i]) + {files[i]};
        var gone := Remove(files[i], env);
        ok := ok && gone;
      }
      assert files[..|files|] == files;
    }

    /** The expired backups, and of the rest all but the newest saveVolume. */
    method Outdated(now: Stamp) returns (removeFiles: seq<Stamp>)
      requires saveVolume >= 0
      ensures Elements(removeFiles) == Purged(backups.Keys, saveVolume, saveTime, now)
    {
      var files := OldFilesList();
      var remaining;
      removeFiles, remaining := SplitExpired(files, now);
      if saveVolume > 0 {
        var surplus := Surplus(remaining);
        SurplusIsPurged(backups.Keys, remaining, saveVolume, saveTime, now);
        removeFiles := removeFiles + surplus;
      }
    }

    /** One purge. */
    method RemoveRunOnce(env: Env) returns (ok: bool)
      modifies this`backups
      ensures backups == if Purges(env) then Undeleted(old(backups), ToPurge(old(backups).Keys, env.now), env.stuck)
                         else old(backups)
      ensures ok <==>
              (saveVolume == 0 && saveTime == 0)
              || (Purges(env) && ToPurge(old(backups).Keys, env.now) * env.stuck == {})
      ensures var gone := if Purges(env) then ToPurge(old(backups).Keys, env.now) - env.stuck else {};
              old(NoGaps()) && OlderThanRest(gone, old(backups).Keys) ==> NoGaps()
    {
      if saveVolume == 0 && saveTime == 0 {
        return true;
      }
      if !ParamsInRange(saveVolume, saveTime) || ListBackups in env.fails {
        return false;
      }
      var removeFiles := Outdated(env.now);
      ok := RemoveAll(removeFiles, env);
      ghost var gone := ToPurge(old(backups).Keys, env.now) - env.stuck;
      assert gone * old(backups).Keys == gone;
      StaysGapless(Nothing, old(backups), gone, env.now, File(), written);
    }

    predicate Purges(env: Env) {
      (saveVolume != 0 || saveTime != 0) && ParamsInRange(saveVolume, saveTime) && ListBackups !in env.fails
    }

    ghost function ToPurge(stamps: set<Stamp>, now: Stamp): set<Stamp> {
      Purged(stamps, saveVolume, saveTime, now)
    }
  }

  // ---------- where the log gets a gap ----------

  /** A call that meets no refusals. */
  function Fine(now: Stamp): Env {
    Env(now, {}, _ => true, {})
  }

  method PutByte(log: Logs, b: Byte, now: Stamp)
    requires log.Valid() && |log.File()| <= 1 && (log.open <==> log.current.Some?)
    modifies log
    ensures log.Valid() && log.open && log.File() == old(log.File()) + [b]
    ensures log.backups == old(log.backups) && log.written == old(log.written) + [b]
  {
    var n, ok, tried, change := log.Write([b], 1, Fine(now));
    assert [b][..1] == [b] && {} - Fine(now).stuck == {} && old(log.backups) - {} == old(log.backups);
    assert old(log.File()) + [] == old(log.File());
  }

  /** A rotation that is refused nothing, and finds space at the latest when every backup has been tried. */
  method RotateUnrefused(log: Logs, env: Env) returns (ghost tried: set<Stamp>)
    requires log.Valid() && log.open && log.inPlace && env.fails == {} && env.enough(|log.backups.Keys|)
    modifies log
    ensures tried <= old(log.backups).Keys && forall i: nat | i < |tried| :: !env.enough(i)
    ensures tried == old(log.backups).Keys || env.enough(|tried|)
    ensures log.Valid() && log.open && log.current == Some([]) && log.written == old(log.written)
    ensures log.backups == (old(log.backups) - (tried - env.stuck))[env.now := old(log.File())]
  {
    var ok;
    ghost var change;
    ok, tried, change := log.Rotate(env);
  }

  method RotateAt(log: Logs, now: Stamp)
    requires log.Valid() && log.open && log.inPlace
    modifies log
    ensures log.Valid() && log.open && log.current == Some([]) && log.written == old(log.written)
    ensures log.backups == old(log.backups)[now := old(log.File())]
  {
    ghost var tried := RotateUnrefused(log, Fine(now));
    assert Fine(now).enough(0);
    assert {} - Fine(now).stuck == {} && old(log.backups) - {} == old(log.backups);
  }

  method PutAndRotate(log: Logs, b: Byte, now: Stamp)
    requires log.Valid() && log.inPlace && log.File() == [] && (log.open <==> log.current.Some?)
    modifies log
    ensures log.Valid() && log.open && log.current == Some([])
    ensures log.backups == old(log.backups)[now := [b]] && log.written == old(log.written) + [b]
  {
    PutByte(log, b, now);
    assert [] + [b] == [b];
    RotateAt(log, now);
  }

  method EmptyLog() returns (log: Logs)
    ensures fresh(log) && log.Valid() && log.inPlace && !log.open
    ensures log.current == None && log.backups == map[] && log.written == []
  {
    log := new Logs(1, 0, 0, true, None, map[]);
    assert Contents(map[]) == [];
  }

  /** Two backups, made by two writes and two rotations, and a third byte in the file. */
  method TwoBackups() returns (log: Logs)
    ensures fresh(log) && log.Valid() && log.inPlace && log.open && log.current == Some([30])
    ensures log.backups == map[1 := [10], 2 := [20]] && log.written == [10, 20, 30]
  {
    log := EmptyLog();
    PutAndRotate(log, 10, 1);
    assert log.backups == map[1 := [10]] && log.written == [10];
    PutAndRotate(log, 20, 2);
    assert log.backups == map[1 := [10], 2 := [20]] && log.written == [10, 20];
    PutByte(log, 30, 3);
    assert [] + [30] == [30];
  }

  lemma AllTried(tried: set<Stamp>, names: set<Stamp>)
    requires tried <= names && |tried| >= |names|
    ensures tried == names
  {
    assert names == tried + (names - tried);
  }

  lemma TwoLeft(backups: map<Stamp, Bytes>, k: Stamp)
    requires backups == map[1 := [10], k := [30]] && k > 1
    ensures Contents(backups) == [10, 30] && !IsSuffix([10, 30], [10, 20, 30])
  {
    TwoEntries(backups, 1, k);
    assert [10, 20, 30][1..] == [20, 30];
  }

  /** Two rotations in one millisecond: the second backup replaces the first, and bytes in the middle are lost. */
  method SameStampLosesBytes() returns (log: Logs)
    ensures log.Valid() && log.written == [10, 20, 30] && log.OnDisk() == [10, 30] && !log.NoGaps()
  {
    log := TwoBackups();
    RotateAt(log, 2);
    TwoLeft(log.backups, 2);
  }

  method RotateShort(log: Logs)
    requires log.Valid() && log.open && log.inPlace && log.backups == map[1 := [10], 2 := [20]]
    modifies log
    ensures log.Valid() && log.written == old(log.written)
    ensures log.File() == [] && log.backups == map[1 := [10], 3 := old(log.File())]
  {
    ghost var backups := log.backups;
    assert |backups.Keys| == 2 by {
      assert backups.Keys == {1, 2};
    }
    var env := Env(3, {}, looks => looks >= 2, {1});
    ghost var tried := RotateUnrefused(log, env);
    assert !env.enough(0) && !env.enough(1);
    AllTried(tried, backups.Keys);
    OnlyOneLeaves(backups, tried);
  }

  lemma OnlyOneLeaves(backups: map<Stamp, Bytes>, tried: set<Stamp>)
    requires backups == map[1 := [10], 2 := [20]] && tried == backups.Keys
    ensures tried - {1} == {2} && backups.Keys - {2} == {1} && backups - {2} == map[1 := [10]]
  {
  }

  /** Space is short until two backups should be gone, and the older one cannot be deleted. */
  method StuckBackupLeavesGap() returns (log: Logs)
    ensures log.Valid() && log.written == [10, 20, 30] && log.OnDisk() == [10, 30] && !log.NoGaps()
  {
    log := TwoBackups();
    RotateShort(log);
    TwoLeft(log.backups, 3);
  }
}
