/**
 The history cleaner of the task scheduler, run to its end: which registry entries and which
 rows it removes. Which reads of a task tree fail, and which deletions, is given; the rest succeeds.
 */
module HistoryTrim {
  import opened Basics
  import opened TaskPhases

  /** While trimming: tasks whose tree cannot be read, be it for one of its children, and rows that stay. */
  datatype Faults = Faults(unread: set<TaskId>, undeleted: set<TaskId>)

  datatype TaskRow = TaskRow(phase: TaskPhase, parentId: TaskId, finishedAt: int)

  // ---------- what the cleaner reads ----------

  predicate IsUnfinishedMaster(row: TaskRow) {
    row.parentId == "" && (row.phase.Waiting? || row.phase.Processing? || row.phase.Aborting?)
  }

  predicate HasFinishedAsMaster(row: TaskRow) {
    row.parentId == "" && (row.phase.Succeed? || row.phase.Failed? || row.phase.PartiallyFailed?)
  }

  predicate IsFinishedMaster(rows: map<TaskId, TaskRow>, id: TaskId) {
    id in rows && rows[id].parentId == "" && IsFinished(rows[id].phase)
  }

  function FinishedMasters(rows: map<TaskId, TaskRow>): set<TaskId> {
    set id | id in rows && IsFinishedMaster(rows, id)
  }

  function Children(rows: map<TaskId, TaskRow>, id: TaskId): set<TaskId> {
    set x | x in rows && rows[x].parentId == id
  }

  /** What walking the tree of a task reaches: its children, then itself, no deeper. */
  function Tree(rows: map<TaskId, TaskRow>, id: TaskId): set<TaskId> {
    Children(rows, id) + {id}
  }

  /** The rows that deleting the tree of a task removes and counts. */
  function Deletable(rows: map<TaskId, TaskRow>, f: Faults, id: TaskId): set<TaskId> {
    if id in f.unread then {} else Tree(rows, id) - f.undeleted
  }

  /** The master whose tree the walk finds a row in, or the id itself. */
  function Root(rows: map<TaskId, TaskRow>, x: TaskId): TaskId {
    if x in rows && rows[x].parentId != "" then rows[x].parentId else x
  }

  /** The rows of the trees of the given masters that can be deleted. */
  function DeletableOf(rows: map<TaskId, TaskRow>, f: Faults, masters: set<TaskId>): set<TaskId> {
    set x | x in rows && x !in f.undeleted && Root(rows, x) in masters && Root(rows, x) !in f.unread
  }

  /** The registry entries in the readable trees of the given masters, where the master is registered. */
  function EntriesOf(rows: map<TaskId, TaskRow>, unread: set<TaskId>, active: set<TaskId>, masters: set<TaskId>)
    : set<TaskId>
  {
    set x | x in active && Root(rows, x) in masters && Root(rows, x) in active && Root(rows, x) !in unread
  }

  lemma TreeByRoot(rows: map<TaskId, TaskRow>, id: TaskId, x: TaskId)
    requires "" !in rows && IsFinishedMaster(rows, id)
    ensures x in Tree(rows, id) <==> Root(rows, x) == id
    ensures id !in Children(rows, id)
  {
  }

  /** One more registered master takes the entries of its own tree along. */
  lemma EntriesStep(
    rows: map<TaskId, TaskRow>, unread: set<TaskId>, active: set<TaskId>, masters: set<TaskId>, id: TaskId)
    requires "" !in rows && IsFinishedMaster(rows, id) && id !in masters
    ensures var before := active - EntriesOf(rows, unread, active, masters);
            && (id in before <==> id in active)
            && active - EntriesOf(rows, unread, active, masters + {id})
               == if id in active && id !in unread then before - Tree(rows, id) else before
  {
  }

  /** One more master takes the rows of its own tree along; the trees before it left that tree alone. */
  lemma DeletableStep(rows: map<TaskId, TaskRow>, f: Faults, masters: set<TaskId>, id: TaskId)
    requires "" !in rows && IsFinishedMaster(rows, id) && id !in masters
    ensures var before := rows - DeletableOf(rows, f, masters);
            && Tree(before, id) == Tree(rows, id)
            && id !in Children(before, id)
            && DeletableOf(rows, f, masters + {id})
               == DeletableOf(rows, f, masters) + Deletable(rows, f, id)
  {
  }

  lemma DeleteStep(rows: map<TaskId, TaskRow>, gone: set<TaskId>, x: TaskId)
    ensures (rows - gone) - {x} == rows - (gone + {x})
  {
  }

  lemma ElementsStep(q: seq<TaskId>, j: nat)
    requires j < |q|
    ensures Elements(q[..j + 1]) == Elements(q[..j]) + {q[j]}
    ensures Distinct(q) ==> q[j] !in Elements(q[..j])
  {
  }

  /** A listing of a set in some order, as a query returns it. */
  ghost predicate Lists(q: seq<TaskId>, ids: set<TaskId>) {
    Distinct(q) && forall id :: id in q <==> id in ids
  }

  ghost predicate OldestFirst(rows: map<TaskId, TaskRow>, q: seq<TaskId>)
    requires forall id | id in q :: id in rows
  {
    forall i, j | 0 <= i < j < |q| :: rows[q[i]].finishedAt <= rows[q[j]].finishedAt
  }

  // ---------- listing and sorting ----------

  lemma ListingHasSize(q: seq<TaskId>, ids: set<TaskId>)
    requires Lists(q, ids)
    ensures |q| == |ids|
  {
    DistinctSize(q);
    assert Elements(q) == ids;
  }

  lemma {:induction false} OldestExists(rows: map<TaskId, TaskRow>, ids: set<TaskId>)
    requires ids != {} && ids <= rows.Keys
    ensures exists m :: m in ids && forall x | x in ids :: rows[m].finishedAt <= rows[x].finishedAt
  {
    var m :| m in ids;
    if ids - {m} == {} {
      assert ids == {m};
    } else {
      OldestExists(rows, ids - {m});
      var n :| n in ids - {m} && forall x | x in ids - {m} :: rows[n].finishedAt <= rows[x].finishedAt;
      var o := if rows[m].finishedAt <= rows[n].finishedAt then m else n;
      assert forall x | x in ids :: x == m || x in ids - {m};
      assert o in ids && forall x | x in ids :: rows[o].finishedAt <= rows[x].finishedAt;
    }
  }

  // ---------- the cleaner ----------

  function Deleted(rows: map<TaskId, TaskRow>, f: Faults, id: TaskId): nat {
    |Deletable(rows, f, id)|
  }

  function Counts(rows: map<TaskId, TaskRow>, f: Faults, tasks: seq<TaskId>): seq<nat> {
    seq(|tasks|, i requires 0 <= i < |tasks| => Deleted(rows, f, tasks[i]))
  }

  function Total(counts: seq<nat>, n: nat): nat
    requires n <= |counts|
  {
    if n == 0 then 0 else Total(counts, n - 1) + counts[n - 1]
  }

  /** How many rows deleting the first n trees counts. */
  function Deletions(rows: map<TaskId, TaskRow>, f: Faults, tasks: seq<TaskId>, n: nat): nat
    requires n <= |tasks|
  {
    Total(Counts(rows, f, tasks), n)
  }

  /**
   Trimming the listed tasks down to maxHistory stops after the first n trees: before the last of
   them fewer rows had been deleted than there were tasks too many, and after it enough, or no
   task is left.
   */
  ghost predicate TrimsFirst(
    rows: map<TaskId, TaskRow>, f: Faults, tasks: seq<TaskId>, maxHistory: int, n: nat)
  {
    && n <= |tasks|
    && (n > 0 ==> Deletions(rows, f, tasks, n - 1) < |tasks| - maxHistory)
    && (n == |tasks| || Deletions(rows, f, tasks, n) >= |tasks| - maxHistory)
  }

  /** A master that has not finished keeps its row and its registry entry, and so do its children. */
  ghost predicate UnfinishedStay(
    rows: map<TaskId, TaskRow>, active: set<TaskId>, rows': map<TaskId, TaskRow>, active': set<TaskId>)
  {
    forall id, x | id in rows && IsUnfinishedMaster(rows[id]) && x in rows && (x == id || rows[x].parentId == id) ::
      x in rows' && rows'[x] == rows[x] && (x in active' <==> x in active)
  }

  /** A registered master that has finished leaves the registry with its children, if its tree can be read. */
  ghost predicate FinishedLeave(
    rows: map<TaskId, TaskRow>, active: set<TaskId>, unswept: set<TaskId>, active': set<TaskId>)
  {
    forall id, x | id in active - unswept && id in rows && HasFinishedAsMaster(rows[id])
                   && x in rows && (x == id || rows[x].parentId == id) ::
      x !in active'
  }

  lemma UnfinishedAreSpared(
    rows: map<TaskId, TaskRow>, active: set<TaskId>, unswept: set<TaskId>, f: Faults, masters: set<TaskId>)
    requires "" !in rows && masters <= FinishedMasters(rows)
    ensures UnfinishedStay(rows, active, rows - DeletableOf(rows, f, masters),
                           active - EntriesOf(rows, unswept, active, FinishedMasters(rows)))
  {
    forall id, x | id in rows && IsUnfinishedMaster(rows[id]) && x in rows && (x == id || rows[x].parentId == id)
      ensures x !in DeletableOf(rows, f, masters) && x !in EntriesOf(rows, unswept, active, FinishedMasters(rows))
    {
      assert Root(rows, x) == id && id !in FinishedMasters(rows);
    }
  }

  lemma FinishedAreSwept(rows: map<TaskId, TaskRow>, active: set<TaskId>, unswept: set<TaskId>)
    requires "" !in rows
    ensures FinishedLeave(rows, active, unswept, active - EntriesOf(rows, unswept, active, FinishedMasters(rows)))
  {
    forall id, x | id in active - unswept && id in rows && HasFinishedAsMaster(rows[id])
                   && x in rows && (x == id || rows[x].parentId == id)
      ensures x !in active - EntriesOf(rows, unswept, active, FinishedMasters(rows))
    {
      assert Root(rows, x) == id && id in FinishedMasters(rows);
    }
  }

  class Cleaner {
    const maxHistory: int
    var rows: map<TaskId, TaskRow>
    var active: set<TaskId>      // ids with a registered context
    var count: int               // activeTaskCount

    constructor (maxHistory: int, rows: map<TaskId, TaskRow>, active: set<TaskId>, count: int)
      ensures this.maxHistory == maxHistory && this.rows == rows && this.active == active && this.count == count
    {
      this.maxHistory, this.rows, this.active, this.count := maxHistory, rows, active, count;
    }

    /** A query for a set of rows returns them in some order. */
    method ListRows(ids: set<TaskId>) returns (q: seq<TaskId>)
      ensures Lists(q, ids) && |q| == |ids|
    {
      q := [];
      var rest := ids;
      while rest != {}
        invariant rest <= ids && Lists(q, ids - rest)
        decreases rest
      {
        var x :| x in rest;
        q, rest := q + [x], rest - {x};
      }
      assert ids - rest == ids;
      ListingHasSize(q, ids);
    }

    /** The listing in the order of the finishing times; ties come in any order. */
    method SortByFinish(ids: set<TaskId>) returns (q: seq<TaskId>)
      requires ids <= rows.Keys
      ensures Lists(q, ids) && OldestFirst(rows, q)
    {
      q := [];
      var rest := ids;
      while rest != {}
        invariant rest <= ids && Lists(q, ids - rest) && OldestFirst(rows, q)
        invariant forall x, y | x in q && y in rest :: rows[x].finishedAt <= rows[y].finishedAt
        decreases rest
      {
        OldestExists(rows, rest);
        var m :| m in rest && forall x | x in rest :: rows[m].finishedAt <= rows[x].finishedAt;
        q, rest := q + [m], rest - {m};
      }
      assert ids - rest == ids;
    }

    /** The nodes of a master's task tree in the order of the walk, children first, if it can be read. */
    method WalkTaskTree(id: TaskId, unread: set<TaskId>) returns (nodes: Option<seq<TaskId>>)
      requires id !in Children(rows, id)
      ensures nodes.None? <==> id in unread
      ensures nodes.Some? ==>
                && Lists(nodes.value, Tree(rows, id)) && |nodes.value| == |Tree(rows, id)|
                && nodes.value[|nodes.value| - 1] == id
    {
      if id in unread {
        return None;
      }
      var children := ListRows(Children(rows, id));
      nodes := Some(children + [id]);
      ListingHasSize(nodes.value, Tree(rows, id));
    }

    /** Removes the registry entries of the nodes and lowers the counter for those that existed. */
    method Unregister(nodes: seq<TaskId>)
      modifies this`active, this`count
      ensures active == old(active) - Elements(nodes)
      ensures count == old(count) - (|old(active)| - |active|)
    {
      for j := 0 to |nodes|
        invariant active == old(active) - Elements(nodes[..j])
        invariant count == old(count) - (|old(active)| - |active|)
      {
        ElementsStep(nodes, j);
        if nodes[j] in active {
          active, count := active - {nodes[j]}, count - 1;
        }
      }
      assert nodes[..|nodes|] == nodes;
    }

    /** Deletes the rows of the nodes and counts the statements that succeed. */
    method DeleteRows(nodes: seq<TaskId>, undeleted: set<TaskId>) returns (deleted: nat)
      requires Distinct(nodes)
      modifies this`rows
      ensures rows == old(rows) - (Elements(nodes) - undeleted)
      ensures deleted == |Elements(nodes) - undeleted|
    {
      deleted := 0;
      ghost var gone: set<TaskId> := {};
      for j := 0 to |nodes|
        invariant gone == Elements(nodes[..j]) - undeleted
        invariant rows == old(rows) - gone && deleted == |gone|
      {
        ElementsStep(nodes, j);
        DeleteStep(old(rows), gone, nodes[j]);
        if nodes[j] !in undeleted {
          rows, deleted, gone := rows - {nodes[j]}, deleted + 1, gone + {nodes[j]};
        }
      }
      assert nodes[..|nodes|] == nodes;
    }

    /** Visits one finished master that may be registered. */
    method SweepTask(id: TaskId, unread: set<TaskId>, ghost all: set<TaskId>, ghost visited: set<TaskId>)
      requires "" !in rows && IsFinishedMaster(rows, id) && id !in visited
      requires active == all - EntriesOf(rows, unread, all, visited)
      modifies this`active, this`count
      ensures active == all - EntriesOf(rows, unread, all, visited + {id})
      ensures count == old(count) - (|old(active)| - |active|)
    {
      TreeByRoot(rows, id, id);
      EntriesStep(rows, unread, all, visited, id);
      if id in active {
        var nodes := WalkTaskTree(id, unread);
        if nodes.Some? {
          assert Elements(nodes.value) == Tree(rows, id);
          Unregister(nodes.value);
        }
      }
    }

    /** Removes the registry entries of every registered finished master and of its children. */
    method Sweep(tasks: seq<TaskId>, unread: set<TaskId>)
      requires "" !in rows && Lists(tasks, FinishedMasters(rows))
      modifies this`active, this`count
      ensures active == old(active) - EntriesOf(rows, unread, old(active), FinishedMasters(rows))
      ensures count == old(count) - (|old(active)| - |active|)
    {
      for i := 0 to |tasks|
        invariant active == old(active) - EntriesOf(rows, unread, old(active), Elements(tasks[..i]))
        invariant count == old(count) - (|old(active)| - |active|)
      {
        ElementsStep(tasks, i);
        assert tasks[i] in FinishedMasters(rows);
        SweepTask(tasks[i], unread, old(active), Elements(tasks[..i]));
      }
      assert Elements(tasks[..|tasks|]) == FinishedMasters(rows);
    }

    /** Deletes the tree of one finished master and counts its rows. */
    method TrimTask(id: TaskId, f: Faults, ghost all: map<TaskId, TaskRow>, ghost trimmed: set<TaskId>)
      returns (deleted: nat)
      requires "" !in all && IsFinishedMaster(all, id) && id !in trimmed
      requires rows == all - DeletableOf(all, f, trimmed)
      modifies this`rows
      ensures rows == all - DeletableOf(all, f, trimmed + {id})
      ensures deleted == Deleted(all, f, id)
    {
      deleted := 0;
      DeletableStep(all, f, trimmed, id);
      var nodes := WalkTaskTree(id, f.unread);
      if nodes.Some? {
        assert Elements(nodes.value) == Tree(all, id);
        deleted := DeleteRows(nodes.value, f.undeleted);
      }
    }

    /**
     Deletes whole trees, oldest finished first, until as many rows are gone as there are tasks
     too many. The source counts rows of sub-tasks like those of masters.
     */
    method Trim(tasks: seq<TaskId>, f: Faults) returns (ghost n: nat)
      requires "" !in rows && Lists(tasks, FinishedMasters(rows))
      modifies this`rows
      ensures TrimsFirst(old(rows), f, tasks, maxHistory, n)
      ensures rows == old(rows) - DeletableOf(old(rows), f, Elements(tasks[..n]))
    {
      var deletedCount, i := 0, 0;
      ghost var all, trimmed := rows, {};
      assert rows == all - DeletableOf(all, f, trimmed);
      while deletedCount < |tasks| - maxHistory && i < |tasks|
        invariant 0 <= i <= |tasks|
        invariant deletedCount == Deletions(all, f, tasks, i)
        invariant i > 0 ==> Deletions(all, f, tasks, i - 1) < |tasks| - maxHistory
        invariant trimmed == Elements(tasks[..i])
        invariant rows == all - DeletableOf(all, f, trimmed)
        decreases |tasks| - i
      {
        ElementsStep(tasks, i);
        assert tasks[i] in FinishedMasters(all);
        var deleted := TrimTask(tasks[i], f, all, trimmed);
        deletedCount, trimmed := deletedCount + deleted, trimmed + {tasks[i]};
        i := i + 1;
      }
      n := i;
    }

    /** One round of cleaning after a done event; unswept are the trees that cannot be read the first time. */
    method DoRemoveHistoryTasks(queryFails: bool, unswept: set<TaskId>, f: Faults)
      returns (ghost tasks: seq<TaskId>, ghost n: nat)
      requires "" !in rows
      modifies this
      ensures queryFails ==> rows == old(rows) && active == old(active) && count == old(count)
      ensures !queryFails ==>
                && Lists(tasks, FinishedMasters(old(rows)))
                && OldestFirst(old(rows), tasks)
                && active == old(active) - EntriesOf(old(rows), unswept, old(active), FinishedMasters(old(rows)))
                && count == old(count) - (|old(active)| - |active|)
                && TrimsFirst(old(rows), f, tasks, maxHistory, n)
                && rows == old(rows) - DeletableOf(old(rows), f, Elements(tasks[..n]))
      ensures UnfinishedStay(old(rows), old(active), rows, active)
      ensures !queryFails ==> FinishedLeave(old(rows), old(active), unswept, active)
    {
      tasks, n := [], 0;
      if queryFails {
        return;
      }
      var masters := FinishedMasters(rows);
      var found := ListRows(masters);
      Sweep(found, unswept);
      var sorted := SortByFinish(masters);
      tasks := sorted;
      ListingHasSize(sorted, masters);
      UnfinishedAreSpared(old(rows), old(active), unswept, f, {});
      FinishedAreSwept(old(rows), old(active), unswept);
      if |found| <= maxHistory {
        assert DeletableOf(old(rows), f, Elements(tasks[..0])) == {};
        return;
      }
      n := Trim(sorted, f);
      UnfinishedAreSpared(old(rows), old(active), unswept, f, Elements(tasks[..n]));
    }
  }

  // ---------- what trimming leaves ----------

  /** Trimming the tree of such a master leaves the master itself. */
  predicate Spares(f: Faults, id: TaskId) {
    id in f.unread || id in f.undeleted
  }

  predicate Childless(rows: map<TaskId, TaskRow>, id: TaskId) {
    Children(rows, id) == {}
  }

  lemma DeletedOfMaster(rows: map<TaskId, TaskRow>, f: Faults, id: TaskId)
    ensures !Spares(f, id) ==> Deleted(rows, f, id) >= 1
    ensures Childless(rows, id) ==> Deleted(rows, f, id) == if Spares(f, id) then 0 else 1
  {
    if !Spares(f, id) {
      SubsetSize({id}, Deletable(rows, f, id));
    }
    if Childless(rows, id) {
      assert Deletable(rows, f, id) == if Spares(f, id) then {} else {id};
    }
  }

  /** The masters among the first n that trimming deletes. */
  ghost function DeletedMasters(f: Faults, tasks: seq<TaskId>, n: nat): set<TaskId>
    requires n <= |tasks|
  {
    set i | 0 <= i < n && !Spares(f, tasks[i]) :: tasks[i]
  }

  lemma {:induction false} MastersAreCounted(rows: map<TaskId, TaskRow>, f: Faults, tasks: seq<TaskId>, n: nat)
    requires n <= |tasks| && Distinct(tasks)
    ensures |DeletedMasters(f, tasks, n)| <= Deletions(rows, f, tasks, n)
  {
    if n > 0 {
      MastersAreCounted(rows, f, tasks, n - 1);
      DeletedOfMaster(rows, f, tasks[n - 1]);
      OneMoreMaster(f, tasks, n);
    }
  }

  lemma {:induction false} ChildlessAreCounted(rows: map<TaskId, TaskRow>, f: Faults, tasks: seq<TaskId>, n: nat)
    requires n <= |tasks| && Distinct(tasks) && forall i | 0 <= i < n :: Childless(rows, tasks[i])
    ensures |DeletedMasters(f, tasks, n)| == Deletions(rows, f, tasks, n)
  {
    if n > 0 {
      ChildlessAreCounted(rows, f, tasks, n - 1);
      DeletedOfMaster(rows, f, tasks[n - 1]);
      OneMoreMaster(f, tasks, n);
    }
  }

  lemma OneMoreMaster(f: Faults, tasks: seq<TaskId>, n: nat)
    requires 0 < n <= |tasks| && Distinct(tasks)
    ensures |DeletedMasters(f, tasks, n)|
            == |DeletedMasters(f, tasks, n - 1)| + if Spares(f, tasks[n - 1]) then 0 else 1
  {
    var before := DeletedMasters(f, tasks, n - 1);
    assert DeletedMasters(f, tasks, n) == if Spares(f, tasks[n - 1]) then before else before + {tasks[n - 1]};
  }

  lemma {:induction false} AllMastersGo(f: Faults, tasks: seq<TaskId>, n: nat)
    requires n <= |tasks| && Distinct(tasks) && forall i | 0 <= i < n :: !Spares(f, tasks[i])
    ensures |DeletedMasters(f, tasks, n)| == n
  {
    if n > 0 {
      AllMastersGo(f, tasks, n - 1);
      OneMoreMaster(f, tasks, n);
    }
  }

  /**
   Whatever fails, trimming leaves at least maxHistory finished masters, or all there are. It leaves
   exactly that many when it stops for having deleted enough and no master it came to has sub-tasks.
   */
  lemma TrimmedCount(rows: map<TaskId, TaskRow>, f: Faults, tasks: seq<TaskId>, maxHistory: nat, n: nat)
    requires "" !in rows && Lists(tasks, FinishedMasters(rows)) && TrimsFirst(rows, f, tasks, maxHistory, n)
    ensures |Left(rows, f, tasks, n)| >= if |tasks| < maxHistory then |tasks| else maxHistory
    ensures && |tasks| > maxHistory && (forall i | 0 <= i < n :: Childless(rows, tasks[i]))
            && (n == |tasks| ==> forall i | 0 <= i < n :: !Spares(f, tasks[i]))
            ==> |Left(rows, f, tasks, n)| == maxHistory
  {
    LeftCount(rows, f, tasks, n);
    if n > 0 {
      MastersAreCounted(rows, f, tasks, n - 1);
      OneMoreMaster(f, tasks, n);
    }
    if forall i | 0 <= i < n :: Childless(rows, tasks[i]) {
      ChildlessAreCounted(rows, f, tasks, n);
    }
    if forall i | 0 <= i < n :: !Spares(f, tasks[i]) {
      AllMastersGo(f, tasks, n);
    }
  }

  /** The finished masters left once the first n trees have been trimmed. */
  function Left(rows: map<TaskId, TaskRow>, f: Faults, tasks: seq<TaskId>, n: nat): set<TaskId>
    requires n <= |tasks|
  {
    FinishedMasters(rows - DeletableOf(rows, f, set x | x in tasks[..n]))
  }

  lemma LeftCount(rows: map<TaskId, TaskRow>, f: Faults, tasks: seq<TaskId>, n: nat)
    requires "" !in rows && Lists(tasks, FinishedMasters(rows)) && n <= |tasks|
    ensures |Left(rows, f, tasks, n)| == |tasks| - |DeletedMasters(f, tasks, n)|
  {
    TrimmedMasters(rows, f, tasks, n);
    ListingHasSize(tasks, FinishedMasters(rows));
    var kept, gone := Left(rows, f, tasks, n), DeletedMasters(f, tasks, n);
    assert gone <= FinishedMasters(rows);
    assert FinishedMasters(rows) == kept + gone && kept * gone == {};
  }

  /** The finished masters left are those that were not deleted. */
  lemma TrimmedMasters(rows: map<TaskId, TaskRow>, f: Faults, tasks: seq<TaskId>, n: nat)
    requires "" !in rows && Lists(tasks, FinishedMasters(rows)) && n <= |tasks|
    ensures Left(rows, f, tasks, n) == FinishedMasters(rows) - DeletedMasters(f, tasks, n)
  {
    forall id | id in FinishedMasters(rows)
      ensures id in Left(rows, f, tasks, n) <==> id !in DeletedMasters(f, tasks, n)
    {
      assert Root(rows, id) == id;
      if id in tasks[..n] {
        var i :| 0 <= i < n && tasks[i] == id;
      }
    }
  }

  /** No finished master that goes finished after one that is left. */
  ghost predicate KeepsNewest(rows: map<TaskId, TaskRow>, f: Faults, tasks: seq<TaskId>, n: nat)
    requires n <= |tasks|
  {
    forall x, y | x in FinishedMasters(rows) && x !in Left(rows, f, tasks, n) && y in Left(rows, f, tasks, n) ::
      y in rows && rows[x].finishedAt <= rows[y].finishedAt
  }

  lemma {:induction false} TotalGrows(counts: seq<nat>, i: nat, j: nat)
    requires i <= j <= |counts|
    ensures Total(counts, i) <= Total(counts, j)
  {
    if i < j {
      TotalGrows(counts, i, j - 1);
    }
  }

  /** Adding up stops before an element exactly when what is before it suffices. */
  lemma StopsBefore(counts: seq<nat>, enough: int, n: nat, j: nat)
    requires n <= |counts| && j < |counts|
    requires n > 0 ==> Total(counts, n - 1) < enough
    requires n == |counts| || Total(counts, n) >= enough
    ensures n <= j <==> Total(counts, j) >= enough
  {
    if j < n {
      TotalGrows(counts, j, n - 1);
    } else {
      TotalGrows(counts, n, j);
    }
  }

  /** A listed master is deleted when it can be, unless the trees before it make up for the tasks too many. */
  lemma GoesExactly(rows: map<TaskId, TaskRow>, f: Faults, tasks: seq<TaskId>, maxHistory: nat, n: nat, j: nat)
    requires "" !in rows && Lists(tasks, FinishedMasters(rows)) && TrimsFirst(rows, f, tasks, maxHistory, n)
    requires j < |tasks|
    ensures tasks[j] in FinishedMasters(rows)
    ensures tasks[j] in Left(rows, f, tasks, n) <==>
            Spares(f, tasks[j]) || Deletions(rows, f, tasks, j) >= |tasks| - maxHistory
    ensures j >= n ==> tasks[j] in Left(rows, f, tasks, n)
  {
    TrimmedMasters(rows, f, tasks, n);
    StopsBefore(Counts(rows, f, tasks), |tasks| - maxHistory, n, j);
    if tasks[j] in DeletedMasters(f, tasks, n) {
      var i :| 0 <= i < n && !Spares(f, tasks[i]) && tasks[i] == tasks[j];
      assert i == j;
    }
  }

  /** Some master that can be deleted is reached although one that finished earlier was spared. */
  ghost predicate PassesOver(rows: map<TaskId, TaskRow>, f: Faults, tasks: seq<TaskId>, maxHistory: nat, i: nat, j: nat)
    requires i < j < |tasks|
  {
    && tasks[i] in rows && tasks[j] in rows
    && Spares(f, tasks[i]) && !Spares(f, tasks[j])
    && rows[tasks[i]].finishedAt < rows[tasks[j]].finishedAt
    && Deletions(rows, f, tasks, j) < |tasks| - maxHistory
  }

  /**
   What trimming keeps finished no earlier than anything it deletes, exactly when no master is passed over:
   spared, while the trees before a deletable one that finished later do not make up for the tasks too many.
   */
  lemma TrimmingKeepsNewest(rows: map<TaskId, TaskRow>, f: Faults, tasks: seq<TaskId>, maxHistory: nat, n: nat)
    requires "" !in rows && Lists(tasks, FinishedMasters(rows)) && OldestFirst(rows, tasks)
    requires TrimsFirst(rows, f, tasks, maxHistory, n)
    ensures KeepsNewest(rows, f, tasks, n) <==>
            forall i, j | 0 <= i < j < |tasks| :: !PassesOver(rows, f, tasks, maxHistory, i, j)
  {
    if KeepsNewest(rows, f, tasks, n) {
      forall i, j | 0 <= i < j < |tasks|
        ensures !PassesOver(rows, f, tasks, maxHistory, i, j)
      {
        GoesExactly(rows, f, tasks, maxHistory, n, i);
        GoesExactly(rows, f, tasks, maxHistory, n, j);
      }
    } else {
      SomePassedOver(rows, f, tasks, maxHistory, n);
    }
  }

  lemma SomePassedOver(rows: map<TaskId, TaskRow>, f: Faults, tasks: seq<TaskId>, maxHistory: nat, n: nat)
    requires "" !in rows && Lists(tasks, FinishedMasters(rows)) && OldestFirst(rows, tasks)
    requires TrimsFirst(rows, f, tasks, maxHistory, n) && !KeepsNewest(rows, f, tasks, n)
    ensures exists i, j :: 0 <= i < j < |tasks| && PassesOver(rows, f, tasks, maxHistory, i, j)
  {
    var left := Left(rows, f, tasks, n);
    var x, y :|
      x in FinishedMasters(rows) && x !in left && y in left
      && !(y in rows && rows[x].finishedAt <= rows[y].finishedAt);
    TrimmedMasters(rows, f, tasks, n);
    var j :| 0 <= j < |tasks| && tasks[j] == x;
    var i :| 0 <= i < |tasks| && tasks[i] == y;
    PassedOver(rows, f, tasks, maxHistory, n, i, j);
  }

  lemma PassedOver(rows: map<TaskId, TaskRow>, f: Faults, tasks: seq<TaskId>, maxHistory: nat, n: nat, i: nat, j: nat)
    requires "" !in rows && Lists(tasks, FinishedMasters(rows)) && OldestFirst(rows, tasks)
    requires TrimsFirst(rows, f, tasks, maxHistory, n) && i < |tasks| && j < |tasks|
    requires rows[tasks[i]].finishedAt < rows[tasks[j]].finishedAt
    requires tasks[j] !in Left(rows, f, tasks, n) && tasks[i] in Left(rows, f, tasks, n)
    ensures i < j && PassesOver(rows, f, tasks, maxHistory, i, j)
  {
    ComesEarlier(rows, tasks, i, j);
    GoesExactly(rows, f, tasks, maxHistory, n, i);
    GoesExactly(rows, f, tasks, maxHistory, n, j);
    TotalGrows(Counts(rows, f, tasks), i, j);
  }

  lemma ComesEarlier(rows: map<TaskId, TaskRow>, tasks: seq<TaskId>, i: nat, j: nat)
    requires (forall id | id in tasks :: id in rows) && OldestFirst(rows, tasks) && i < |tasks| && j < |tasks|
    requires rows[tasks[i]].finishedAt < rows[tasks[j]].finishedAt
    ensures i < j
  {
  }

  const TWO_ROWS: map<TaskId, TaskRow> := map["a" := TaskRow(Succeed, "", 1), "b" := TaskRow(Succeed, "", 2)]

  lemma BothAreListed(tasks: seq<TaskId>)
    requires Lists(tasks, FinishedMasters(TWO_ROWS)) && OldestFirst(TWO_ROWS, tasks)
    ensures tasks == ["a", "b"]
  {
    assert FinishedMasters(TWO_ROWS) == {"a", "b"};
    ListingHasSize(tasks, {"a", "b"});
    assert "a" in tasks && "b" in tasks;
  }

  lemma OnlyTheOlderIsLeft(n: nat)
    requires n <= 2 && TrimsFirst(TWO_ROWS, Faults({"a"}, {}), ["a", "b"], 1, n)
    ensures TWO_ROWS - DeletableOf(TWO_ROWS, Faults({"a"}, {}), Elements(["a", "b"][..n])) == TWO_ROWS - {"b"}
  {
    var f := Faults({"a"}, {});
    assert Deletable(TWO_ROWS, f, "a") == {} && Deletions(TWO_ROWS, f, ["a", "b"], 1) == 0;
    assert n == 2;
    assert ["a", "b"][..2] == ["a", "b"] && "a" != "b";
    assert Root(TWO_ROWS, "a") == "a" && Root(TWO_ROWS, "b") == "b";
    assert ["a", "b"][0] == "a" && ["a", "b"][1] == "b";
    assert DeletableOf(TWO_ROWS, f, Elements(["a", "b"])) == {"b"};
  }

  /** A tree that cannot be read is passed over, and a master that finished later goes instead. */
  method OlderMasterStays() returns (c: Cleaner)
    ensures c.maxHistory == 1 && c.rows == map["a" := TaskRow(Succeed, "", 1)]
  {
    c := new Cleaner(1, TWO_ROWS, {}, 0);
    ghost var tasks, n := c.DoRemoveHistoryTasks(false, {}, Faults({"a"}, {}));
    BothAreListed(tasks);
    OnlyTheOlderIsLeft(n);
    assert TWO_ROWS - {"b"} == map["a" := TaskRow(Succeed, "", 1)];
  }
}
