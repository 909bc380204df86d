/**
 Two databases, a main one and its backup, driven through the same transactions. A database's
 content is the journal of the statements applied to it, so equal journals mean equal content
 whatever the statements do.
 */
module MirroredTransactions {
  import opened Basics

  type Stmt = nat
  type Name = nat    // of a save point: the code address of the function that runs in it

  /** Where a rollback may return to: the begin of the transaction (no name) or a save point. */
  datatype Mark = Mark(name: Option<Name>, journal: seq<Stmt>)

  datatype Database = Database(journal: seq<Stmt>, marks: seq<Mark>) {
    predicate InTransaction() {
      marks != []
    }

    function Begin(): Database {
      Database(journal, [Mark(None, journal)])
    }

    function SavePoint(name: Name): Database {
      Database(journal, marks + [Mark(Some(name), journal)])
    }

    /** Returns to the latest save point of that name, and keeps it. */
    function RollbackTo(name: Name): Database {
      var left := UpTo(marks, name);
      if left == [] then this else Database(left[|left| - 1].journal, left)
    }

    function Commit(): Database {
      Database(journal, [])
    }

    function Rollback(): Database {
      if marks == [] then this else Database(marks[0].journal, [])
    }

    function Execute(stmt: Stmt): Database {
      Database(journal + [stmt], marks)
    }
  }

  /** The marks up to the latest one of that name, none if there is none. */
  function UpTo(marks: seq<Mark>, name: Name): (r: seq<Mark>)
    ensures |r| <= |marks| && r == marks[..|r|]
    ensures r != [] ==> r[|r| - 1].name == Some(name)
    ensures forall i | |r| <= i < |marks| :: marks[i].name != Some(name)
  {
    if marks == [] || marks[|marks| - 1].name == Some(name) then marks
    else UpTo(marks[..|marks| - 1], name)
  }

  datatype Pair = Pair(main: Database, backup: Database)

  /** Whether each database was opened with nested transactions disabled. */
  datatype Config = Config(mainDisables: bool, backupDisables: bool)

  /** Which steps of a call succeed. To start is to begin a transaction or to set a save point. */
  datatype Faults = Faults(backupStarts: bool, mainStarts: bool, mainCommits: bool, backupCommits: bool)

  /** What a transaction function does, with everything it decides on the way resolved. */
  datatype Body =
    | Return
    | Fail
    | Panic
    | Execute(stmt: Stmt, next: Body)
    | Nest(fc: Name, faults: Faults, body: Body, ifNil: Body, ifErr: Body)

  const FINE := Faults(true, true, true, true)

  datatype Outcome = Nil | Error | Panicked

  // ---------- what the code does ----------

  function RunBody(c: Config, p: Pair, b: Body): (Pair, Outcome)
    decreases b, 0
  {
    match b
    case Return => (p, Nil)
    case Fail => (p, Error)
    case Panic => (p, Panicked)
    case Execute(stmt, next) => RunBody(c, Pair(p.main.Execute(stmt), p.backup.Execute(stmt)), next)
    case Nest(fc, f, body, ifNil, ifErr) =>
      var (q, o) := Transaction(c, p, fc, f, body);
      RunBody(c, q, if o == Nil then ifNil else ifErr)
  }

  /** The ORM's own transaction, on the main database alone. */
  function MainTransaction(c: Config, p: Pair, fc: Name, f: Faults, b: Body): (Pair, Outcome)
    decreases b, 1
  {
    if p.main.InTransaction() then
      if c.mainDisables then RunBody(c, p, b)
      else if !f.mainStarts then (p, Error)
      else
        var (q, o) := RunBody(c, p.(main := p.main.SavePoint(fc)), b);
        (if o == Nil then q else q.(main := q.main.RollbackTo(fc)), o)
    else if !f.mainStarts then (p, Error)
    else
      var (q, o) := RunBody(c, p.(main := p.main.Begin()), b);
      if o == Nil && f.mainCommits then (q.(main := q.main.Commit()), Nil)
      else (q.(main := q.main.Rollback()), if o == Nil then Error else o)
  }

  function WithoutTransaction(c: Config, p: Pair, b: Body): (Pair, Outcome)
    decreases b, 2
  {
    var (q, o) := RunBody(c, p, b);
    (q, if o == Nil then Nil else Error)
  }

  function WithNestedTransaction(c: Config, p: Pair, fc: Name, f: Faults, b: Body): (Pair, Outcome)
    decreases b, 2
  {
    if !f.backupStarts then (p, Error)
    else
      var (q, o) := MainTransaction(c, p.(backup := p.backup.SavePoint(fc)), fc, f, b);
      if o == Nil then (q, Nil) else (q.(backup := q.backup.RollbackTo(fc)), Error)
  }

  /** The error of the backup's commit is dropped. */
  function WithTransaction(c: Config, p: Pair, fc: Name, f: Faults, b: Body): (Pair, Outcome)
    decreases b, 2
  {
    if !f.backupStarts then (p, Error)
    else
      var (q, o) := MainTransaction(c, p.(backup := p.backup.Begin()), fc, f, b);
      if o == Nil && f.backupCommits then (q.(backup := q.backup.Commit()), Nil)
      else (q.(backup := q.backup.Rollback()), if o == Nil then Nil else Error)
  }

  function Transaction(c: Config, p: Pair, fc: Name, f: Faults, b: Body): (Pair, Outcome)
    decreases b, 3
  {
    if p.backup.InTransaction() then
      if c.backupDisables then WithoutTransaction(c, p, b) else WithNestedTransaction(c, p, fc, f, b)
    else WithTransaction(c, p, fc, f, b)
  }

  // ---------- marks ----------

  function Names(b: Body): set<Name> {
    match b
    case Execute(_, next) => Names(next)
    case Nest(fc, _, body, ifNil, ifErr) => {fc} + Names(body) + Names(ifNil) + Names(ifErr)
    case _ => {}
  }

  /** Every mark of d is still in e, and the marks set since carry names from the given set. */
  ghost predicate Extends(d: Database, e: Database, names: set<Name>) {
    && |d.marks| <= |e.marks| && e.marks[..|d.marks|] == d.marks
    && forall i | |d.marks| <= i < |e.marks| :: e.marks[i].name.Some? && e.marks[i].name.value in names
  }

  lemma RollbackToExtends(d: Database, e: Database, fc: Name, names: set<Name>)
    requires Extends(d.SavePoint(fc), e, names)
    ensures Extends(d, e, {fc} + names) && Extends(d, e.RollbackTo(fc), {fc} + names)
  {
    var marks := d.SavePoint(fc).marks;
    assert e.marks[..|marks|] == marks;
    assert e.marks[..|d.marks|] == marks[..|d.marks|];
    assert e.marks[|d.marks|] == marks[|d.marks|];
  }

  lemma ExtendsFurther(d: Database, e: Database, f: Database, names: set<Name>, more: set<Name>)
    requires Extends(d, e, names) && Extends(e, f, more)
    ensures Extends(d, f, names + more)
  {
    assert f.marks[..|d.marks|] == f.marks[..|e.marks|][..|d.marks|];
    forall i | |d.marks| <= i < |e.marks|
      ensures f.marks[i] == e.marks[i]
    {
      assert f.marks[..|e.marks|][i] == f.marks[i];
    }
  }

  lemma ExtendsWider(d: Database, e: Database, names: set<Name>, more: set<Name>)
    requires Extends(d, e, names) && names <= more
    ensures Extends(d, e, more)
  {
  }

  /** Within a transaction no call takes away a mark it found. */
  lemma {:induction false} RunExtends(c: Config, p: Pair, b: Body)
    requires p.main.InTransaction() && p.backup.InTransaction()
    ensures var q := RunBody(c, p, b).0;
            Extends(p.main, q.main, Names(b)) && Extends(p.backup, q.backup, Names(b))
    decreases b, 0
  {
    match b
    case Return =>
    case Fail =>
    case Panic =>
    case Execute(stmt, next) => RunExtends(c, Pair(p.main.Execute(stmt), p.backup.Execute(stmt)), next);
    case Nest(fc, f, body, ifNil, ifErr) =>
      CallExtends(c, p, fc, f, body);
      var (q, o) := Transaction(c, p, fc, f, body);
      var next := if o == Nil then ifNil else ifErr;
      RunExtends(c, q, next);
      var r := RunBody(c, q, next).0;
      ExtendsFurther(p.main, q.main, r.main, {fc} + Names(body), Names(next));
      ExtendsFurther(p.backup, q.backup, r.backup, {fc} + Names(body), Names(next));
      ExtendsWider(p.main, r.main, {fc} + Names(body) + Names(next), Names(b));
      ExtendsWider(p.backup, r.backup, {fc} + Names(body) + Names(next), Names(b));
  }

  lemma {:induction false} CallExtends(c: Config, p: Pair, fc: Name, f: Faults, b: Body)
    requires p.main.InTransaction() && p.backup.InTransaction()
    ensures var q := Transaction(c, p, fc, f, b).0;
            Extends(p.main, q.main, {fc} + Names(b)) && Extends(p.backup, q.backup, {fc} + Names(b))
    decreases b, 2
  {
    if c.backupDisables {
      RunExtends(c, p, b);
      var q := RunBody(c, p, b).0;
      ExtendsWider(p.main, q.main, Names(b), {fc} + Names(b));
      ExtendsWider(p.backup, q.backup, Names(b), {fc} + Names(b));
    } else if f.backupStarts {
      var p1 := p.(backup := p.backup.SavePoint(fc));
      MainExtends(c, p1, fc, f, b);
      var q := MainTransaction(c, p1, fc, f, b).0;
      RollbackToExtends(p.backup, q.backup, fc, Names(b));
    }
  }

  lemma {:induction false} MainExtends(c: Config, p: Pair, fc: Name, f: Faults, b: Body)
    requires p.main.InTransaction() && p.backup.InTransaction()
    ensures var q := MainTransaction(c, p, fc, f, b).0;
            Extends(p.main, q.main, {fc} + Names(b)) && Extends(p.backup, q.backup, Names(b))
    decreases b, 1
  {
    if c.mainDisables {
      RunExtends(c, p, b);
      ExtendsWider(p.main, RunBody(c, p, b).0.main, Names(b), {fc} + Names(b));
    } else if f.mainStarts {
      var p1 := p.(main := p.main.SavePoint(fc));
      RunExtends(c, p1, b);
      RollbackToExtends(p.main, RunBody(c, p1, b).0.main, fc, Names(b));
    }
  }

  // ---------- how a call ends ----------

  /** How an outermost call ends: with a commit of both, of the main one alone, or of neither. */
  lemma OutermostCall(c: Config, p: Pair, fc: Name, f: Faults, b: Body)
    requires !p.main.InTransaction() && !p.backup.InTransaction()
    ensures var (q, o) := Transaction(c, p, fc, f, b);
            if !f.backupStarts || !f.mainStarts then q == p && o == Error
            else
              var (r, ended) := RunBody(c, Pair(p.main.Begin(), p.backup.Begin()), b);
              if ended != Nil || !f.mainCommits then q == p && o == Error
              else q == Pair(r.main.Commit(), if f.backupCommits then r.backup.Commit() else p.backup) && o == Nil
  {
    assert Transaction(c, p, fc, f, b) == WithTransaction(c, p, fc, f, b);
    var p1 := p.(backup := p.backup.Begin());
    assert p1.backup.Rollback() == p.backup;
    if f.backupStarts && f.mainStarts {
      var p2 := p1.(main := p.main.Begin());
      RunExtends(c, p2, b);
      var (q, o) := RunBody(c, p2, b);
      assert MainTransaction(c, p1, fc, f, b) ==
             if o == Nil && f.mainCommits then (q.(main := q.main.Commit()), Nil)
             else (q.(main := q.main.Rollback()), if o == Nil then Error else o);
      assert q.main.marks[..1][0] == p2.main.marks[0];
      assert q.backup.marks[..1][0] == p2.backup.marks[0];
      assert q.main.Rollback() == p.main && q.backup.Rollback() == p.backup;
    } else if f.backupStarts {
      assert MainTransaction(c, p1, fc, f, b) == (p1, Error);
    }
  }

  /** The backup sets the save point of a nested call, and the main database refuses it. */
  predicate IsRefused(f: Faults) {
    f.backupStarts && !f.mainStarts
  }

  /**
   How a nested call ends when both databases nest: with the body's effect, or back at the latest save
   points of that name; a refused one leaves the backup's save point behind.
   */
  lemma NestedCall(c: Config, p: Pair, fc: Name, f: Faults, b: Body)
    requires c == Config(false, false) && p.main.InTransaction() && p.backup.InTransaction()
    ensures Transaction(c, p, fc, f, b) ==
            if !f.backupStarts then (p, Error)
            else if IsRefused(f) then (p.(backup := p.backup.SavePoint(fc)), Error)
            else
              var (r, ended) := RunBody(c, Pair(p.main.SavePoint(fc), p.backup.SavePoint(fc)), b);
              if ended == Nil then (r, Nil) else (Pair(r.main.RollbackTo(fc), r.backup.RollbackTo(fc)), Error)
  {
    var p1 := p.(backup := p.backup.SavePoint(fc));
    if IsRefused(f) {
      assert MainTransaction(c, p1, fc, f, b) == (p1, Error);
      assert p1.backup.RollbackTo(fc) == p1.backup;
    } else if f.backupStarts {
      var (r, ended) := RunBody(c, p1.(main := p.main.SavePoint(fc)), b);
      assert MainTransaction(c, p1, fc, f, b) ==
             (if ended == Nil then r else r.(main := r.main.RollbackTo(fc)), ended);
    }
  }

  /** The functions whose save point is refused inside a call of themselves; open are those being called. */
  function RefusedReentries(b: Body, open: set<Name>): set<Name> {
    match b
    case Execute(_, next) => RefusedReentries(next, open)
    case Nest(fc, f, body, ifNil, ifErr) =>
      (if IsRefused(f) && fc in open then {fc} else {})
      + RefusedReentries(body, open + {fc}) + RefusedReentries(ifNil, open) + RefusedReentries(ifErr, open)
    case _ => {}
  }

  // ---------- marks of the functions being called ----------

  predicate IsNamed(mark: Mark, open: set<Name>) {
    mark.name.Some? && mark.name.value in open
  }

  function Named(marks: seq<Mark>, open: set<Name>): seq<Mark> {
    if marks == [] then []
    else Named(marks[..|marks| - 1], open) + if IsNamed(marks[|marks| - 1], open) then [marks[|marks| - 1]] else []
  }

  lemma NamedOne(mark: Mark, open: set<Name>)
    ensures Named([mark], open) == if IsNamed(mark, open) then [mark] else []
  {
    assert [mark][..0] == [];
  }

  lemma {:induction false} NamedConcat(a: seq<Mark>, b: seq<Mark>, open: set<Name>)
    ensures Named(a + b, open) == Named(a, open) + Named(b, open)
    decreases |b|
  {
    if b == [] {
      assert a + b == a;
    } else {
      NamedConcat(a, b[..|b| - 1], open);
      assert (a + b)[..|a + b| - 1] == a + b[..|b| - 1];
    }
  }

  lemma {:induction false} NamedTwice(marks: seq<Mark>, open: set<Name>, fewer: set<Name>)
    requires fewer <= open
    ensures Named(Named(marks, open), fewer) == Named(marks, fewer)
  {
    if marks != [] {
      var init, last := marks[..|marks| - 1], marks[|marks| - 1];
      NamedTwice(init, open, fewer);
      NamedOne(last, fewer);
      NamedConcat(Named(init, open), if IsNamed(last, open) then [last] else [], fewer);
    }
  }

  lemma {:induction false} UpToInTail(head: seq<Mark>, tail: seq<Mark>, name: Name)
    requires UpTo(tail, name) != []
    ensures UpTo(head + tail, name) == head + UpTo(tail, name)
    decreases |tail|
  {
    var marks := head + tail;
    assert marks[|marks| - 1] == tail[|tail| - 1];
    if tail[|tail| - 1].name != Some(name) {
      assert marks[..|marks| - 1] == head + tail[..|tail| - 1];
      UpToInTail(head, tail[..|tail| - 1], name);
    }
  }

  lemma UpToOneMore(init: seq<Mark>, last: Mark, name: Name)
    ensures UpTo(init + [last], name) == if last.name == Some(name) then init + [last] else UpTo(init, name)
  {
    assert (init + [last])[..|init|] == init;
  }

  /** Going back among all marks is going back among the marks of the functions being called. */
  lemma {:induction false} UpToAmongNamed(marks: seq<Mark>, name: Name, open: set<Name>)
    requires name in open
    ensures Named(UpTo(marks, name), open) == UpTo(Named(marks, open), name)
  {
    if marks != [] {
      var init, last := marks[..|marks| - 1], marks[|marks| - 1];
      UpToAmongNamed(init, name, open);
      OneMoreAmongNamed(init, last, name, open);
      assert marks == init + [last];
    }
  }

  lemma OneMoreAmongNamed(init: seq<Mark>, last: Mark, name: Name, open: set<Name>)
    requires name in open && Named(UpTo(init, name), open) == UpTo(Named(init, open), name)
    ensures Named(UpTo(init + [last], name), open) == UpTo(Named(init + [last], open), name)
  {
    NamedConcat(init, [last], open);
    NamedOne(last, open);
    UpToOneMore(init, last, name);
    UpToOneMore(Named(init, open), last, name);
    if !IsNamed(last, open) {
      assert Named(init, open) + [] == Named(init, open);
    }
  }

  // ---------- the two databases stay equal ----------

  /** The marks set since d. */
  function NewMarks(d: Database, e: Database): seq<Mark> {
    if |d.marks| <= |e.marks| then e.marks[|d.marks|..] else []
  }

  /** After a run from p to q the contents agree, and so do the new marks of the functions being called. */
  ghost predicate Alike(p: Pair, q: Pair, open: set<Name>) {
    && q.main.journal == q.backup.journal
    && Named(NewMarks(p.main, q.main), open) == Named(NewMarks(p.backup, q.backup), open)
  }

  ghost predicate Within(d: Database, e: Database) {
    |d.marks| <= |e.marks| && e.marks[..|d.marks|] == d.marks
  }

  lemma AlikeFurther(p: Pair, q: Pair, r: Pair, open: set<Name>)
    requires Within(p.main, q.main) && Within(q.main, r.main)
    requires Within(p.backup, q.backup) && Within(q.backup, r.backup)
    requires Alike(p, q, open) && Alike(q, r, open)
    ensures Alike(p, r, open)
  {
    MarksAddUp(p.main, q.main, r.main);
    MarksAddUp(p.backup, q.backup, r.backup);
    NamedConcat(NewMarks(p.main, q.main), NewMarks(q.main, r.main), open);
    NamedConcat(NewMarks(p.backup, q.backup), NewMarks(q.backup, r.backup), open);
  }

  lemma MarksAddUp(d: Database, e: Database, f: Database)
    requires Within(d, e) && Within(e, f)
    ensures NewMarks(d, f) == NewMarks(d, e) + NewMarks(e, f)
  {
    assert f.marks == f.marks[..|e.marks|] + f.marks[|e.marks|..];
  }

  /** The marks since d: the save point set first, and those set after it. */
  lemma MarksSincePoint(d: Database, e: Database, fc: Name)
    requires Within(d.SavePoint(fc), e)
    ensures Within(d, e) && NewMarks(d, e) == [Mark(Some(fc), d.journal)] + NewMarks(d.SavePoint(fc), e)
  {
    var marks := d.SavePoint(fc).marks;
    assert e.marks[..|marks|] == marks;
    assert e.marks[..|d.marks|] == marks[..|d.marks|];
    assert e.marks[|d.marks|] == marks[|d.marks|];
  }

  /** What a rollback to a save point set since d leaves of the marks since d. */
  lemma RollbackSince(d: Database, e: Database, fc: Name)
    requires Within(d, e) && UpTo(NewMarks(d, e), fc) != []
    ensures var left := UpTo(NewMarks(d, e), fc);
            e.RollbackTo(fc).journal == left[|left| - 1].journal && NewMarks(d, e.RollbackTo(fc)) == left
  {
    assert e.marks == d.marks + NewMarks(d, e);
    UpToInTail(d.marks, NewMarks(d, e), fc);
  }

  /** The same in terms of the marks of the functions being called. */
  lemma RollbackSincePoint(d: Database, e: Database, fc: Name, open: set<Name>)
    requires Within(d.SavePoint(fc), e) && fc in open
    ensures var named := [Mark(Some(fc), d.journal)] + Named(NewMarks(d.SavePoint(fc), e), open);
            var left := UpTo(named, fc);
            && Named(NewMarks(d, e), open) == named && Named(NewMarks(d, e.RollbackTo(fc)), open) == left
            && left != [] && e.RollbackTo(fc).journal == left[|left| - 1].journal
  {
    var own := Mark(Some(fc), d.journal);
    MarksSincePoint(d, e, fc);
    NamedConcat([own], NewMarks(d.SavePoint(fc), e), open);
    NamedOne(own, open);
    var tail := NewMarks(d, e);
    assert tail[0] == own;
    UpToAmongNamed(tail, fc, open);
    RollbackSince(d, e, fc);
    var left := UpTo(tail, fc);
    assert IsNamed(left[|left| - 1], open);
  }

  /** A body without refused re-entries treats the two databases alike. */
  lemma {:induction false} BodiesAreAlike(c: Config, p: Pair, b: Body, open: set<Name>)
    requires c == Config(false, false) && p.main.InTransaction() && p.backup.InTransaction()
    requires p.main.journal == p.backup.journal && RefusedReentries(b, open) == {}
    ensures Alike(p, RunBody(c, p, b).0, open)
    decreases b, 0
  {
    match b
    case Return =>
    case Fail =>
    case Panic =>
    case Execute(stmt, next) => BodiesAreAlike(c, Pair(p.main.Execute(stmt), p.backup.Execute(stmt)), next, open);
    case Nest(fc, f, body, ifNil, ifErr) =>
      CallsAreAlike(c, p, fc, f, body, open);
      CallExtends(c, p, fc, f, body);
      var (q, o) := Transaction(c, p, fc, f, body);
      var next := if o == Nil then ifNil else ifErr;
      BodiesAreAlike(c, q, next, open);
      RunExtends(c, q, next);
      AlikeFurther(p, q, RunBody(c, q, next).0, open);
  }

  lemma {:induction false} CallsAreAlike(c: Config, p: Pair, fc: Name, f: Faults, b: Body, open: set<Name>)
    requires c == Config(false, false) && p.main.InTransaction() && p.backup.InTransaction()
    requires p.main.journal == p.backup.journal && RefusedReentries(b, open + {fc}) == {}
    requires IsRefused(f) ==> fc !in open
    ensures Alike(p, Transaction(c, p, fc, f, b).0, open)
    decreases b, 1
  {
    NestedCall(c, p, fc, f, b);
    if IsRefused(f) {
      assert NewMarks(p.backup, p.backup.SavePoint(fc)) == [Mark(Some(fc), p.backup.journal)];
      NamedOne(Mark(Some(fc), p.backup.journal), open);
    } else if f.backupStarts {
      var p1 := Pair(p.main.SavePoint(fc), p.backup.SavePoint(fc));
      BodiesAreAlike(c, p1, b, open + {fc});
      RunExtends(c, p1, b);
      WaysOutAreAlike(p, RunBody(c, p1, b).0, fc, open);
    }
  }

  /** Both ways out of a call, in terms of the marks of fc and the functions around it. */
  lemma WaysOut(d: Database, e: Database, fc: Name, open: set<Name>, named: seq<Mark>)
    requires Within(d.SavePoint(fc), e)
    requires named == [Mark(Some(fc), d.journal)] + Named(NewMarks(d.SavePoint(fc), e), open + {fc})
    ensures var left := UpTo(named, fc);
            && Named(NewMarks(d, e), open) == Named(named, open)
            && left != [] && e.RollbackTo(fc).journal == left[|left| - 1].journal
            && Named(NewMarks(d, e.RollbackTo(fc)), open) == Named(left, open)
  {
    RollbackSincePoint(d, e, fc, open + {fc});
    NamedTwice(NewMarks(d, e), open + {fc}, open);
    NamedTwice(NewMarks(d, e.RollbackTo(fc)), open + {fc}, open);
  }

  lemma WaysOutAreAlike(p: Pair, r: Pair, fc: Name, open: set<Name>)
    requires Within(p.main.SavePoint(fc), r.main) && Within(p.backup.SavePoint(fc), r.backup)
    requires p.main.journal == p.backup.journal
    requires Alike(Pair(p.main.SavePoint(fc), p.backup.SavePoint(fc)), r, open + {fc})
    ensures Alike(p, r, open) && Alike(p, Pair(r.main.RollbackTo(fc), r.backup.RollbackTo(fc)), open)
  {
    var named := [Mark(Some(fc), p.main.journal)] + Named(NewMarks(p.main.SavePoint(fc), r.main), open + {fc});
    WaysOut(p.main, r.main, fc, open, named);
    WaysOut(p.backup, r.backup, fc, open, named);
  }

  /** Without nested transactions a body sets no marks, and what nested calls meet does not matter. */
  lemma {:induction false} PlainBodiesMirror(c: Config, p: Pair, b: Body)
    requires c.backupDisables && p.backup.InTransaction() && p.main.journal == p.backup.journal
    ensures var q := RunBody(c, p, b).0;
            q.main.journal == q.backup.journal && q.main.marks == p.main.marks && q.backup.marks == p.backup.marks
    decreases b
  {
    match b
    case Return =>
    case Fail =>
    case Panic =>
    case Execute(stmt, next) => PlainBodiesMirror(c, Pair(p.main.Execute(stmt), p.backup.Execute(stmt)), next);
    case Nest(fc, f, body, ifNil, ifErr) =>
      PlainBodiesMirror(c, p, body);
      var (q, o) := Transaction(c, p, fc, f, body);
      assert Transaction(c, p, fc, f, body) == WithoutTransaction(c, p, body);
      PlainBodiesMirror(c, q, if o == Nil then ifNil else ifErr);
  }

  /** Conditions under which a body keeps the two databases equal: see MirrorsExactly. */
  predicate Mirrors(c: Config, b: Body) {
    c.backupDisables || (!c.mainDisables && RefusedReentries(b, {}) == {})
  }

  /**
   After any outermost call, however its body nests, fails, swallows errors or panics, the two
   databases are equal, unless the backup drops what the main database has just committed.
   */
  lemma OutermostCallsMirror(c: Config, p: Pair, fc: Name, f: Faults, b: Body)
    requires Mirrors(c, b) && p.main == p.backup && !p.main.InTransaction()
    ensures var (q, o) := Transaction(c, p, fc, f, b);
            q.main == q.backup <==> f.backupCommits || o != Nil || q.main.journal == p.main.journal
  {
    OutermostCall(c, p, fc, f, b);
    var begun := Pair(p.main.Begin(), p.backup.Begin());
    if c.backupDisables {
      PlainBodiesMirror(c, begun, b);
    } else {
      BodiesAreAlike(c, begun, b, {});
    }
  }

  /** A refused save point that is not inside a call of the same function is harmless. */
  lemma {:induction false} HarmlessRefusals(b: Body, open: set<Name>)
    ensures SavePointsAgree(b) ==> RefusedReentries(b, open) == {}
    ensures NoReentry(b) && open !! Names(b) ==> RefusedReentries(b, open) == {}
  {
    if NoReentry(b) {
      NoReentryBelow(b);
    }
    match b
    case Execute(_, next) => HarmlessRefusals(next, open);
    case Nest(fc, _, body, ifNil, ifErr) =>
      HarmlessRefusals(body, open + {fc});
      HarmlessRefusals(ifNil, open);
      HarmlessRefusals(ifErr, open);
    case _ =>
  }

  /** No call in the body meets a main database that refuses the save point its backup has set. */
  predicate SavePointsAgree(b: Body) {
    match b
    case Execute(_, next) => SavePointsAgree(next)
    case Nest(_, f, body, ifNil, ifErr) =>
      !IsRefused(f) && SavePointsAgree(body) && SavePointsAgree(ifNil) && SavePointsAgree(ifErr)
    case _ => true
  }

  // ---------- where they part ----------

  /** Statements one after the other. */
  function Straight(stmts: seq<Stmt>, next: Body): Body {
    if stmts == [] then next else Execute(stmts[0], Straight(stmts[1..], next))
  }

  function Executed(d: Database, stmts: seq<Stmt>): Database {
    Database(d.journal + stmts, d.marks)
  }

  lemma {:induction false} RunStraight(c: Config, p: Pair, stmts: seq<Stmt>, next: Body)
    ensures RunBody(c, p, Straight(stmts, next))
            == RunBody(c, Pair(Executed(p.main, stmts), Executed(p.backup, stmts)), next)
    decreases |stmts|
  {
    if stmts == [] {
      assert Executed(p.main, stmts) == p.main && Executed(p.backup, stmts) == p.backup;
    } else {
      var q := Pair(p.main.Execute(stmts[0]), p.backup.Execute(stmts[0]));
      RunStraight(c, q, stmts[1..], next);
      assert stmts == [stmts[0]] + stmts[1..];
      assert Executed(q.main, stmts[1..]) == Executed(p.main, stmts);
      assert Executed(q.backup, stmts[1..]) == Executed(p.backup, stmts);
    }
  }

  const REFUSED := Faults(true, false, true, true)

  /** A call of fc that executes some statements, calls fc again, is refused its save point, and then fails. */
  function RefusedInside(fc: Name, before: seq<Stmt>, again: Body, after: seq<Stmt>): Body {
    Straight(before, Nest(fc, REFUSED, again, Return, Straight(after, Fail)))
  }

  /** What such a call leaves: nothing in the main database, the statements before the re-entry in the backup. */
  lemma RefusedInsideLeaves(p: Pair, fc: Name, before: seq<Stmt>, again: Body, after: seq<Stmt>)
    requires p.main.InTransaction() && p.backup.InTransaction()
    ensures var (q, o) := Transaction(Config(false, false), p, fc, FINE, RefusedInside(fc, before, again, after));
            o == Error && q.main.journal == p.main.journal && q.backup.journal == p.backup.journal + before
  {
    var c := Config(false, false);
    var saved := Pair(p.main.SavePoint(fc), p.backup.SavePoint(fc));
    var inner := Nest(fc, REFUSED, again, Return, Straight(after, Fail));
    var there := Pair(Executed(saved.main, before), Executed(saved.backup, before));
    var left := there.(backup := there.backup.SavePoint(fc));
    NestedCall(c, p, fc, FINE, Straight(before, inner));
    RunStraight(c, saved, before, inner);
    NestedCall(c, there, fc, REFUSED, again);
    RunStraight(c, left, after, Fail);
    var ended := Pair(Executed(left.main, after), Executed(left.backup, after));
    assert RunBody(c, ended, Fail) == (ended, Error);
    assert RunBody(c, there, inner) == (ended, Error);
    UpToInTail(p.main.marks, [Mark(Some(fc), p.main.journal)], fc);
    var last := Mark(Some(fc), p.backup.journal + before);
    UpToInTail(saved.backup.marks, [last], fc);
    assert ended.main.marks == p.main.marks + [Mark(Some(fc), p.main.journal)];
    assert ended.backup.marks == saved.backup.marks + [last];
  }

  /** Swallowing such a failure parts the databases exactly when something was executed before the re-entry. */
  lemma RefusedReentryParts(p: Pair, fc: Name, before: seq<Stmt>, again: Body, after: seq<Stmt>, top: Name)
    requires p.main == p.backup && !p.main.InTransaction()
    ensures var b := Nest(fc, FINE, RefusedInside(fc, before, again, after), Return, Return);
            var q := Transaction(Config(false, false), p, top, FINE, b).0;
            q.main == q.backup <==> before == []
  {
    var c := Config(false, false);
    var b := Nest(fc, FINE, RefusedInside(fc, before, again, after), Return, Return);
    var begun := Pair(p.main.Begin(), p.backup.Begin());
    OutermostCall(c, p, top, FINE, b);
    RefusedInsideLeaves(begun, fc, before, again, after);
    var (q, o) := Transaction(c, begun, fc, FINE, RefusedInside(fc, before, again, after));
    assert RunBody(c, begun, b) == (q, Nil);
    assert |p.main.journal + before| == |p.main.journal| + |before|;
  }

  /** A main database without nested transactions and a backup with them part ways over a failure. */
  lemma IncompatiblePartWays(c: Config)
    requires c.mainDisables && !c.backupDisables
    ensures var b := Nest(1, FINE, Execute(7, Fail), Return, Return);
            var q := Transaction(c, Pair(Database([], []), Database([], [])), 0, FINE, b).0;
            RefusedReentries(b, {}) == {} && q == Pair(Database([7], []), Database([], []))
  {
    var inner := Execute(7, Fail);
    var b := Nest(1, FINE, inner, Return, Return);
    var p := Pair(Database([], [Mark(None, [])]), Database([], [Mark(None, [])]));
    var saved := p.(backup := p.backup.SavePoint(1));
    assert RunBody(c, saved, inner) == (Pair(saved.main.Execute(7), saved.backup.Execute(7)), Error);
    assert saved.backup.Execute(7).RollbackTo(1) == saved.backup;
    assert Transaction(c, p, 1, FINE, inner) == (Pair(p.main.Execute(7), saved.backup), Error);
    assert RunBody(c, p, b) == (Pair(p.main.Execute(7), saved.backup), Nil);
  }

  /** Equal databases stay equal under every outermost call whose refused re-entries are of these functions. */
  ghost predicate AlwaysMirrors(c: Config, refused: set<Name>) {
    forall p: Pair, fc: Name, f: Faults, b: Body |
      p.main == p.backup && !p.main.InTransaction() && f.backupCommits && RefusedReentries(b, {}) <= refused ::
      var q := Transaction(c, p, fc, f, b).0; q.main == q.backup
  }

  lemma {:induction false} StraightRefuses(stmts: seq<Stmt>, next: Body, open: set<Name>)
    ensures RefusedReentries(Straight(stmts, next), open) == RefusedReentries(next, open)
    decreases |stmts|
  {
    if stmts != [] {
      StraightRefuses(stmts[1..], next, open);
    }
  }

  /**
   Exactly when the databases always stay equal, commits of the backup aside: the backup has no nested
   transactions, or both have and no function may be refused a save point inside a call of itself.
   */
  lemma MirrorsExactly(c: Config, refused: set<Name>)
    ensures AlwaysMirrors(c, refused) <==> c.backupDisables || (!c.mainDisables && refused == {})
  {
    var p := Pair(Database([], []), Database([], []));
    if c.backupDisables || (!c.mainDisables && refused == {}) {
      forall p: Pair, fc: Name, f: Faults, b: Body |
        p.main == p.backup && !p.main.InTransaction() && f.backupCommits && RefusedReentries(b, {}) <= refused
        ensures var q := Transaction(c, p, fc, f, b).0; q.main == q.backup
      {
        OutermostCallsMirror(c, p, fc, f, b);
      }
    } else if c.mainDisables {
      IncompatiblePartWays(c);
      var b := Nest(1, FINE, Execute(7, Fail), Return, Return);
      assert Transaction(c, p, 0, FINE, b).0.main != Transaction(c, p, 0, FINE, b).0.backup;
    } else {
      var fc :| fc in refused;
      var b := Nest(fc, FINE, RefusedInside(fc, [7], Return, []), Return, Return);
      RefusedReentryParts(p, fc, [7], Return, [], 0);
      StraightRefuses([7], Nest(fc, REFUSED, Return, Return, Fail), {fc});
      assert {} + {fc} == {fc};
      assert RefusedReentries(b, {}) == RefusedReentries(RefusedInside(fc, [7], Return, []), {fc}) <= {fc};
    }
  }

  // ---------- failed calls leave no trace ----------

  /** An outermost call ends every transaction, never panics, and when it fails it has changed nothing. */
  lemma OutermostCallsAreAtomic(c: Config, p: Pair, fc: Name, f: Faults, b: Body)
    requires !p.main.InTransaction() && !p.backup.InTransaction()
    ensures var (q, o) := Transaction(c, p, fc, f, b);
            !q.main.InTransaction() && !q.backup.InTransaction() && o != Panicked && (o == Error ==> q == p)
  {
    OutermostCall(c, p, fc, f, b);
  }

  /** The functions called again from inside their own call. */
  function Reentered(b: Body): set<Name> {
    match b
    case Execute(_, next) => Reentered(next)
    case Nest(fc, _, body, ifNil, ifErr) =>
      (if fc in Names(body) then {fc} else {}) + Reentered(body) + Reentered(ifNil) + Reentered(ifErr)
    case _ => {}
  }

  predicate NoReentry(b: Body) {
    Reentered(b) == {}
  }

  lemma NoReentryBelow(b: Body)
    requires NoReentry(b)
    ensures b.Execute? ==> NoReentry(b.next)
    ensures b.Nest? ==> b.fc !in Names(b.body) && NoReentry(b.body) && NoReentry(b.ifNil) && NoReentry(b.ifErr)
  {
    match b
    case Nest(fc, _, body, ifNil, ifErr) =>
      assert fc in Names(body) ==> fc in Reentered(b);
      assert Reentered(body) + Reentered(ifNil) + Reentered(ifErr) <= Reentered(b);
    case _ =>
  }

  /** What a body should do to the content: a call that fails changes nothing. */
  function Ideal(journal: seq<Stmt>, b: Body): (seq<Stmt>, Outcome)
    decreases b
  {
    match b
    case Return => (journal, Nil)
    case Fail => (journal, Error)
    case Panic => (journal, Panicked)
    case Execute(stmt, next) => Ideal(journal + [stmt], next)
    case Nest(_, f, body, ifNil, ifErr) =>
      var (inner, o) := Ideal(journal, body);
      if f.backupStarts && f.mainStarts && o == Nil then Ideal(inner, ifNil) else Ideal(journal, ifErr)
  }

  lemma RollbackToOwn(d: Database, e: Database, fc: Name, names: set<Name>)
    requires Extends(d.SavePoint(fc), e, names) && fc !in names
    ensures e.RollbackTo(fc) == d.SavePoint(fc)
  {
    var marks := d.SavePoint(fc).marks;
    assert e.marks[..|marks|] == marks;
    assert e.marks[|d.marks|] == marks[|d.marks|];
  }

  /**
   With nested transactions on, and no function entered again from inside itself, the code does the ideal
   thing in both databases, whatever is refused.
   */
  lemma {:induction false} RunIsIdeal(c: Config, p: Pair, b: Body)
    requires c == Config(false, false) && NoReentry(b)
    requires p.main.InTransaction() && p.backup.InTransaction()
    ensures var (q, o) := RunBody(c, p, b);
            (q.main.journal, o) == Ideal(p.main.journal, b) && (q.backup.journal, o) == Ideal(p.backup.journal, b)
    decreases b
  {
    NoReentryBelow(b);
    match b
    case Return =>
    case Fail =>
    case Panic =>
    case Execute(stmt, next) => RunIsIdeal(c, Pair(p.main.Execute(stmt), p.backup.Execute(stmt)), next);
    case Nest(fc, f, body, ifNil, ifErr) =>
      NestedCall(c, p, fc, f, body);
      var p2 := Pair(p.main.SavePoint(fc), p.backup.SavePoint(fc));
      RunIsIdeal(c, p2, body);
      RunExtends(c, p2, body);
      RollbackToOwn(p.main, RunBody(c, p2, body).0.main, fc, Names(body));
      RollbackToOwn(p.backup, RunBody(c, p2, body).0.backup, fc, Names(body));
      var (q, o) := Transaction(c, p, fc, f, body);
      CallExtends(c, p, fc, f, body);
      RunIsIdeal(c, q, if o == Nil then ifNil else ifErr);
  }

  /** A function called again from inside itself takes its save point's name: the outer failure keeps a statement. */
  lemma ReentryLeavesTrace(fc: Name)
    ensures var b := ReentrantBody(fc);
            var q := Transaction(Config(false, false), Pair(Database([], []), Database([], [])), 0, FINE, b).0;
            Reentered(b) == {fc} && Ideal([], b) == ([], Nil) && q == Pair(Database([7], []), Database([7], []))
  {
    var c := Config(false, false);
    var again := Nest(fc, FINE, Return, Fail, Fail);
    var inner := Execute(7, again);
    var begun := Database([], [Mark(None, [])]);
    var saved := begun.SavePoint(fc);
    var d := saved.Execute(7);
    var e := d.SavePoint(fc);
    assert Transaction(c, Pair(d, d), fc, FINE, Return) == (Pair(e, e), Nil);
    assert RunBody(c, Pair(d, d), again) == (Pair(e, e), Error);
    assert RunBody(c, Pair(saved, saved), inner) == (Pair(e, e), Error);
    assert e.RollbackTo(fc) == e;
    NestedCall(c, Pair(begun, begun), fc, FINE, inner);
    assert Transaction(c, Pair(begun, begun), fc, FINE, inner) == (Pair(e, e), Error);
    assert RunBody(c, Pair(begun, begun), ReentrantBody(fc)) == (Pair(e, e), Nil);
    OutermostCall(c, Pair(Database([], []), Database([], [])), 0, FINE, ReentrantBody(fc));
    assert Ideal([7], Return) == ([7], Nil);
    assert Ideal([7], again) == ([7], Error);
    assert [] + [7] == [7];
    assert Ideal([], inner) == ([7], Error);
    assert Names(Return) == {} && Names(Fail) == {};
    assert Names(again) == {fc} + Names(Return) + Names(Fail) + Names(Fail) == {fc};
    assert Reentered(again) == {} && Names(inner) == {fc};
  }

  /** A call of fc that executes a statement, calls fc again with success, and then fails. */
  function ReentrantBody(fc: Name): Body {
    Nest(fc, FINE, Execute(7, Nest(fc, FINE, Return, Fail, Fail)), Return, Return)
  }

  /** A whole transaction has the ideal effect when it commits, and none otherwise. */
  lemma OutermostCallsAreIdeal(c: Config, p: Pair, fc: Name, f: Faults, b: Body)
    requires c == Config(false, false) && NoReentry(b)
    requires !p.main.InTransaction() && !p.backup.InTransaction()
    ensures var (q, o) := Transaction(c, p, fc, f, b);
            var (journal, ended) := Ideal(p.main.journal, b);
            && (o == Nil <==> f.backupStarts && f.mainStarts && ended == Nil && f.mainCommits)
            && q.main.journal == (if o == Nil then journal else p.main.journal)
            && q.backup.journal
               == if o == Nil && f.backupCommits then Ideal(p.backup.journal, b).0 else p.backup.journal
  {
    OutermostCall(c, p, fc, f, b);
    RunIsIdeal(c, Pair(p.main.Begin(), p.backup.Begin()), b);
  }

  /** A transaction has the ideal effect on both databases. */
  ghost predicate IsIdeal(c: Config, p: Pair, fc: Name, f: Faults, b: Body) {
    var (q, o) := Transaction(c, p, fc, f, b);
    && q.main.journal == (if o == Nil then Ideal(p.main.journal, b).0 else p.main.journal)
    && q.backup.journal == if o == Nil && f.backupCommits then Ideal(p.backup.journal, b).0 else p.backup.journal
  }

  /** Transactions of which only these functions are entered again from inside themselves have the ideal effect. */
  ghost predicate AlwaysIdeal(reentered: set<Name>) {
    forall p: Pair, fc: Name, f: Faults, b: Body |
      !p.main.InTransaction() && !p.backup.InTransaction() && Reentered(b) <= reentered ::
      IsIdeal(Config(false, false), p, fc, f, b)
  }

  /** With nested transactions on, transactions are always ideal exactly when no function may be entered again. */
  lemma IdealExactly(reentered: set<Name>)
    ensures AlwaysIdeal(reentered) <==> reentered == {}
  {
    var c := Config(false, false);
    if reentered == {} {
      forall p: Pair, fc: Name, f: Faults, b: Body |
        !p.main.InTransaction() && !p.backup.InTransaction() && Reentered(b) <= reentered
        ensures IsIdeal(c, p, fc, f, b)
      {
        OutermostCallsAreIdeal(c, p, fc, f, b);
      }
    } else {
      var fc :| fc in reentered;
      var p := Pair(Database([], []), Database([], []));
      ReentryLeavesTrace(fc);
      assert !IsIdeal(c, p, 0, FINE, ReentrantBody(fc));
    }
  }

  // ---------- without nested transactions ----------

  /** A body in which calls inside it are part of it: what they execute stays, also when they fail. */
  function Flat(journal: seq<Stmt>, b: Body): (seq<Stmt>, Outcome)
    decreases b
  {
    match b
    case Return => (journal, Nil)
    case Fail => (journal, Error)
    case Panic => (journal, Panicked)
    case Execute(stmt, next) => Flat(journal + [stmt], next)
    case Nest(_, _, body, ifNil, ifErr) =>
      var (inner, o) := Flat(journal, body);
      Flat(inner, if o == Nil then ifNil else ifErr)
  }

  lemma {:induction false} RunIsFlat(c: Config, p: Pair, b: Body)
    requires c.backupDisables && p.backup.InTransaction()
    ensures var (q, o) := RunBody(c, p, b);
            && (q.main.journal, o) == Flat(p.main.journal, b) && (q.backup.journal, o) == Flat(p.backup.journal, b)
            && q.main.marks == p.main.marks && q.backup.marks == p.backup.marks
    decreases b
  {
    match b
    case Return =>
    case Fail =>
    case Panic =>
    case Execute(stmt, next) => RunIsFlat(c, Pair(p.main.Execute(stmt), p.backup.Execute(stmt)), next);
    case Nest(fc, f, body, ifNil, ifErr) =>
      RunIsFlat(c, p, body);
      assert Transaction(c, p, fc, f, body) == WithoutTransaction(c, p, body);
      var (q, o) := Transaction(c, p, fc, f, body);
      RunIsFlat(c, q, if o == Nil then ifNil else ifErr);
  }

  /** Without nested transactions in the backup a whole transaction has the flat effect on both databases, or none. */
  lemma OutermostCallsAreFlat(c: Config, p: Pair, fc: Name, f: Faults, b: Body)
    requires c.backupDisables && !p.main.InTransaction() && !p.backup.InTransaction()
    ensures var (q, o) := Transaction(c, p, fc, f, b);
            var (journal, ended) := Flat(p.main.journal, b);
            && (o == Nil <==> f.backupStarts && f.mainStarts && ended == Nil && f.mainCommits)
            && q.main.journal == (if o == Nil then journal else p.main.journal)
            && q.backup.journal == if o == Nil && f.backupCommits then Flat(p.backup.journal, b).0 else p.backup.journal
  {
    OutermostCall(c, p, fc, f, b);
    RunIsFlat(c, Pair(p.main.Begin(), p.backup.Begin()), b);
  }

  /** A body in which only the backup's save points are asked for: refused calls are not made, others may be undone. */
  function Mixed(main: seq<Stmt>, backup: seq<Stmt>, b: Body): (seq<Stmt>, seq<Stmt>, Outcome)
    decreases b
  {
    match b
    case Return => (main, backup, Nil)
    case Fail => (main, backup, Error)
    case Panic => (main, backup, Panicked)
    case Execute(stmt, next) => Mixed(main + [stmt], backup + [stmt], next)
    case Nest(_, f, body, ifNil, ifErr) =>
      var (m, k, o) := Mixed(main, backup, body);
      if !f.backupStarts then Mixed(main, backup, ifErr)
      else if o == Nil then Mixed(m, k, ifNil)
      else Mixed(m, backup, ifErr)
  }

  /** With nested transactions in the backup alone, a failed call is undone there and stays in the main database. */
  lemma {:induction false} RunIsMixed(c: Config, p: Pair, b: Body)
    requires c == Config(true, false) && NoReentry(b)
    requires p.main.InTransaction() && p.backup.InTransaction()
    ensures var (q, o) := RunBody(c, p, b);
            (q.main.journal, q.backup.journal, o) == Mixed(p.main.journal, p.backup.journal, b)
    decreases b
  {
    NoReentryBelow(b);
    match b
    case Return =>
    case Fail =>
    case Panic =>
    case Execute(stmt, next) => RunIsMixed(c, Pair(p.main.Execute(stmt), p.backup.Execute(stmt)), next);
    case Nest(fc, f, body, ifNil, ifErr) =>
      var p2 := p.(backup := p.backup.SavePoint(fc));
      RunIsMixed(c, p2, body);
      RunExtends(c, p2, body);
      RollbackToOwn(p.backup, RunBody(c, p2, body).0.backup, fc, Names(body));
      MixedCall(c, p, fc, f, body);
      var (q, o) := Transaction(c, p, fc, f, body);
      CallExtends(c, p, fc, f, body);
      RunIsMixed(c, q, if o == Nil then ifNil else ifErr);
  }

  lemma OutermostCallsAreMixed(c: Config, p: Pair, fc: Name, f: Faults, b: Body)
    requires c == Config(true, false) && NoReentry(b) && !p.main.InTransaction() && !p.backup.InTransaction()
    ensures var (q, o) := Transaction(c, p, fc, f, b);
            var (main, backup, ended) := Mixed(p.main.journal, p.backup.journal, b);
            && (o == Nil <==> f.backupStarts && f.mainStarts && ended == Nil && f.mainCommits)
            && q.main.journal == (if o == Nil then main else p.main.journal)
            && q.backup.journal == if o == Nil && f.backupCommits then backup else p.backup.journal
  {
    OutermostCall(c, p, fc, f, b);
    RunIsMixed(c, Pair(p.main.Begin(), p.backup.Begin()), b);
  }

  lemma MixedCall(c: Config, p: Pair, fc: Name, f: Faults, b: Body)
    requires c == Config(true, false) && p.main.InTransaction() && p.backup.InTransaction()
    ensures Transaction(c, p, fc, f, b) ==
            if !f.backupStarts then (p, Error)
            else
              var (r, ended) := RunBody(c, p.(backup := p.backup.SavePoint(fc)), b);
              if ended == Nil then (r, Nil) else (r.(backup := r.backup.RollbackTo(fc)), Error)
  {
    if f.backupStarts {
      var p1 := p.(backup := p.backup.SavePoint(fc));
      assert MainTransaction(c, p1, fc, f, b) == RunBody(c, p1, b);
    }
  }
}
