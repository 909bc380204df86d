/** Transaction over two open databases, changed in place. */
module TransactionRunner {
  import opened Basics
  import opened MirroredTransactions

  class Connection {
    var journal: seq<Stmt>
    var marks: seq<Mark>

    ghost function Value(): Database
      reads this
    {
      Database(journal, marks)
    }

    constructor (journal: seq<Stmt>)
      ensures Value() == Database(journal, [])
    {
      this.journal, marks := journal, [];
    }

    method Begin()
      modifies this
      ensures Value() == old(Value()).Begin()
    {
      marks := [Mark(None, journal)];
    }

    method SavePoint(name: Name)
      modifies this
      ensures Value() == old(Value()).SavePoint(name)
    {
      marks := marks + [Mark(Some(name), journal)];
    }

    method RollbackTo(name: Name)
      modifies this
      ensures Value() == old(Value()).RollbackTo(name)
    {
      var i := |marks|;
      while i > 0
        invariant 0 <= i <= |marks| && marks == old(marks) && journal == old(journal)
        invariant forall k | i <= k < |marks| :: marks[k].name != Some(name)
      {
        i := i - 1;
        if marks[i].name == Some(name) {
          journal, marks := marks[i].journal, marks[..i + 1];
          return;
        }
      }
    }

    method Commit()
      modifies this
      ensures Value() == old(Value()).Commit()
    {
      marks := [];
    }

    method Rollback()
      modifies this
      ensures Value() == old(Value()).Rollback()
    {
      if marks != [] {
        journal, marks := marks[0].journal, [];
      }
    }

    method Execute(stmt: Stmt)
      modifies this
      ensures Value() == old(Value()).Execute(stmt)
    {
      journal := journal + [stmt];
    }
  }

  class Mirror {
    const c: Config
    const main: Connection
    const backup: Connection

    ghost predicate Valid() {
      main != backup
    }

    ghost function Both(): Pair
      reads main, backup
    {
      Pair(main.Value(), backup.Value())
    }

    constructor (c: Config, main: Connection, backup: Connection)
      requires main != backup
      ensures Valid() && this.c == c && this.main == main && this.backup == backup
    {
      this.c, this.main, this.backup := c, main, backup;
    }

    method RunBody(b: Body) returns (o: Outcome)
      requires Valid()
      modifies main, backup
      ensures (Both(), o) == MirroredTransactions.RunBody(c, old(Both()), b)
      decreases b, 0
    {
      match b
      case Return => return Nil;
      case Fail => return Error;
      case Panic => return Panicked;
      case Execute(stmt, next) =>
        main.Execute(stmt);
        backup.Execute(stmt);
        o := RunBody(next);
      case Nest(fc, f, body, ifNil, ifErr) =>
        var err := Transaction(fc, f, body);
        if err == Nil {
          o := RunBody(ifNil);
        } else {
          o := RunBody(ifErr);
        }
    }

    /** The ORM's own transaction, on the main database alone; a panic goes on after the rollback. */
    method MainTransaction(fc: Name, f: Faults, b: Body) returns (o: Outcome)
      requires Valid()
      modifies main, backup
      ensures (Both(), o) == MirroredTransactions.MainTransaction(c, old(Both()), fc, f, b)
      decreases b, 1
    {
      if main.marks != [] {
        if !c.mainDisables {
          if !f.mainStarts {
            return Error;
          }
          main.SavePoint(fc);
        }
        o := RunBody(b);
        if !c.mainDisables && o != Nil {
          main.RollbackTo(fc);
        }
        return o;
      }
      if !f.mainStarts {
        return Error;
      }
      main.Begin();
      o := RunBody(b);
      if o != Nil {
        main.Rollback();
        return o;
      }
      if !f.mainCommits {
        main.Rollback();
        return Error;
      }
      main.Commit();
      return Nil;
    }

    method RunFuncWithoutTransaction(b: Body) returns (err: Outcome)
      requires Valid()
      modifies main, backup
      ensures (Both(), err) == WithoutTransaction(c, old(Both()), b)
      decreases b, 2
    {
      err := RunBody(b);
      if err == Panicked {
        err := Error;
      }
    }

    method RunFuncWithNestedTransaction(fc: Name, f: Faults, b: Body) returns (err: Outcome)
      requires Valid()
      modifies main, backup
      ensures (Both(), err) == WithNestedTransaction(c, old(Both()), fc, f, b)
      decreases b, 2
    {
      if !f.backupStarts {
        return Error;
      }
      backup.SavePoint(fc);
      err := MainTransaction(fc, f, b);
      if err == Panicked {
        err := Error;
      }
      if err != Nil {
        backup.RollbackTo(fc);
      }
    }

    method RunFuncWithTransaction(fc: Name, f: Faults, b: Body) returns (err: Outcome)
      requires Valid()
      modifies main, backup
      ensures (Both(), err) == WithTransaction(c, old(Both()), fc, f, b)
      decreases b, 2
    {
      if !f.backupStarts {
        return Error;
      }
      backup.Begin();
      err := MainTransaction(fc, f, b);
      if err == Panicked {
        err := Error;
      }
      if err != Nil {
        backup.Rollback();
        return;
      }
      if f.backupCommits {
        backup.Commit();
      } else {
        backup.Rollback();
      }
    }

    method Transaction(fc: Name, f: Faults, b: Body) returns (err: Outcome)
      requires Valid()
      modifies main, backup
      ensures (Both(), err) == MirroredTransactions.Transaction(c, old(Both()), fc, f, b)
      decreases b, 3
    {
      if backup.marks != [] {
        if !c.backupDisables {
          err := RunFuncWithNestedTransaction(fc, f, b);
        } else {
          err := RunFuncWithoutTransaction(b);
        }
        return;
      }
      err := RunFuncWithTransaction(fc, f, b);
    }
  }
}
