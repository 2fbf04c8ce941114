/** Bringing the accounts database up to the current schema, through any number of runs that may each fail anywhere. */
module Migrate {
  import opened SqlSplit

  /** What is committed: the rows of the version table, and every statement ever run, in order. */
  datatype Db = Db(versions: seq<int>, ran: seq<string>)

  const EMPTY_DB: Db := Db([], [])

  /** The `k`-th call to the database fails; past the end of the list nothing does. */
  predicate Fault(faults: seq<bool>, k: nat) {
    k < |faults| && faults[k]
  }

  predicate Smooth(faults: seq<bool>, k: nat, n: nat) {
    forall j: nat :: k <= j < k + n ==> !Fault(faults, j)
  }

  /** A script as the statements it is broken into. */
  type Script = seq<string>

  function SplitAll(texts: seq<string>): seq<Script> {
    seq(|texts|, i requires 0 <= i < |texts| => Statements(Pieces(Normal, texts[i])))
  }

  /** Begin, every statement, the version row, and commit. */
  function Calls(script: Script): nat {
    |script| + 3
  }

  function MaxVersion(rows: seq<int>): int {
    if rows == [] then 0
    else
      var m := MaxVersion(rows[..|rows| - 1]);
      var last := rows[|rows| - 1];
      if |rows| == 1 || last > m then last else m
  }

  /** The version recorded is the highest of the rows, whatever their order. */
  lemma {:induction false} MaxVersionIsHighest(rows: seq<int>, i: nat)
    requires i < |rows|
    ensures MaxVersion(rows) in rows && rows[i] <= MaxVersion(rows)
  {
    var front := rows[..|rows| - 1];
    if front != [] {
      MaxVersionIsHighest(front, if i < |front| then i else 0);
      assert MaxVersion(rows) == MaxVersion(front) || MaxVersion(rows) == rows[|rows| - 1];
    }
  }

  function Applied(db: Db, script: Script, version: int): Db {
    Db(db.versions + [version], db.ran + script)
  }

  /** The scripts from the `i`-th on, each one transaction, stopping at the first call that fails. */
  function MigrateFrom(db: Db, scripts: seq<Script>, i: int, faults: seq<bool>, k: nat): (Db, bool)
    requires i >= 0
    decreases |scripts| - i
  {
    if i >= |scripts| then (db, true)
    else if !Smooth(faults, k, Calls(scripts[i])) then (db, false)
    else MigrateFrom(Applied(db, scripts[i], i + 1), scripts, i + 1, faults, k + Calls(scripts[i]))
  }

  function MigrateSpec(db: Db, scripts: seq<Script>, faults: seq<bool>): (Db, bool)
    requires MaxVersion(db.versions) >= 0
  {
    if Fault(faults, 0) || Fault(faults, 1) then (db, false)
    else MigrateFrom(db, scripts, MaxVersion(db.versions), faults, 2)
  }

  class Database {
    var versions: seq<int>
    var ran: seq<string>

    ghost function View(): Db
      reads this
    {
      Db(versions, ran)
    }

    constructor ()
      ensures View() == EMPTY_DB
    {
      versions, ran := [], [];
    }

    /** One script in one transaction: what it did is staged, and kept only by the commit. */
    method RunScript(script: Script, version: int, faults: seq<bool>, from: nat) returns (ok: bool)
      modifies this
      ensures ok == Smooth(faults, from, Calls(script))
      ensures View() == if ok then Applied(old(View()), script, version) else old(View())
    {
      var k := from;
      if Fault(faults, k) {
        return false;
      }
      k := k + 1;
      var staged: Script := [];
      for j := 0 to |script|
        invariant staged == script[..j] && k == from + 1 + j && Smooth(faults, from, j + 1)
        invariant View() == old(View())
      {
        if Fault(faults, k) {
          return false;
        }
        staged, k := staged + [script[j]], k + 1;
      }
      if Fault(faults, k) || Fault(faults, k + 1) {
        return false;
      }
      assert staged == script;
      versions, ran := versions + [version], ran + staged;
      ok := true;
    }

    method Migrate(texts: seq<string>, faults: seq<bool>) returns (ok: bool)
      requires MaxVersion(versions) >= 0
      modifies this
      ensures (View(), ok) == MigrateSpec(old(View()), SplitAll(texts), faults)
    {
      if Fault(faults, 0) || Fault(faults, 1) {
        return false;
      }
      ghost var scripts, goal := SplitAll(texts), MigrateSpec(View(), SplitAll(texts), faults);
      var i, k := MaxVersion(versions), 2;
      while i < |texts|
        invariant i >= 0 && k >= 0
        invariant MigrateFrom(View(), scripts, i, faults, k) == goal
      {
        var script := SplitStatements(texts[i]);
        assert script == scripts[i];
        var done := RunScript(script, i + 1, faults, k);
        if !done {
          return false;
        }
        i, k := i + 1, k + Calls(script);
      }
      ok := true;
    }
  }

  function AllStatements(scripts: seq<Script>): Script {
    if scripts == [] then []
    else AllStatements(scripts[..|scripts| - 1]) + scripts[|scripts| - 1]
  }

  /** The database holds exactly the first `v` of the scripts there will ever be, each run once and in order. */
  ghost predicate AtVersion(db: Db, every: seq<Script>, v: nat) {
    && v <= |every|
    && |db.versions| == v && (forall i :: 0 <= i < v ==> db.versions[i] == i + 1)
    && db.ran == AllStatements(every[..v])
  }

  lemma {:induction false} MaxOfRows(rows: seq<int>)
    requires forall i :: 0 <= i < |rows| ==> rows[i] == i + 1
    ensures MaxVersion(rows) == |rows|
  {
    if rows != [] {
      MaxOfRows(rows[..|rows| - 1]);
    }
  }

  lemma AppliedNext(db: Db, every: seq<Script>, v: nat)
    requires AtVersion(db, every, v) && v < |every|
    ensures AtVersion(Applied(db, every[v], v + 1), every, v + 1)
  {
    assert every[..v + 1][..v] == every[..v];
  }

  function CallsOf(scripts: seq<Script>, i: nat): nat
    decreases |scripts| - i
  {
    if i >= |scripts| then 0 else Calls(scripts[i]) + CallsOf(scripts, i + 1)
  }

  lemma SmoothSplits(faults: seq<bool>, k: nat, m: nat, n: nat)
    ensures Smooth(faults, k, m + n) <==> Smooth(faults, k, m) && Smooth(faults, k + m, n)
  {
    if Smooth(faults, k, m + n) {
      assert forall j: nat :: k <= j < k + m ==> !Fault(faults, j);
      assert forall j: nat :: k + m <= j < k + m + n ==> !Fault(faults, j);
    }
    if Smooth(faults, k, m) && Smooth(faults, k + m, n) {
      assert forall j: nat :: k <= j < k + m + n ==> !Fault(faults, j);
    }
  }

  lemma {:induction false} FromKeepsVersion(db: Db, every: seq<Script>, n: nat, v: nat, faults: seq<bool>, k: nat)
    returns (w: nat)
    requires AtVersion(db, every, v) && n <= |every|
    ensures var (db', ok) := MigrateFrom(db, every[..n], v, faults, k);
            && AtVersion(db', every, w) && v <= w && (v < w ==> w <= n)
            && (ok ==> w >= n) && (ok <==> Smooth(faults, k, CallsOf(every[..n], v)))
            && (w == v ==> db' == db)
    decreases n - v
  {
    w := v;
    if v < n {
      var cost := Calls(every[..n][v]);
      SmoothSplits(faults, k, cost, CallsOf(every[..n], v + 1));
      if Smooth(faults, k, cost) {
        AppliedNext(db, every, v);
        w := FromKeepsVersion(Applied(db, every[v], v + 1), every, n, v + 1, faults, k + cost);
      }
    }
  }

  /** One run of a program that carries the first `n` scripts, wherever the database stands: it stays at some version,
      never goes back, never passes `n` on its own account, and succeeds exactly when no call it makes fails, ending
      at the full list. */
  lemma OneRun(db: Db, every: seq<Script>, n: nat, v: nat, faults: seq<bool>) returns (w: nat)
    requires AtVersion(db, every, v) && n <= |every|
    ensures MaxVersion(db.versions) == v
    ensures var (db', ok) := MigrateSpec(db, every[..n], faults);
            && AtVersion(db', every, w) && v <= w && (v < w ==> w <= n)
            && (ok ==> w == if v < n then n else v)
            && (ok <==> Smooth(faults, 0, 2 + CallsOf(every[..n], v)))
            && (w == v ==> db' == db)
  {
    MaxOfRows(db.versions);
    SmoothSplits(faults, 0, 2, CallsOf(every[..n], v));
    assert Smooth(faults, 0, 2) <==> !Fault(faults, 0) && !Fault(faults, 1);
    w := FromKeepsVersion(db, every, n, v, faults, 2);
    if Fault(faults, 0) || Fault(faults, 1) {
      w := v;
    }
  }

  /** Running again after a run that succeeded changes nothing, whatever fails. */
  lemma AgainChangesNothing(db: Db, every: seq<Script>, n: nat, v: nat, faults: seq<bool>, again: seq<bool>)
    requires AtVersion(db, every, v) && n <= |every|
    ensures MaxVersion(db.versions) >= 0
    ensures var (db', ok) := MigrateSpec(db, every[..n], faults);
            ok ==> MaxVersion(db'.versions) >= 0 && MigrateSpec(db', every[..n], again).0 == db'
  {
    var w := OneRun(db, every, n, v, faults);
    var (db', ok) := MigrateSpec(db, every[..n], faults);
    if ok {
      var _ := OneRun(db', every, n, w, again);
    }
  }

  /** A start of some release of the program: how many scripts it carries, and which of its calls fail. */
  datatype Attempt = Attempt(n: nat, faults: seq<bool>)

  /** Starts one after another, each of a release that carries the first so many texts. */
  ghost predicate Reaches(db: Db, texts: seq<string>, attempts: seq<Attempt>, end: Db)
    decreases |attempts|
  {
    if attempts == [] then end == db
    else
      var a := attempts[0];
      && a.n <= |texts| && MaxVersion(db.versions) >= 0
      && Reaches(MigrateSpec(db, SplitAll(texts[..a.n]), a.faults).0, texts, attempts[1..], end)
  }

  /** A release that carries the first `n` texts carries the first `n` scripts. */
  lemma SplitPrefix(texts: seq<string>, n: nat)
    requires n <= |texts|
    ensures SplitAll(texts[..n]) == SplitAll(texts)[..n]
  {
  }

  lemma {:induction false} StartsCommitAPrefix(db: Db, texts: seq<string>, v: nat, attempts: seq<Attempt>, end: Db)
    returns (w: nat)
    requires AtVersion(db, SplitAll(texts), v) && Reaches(db, texts, attempts, end)
    ensures AtVersion(end, SplitAll(texts), w) && v <= w && MaxVersion(end.versions) == w
    decreases |attempts|
  {
    if attempts == [] {
      w := v;
      MaxOfRows(end.versions);
    } else {
      var a := attempts[0];
      SplitPrefix(texts, a.n);
      var next := OneRun(db, SplitAll(texts), a.n, v, a.faults);
      w := StartsCommitAPrefix(MigrateSpec(db, SplitAll(texts[..a.n]), a.faults).0, texts, next, attempts[1..], end);
    }
  }

  /** A new database is where the first run starts from. */
  lemma NewDatabase(every: seq<Script>)
    ensures AtVersion(EMPTY_DB, every, 0)
  {
    assert every[..0] == [];
  }

  /** From a new database, after any starts of any releases, newer or older, failing wherever they may: what was run is
      exactly the first `w` of the migration texts, each split, run once and in order,
          and `w` is the version recorded. */
  lemma EveryRunCommitsAPrefix(texts: seq<string>, attempts: seq<Attempt>, end: Db) returns (w: nat)
    requires Reaches(EMPTY_DB, texts, attempts, end)
    ensures w <= |texts| && MaxVersion(end.versions) == w && end.ran == AllStatements(SplitAll(texts[..w]))
    ensures end.versions == seq(w, i => i + 1)
  {
    NewDatabase(SplitAll(texts));
    w := StartsCommitAPrefix(EMPTY_DB, texts, 0, attempts, end);
    SplitPrefix(texts, w);
  }
}
