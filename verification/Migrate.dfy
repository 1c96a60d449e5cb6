/** The SQL migration runner: runs that may die between any two statements, and what the
    database holds after any number of them. */
module Migrate {
  import opened Collections

  /** What a migration file does to the `tracks` table, whose presence marks a bootstrapped database. */
  datatype Effect = Keeps | Creates | Drops

  /** A migration file: its version, and what its SQL does to `tracks`. */
  datatype File = File(version: string, effect: Effect)

  /** `applied` is the schema: the files whose SQL has been committed, in order. `stamped` says
      that V001 was recorded without being applied. */
  datatype Db = Db(hasTable: bool, recorded: set<string>, applied: seq<File>, tracks: bool, stamped: bool)

  datatype Outcome = Outcome(db: Db, completed: bool)

  const V001 := "V001"

  function TracksAfter(tracks: bool, e: Effect): bool {
    match e
    case Keeps => tracks
    case Creates => true
    case Drops => false
  }

  /** One transaction: the file's SQL and the insert of its version. */
  function Commit(db: Db, f: File): Db {
    db.(recorded := db.recorded + {f.version}, applied := db.applied + [f], tracks := TracksAfter(db.tracks, f.effect))
  }

  function CommitAll(db: Db, fs: seq<File>): Db
    decreases fs
  {
    if fs == [] then db else CommitAll(Commit(db, fs[0]), fs[1..])
  }

  predicate NeedsStamp(db: Db) {
    V001 !in db.recorded && db.tracks
  }

  function Stamp(db: Db): Db {
    db.(recorded := db.recorded + {V001}, stamped := true)
  }

  /** The loop over the files. `seen` is the set of versions fetched before the loop; the process
      dies after `budget` more transactions, and an insert of a recorded version aborts the run. */
  function ApplyFrom(db: Db, files: seq<File>, seen: set<string>, budget: nat): Outcome
    decreases files
  {
    if files == [] then Outcome(db, true)
    else if files[0].version in seen then ApplyFrom(db, files[1..], seen, budget)
    else if budget == 0 || files[0].version in db.recorded then Outcome(db, false)
    else ApplyFrom(Commit(db, files[0]), files[1..], seen, budget - 1)
  }

  /** One run that dies after `budget` writing statements, or completes. */
  function Run(db: Db, files: seq<File>, budget: nat): Outcome {
    if budget == 0 then Outcome(db, false)
    else
      var ready := db.(hasTable := true);
      if !NeedsStamp(db) then ApplyFrom(ready, files, ready.recorded, budget - 1)
      else if budget == 1 then Outcome(ready, false)
      else ApplyFrom(Stamp(ready), files, Stamp(ready).recorded, budget - 2)
  }

  /** A budget no run can exhaust. */
  function Enough(files: seq<File>): nat {
    |files| + 2
  }

  function RunMany(db: Db, files: seq<File>, budgets: seq<nat>): Db {
    if budgets == [] then db
    else Run(RunMany(db, files, budgets[..|budgets| - 1]), files, budgets[|budgets| - 1]).db
  }

  /** Any number of interrupted runs, then one that is left alone. */
  function Finally(db: Db, files: seq<File>, budgets: seq<nat>): Outcome {
    Run(RunMany(db, files, budgets), files, Enough(files))
  }

  // ---------------------------------------------------------------------------
  // The runner as a program
  // ---------------------------------------------------------------------------

  class Database {
    var hasTable: bool
    var recorded: set<string>
    var applied: seq<File>
    var tracks: bool
    var stamped: bool

    ghost function View(): Db
      reads this
    {
      Db(hasTable, recorded, applied, tracks, stamped)
    }

    /** migrate.run, killed after `budget` writing statements. */
    method Migrate(files: seq<File>, budget: nat) returns (completed: bool)
      modifies this
      ensures Outcome(View(), completed) == Run(old(View()), files, budget)
    {
      if budget == 0 {
        return false;
      }
      var left: nat := budget - 1;
      hasTable := true;
      if V001 !in recorded && tracks {
        if left == 0 {
          return false;
        }
        recorded, stamped := recorded + {V001}, true;
        left := left - 1;
      }
      var seen := recorded;
      var i := 0;
      assert files[0..] == files;
      ghost var start, room := View(), left;
      while i < |files|
        invariant i <= |files|
        invariant ApplyFrom(View(), files[i..], seen, left) == ApplyFrom(start, files, seen, room)
      {
        var f := files[i];
        assert files[i..][0] == f && files[i..][1..] == files[i + 1..];
        if f.version !in seen {
          if left == 0 || f.version in recorded {
            return false;
          }
          applied, tracks := applied + [f], TracksAfter(tracks, f.effect);
          recorded := recorded + {f.version};
          left := left - 1;
        }
        i := i + 1;
      }
      return true;
    }
  }

  // ---------------------------------------------------------------------------
  // What one run does
  // ---------------------------------------------------------------------------

  function Versions(fs: seq<File>): set<string> {
    set f | f in fs :: f.version
  }

  ghost predicate DistinctVersions(fs: seq<File>) {
    forall i, j | 0 <= i < j < |fs| :: fs[i].version != fs[j].version
  }

  /** The files still to apply, in order. */
  function Pending(files: seq<File>, done: set<string>): seq<File> {
    if files == [] then []
    else (if files[0].version in done then [] else [files[0]]) + Pending(files[1..], done)
  }

  function Least(a: nat, b: nat): (m: nat)
    ensures m <= a && m <= b && (m == a || m == b)
  {
    if a < b then a else b
  }

  lemma {:induction false} VersionsCons(f: File, fs: seq<File>)
    ensures Versions([f] + fs) == {f.version} + Versions(fs)
  {
  }

  lemma {:induction false} VersionsConcat(a: seq<File>, b: seq<File>)
    ensures Versions(a + b) == Versions(a) + Versions(b)
  {
  }

  lemma {:induction false} CommitAllFacts(db: Db, fs: seq<File>)
    ensures var r := CommitAll(db, fs);
            && r.applied == db.applied + fs
            && r.recorded == db.recorded + Versions(fs)
            && r.hasTable == db.hasTable && r.stamped == db.stamped
    decreases fs
  {
    if fs != [] {
      var f, rest := fs[0], fs[1..];
      CommitAllFacts(Commit(db, f), rest);
      assert fs == [f] + rest;
      VersionsCons(f, rest);
      Assoc(db.applied, [f], rest);
    }
  }

  lemma {:induction false} PendingMember(files: seq<File>, done: set<string>, f: File)
    ensures f in Pending(files, done) <==> f in files && f.version !in done
  {
    if files != [] {
      assert files == [files[0]] + files[1..];
      PendingMember(files[1..], done, f);
    }
  }

  lemma {:induction false} PendingDistinct(files: seq<File>, done: set<string>)
    requires DistinctVersions(files)
    ensures DistinctVersions(Pending(files, done))
  {
    if files != [] {
      var rest := Pending(files[1..], done);
      PendingDistinct(files[1..], done);
      forall i | 0 <= i < |rest| ensures rest[i].version != files[0].version {
        PendingMember(files[1..], done, rest[i]);
        var j :| 0 <= j < |files[1..]| && files[1..][j] == rest[i];
        assert files[j + 1] == rest[i];
      }
    }
  }

  lemma {:induction false} TailDistinct(fs: seq<File>)
    requires fs != [] && DistinctVersions(fs)
    ensures DistinctVersions(fs[1..])
    ensures fs[0].version !in Versions(fs[1..])
  {
    forall f | f in fs[1..] ensures f.version != fs[0].version {
      var j :| 0 <= j < |fs[1..]| && fs[1..][j] == f;
      assert fs[j + 1] == f;
    }
  }

  lemma {:induction false} VersionsMember(fs: seq<File>, i: nat)
    requires i < |fs|
    ensures fs[i].version in Versions(fs)
  {
    assert fs[i] in fs;
  }

  /** Commit at most `budget` of the files. */
  function CommitUpTo(db: Db, fs: seq<File>, budget: nat): Db
    decreases fs
  {
    if fs == [] || budget == 0 then db else CommitUpTo(Commit(db, fs[0]), fs[1..], budget - 1)
  }

  lemma {:induction false} CommitUpToIsPrefix(db: Db, fs: seq<File>, budget: nat)
    ensures CommitUpTo(db, fs, budget) == CommitAll(db, fs[..Least(budget, |fs|)])
    decreases fs
  {
    if fs != [] && budget > 0 {
      var k := Least(budget - 1, |fs[1..]|);
      CommitUpToIsPrefix(Commit(db, fs[0]), fs[1..], budget - 1);
      assert fs[..k + 1][1..] == fs[1..][..k];
    }
  }

  /** With distinct pending versions, the loop commits exactly a prefix of the pending files. */
  lemma {:induction false} ApplyCommitsPrefix(db: Db, files: seq<File>, seen: set<string>, budget: nat)
    requires DistinctVersions(Pending(files, seen))
    requires Versions(Pending(files, seen)) !! db.recorded
    ensures var p := Pending(files, seen);
            ApplyFrom(db, files, seen, budget) == Outcome(CommitUpTo(db, p, budget), budget >= |p|)
    decreases |files|
  {
    if files != [] {
      var f, rest := files[0], files[1..];
      var p, q := Pending(files, seen), Pending(rest, seen);
      if f.version in seen {
        assert p == q;
        ApplyCommitsPrefix(db, rest, seen, budget);
      } else {
        assert p == [f] + q && p[1..] == q;
        VersionsCons(f, q);
        if budget > 0 {
          TailDistinct(p);
          ApplyCommitsPrefix(Commit(db, f), rest, seen, budget - 1);
        }
      }
    }
  }

  /** The versions a run starting now will treat as done. */
  function Done(db: Db): set<string> {
    db.recorded + if NeedsStamp(db) then {V001} else {}
  }

  /** What the schema will be once everything pending is applied. */
  function Target(db: Db, files: seq<File>): seq<File> {
    db.applied + Pending(files, Done(db))
  }

  /** The database from which the loop of a run starts. */
  function Prepared(db: Db): Db {
    var ready := db.(hasTable := true);
    if NeedsStamp(db) then Stamp(ready) else ready
  }

  lemma {:induction false} PendingIsNew(files: seq<File>, done: set<string>)
    ensures Versions(Pending(files, done)) !! done
  {
    forall v | v in Versions(Pending(files, done)) ensures v !in done {
      var f :| f in Pending(files, done) && f.version == v;
      PendingMember(files, done, f);
    }
  }

  /** The writing statements before the loop. */
  function Setup(db: Db): nat {
    if NeedsStamp(db) then 2 else 1
  }

  lemma {:induction false} RunCommitsPrefix(db: Db, files: seq<File>, budget: nat)
    requires DistinctVersions(files)
    ensures var p := Pending(files, Done(db));
            budget >= Setup(db) ==>
              Run(db, files, budget) ==
              Outcome(CommitAll(Prepared(db), p[..Least(budget - Setup(db), |p|)]), budget - Setup(db) >= |p|)
    ensures budget < Setup(db) ==>
              Run(db, files, budget) == Outcome(if budget == 0 then db else db.(hasTable := true), false)
  {
    if budget >= Setup(db) {
      PendingDistinct(files, Done(db));
      PendingIsNew(files, Done(db));
      assert Prepared(db).recorded == Done(db);
      ApplyCommitsPrefix(Prepared(db), files, Done(db), budget - Setup(db));
      CommitUpToIsPrefix(Prepared(db), Pending(files, Done(db)), budget - Setup(db));
    }
  }

  // ---------------------------------------------------------------------------
  // Crash and resume
  // ---------------------------------------------------------------------------

  function TracksThrough(tracks: bool, fs: seq<File>): bool
    decreases fs
  {
    if fs == [] then tracks else TracksThrough(TracksAfter(tracks, fs[0].effect), fs[1..])
  }

  lemma {:induction false} CommitAllTracks(db: Db, fs: seq<File>)
    ensures CommitAll(db, fs).tracks == TracksThrough(db.tracks, fs)
    decreases fs
  {
    if fs != [] {
      CommitAllTracks(Commit(db, fs[0]), fs[1..]);
    }
  }

  /** File number `i` is the last one that creates or drops `tracks`. */
  ghost predicate LastChange(fs: seq<File>, i: int) {
    0 <= i < |fs| && !fs[i].effect.Keeps? && forall j | i < j < |fs| :: fs[j].effect.Keeps?
  }

  /** Whether `tracks` exists after some files is up to the last one that creates or drops it. */
  lemma {:induction false} TracksExactly(db: Db, fs: seq<File>)
    ensures forall i | LastChange(fs, i) :: CommitAll(db, fs).tracks <==> fs[i].effect.Creates?
    ensures (forall j | 0 <= j < |fs| :: fs[j].effect.Keeps?) ==> CommitAll(db, fs).tracks == db.tracks
    decreases fs
  {
    if fs != [] {
      var rest := fs[1..];
      TracksExactly(Commit(db, fs[0]), rest);
      forall i | LastChange(fs, i) ensures CommitAll(db, fs).tracks <==> fs[i].effect.Creates? {
        if i > 0 {
          assert LastChange(rest, i - 1);
        } else {
          assert forall j | 0 <= j < |rest| :: rest[j].effect.Keeps?;
        }
      }
    }
  }

  /** While a V001 file is pending on a database without `tracks`, no state reached before V001
      is applied has a `tracks` table: nobody could then mistake it for a bootstrapped one. */
  ghost predicate SafeOrder(db: Db, files: seq<File>) {
    var p := Pending(files, Done(db));
    !db.tracks && V001 in Versions(p) ==>
      forall k | 0 <= k <= |p| && V001 !in Versions(p[..k]) :: !TracksThrough(db.tracks, p[..k])
  }

  lemma {:induction false} PendingIgnoresForeign(files: seq<File>, done: set<string>, v: string)
    requires v !in Versions(files)
    ensures Pending(files, done + {v}) == Pending(files, done)
  {
    if files != [] {
      assert files == [files[0]] + files[1..];
      VersionsCons(files[0], files[1..]);
      PendingIgnoresForeign(files[1..], done, v);
    }
  }

  /** Once the first pending file is done, the rest is pending. */
  lemma {:induction false} PendingAfterFirst(files: seq<File>, done: set<string>)
    requires DistinctVersions(files) && Pending(files, done) != []
    ensures var p := Pending(files, done);
            Pending(files, done + {p[0].version}) == p[1..]
  {
    var f, rest := files[0], files[1..];
    TailDistinct(files);
    if f.version in done {
      assert Pending(files, done) == Pending(rest, done);
      PendingAfterFirst(rest, done);
    } else {
      assert Pending(files, done) == [f] + Pending(rest, done);
      PendingIgnoresForeign(rest, done, f.version);
    }
  }

  lemma {:induction false} PendingAfterPrefix(files: seq<File>, done: set<string>, k: nat)
    requires DistinctVersions(files) && k <= |Pending(files, done)|
    ensures var p := Pending(files, done);
            Pending(files, done + Versions(p[..k])) == p[k..]
    decreases k
  {
    var p := Pending(files, done);
    if k == 0 {
      assert done + Versions(p[..0]) == done;
    } else {
      var next := done + {p[0].version};
      PendingAfterFirst(files, done);
      PendingAfterPrefix(files, next, k - 1);
      assert p[..k] == [p[0]] + p[1..][..k - 1];
      VersionsCons(p[0], p[1..][..k - 1]);
      assert done + Versions(p[..k]) == next + Versions(p[1..][..k - 1]);
    }
  }

  /** A safe run never leaves a database that the next run would stamp over a V001 on disk. */
  lemma {:induction false} NoFalseStamp(db: Db, files: seq<File>, k: nat)
    requires SafeOrder(db, files) && k <= |Pending(files, Done(db))|
    requires NeedsStamp(CommitAll(Prepared(db), Pending(files, Done(db))[..k]))
    ensures V001 !in Versions(files)
  {
    var p := Pending(files, Done(db));
    CommitAllFacts(Prepared(db), p[..k]);
    CommitAllTracks(Prepared(db), p[..k]);
    forall f | f in files ensures f.version != V001 {
      PendingMember(files, Done(db), f);
      assert f.version == V001 ==> f in p && V001 in Versions(p);
    }
  }

  /** Where a run leaves the database: some prefix of the pending files is committed. */
  lemma {:induction false} ResumePoint(db: Db, files: seq<File>, k: nat)
    requires DistinctVersions(files) && SafeOrder(db, files)
    requires k <= |Pending(files, Done(db))|
    ensures var p := Pending(files, Done(db));
            var t := CommitAll(Prepared(db), p[..k]);
            Pending(files, Done(t)) == p[k..] && t.applied == db.applied + p[..k]
  {
    var p := Pending(files, Done(db));
    var t := CommitAll(Prepared(db), p[..k]);
    CommitAllFacts(Prepared(db), p[..k]);
    PendingAfterPrefix(files, Done(db), k);
    assert t.recorded == Done(db) + Versions(p[..k]);
    if NeedsStamp(t) {
      NoFalseStamp(db, files, k);
      PendingIgnoresForeign(files, t.recorded, V001);
    } else {
      assert Done(t) == t.recorded;
    }
  }

  lemma {:induction false} TracksSplit(tracks: bool, a: seq<File>, b: seq<File>)
    ensures TracksThrough(tracks, a + b) == TracksThrough(TracksThrough(tracks, a), b)
    decreases a
  {
    if a == [] {
      assert a + b == b;
    } else {
      assert (a + b)[1..] == a[1..] + b;
      TracksSplit(TracksAfter(tracks, a[0].effect), a[1..], b);
    }
  }

  /** Safety of what is left after a prefix that contains no V001. */
  lemma {:induction false} SafeSuffix(tracks: bool, p: seq<File>, k: nat, j: nat)
    requires k <= |p| && j <= |p| - k
    requires forall i | 0 <= i <= |p| && V001 !in Versions(p[..i]) :: !TracksThrough(tracks, p[..i])
    requires V001 !in Versions(p[..k]) && V001 !in Versions(p[k..][..j])
    ensures !TracksThrough(TracksThrough(tracks, p[..k]), p[k..][..j])
  {
    assert p[..k + j] == p[..k] + p[k..][..j];
    VersionsConcat(p[..k], p[k..][..j]);
    TracksSplit(tracks, p[..k], p[k..][..j]);
  }

  lemma {:induction false} ResumeIsSafe(db: Db, files: seq<File>, k: nat)
    requires DistinctVersions(files) && SafeOrder(db, files)
    requires k <= |Pending(files, Done(db))|
    ensures SafeOrder(CommitAll(Prepared(db), Pending(files, Done(db))[..k]), files)
  {
    var p := Pending(files, Done(db));
    var t := CommitAll(Prepared(db), p[..k]);
    ResumePoint(db, files, k);
    CommitAllTracks(Prepared(db), p[..k]);
    CommitAllFacts(Prepared(db), p[..k]);
    if !t.tracks && V001 in Versions(p[k..]) {
      PendingIsNew(files, Done(t));
      assert V001 !in Done(db) && V001 !in Versions(p[..k]);
      assert p == p[..k] + p[k..];
      VersionsConcat(p[..k], p[k..]);
      forall j | 0 <= j <= |p[k..]| && V001 !in Versions(p[k..][..j]) ensures !TracksThrough(t.tracks, p[k..][..j]) {
        SafeSuffix(db.tracks, p, k, j);
      }
    }
  }

  /** One run, wherever it dies, changes neither the target schema nor its safety. */
  lemma {:induction false} RunKeepsTarget(db: Db, files: seq<File>, budget: nat)
    requires DistinctVersions(files) && SafeOrder(db, files)
    ensures Target(Run(db, files, budget).db, files) == Target(db, files)
    ensures SafeOrder(Run(db, files, budget).db, files)
  {
    RunCommitsPrefix(db, files, budget);
    var p := Pending(files, Done(db));
    var start := if NeedsStamp(db) then 2 else 1;
    if budget >= start {
      var k := Least(budget - start, |p|);
      ResumePoint(db, files, k);
      ResumeIsSafe(db, files, k);
      assert db.applied + p[..k] + p[k..] == db.applied + p;
    }
  }

  lemma {:induction false} RunsKeepTarget(db: Db, files: seq<File>, budgets: seq<nat>)
    requires DistinctVersions(files) && SafeOrder(db, files)
    ensures Target(RunMany(db, files, budgets), files) == Target(db, files)
    ensures SafeOrder(RunMany(db, files, budgets), files)
  {
    if budgets != [] {
      var init := budgets[..|budgets| - 1];
      RunsKeepTarget(db, files, init);
      RunKeepsTarget(RunMany(db, files, init), files, budgets[|budgets| - 1]);
    }
  }

  lemma {:induction false} PendingShort(files: seq<File>, done: set<string>)
    ensures |Pending(files, done)| <= |files|
  {
    if files != [] {
      PendingShort(files[1..], done);
    }
  }

  lemma {:induction false} UninterruptedReachesTarget(db: Db, files: seq<File>)
    requires DistinctVersions(files)
    ensures var o := Run(db, files, Enough(files));
            o.completed && o.db.applied == Target(db, files)
  {
    var p := Pending(files, Done(db));
    RunCommitsPrefix(db, files, Enough(files));
    PendingShort(files, Done(db));
    assert p[..|p|] == p;
    CommitAllFacts(Prepared(db), p);
  }

  /** After a crash that leaves `tracks` behind, V001 is stamped and never applied. */
  lemma {:induction false} StampLosesV001(db: Db, files: seq<File>, k: nat, f: File)
    requires DistinctVersions(files) && Versions(db.applied) <= db.recorded
    requires var p := Pending(files, Done(db));
             && k <= |p| && V001 !in Versions(p[..k]) && TracksThrough(db.tracks, p[..k])
             && f in p && f.version == V001 && !db.tracks
    ensures NeedsStamp(Run(db, files, 1 + k).db)
    ensures V001 !in Versions(Target(Run(db, files, 1 + k).db, files))
  {
    var p := Pending(files, Done(db));
    var t := Run(db, files, 1 + k).db;
    PendingIsNew(files, Done(db));
    assert V001 in Versions(p);
    RunCommitsPrefix(db, files, 1 + k);
    CommitAllFacts(Prepared(db), p[..k]);
    CommitAllTracks(Prepared(db), p[..k]);
    assert t == CommitAll(Prepared(db), p[..k]) && NeedsStamp(t);
    PendingIsNew(files, Done(t));
    VersionsConcat(db.applied, p[..k]);
    VersionsConcat(t.applied, Pending(files, Done(t)));
  }

  /** A run left alone on such a database records V001 without applying it. */
  lemma {:induction false} FinalRunStamps(t: Db, files: seq<File>)
    requires DistinctVersions(files) && NeedsStamp(t)
    ensures var o := Run(t, files, Enough(files));
            o.completed && o.db.stamped && V001 in o.db.recorded && o.db.applied == Target(t, files)
  {
    var p := Pending(files, Done(t));
    UninterruptedReachesTarget(t, files);
    RunCommitsPrefix(t, files, Enough(files));
    PendingShort(files, Done(t));
    assert p[..|p|] == p;
    CommitAllFacts(Prepared(t), p);
  }

  /** Runs dying as `budgets` says, then one left alone, end with V001 recorded by the stamp and never
      applied, although a single uninterrupted run applies it. */
  ghost predicate SkipsV001(db: Db, files: seq<File>, budgets: seq<nat>) {
    var o := Finally(db, files, budgets);
    && o.completed && o.db.stamped && V001 in o.db.recorded
    && V001 !in Versions(o.db.applied)
    && V001 in Versions(Run(db, files, Enough(files)).db.applied)
  }

  /** A V001 file that could be skipped: the crash after `k` files leaves `tracks` behind. */
  lemma {:induction false} UnsafeOrderSkipsV001(db: Db, files: seq<File>)
    requires DistinctVersions(files) && !SafeOrder(db, files)
    requires Versions(db.applied) <= db.recorded
    ensures exists budgets :: SkipsV001(db, files, budgets)
    ensures exists budgets :: Finally(db, files, budgets).db.applied != Run(db, files, Enough(files)).db.applied
  {
    var p := Pending(files, Done(db));
    var k :| 0 <= k <= |p| && V001 !in Versions(p[..k]) && TracksThrough(db.tracks, p[..k]);
    var f :| f in p && f.version == V001;
    var t := Run(db, files, 1 + k).db;
    StampLosesV001(db, files, k, f);
    assert [1 + k][..0] == [] && RunMany(db, files, [1 + k][..0]) == db;
    assert RunMany(db, files, [1 + k]) == t;
    FinalRunStamps(t, files);
    UninterruptedReachesTarget(db, files);
    VersionsConcat(db.applied, p);
    assert SkipsV001(db, files, [1 + k]);
    assert Finally(db, files, [1 + k]).db.applied != Run(db, files, Enough(files)).db.applied;
  }

  /** Crash and resume: with distinct versions, any finite sequence of runs dying anywhere,
      followed by a run that finishes, gives the schema of one uninterrupted run, if and only if
      no state before a pending V001 has a `tracks` table. */
  lemma {:induction false} CrashesDoNotMatterExactly(db: Db, files: seq<File>)
    requires DistinctVersions(files) && Versions(db.applied) <= db.recorded
    ensures (forall budgets :: Finally(db, files, budgets).db.applied == Run(db, files, Enough(files)).db.applied)
            <==> SafeOrder(db, files)
  {
    if SafeOrder(db, files) {
      UninterruptedReachesTarget(db, files);
      forall budgets ensures Finally(db, files, budgets).db.applied == Run(db, files, Enough(files)).db.applied {
        RunsKeepTarget(db, files, budgets);
        UninterruptedReachesTarget(RunMany(db, files, budgets), files);
      }
    } else {
      UnsafeOrderSkipsV001(db, files);
    }
  }

  // ---------------------------------------------------------------------------
  // Bookkeeping, for any list of files
  // ---------------------------------------------------------------------------

  /** Nothing is applied twice, and the recorded set is what was there, what was applied, and
      the stamp. */
  ghost predicate Books(db: Db, before: set<string>) {
    && DistinctVersions(db.applied)
    && db.recorded == before + Versions(db.applied) + if db.stamped then {V001} else {}
  }

  lemma {:induction false} CommitKeepsBooks(db: Db, f: File, before: set<string>)
    requires Books(db, before) && f.version !in db.recorded
    ensures Books(Commit(db, f), before)
  {
    var after := db.applied + [f];
    assert Versions(after) == Versions(db.applied) + {f.version};
    forall i, j | 0 <= i < j < |after| ensures after[i].version != after[j].version {
      VersionsMember(db.applied, i);
    }
  }

  lemma {:induction false} ApplyKeepsBooks(db: Db, files: seq<File>, seen: set<string>, budget: nat, before: set<string>)
    requires Books(db, before)
    ensures Books(ApplyFrom(db, files, seen, budget).db, before)
    decreases files
  {
    if files != [] {
      if files[0].version in seen {
        ApplyKeepsBooks(db, files[1..], seen, budget, before);
      } else if budget > 0 && files[0].version !in db.recorded {
        CommitKeepsBooks(db, files[0], before);
        ApplyKeepsBooks(Commit(db, files[0]), files[1..], seen, budget - 1, before);
      }
    }
  }

  /** After any sequence of runs dying anywhere, even with repeated versions on disk: each version
      has been applied at most once, and the recorded set matches. */
  lemma {:induction false} EachVersionAppliedOnce(db: Db, files: seq<File>, budgets: seq<nat>, before: set<string>)
    requires Books(db, before)
    ensures Books(RunMany(db, files, budgets), before)
  {
    if budgets != [] {
      var init := RunMany(db, files, budgets[..|budgets| - 1]);
      var budget := budgets[|budgets| - 1];
      EachVersionAppliedOnce(db, files, budgets[..|budgets| - 1], before);
      var ready := init.(hasTable := true);
      if budget >= 1 && !NeedsStamp(init) {
        ApplyKeepsBooks(ready, files, ready.recorded, budget - 1, before);
      } else if budget >= 2 {
        ApplyKeepsBooks(Stamp(ready), files, Stamp(ready).recorded, budget - 2, before);
      }
    }
  }

  lemma {:induction false} CompletedMeansDistinct(db: Db, files: seq<File>, seen: set<string>, budget: nat)
    requires ApplyFrom(db, files, seen, budget).completed
    ensures DistinctVersions(Pending(files, seen))
    ensures Versions(Pending(files, seen)) !! db.recorded
    decreases files
  {
    if files != [] {
      if files[0].version in seen {
        CompletedMeansDistinct(db, files[1..], seen, budget);
      } else {
        var q := Pending(files[1..], seen);
        CompletedMeansDistinct(Commit(db, files[0]), files[1..], seen, budget - 1);
        forall i | 0 <= i < |q| ensures q[i].version != files[0].version {
          VersionsMember(q, i);
        }
        VersionsCons(files[0], q);
      }
    }
  }

  /** Left alone, the loop completes if and only if the pending versions are distinct: the second
      file of a repeated version violates the primary key and aborts the run. */
  lemma {:induction false} CompletesExactlyWhenDistinct(db: Db, files: seq<File>)
    ensures ApplyFrom(db, files, db.recorded, |files|).completed <==> DistinctVersions(Pending(files, db.recorded))
  {
    var p := Pending(files, db.recorded);
    if ApplyFrom(db, files, db.recorded, |files|).completed {
      CompletedMeansDistinct(db, files, db.recorded, |files|);
    }
    if DistinctVersions(p) {
      PendingIsNew(files, db.recorded);
      PendingShort(files, db.recorded);
      ApplyCommitsPrefix(db, files, db.recorded, |files|);
    }
  }
}
