/** The migration runner of app/persistence/migrations.py over an abstract schema: one transaction that ends with
    the full history and every invariant, or changes nothing. */
module Migrations {
  import opened Basics

  /** The program's side of a migration: how many versions it knows, each version's structural invariants and upgrade
      (None when it raises), table creation for a new database, and whether the database has tables at all. */
  datatype Release<!S> = Release(
    current: nat, invariant_: (S, nat) -> bool, upgrade: (S, nat) -> Option<S>, createAll: S -> S, hasTables: S -> bool)

  datatype Db<S> = Db(schema: S, history: set<nat>)

  datatype Report = Report(starting: nat, ending: nat, applied: seq<nat>, stampedOnly: bool)

  /** The versions 1 to n. */
  function Range(n: nat): (versions: set<nat>)
    ensures forall v: nat :: v in versions <==> 1 <= v <= n
  {
    if n == 0 then {} else Range(n - 1) + {n}
  }

  /** Every invariant of versions 1 to v. */
  predicate Cumulative<S>(r: Release<S>, s: S, v: nat) {
    forall k: nat :: 1 <= k <= v ==> r.invariant_(s, k)
  }

  function MaxOf(versions: set<nat>): (m: nat)
    requires versions != {}
    ensures m in versions && forall v: nat :: v in versions ==> v <= m
  {
    LargestExists(versions);
    var m: nat :| m in versions && forall v: nat :: v in versions ==> v <= m;
    m
  }

  lemma {:induction false} LargestExists(versions: set<nat>)
    requires versions != {}
    ensures exists m: nat :: m in versions && forall v: nat :: v in versions ==> v <= m
    decreases |versions|
  {
    var x: nat :| x in versions;
    var rest := versions - {x};
    assert versions == rest + {x};
    if rest != {} {
      LargestExists(rest);
      var y: nat :| y in rest && forall v: nat :: v in rest ==> v <= y;
      var m := if x > y then x else y;
      assert m in versions && forall v: nat :: v in versions ==> v <= m;
    }
  }

  /** A recorded history the program accepts: nothing newer than it knows, no gap, and a schema that really satisfies
      every recorded version. */
  predicate Credible<S>(r: Release<S>, db: Db<S>) {
    db.history == {} ||
    var top := MaxOf(db.history);
    top <= r.current && db.history == Range(top) && Cumulative(r, db.schema, top)
  }

  // ---- what a run amounts to ----

  /** The version a legacy schema already matches. */
  function Detected<S>(r: Release<S>, s: S, from: nat): (v: nat)
    requires from <= r.current
    ensures from <= v <= r.current
    decreases r.current - from
  {
    if from < r.current && r.invariant_(s, from + 1) then Detected(r, s, from + 1) else from
  }

  /** The upgrades after version v, each checked against all invariants up to its own. */
  function Upgraded<S>(r: Release<S>, s: S, v: nat): Option<S>
    requires v <= r.current
    decreases r.current - v
  {
    if v == r.current then Some(s)
    else match r.upgrade(s, v + 1)
      case None => None
      case Some(next) => if Cumulative(r, next, v + 1) then Upgraded(r, next, v + 1) else None
  }

  function Starting<S>(r: Release<S>, db: Db<S>): (v: nat)
    requires Credible(r, db)
    ensures v <= r.current
  {
    if db.history == {} then Detected(r, db.schema, 0) else MaxOf(db.history)
  }

  /** The database after a run, or nothing when the run is refused and rolled back. */
  function Migrated<S>(r: Release<S>, db: Db<S>): Option<Db<S>> {
    if !Credible(r, db) then None
    else if !r.hasTables(db.schema) then Some(Db(r.createAll(db.schema), db.history + Range(r.current)))
    else match Upgraded(r, db.schema, Starting(r, db))
      case None => None
      case Some(s) => Some(Db(s, Range(r.current)))
  }

  /** _detect_legacy_version and the baseline it means: the longest prefix of versions whose invariants all hold. */
  lemma {:induction false} DetectionFindsTheLongestPrefix<S>(r: Release<S>, s: S, from: nat)
    requires from <= r.current && Cumulative(r, s, from)
    ensures var v := Detected(r, s, from);
      Cumulative(r, s, v) && forall w: nat :: w <= r.current && Cumulative(r, s, w) ==> w <= v
    decreases r.current - from
  {
    if from < r.current && r.invariant_(s, from + 1) {
      DetectionFindsTheLongestPrefix(r, s, from + 1);
    }
  }

  lemma {:induction false} UpgradesEndSatisfied<S>(r: Release<S>, s: S, v: nat)
    requires v <= r.current && Cumulative(r, s, v)
    ensures Upgraded(r, s, v).Some? ==> Cumulative(r, Upgraded(r, s, v).value, r.current)
    decreases r.current - v
  {
    if v == r.current {
    } else {
      match r.upgrade(s, v + 1)
      case None =>
      case Some(next) =>
        if Cumulative(r, next, v + 1) {
          UpgradesEndSatisfied(r, next, v + 1);
        }
    }
  }

  lemma {:induction false} TheBaselineIsSatisfied<S>(r: Release<S>, db: Db<S>)
    requires Credible(r, db)
    ensures Cumulative(r, db.schema, Starting(r, db))
  {
    if db.history == {} {
      DetectionFindsTheLongestPrefix(r, db.schema, 0);
    }
  }

  /** Table creation yields a database at the program's own shape. */
  ghost predicate CreatesTheCurrentShape<S(!new)>(r: Release<S>) {
    forall s :: !r.hasTables(s) ==> r.hasTables(r.createAll(s)) && Cumulative(r, r.createAll(s), r.current)
  }

  /** Upgrades never drop the tables. */
  ghost predicate KeepsTables<S(!new)>(r: Release<S>) {
    forall s, v :: r.hasTables(s) && r.upgrade(s, v).Some? ==> r.hasTables(r.upgrade(s, v).value)
  }

  /** A run that is not refused ends with the history of exactly all versions and with every invariant, whatever the
      schema and the recorded history were at the start. */
  lemma {:induction false} SuccessMeansEverything<S(!new)>(r: Release<S>, db: Db<S>)
    requires CreatesTheCurrentShape(r) && Migrated(r, db).Some?
    ensures var after := Migrated(r, db).value;
      after.history == Range(r.current) && Cumulative(r, after.schema, r.current)
  {
    if r.hasTables(db.schema) {
      TheBaselineIsSatisfied(r, db);
      UpgradesEndSatisfied(r, db.schema, Starting(r, db));
    } else if db.history != {} {
      assert Range(MaxOf(db.history)) <= Range(r.current);
    }
  }

  /** Some version before v is missing. */
  ghost predicate HasGap(history: set<nat>, v: nat) {
    exists w: nat :: 1 <= w < v && w !in history
  }

  /** A gapped history, or one from a newer program, is refused whatever the schema looks like. */
  lemma {:induction false} GappedAndFutureHistoriesAreRefused<S>(r: Release<S>, db: Db<S>, v: nat)
    requires v in db.history && (v > r.current || v == 0 || HasGap(db.history, v))
    ensures Migrated(r, db).None?
  {
    var top := MaxOf(db.history);
    assert v <= top;
  }

  lemma {:induction false} UpgradesKeepTables<S(!new)>(r: Release<S>, s: S, v: nat)
    requires KeepsTables(r) && v <= r.current && r.hasTables(s)
    ensures Upgraded(r, s, v).Some? ==> r.hasTables(Upgraded(r, s, v).value)
    decreases r.current - v
  {
    if v == r.current {
    } else {
      match r.upgrade(s, v + 1)
      case None =>
      case Some(next) =>
        if Cumulative(r, next, v + 1) {
          UpgradesKeepTables(r, next, v + 1);
        }
    }
  }

  lemma {:induction false} MaxOfRange(n: nat)
    requires n > 0
    ensures n in Range(n) && MaxOf(Range(n)) == n
  {
    assert n in Range(n);
  }

  /** A second run accepts the first one's result as it is and runs no upgrade. */
  lemma {:induction false} SecondRunChangesNothing<S(!new)>(r: Release<S>, db: Db<S>)
    requires CreatesTheCurrentShape(r) && KeepsTables(r) && r.current > 0 && Migrated(r, db).Some?
    ensures var after := Migrated(r, db).value;
      Credible(r, after) && Starting(r, after) == r.current && Migrated(r, after) == Some(after)
  {
    SuccessMeansEverything(r, db);
    MaxOfRange(r.current);
    if r.hasTables(db.schema) {
      UpgradesKeepTables(r, db.schema, Starting(r, db));
    }
  }

  // ---- the runner ----

  datatype Outcome = Done(report: Report) | Refused

  /** A database with its schema and recorded versions, changed inside one transaction. */
  class Database<S(==)> {
    var schema: S
    var history: set<nat>

    constructor (schema: S, history: set<nat>)
      ensures View() == Db(schema, history)
    {
      this.schema, this.history := schema, history;
    }

    function View(): Db<S>
      reads this
    {
      Db(schema, history)
    }

    method DetectLegacyVersion(r: Release<S>) returns (version: nat)
      ensures version == Detected(r, schema, 0)
    {
      version := 0;
      for candidate := 1 to r.current + 1
        invariant version == candidate - 1 <= r.current
        invariant Detected(r, schema, 0) == Detected(r, schema, version)
      {
        if !r.invariant_(schema, candidate) {
          return;
        }
        version := candidate;
      }
    }

    method CumulativeInvariantsSatisfied(r: Release<S>, version: nat) returns (ok: bool)
      ensures ok <==> Cumulative(r, schema, version)
    {
      for v := 1 to version + 1
        invariant forall k: nat :: 1 <= k < v ==> r.invariant_(schema, k)
      {
        if !r.invariant_(schema, v) {
          return false;
        }
      }
      return true;
    }

    /** _validate_recorded_history. */
    method HistoryIsCredible(r: Release<S>) returns (ok: bool)
      ensures ok <==> Credible(r, View())
    {
      if history == {} {
        return true;
      }
      var top := MaxOf(history);
      if top > r.current || history != Range(top) {
        return false;
      }
      ok := CumulativeInvariantsSatisfied(r, top);
    }

    /** The upgrade loop, from the version after `starting`; false leaves a half-migrated transaction to be rolled
        back. */
    method Upgrade(r: Release<S>, starting: nat) returns (ok: bool, applied: seq<nat>)
      requires starting <= r.current && history == Range(starting)
      modifies this
      ensures ok <==> Upgraded(r, old(schema), starting).Some?
      ensures ok ==> View() == Db(Upgraded(r, old(schema), starting).value, Range(r.current))
      ensures ok ==> |applied| == r.current - starting && forall i :: 0 <= i < |applied| ==>
        applied[i] == starting + 1 + i
    {
      applied := [];
      for version := 1 to r.current + 1
        invariant history == Range(if version - 1 < starting then starting else version - 1)
        invariant |applied| == if version - 1 < starting then 0 else version - 1 - starting
        invariant forall i :: 0 <= i < |applied| ==> applied[i] == starting + 1 + i
        invariant version - 1 <= starting ==> schema == old(schema)
        invariant starting <= version - 1 ==> Upgraded(r, old(schema), starting) == Upgraded(r, schema, version - 1)
      {
        if version > starting && version !in history {
          match r.upgrade(schema, version)
          case None => return false, applied;
          case Some(next) => schema := next;
          var satisfied := CumulativeInvariantsSatisfied(r, version);
          if !satisfied {
            return false, applied;
          }
          history := history + {version};
          applied := applied + [version];
        }
      }
      ok := true;
    }

    /** run_migrations: commits the whole result or, on any refusal, rolls everything back. */
    method RunMigrations(r: Release<S>) returns (outcome: Outcome)
      modifies this
      ensures outcome.Refused? <==> Migrated(r, old(View())).None?
      ensures outcome.Refused? ==> View() == old(View())
      ensures outcome.Done? ==> View() == Migrated(r, old(View())).value
      ensures outcome.Done? ==>
        var report, brandNew := outcome.report, !r.hasTables(old(schema));
        && report.ending == r.current && report.stampedOnly == brandNew
        && report.starting == (if brandNew then 0 else Starting(r, old(View())))
        && |report.applied| == if brandNew then 0 else r.current - report.starting
      ensures outcome.Done? ==>
        forall i :: 0 <= i < |outcome.report.applied| ==> outcome.report.applied[i] == outcome.report.starting + 1 + i
    {
      var committed := View();
      var credible := HistoryIsCredible(r);
      if !credible {
        return Refused;
      }
      if !r.hasTables(schema) {
        schema := r.createAll(schema);
        history := history + Range(r.current);
        return Done(Report(0, r.current, [], true));
      }
      var starting: nat;
      if history == {} {
        starting := DetectLegacyVersion(r);
        history := Range(starting);
      } else {
        starting := MaxOf(history);
      }
      var ok, applied := Upgrade(r, starting);
      if ok {
        // The closing validation, which a chain of checked upgrades always passes.
        TheBaselineIsSatisfied(r, committed);
        UpgradesEndSatisfied(r, committed.schema, starting);
        ok := CumulativeInvariantsSatisfied(r, r.current);
      }
      if !ok {
        schema, history := committed.schema, committed.history;
        return Refused;
      }
      return Done(Report(starting, r.current, applied, false));
    }
  }
}
