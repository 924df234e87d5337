/** Chaining versioned flow transforms (rust-old/src/migration.rs). */
module Migration {
  import opened Wrappers
  import opened Flow

  datatype MigrationError = Downgrade | NoPath(from: nat) | Overshoot(from: nat, to: nat) | TransformFailed(reason: string)

  // One upgrade step; the registry stamps the version, whatever the transform leaves there.
  datatype FlowMigration = FlowMigration(
    source: nat,
    target: nat,
    transform: FlowDef -> Result<FlowDef, string>)

  type Migrations = map<nat, FlowMigration>

  /** What registration keeps: one migration per source version, each to a greater version. */
  ghost predicate WellOrdered(m: Migrations) {
    forall v :: v in m ==> m[v].source == v && m[v].target > v
  }

  /** The path of versions from `from` to `to` along registered edges. */
  ghost predicate IsChain(m: Migrations, chain: seq<nat>) {
    && chain != []
    && forall i :: 0 <= i < |chain| - 1 ==> chain[i] in m && m[chain[i]].target == chain[i + 1]
  }

  /** The flows a migration along the chain goes through: each is what the registered transform makes of the
      one before, with the version set to the edge's target. */
  ghost predicate Upgrades(m: Migrations, chain: seq<nat>, flows: seq<FlowDef>)
    requires IsChain(m, chain)
  {
    && |flows| == |chain| && flows[0].version == chain[0]
    && forall i | 0 <= i < |chain| - 1 ::
         var made := m[chain[i]].transform(flows[i]);
         made.Ok? && flows[i + 1] == made.value.(version := m[chain[i]].target)
  }

  /** Registered edges lead from `flow` to `result`. */
  ghost predicate Leads(m: Migrations, flow: FlowDef, chain: seq<nat>, result: FlowDef) {
    IsChain(m, chain) && exists flows :: Upgrades(m, chain, flows) && flows[0] == flow && flows[|flows| - 1] == result
  }

  lemma ChainTail(m: Migrations, chain: seq<nat>)
    requires IsChain(m, chain) && |chain| > 1
    ensures IsChain(m, chain[1..])
  {
    forall i | 0 <= i < |chain[1..]| - 1
      ensures chain[1..][i] in m && m[chain[1..][i]].target == chain[1..][i + 1]
    {
      assert chain[i + 1] in m && m[chain[i + 1]].target == chain[i + 2];
    }
  }

  /** What `migrate_to` computes. */
  function Migrate(m: Migrations, flow: FlowDef, target: nat): Result<FlowDef, MigrationError>
    requires WellOrdered(m)
    decreases target - flow.version
  {
    if flow.version == target then Ok(flow)
    else if flow.version > target then Err(Downgrade)
    else if flow.version !in m then Err(NoPath(flow.version))
    else if m[flow.version].target > target then Err(Overshoot(flow.version, m[flow.version].target))
    else
      match m[flow.version].transform(flow)
      case Err(e) => Err(TransformFailed(e))
      case Ok(f) => Migrate(m, f.(version := m[flow.version].target), target)
  }

  /** The greatest target of a registered migration. */
  ghost predicate IsLatest(m: Migrations, version: nat) {
    (exists v :: v in m && m[v].target == version) && forall v :: v in m ==> m[v].target <= version
  }

  lemma OneLatest(m: Migrations, version: nat)
    requires IsLatest(m, version)
    ensures forall other: nat :: IsLatest(m, other) ==> other == version
  {
  }

  class MigrationRegistry {
    var migrations: Migrations

    ghost predicate Valid()
      reads this
    {
      WellOrdered(migrations)
    }

    constructor ()
      ensures Valid() && migrations == map[]
    {
      migrations := map[];
    }

    /** Registers a migration. The source panics on a version that does not rise or a source version
        already taken; here that is a refusal that leaves the registry as it was. */
    method Register(migration: FlowMigration) returns (accepted: bool)
      requires Valid()
      modifies this
      ensures Valid()
      ensures accepted <==> migration.target > migration.source && migration.source !in old(migrations)
      ensures migrations == if accepted then old(migrations)[migration.source := migration] else old(migrations)
    {
      accepted := migration.target > migration.source && migration.source !in migrations;
      if accepted {
        migrations := migrations[migration.source := migration];
      }
    }

    method MigrateTo(flow: FlowDef, target: nat) returns (r: Result<FlowDef, MigrationError>)
      requires Valid()
      ensures r == Migrate(migrations, flow, target)
      ensures r.Ok? ==> r.value.version == target
    {
      if flow.version == target {
        return Ok(flow);
      }
      if flow.version > target {
        return Err(Downgrade);
      }
      var current := flow;
      while current.version < target
        invariant current.version <= target
        invariant Migrate(migrations, flow, target) == Migrate(migrations, current, target)
        decreases target - current.version
      {
        var from := current.version;
        if from !in migrations {
          return Err(NoPath(from));
        }
        var migration := migrations[from];
        var to := migration.target;
        if to > target {
          return Err(Overshoot(from, to));
        }
        var migrated := migration.transform(current);
        if migrated.Err? {
          return Err(TransformFailed(migrated.error));
        }
        current := migrated.value.(version := to);
      }
      r := Ok(current);
    }

    /** The greatest registered target version. */
    method LatestVersion() returns (latest: Option<nat>)
      requires Valid()
      ensures latest == None <==> migrations == map[]
      ensures latest.Some? ==> IsLatest(migrations, latest.value)
    {
      latest := None;
      var left := migrations.Keys;
      while left != {}
        invariant left <= migrations.Keys
        invariant latest == None <==> left == migrations.Keys
        invariant latest.Some? ==> exists v :: v in migrations && migrations[v].target == latest.value
        invariant latest.Some? ==> forall v :: v in migrations && v !in left ==> migrations[v].target <= latest.value
        decreases left
      {
        var v :| v in left;
        left := left - {v};
        if latest == None || migrations[v].target > latest.value {
          latest := Some(migrations[v].target);
        }
      }
    }

    method MigrateLatest(flow: FlowDef) returns (r: Result<FlowDef, MigrationError>)
      requires Valid()
      ensures (forall v :: v in migrations ==> migrations[v].target <= flow.version) ==> r == Ok(flow)
      ensures forall t: nat :: IsLatest(migrations, t) && t > flow.version ==> r == Migrate(migrations, flow, t)
      ensures r.Ok? ==> r.value.version >= flow.version && forall v :: v in migrations ==> migrations[v].target <= r.value.version
    {
      hide Migrate, WellOrdered;
      var latest := LatestVersion();
      if latest.Some? {
        OneLatest(migrations, latest.value);
      }
      if latest.Some? && latest.value > flow.version {
        r := MigrateTo(flow, latest.value);
      } else {
        r := Ok(flow);
      }
    }
  }

  // ---------- The theorems ----------

  lemma {:induction false} ChainAscends(m: Migrations, chain: seq<nat>)
    requires WellOrdered(m) && IsChain(m, chain)
    ensures chain[0] <= chain[|chain| - 1] && (|chain| > 1 ==> chain[0] < chain[|chain| - 1])
    decreases |chain|
  {
    if |chain| > 1 {
      assert chain[0] in m && m[chain[0]].target == chain[1];
      ChainTail(m, chain);
      ChainAscends(m, chain[1..]);
    }
  }

  lemma FirstUpgrade(m: Migrations, flow: FlowDef, chain: seq<nat>, result: FlowDef) returns (next: FlowDef)
    requires Leads(m, flow, chain, result) && |chain| > 1
    ensures flow.version == chain[0] && chain[0] in m && m[chain[0]].target == chain[1]
    ensures m[chain[0]].transform(flow).Ok? && next == m[chain[0]].transform(flow).value.(version := chain[1])
    ensures Leads(m, next, chain[1..], result)
  {
    var flows :| Upgrades(m, chain, flows) && flows[0] == flow && flows[|flows| - 1] == result;
    assert chain[0] in m && m[chain[0]].target == chain[0 + 1];
    next := flows[1];
    ChainTail(m, chain);
    var rest := flows[1..];
    forall i | 0 <= i < |chain[1..]| - 1
      ensures m[chain[1..][i]].transform(rest[i]).Ok?
      ensures rest[i + 1] == m[chain[1..][i]].transform(rest[i]).value.(version := m[chain[1..][i]].target)
    {
      assert chain[i + 1] in m && rest[i] == flows[i + 1] && rest[i + 1] == flows[i + 1 + 1];
    }
    assert Upgrades(m, chain[1..], rest);
  }

  lemma NoUpgrade(m: Migrations, flow: FlowDef, chain: seq<nat>, result: FlowDef)
    requires Leads(m, flow, chain, result) && |chain| == 1
    ensures flow == result && flow.version == chain[0]
  {
  }

  lemma PrependUpgrade(m: Migrations, flow: FlowDef, chain: seq<nat>, result: FlowDef) returns (chain': seq<nat>)
    requires WellOrdered(m) && flow.version in m && m[flow.version].transform(flow).Ok?
    requires Leads(m, m[flow.version].transform(flow).value.(version := m[flow.version].target), chain, result)
    ensures chain' == [flow.version] + chain && Leads(m, flow, chain', result)
  {
    var next := m[flow.version].transform(flow).value.(version := m[flow.version].target);
    var flows :| Upgrades(m, chain, flows) && flows[0] == next && flows[|flows| - 1] == result;
    chain' := [flow.version] + chain;
    var flows' := [flow] + flows;
    forall i | 0 <= i < |chain'| - 1
      ensures chain'[i] in m && m[chain'[i]].target == chain'[i + 1]
      ensures m[chain'[i]].transform(flows'[i]).Ok?
      ensures flows'[i + 1] == m[chain'[i]].transform(flows'[i]).value.(version := m[chain'[i]].target)
    {
      if i > 0 {
        assert chain'[i] == chain[i - 1] && chain'[i + 1] == chain[i - 1 + 1];
        assert flows'[i] == flows[i - 1] && flows'[i + 1] == flows[i - 1 + 1];
      }
    }
    assert Upgrades(m, chain', flows');
  }

  lemma {:induction false} ChainMigrates(m: Migrations, flow: FlowDef, chain: seq<nat>, result: FlowDef)
    requires WellOrdered(m) && Leads(m, flow, chain, result)
    ensures Migrate(m, flow, chain[|chain| - 1]) == Ok(result)
    decreases |chain|
  {
    if |chain| > 1 {
      var next := FirstUpgrade(m, flow, chain, result);
      ChainAscends(m, chain);
      ChainAscends(m, chain[1..]);
      ChainMigrates(m, next, chain[1..], result);
    } else {
      NoUpgrade(m, flow, chain, result);
    }
  }

  lemma {:induction false} ChainTaken(m: Migrations, flow: FlowDef, target: nat) returns (chain: seq<nat>)
    requires WellOrdered(m) && Migrate(m, flow, target).Ok?
    ensures Leads(m, flow, chain, Migrate(m, flow, target).value) && chain[|chain| - 1] == target
    decreases target - flow.version
  {
    if flow.version == target {
      chain := [target];
      assert Upgrades(m, chain, [flow]);
    } else {
      hide Leads;
      var next := m[flow.version].transform(flow).value.(version := m[flow.version].target);
      chain := ChainTaken(m, next, target);
      LeadsIsChain(m, next, chain, Migrate(m, flow, target).value);
      chain := PrependUpgrade(m, flow, chain, Migrate(m, flow, target).value);
    }
  }

  lemma LeadsIsChain(m: Migrations, flow: FlowDef, chain: seq<nat>, result: FlowDef)
    requires Leads(m, flow, chain, result)
    ensures IsChain(m, chain)
  {
  }

  /** Migration succeeds with a result exactly when registered edges lead from the flow to the target and the
      transforms on the way, each given what the one before left, end in that result. */
  lemma MigratesExactlyAlongChains(m: Migrations, flow: FlowDef, target: nat, result: FlowDef)
    requires WellOrdered(m)
    ensures Migrate(m, flow, target) == Ok(result) <==>
      exists chain :: Leads(m, flow, chain, result) && chain[|chain| - 1] == target
  {
    if chain :| Leads(m, flow, chain, result) && chain[|chain| - 1] == target {
      ChainMigrates(m, flow, chain, result);
    }
    if Migrate(m, flow, target) == Ok(result) {
      var chain := ChainTaken(m, flow, target);
    }
  }

  /** What stops a migration at a flow it has reached. */
  ghost predicate Stops(m: Migrations, reached: FlowDef, target: nat, e: MigrationError) {
    var v := reached.version;
    match e
    case Downgrade => false
    case NoPath(from) => from == v && v < target && v !in m
    case Overshoot(from, to) => from == v && v < target && v in m && to == m[v].target && to > target
    case TransformFailed(reason) => v < target && v in m && m[v].target <= target && m[v].transform(reached) == Err(reason)
  }

  /** Migration fails exactly if the flow is above the target already, or registered edges lead to a flow
      below it that has no edge, one beyond the target, or one whose transform fails. */
  lemma {:induction false} FailsExactlyWhereStopped(m: Migrations, flow: FlowDef, target: nat, e: MigrationError)
    requires WellOrdered(m)
    ensures Migrate(m, flow, target) == Err(e) <==>
      || (flow.version > target && e == Downgrade)
      || (exists chain, reached :: Leads(m, flow, chain, reached) && Stops(m, reached, target, e))
    decreases target - flow.version
  {
    assert Upgrades(m, [flow.version], [flow]);
    assert Leads(m, flow, [flow.version], flow);
    if chain, reached :| Leads(m, flow, chain, reached) && Stops(m, reached, target, e) {
      StoppedFails(m, flow, chain, reached, target, e);
    }
    if flow.version < target && flow.version in m && m[flow.version].target <= target && m[flow.version].transform(flow).Ok? {
      var next := m[flow.version].transform(flow).value.(version := m[flow.version].target);
      FailsExactlyWhereStopped(m, next, target, e);
      if Migrate(m, flow, target) == Err(e) {
        hide Leads, Stops;
        var chain, reached :| Leads(m, next, chain, reached) && Stops(m, reached, target, e);
        var chain' := PrependUpgrade(m, flow, chain, reached);
      }
    }
  }

  lemma {:induction false} StoppedFails(m: Migrations, flow: FlowDef, chain: seq<nat>, reached: FlowDef, target: nat, e: MigrationError)
    requires WellOrdered(m) && Leads(m, flow, chain, reached) && Stops(m, reached, target, e)
    ensures Migrate(m, flow, target) == Err(e)
    decreases |chain|
  {
    if |chain| > 1 {
      var next := FirstUpgrade(m, flow, chain, reached);
      EndVersion(m, flow, chain, reached);
      ChainAscends(m, chain[1..]);
      StoppedFails(m, next, chain[1..], reached, target, e);
    } else {
      NoUpgrade(m, flow, chain, reached);
    }
  }

  lemma {:induction false} EndVersion(m: Migrations, flow: FlowDef, chain: seq<nat>, reached: FlowDef)
    requires Leads(m, flow, chain, reached)
    ensures reached.version == chain[|chain| - 1]
    decreases |chain|
  {
    if |chain| > 1 {
      var next := FirstUpgrade(m, flow, chain, reached);
      EndVersion(m, next, chain[1..], reached);
    } else {
      NoUpgrade(m, flow, chain, reached);
    }
  }

  /** Going to a version on the way first and then to the target gives the same flow or error. */
  lemma {:induction false} StopoverChangesNothing(m: Migrations, flow: FlowDef, mid: nat, target: nat)
    requires WellOrdered(m) && Migrate(m, flow, mid).Ok? && mid <= target
    ensures Migrate(m, Migrate(m, flow, mid).value, target) == Migrate(m, flow, target)
    decreases mid - flow.version
  {
    if flow.version != mid {
      var next := m[flow.version].transform(flow).value.(version := m[flow.version].target);
      StopoverChangesNothing(m, next, mid, target);
    }
  }

  /** A version off the path cannot be a stopover: with the chain to the target known, migrating to a
      version in between succeeds exactly when that version is on the chain. */
  lemma {:induction false} OnlyChainVersionsAreReached(m: Migrations, flow: FlowDef, chain: seq<nat>, result: FlowDef, mid: nat)
    requires WellOrdered(m) && Leads(m, flow, chain, result) && mid <= chain[|chain| - 1]
    ensures Migrate(m, flow, mid).Ok? <==> mid in chain
    decreases |chain|
  {
    if |chain| > 1 {
      var next := FirstUpgrade(m, flow, chain, result);
      assert chain == [chain[0]] + chain[1..];
      TailIsAbove(m, chain);
      OnlyChainVersionsAreReached(m, next, chain[1..], result, mid);
      ChainAscends(m, chain[1..]);
    } else {
      NoUpgrade(m, flow, chain, result);
    }
  }

  lemma {:induction false} TailIsAbove(m: Migrations, chain: seq<nat>)
    requires WellOrdered(m) && IsChain(m, chain)
    ensures forall v :: v in chain[1..] ==> v > chain[0]
    decreases |chain|
  {
    if |chain| > 1 {
      assert chain[0] in m && m[chain[0]].target == chain[1];
      ChainTail(m, chain);
      TailIsAbove(m, chain[1..]);
      assert chain[1..] == [chain[1]] + chain[1..][1..];
    }
  }
}
