/** The governance tables updated in place. */
module GovernanceStore {
  import opened Common
  import opened Normalise
  import opened Governance
  import opened Sorting

  /** The configured bootstrap of every workspace. */
  datatype Bootstrap = Bootstrap(
    auth: AuthPolicy,
    memberships: seq<(string, Role)>,
    priorities: PriorityPolicy,
    publicKeys: seq<(string, string, KeyRow)>)

  function PolicyFor(b: Bootstrap, workspace: string): WorkspacePolicy {
    WorkspacePolicy(b.auth, b.priorities, workspace)
  }

  function PriorityRows(workspace: string, ps: seq<WorkspacePriority>): (rows: seq<((string, string), PriorityRow)>)
    ensures |rows| == |ps|
    ensures forall i | 0 <= i < |ps| ::
            rows[i] == ((workspace, NameOf(ps[i])), PriorityRow(ps[i].rank, ps[i].description))
  {
    seq(|ps|, i requires 0 <= i < |ps| => ((workspace, NameOf(ps[i])), PriorityRow(ps[i].rank, ps[i].description)))
  }

  function MembershipRows(workspace: string, ms: seq<(string, Role)>): (rows: seq<((string, string), Role)>)
    ensures |rows| == |ms| && forall i | 0 <= i < |ms| :: rows[i] == ((workspace, ms[i].0), ms[i].1)
  {
    seq(|ms|, i requires 0 <= i < |ms| => ((workspace, ms[i].0), ms[i].1))
  }

  function KeyRows(workspace: string,
      ks: seq<(string, string, KeyRow)>): (rows: seq<((string, string, string), KeyRow)>)
    ensures |rows| == |ks| && forall i | 0 <= i < |ks| :: rows[i] == ((workspace, ks[i].0, ks[i].1), ks[i].2)
  {
    seq(|ks|, i requires 0 <= i < |ks| => ((workspace, ks[i].0, ks[i].1), ks[i].2))
  }

  // ---------------------------------------------------------------------------------------------
  // Inserting what is missing
  // ---------------------------------------------------------------------------------------------

  /** `after` keeps every row of `before` and adds, for each key it lacked, the first listed row. */
  ghost predicate AddsMissing<K, V>(before: map<K, V>, rows: seq<(K, V)>, after: map<K, V>) {
    && (forall k | k in before :: k in after && after[k] == before[k])
    && (forall k | k in after && k !in before :: exists i | 0 <= i < |rows| ::
       rows[i].0 == k && IsFirst(rows, i) && after[k] == rows[i].1)
    && (forall i | 0 <= i < |rows| :: rows[i].0 in after)
  }

  ghost predicate IsFirst<K, V>(rows: seq<(K, V)>, i: nat)
    requires i < |rows|
  {
    forall j | 0 <= j < i :: rows[j].0 != rows[i].0
  }

  /** `INSERT ... ON CONFLICT DO NOTHING`, row by row. */
  method InsertMissing<K(==), V>(before: map<K, V>, rows: seq<(K, V)>) returns (after: map<K, V>)
    ensures AddsMissing(before, rows, after)
  {
    after := before;
    for n := 0 to |rows|
      invariant AddsMissing(before, rows[..n], after)
    {
      ghost var sofar := after;
      if rows[n].0 !in after { after := after[rows[n].0 := rows[n].1]; }
      OneMoreRow(before, rows, n, sofar, after);
    }
    assert rows[..|rows|] == rows;
  }

  lemma OneMoreRow<K, V>(before: map<K, V>, rows: seq<(K, V)>, n: nat, sofar: map<K, V>, after: map<K, V>)
    requires n < |rows| && AddsMissing(before, rows[..n], sofar)
    requires after == if rows[n].0 in sofar then sofar else sofar[rows[n].0 := rows[n].1]
    ensures AddsMissing(before, rows[..n + 1], after)
  {
    var more := rows[..n + 1];
    assert more[n] == rows[n] && forall i | 0 <= i < n :: more[i] == rows[..n][i];
    forall k | k in after && k !in before
      ensures exists i | 0 <= i < |more| :: more[i].0 == k && IsFirst(more, i) && after[k] == more[i].1
    {
      if k in sofar {
        var i :| 0 <= i < n && rows[..n][i].0 == k && IsFirst(rows[..n], i) && sofar[k] == rows[..n][i].1;
        assert more[i].0 == k && IsFirst(more, i);
      } else {
        assert IsFirst(more, n) by {
          forall j | 0 <= j < n ensures more[j].0 != more[n].0 { assert rows[..n][j].0 in sofar; }
        }
      }
    }
  }

  /** Inserting the same rows again adds nothing. */
  lemma AddsNothingTwice<K, V>(before: map<K, V>, rows: seq<(K, V)>, after: map<K, V>, again: map<K, V>)
    requires AddsMissing(before, rows, after) && AddsMissing(after, rows, again)
    ensures again == after
  {
    forall k ensures k in again ==> k in after {
      assert forall i | 0 <= i < |rows| :: rows[i].0 in after;
    }
    assert again.Keys == after.Keys;
  }

  // ---------------------------------------------------------------------------------------------
  // What bootstrap promises
  // ---------------------------------------------------------------------------------------------

  /** Some bootstrap priority is missing by name while its rank is taken. */
  ghost predicate RankCollision(t: PriorityTable, workspace: string, ps: seq<WorkspacePriority>) {
    exists i | 0 <= i < |ps| :: (workspace, NameOf(ps[i])) !in t && RankTaken(t, workspace, ps[i].rank)
  }

  ghost predicate Merged(before: Tables, workspace: string, b: Bootstrap, after: Tables) {
    && AddsMissing(before.policies, [(workspace, RowOf(PolicyFor(b, workspace)))], after.policies)
    && AddsMissing(before.priorities, PriorityRows(workspace, b.priorities.priorities), after.priorities)
    && AddsMissing(before.memberships, MembershipRows(workspace, b.memberships), after.memberships)
    && AddsMissing(before.keys, KeyRows(workspace, b.publicKeys), after.keys)
  }

  /** Adding rows whose ranks are free keeps ranks unique. */
  lemma MergeKeepsUniqueRanks(t: PriorityTable, workspace: string, ps: seq<WorkspacePriority>, after: PriorityTable)
    requires UniqueRanks(t) && DistinctNames(ps) && DistinctRanks(ps) && !RankCollision(t, workspace, ps)
    requires AddsMissing(t, PriorityRows(workspace, ps), after)
    ensures UniqueRanks(after)
  {
    forall a, c | a in after && c in after && a.0 == c.0 && after[a].rank == after[c].rank ensures a == c {
      if a !in t { var i := AddedRow(t, workspace, ps, after, a); }
      if c !in t { var j := AddedRow(t, workspace, ps, after, c); }
    }
  }

  lemma AddedRow(t: PriorityTable, workspace: string, ps: seq<WorkspacePriority>, after: PriorityTable,
      key: (string, string))
    returns (i: nat)
    requires AddsMissing(t, PriorityRows(workspace, ps), after) && key in after && key !in t
    ensures i < |ps| && key == (workspace, NameOf(ps[i])) && after[key].rank == ps[i].rank
    ensures !RankCollision(t, workspace, ps) ==> !RankTaken(t, workspace, after[key].rank)
  {
    var rows := PriorityRows(workspace, ps);
    i :| 0 <= i < |rows| && rows[i].0 == key && after[key] == rows[i].1;
  }

  lemma ListedRowIsThere(t: PriorityTable, workspace: string, ps: seq<WorkspacePriority>, after: PriorityTable, i: nat)
    requires AddsMissing(t, PriorityRows(workspace, ps), after) && i < |ps|
    ensures (workspace, NameOf(ps[i])) in after
  {
    assert PriorityRows(workspace, ps)[i].0 in after;
  }

  lemma AddedRowsAreNormal(t: PriorityTable, workspace: string, ps: seq<WorkspacePriority>, after: PriorityTable)
    requires RowsNormal(t) && AddsMissing(t, PriorityRows(workspace, ps), after)
    ensures RowsNormal(after)
    ensures forall k | k in after && k !in t :: k.0 == workspace
  {
    var rows := PriorityRows(workspace, ps);
    forall k | k in after && k !in t
      ensures Identifier(k.1) == k.1 && 0 <= after[k].rank < 0x1_0000 && k.0 == workspace
    {
      var i :| 0 <= i < |rows| && rows[i].0 == k && after[k] == rows[i].1;
      NormalisersAreCanonical(ps[i].name, ps[i].name);
    }
  }

  /** The row of a validated policy is sound once its priorities are in the table. */
  lemma NewPolicyRowIsSound(t: PriorityTable, p: WorkspacePolicy, after: PriorityTable)
    requires WellFormed(p) && p.auth.challengeTtlSeconds <= I32_MAX
    requires AddsMissing(t, PriorityRows(p.workspace, p.priorities.priorities), after)
    ensures PolicyRowSound(RowOf(p), p.workspace, after)
  {
    var ps := p.priorities.priorities;
    var rows := PriorityRows(p.workspace, ps);
    NormalisersAreCanonical(p.priorities.defaultPriority, p.priorities.defaultPriority);
    var i :| 0 <= i < |ps| && NameOf(ps[i]) == Identifier(p.priorities.defaultPriority);
    assert rows[i].0 in after;
  }

  lemma MergeKeepsSound(before: Tables, workspace: string, b: Bootstrap, after: Tables)
    requires Sound(before) && WellFormed(PolicyFor(b, workspace)) && b.auth.challengeTtlSeconds <= I32_MAX
    requires !RankCollision(before.priorities, workspace, b.priorities.priorities)
    requires Merged(before, workspace, b, after)
    ensures Sound(after) && workspace in after.policies
  {
    MergeKeepsUniqueRanks(before.priorities, workspace, b.priorities.priorities, after.priorities);
    AddedRowsAreNormal(before.priorities, workspace, b.priorities.priorities, after.priorities);
    NewPolicyRowIsSound(before.priorities, PolicyFor(b, workspace), after.priorities);
    assert [(workspace, RowOf(PolicyFor(b, workspace)))][0].0 in after.policies;
    forall w | w in after.policies ensures PolicyRowSound(after.policies[w], w, after.priorities) {
      if w in before.policies { MergeKeepsPolicyRow(before, workspace, b, after, w); }
    }
  }

  lemma MergeKeepsPolicyRow(before: Tables, workspace: string, b: Bootstrap, after: Tables, w: string)
    requires Merged(before, workspace, b, after)
    requires w in before.policies && PolicyRowSound(before.policies[w], w, before.priorities)
    ensures w in after.policies && PolicyRowSound(after.policies[w], w, after.priorities)
  {
  }

  /** The row of the first entry of a missing key is added, and what was there before stays. */
  lemma AddsFirst<K, V>(before: map<K, V>, rows: seq<(K, V)>, after: map<K, V>, i: nat)
    requires AddsMissing(before, rows, after) && i < |rows|
    ensures rows[i].0 in after
    ensures rows[i].0 in before ==> after[rows[i].0] == before[rows[i].0]
    ensures rows[i].0 !in before && IsFirst(rows, i) ==> after[rows[i].0] == rows[i].1
  {
    if rows[i].0 !in before && IsFirst(rows, i) {
      var j :| 0 <= j < |rows| && rows[j].0 == rows[i].0 && IsFirst(rows, j) && after[rows[i].0] == rows[j].1;
      assert i == j;
    }
  }

  /** A merge, row by row: what the bootstrap lists and the workspace lacked, as the bootstrap lists it. */
  lemma MergeIsExact(before: Tables, workspace: string, b: Bootstrap, after: Tables, i: nat)
    requires Merged(before, workspace, b, after)
    ensures workspace in after.policies && after.policies[workspace] ==
              if workspace in before.policies then before.policies[workspace]
              else PolicyRow(Identifier(b.priorities.defaultPriority), b.auth.allowedAlgorithms,
                b.auth.challengeTtlSeconds, b.auth.signedCommandsRequired)
    ensures i < |b.priorities.priorities| && DistinctNames(b.priorities.priorities) ==>
              var p := b.priorities.priorities[i];
              var key := (workspace, Identifier(p.name));
              key in after.priorities && after.priorities[key] ==
                if key in before.priorities then before.priorities[key] else PriorityRow(p.rank, p.description)
    ensures i < |b.memberships| && (forall j | 0 <= j < i :: b.memberships[j].0 != b.memberships[i].0) ==>
              var key := (workspace, b.memberships[i].0);
              key in after.memberships && after.memberships[key] ==
                if key in before.memberships then before.memberships[key] else b.memberships[i].1
    ensures var ks := b.publicKeys;
            i < |ks| && (forall j | 0 <= j < i :: (ks[j].0, ks[j].1) != (ks[i].0, ks[i].1)) ==>
              var key := (workspace, ks[i].0, ks[i].1);
              key in after.keys && after.keys[key] == if key in before.keys then before.keys[key] else ks[i].2
  {
    AddsFirst(before.policies, [(workspace, RowOf(PolicyFor(b, workspace)))], after.policies, 0);
    if i < |b.priorities.priorities| {
      AddsFirst(before.priorities, PriorityRows(workspace, b.priorities.priorities), after.priorities, i);
    }
    if i < |b.memberships| {
      AddsFirst(before.memberships, MembershipRows(workspace, b.memberships), after.memberships, i);
    }
    if i < |b.publicKeys| { AddsFirst(before.keys, KeyRows(workspace, b.publicKeys), after.keys, i); }
  }

  /** Once merged, a bootstrap meets no collision and merges to the same tables again. */
  lemma MergeIsIdempotent(before: Tables, workspace: string, b: Bootstrap, after: Tables, again: Tables)
    requires Merged(before, workspace, b, after) && Merged(after, workspace, b, again)
    ensures !RankCollision(after.priorities, workspace, b.priorities.priorities) && again == after
  {
    var rows := PriorityRows(workspace, b.priorities.priorities);
    assert forall i | 0 <= i < |rows| :: rows[i].0 in after.priorities;
    AddsNothingTwice(before.policies, [(workspace, RowOf(PolicyFor(b, workspace)))], after.policies, again.policies);
    AddsNothingTwice(before.priorities, rows, after.priorities, again.priorities);
    AddsNothingTwice(before.memberships, MembershipRows(workspace, b.memberships), after.memberships,
      again.memberships);
    AddsNothingTwice(before.keys, KeyRows(workspace, b.publicKeys), after.keys, again.keys);
  }

  // ---------------------------------------------------------------------------------------------
  // What replacing a policy promises
  // ---------------------------------------------------------------------------------------------

  ghost predicate Replaced(before: Tables, p: WorkspacePolicy, after: Tables) {
    && after.policies == before.policies[p.workspace := RowOf(p)]
    && after.memberships == before.memberships && after.keys == before.keys
    && AddsMissing(WithoutWorkspace(before.priorities, p.workspace),
       PriorityRows(p.workspace, p.priorities.priorities), after.priorities)
  }

  function WithoutWorkspace(t: PriorityTable, workspace: string): PriorityTable {
    map k | k in t && k.0 != workspace :: t[k]
  }

  lemma ReplaceKeepsSound(before: Tables, p: WorkspacePolicy, after: Tables)
    requires Sound(before) && WellFormed(p) && p.auth.challengeTtlSeconds <= I32_MAX && Replaced(before, p, after)
    ensures Sound(after)
  {
    var kept := WithoutWorkspace(before.priorities, p.workspace);
    MergeKeepsUniqueRanks(kept, p.workspace, p.priorities.priorities, after.priorities);
    AddedRowsAreNormal(kept, p.workspace, p.priorities.priorities, after.priorities);
    NewPolicyRowIsSound(kept, p, after.priorities);
    forall w | w in after.policies ensures PolicyRowSound(after.policies[w], w, after.priorities) {
      if w != p.workspace { ReplaceKeepsPolicyRow(before, p, after, w); }
    }
  }

  /** A replacement, row by row: the workspace holds the submitted rows, and no other workspace changes. */
  lemma ReplacementIsExact(before: Tables, p: WorkspacePolicy, after: Tables, workspace: string, name: string)
    requires Replaced(before, p, after) && DistinctNames(p.priorities.priorities)
    ensures var ps := p.priorities.priorities;
            && (forall i | 0 <= i < |ps| :: (p.workspace, NameOf(ps[i])) in after.priorities
                  && after.priorities[(p.workspace, NameOf(ps[i]))] == PriorityRow(ps[i].rank, ps[i].description))
            && ((p.workspace, name) in after.priorities ==> Named(ps, name))
    ensures workspace != p.workspace ==>
              && ((workspace, name) in after.priorities <==> (workspace, name) in before.priorities)
              && ((workspace, name) in after.priorities ==>
                    after.priorities[(workspace, name)] == before.priorities[(workspace, name)])
              && (workspace in after.policies <==> workspace in before.policies)
              && (workspace in after.policies ==> after.policies[workspace] == before.policies[workspace])
    ensures p.workspace in after.policies && after.policies[p.workspace] == PolicyRow(
              Identifier(p.priorities.defaultPriority), p.auth.allowedAlgorithms, p.auth.challengeTtlSeconds,
              p.auth.signedCommandsRequired)
  {
    var ps, kept := p.priorities.priorities, WithoutWorkspace(before.priorities, p.workspace);
    var rows := PriorityRows(p.workspace, ps);
    forall i | 0 <= i < |ps|
      ensures (p.workspace, NameOf(ps[i])) in after.priorities
      ensures after.priorities[(p.workspace, NameOf(ps[i]))] == PriorityRow(ps[i].rank, ps[i].description)
    {
      SubmittedRowIsThere(kept, p.workspace, ps, after.priorities, i);
    }
    if (p.workspace, name) in after.priorities {
      var i := AddedRow(kept, p.workspace, ps, after.priorities, (p.workspace, name));
    }
    if workspace != p.workspace {
      var key := (workspace, name);
      assert key in kept <==> key in before.priorities;
      if key in after.priorities && key !in kept {
        var i := AddedRow(kept, p.workspace, ps, after.priorities, key);
      }
    }
  }

  lemma SubmittedRowIsThere(kept: PriorityTable, workspace: string, ps: seq<WorkspacePriority>, after: PriorityTable,
      i: nat)
    requires AddsMissing(kept, PriorityRows(workspace, ps), after) && DistinctNames(ps) && i < |ps|
    requires forall k | k in kept :: k.0 != workspace
    ensures (workspace, NameOf(ps[i])) in after
    ensures after[(workspace, NameOf(ps[i]))] == PriorityRow(ps[i].rank, ps[i].description)
  {
    var rows, key := PriorityRows(workspace, ps), (workspace, NameOf(ps[i]));
    assert rows[i].0 in after;
    var j :| 0 <= j < |rows| && rows[j].0 == key && after[key] == rows[j].1;
    assert NameOf(ps[j]) == NameOf(ps[i]);
  }

  lemma ReplaceKeepsPolicyRow(before: Tables, p: WorkspacePolicy, after: Tables, w: string)
    requires Replaced(before, p, after) && w != p.workspace
    requires w in before.policies && PolicyRowSound(before.policies[w], w, before.priorities)
    ensures w in after.policies && PolicyRowSound(after.policies[w], w, after.priorities)
  {
    assert (w, before.policies[w].defaultPriority) in WithoutWorkspace(before.priorities, p.workspace);
  }

  /** The rows a replacement leaves for its workspace are the submitted ones. */
  lemma ReplacedRows(before: PriorityTable, p: WorkspacePolicy, after: PriorityTable, name: string)
    requires DistinctNames(p.priorities.priorities)
    requires AddsMissing(WithoutWorkspace(before, p.workspace), PriorityRows(p.workspace, p.priorities.priorities),
             after)
    ensures (p.workspace, name) in after <==> Named(p.priorities.priorities, name)
    ensures (p.workspace, name) in after ==>
              RankFor(p.priorities.priorities, name).Some?
                && RankFor(p.priorities.priorities, name).value == after[(p.workspace, name)].rank
  {
    var ps, kept := p.priorities.priorities, WithoutWorkspace(before, p.workspace);
    RankForFinds(ps, name);
    if Named(ps, name) {
      var i :| 0 <= i < |ps| && NameOf(ps[i]) == name;
      ListedRowIsThere(kept, p.workspace, ps, after, i);
    }
    if (p.workspace, name) in after { var i := AddedRow(kept, p.workspace, ps, after, (p.workspace, name)); }
  }

  /** What is read back after a replacement ranks and supports every priority as the submitted policy does. */
  lemma ReadBackAgrees(before: Tables, p: WorkspacePolicy, after: Tables, read: WorkspacePolicy, name: string)
    requires Sound(before) && WellFormed(p) && p.auth.challengeTtlSeconds <= I32_MAX
    requires Replaced(before, p, after) && IsStored(after, read) && read.workspace == p.workspace
    ensures WellFormed(read) && read.auth == p.auth
    ensures read.priorities.defaultPriority == Identifier(p.priorities.defaultPriority)
    ensures RankFor(read.priorities.priorities, name) == RankFor(p.priorities.priorities, name)
    ensures Supports(p.priorities.priorities, name) <==> (p.workspace, name) in after.priorities
  {
    ReplaceKeepsSound(before, p, after);
    StoredIsWellFormed(after, read);
    ReplacedRows(before.priorities, p, after.priorities, name);
    RankForFinds(p.priorities.priorities, name);
    NormalisersAreCanonical(p.priorities.defaultPriority, p.priorities.defaultPriority);
  }

  // ---------------------------------------------------------------------------------------------
  // The store
  // ---------------------------------------------------------------------------------------------

  class Store {
    var policies: map<string, PolicyRow>
    var priorities: PriorityTable
    var memberships: map<(string, string), Role>
    var keys: map<(string, string, string), KeyRow>

    ghost function Contents(): Tables
      reads this
    {
      Tables(policies, priorities, memberships, keys)
    }

    ghost predicate Valid()
      reads this
    {
      Sound(Contents())
    }

    constructor ()
      ensures Valid() && Contents() == Tables(map[], map[], map[], map[])
    {
      policies, priorities, memberships, keys := map[], map[], map[], map[];
    }

    method WorkspaceSupportsPriority(workspace: string, priority: string) returns (supported: bool)
      ensures supported <==> (workspace, priority) in priorities
    {
      supported := (workspace, priority) in priorities;
    }

    /** `ORDER BY rank DESC, name ASC`; ranks are unique, so the name never decides. */
    method ReadPriorities(workspace: string) returns (ps: seq<WorkspacePriority>)
      requires UniqueRanks(priorities) && RowsNormal(priorities)
      ensures ListsRows(priorities, workspace, ps)
    {
      ps := RowsByRank(priorities, workspace);
      FallingRanksAreStrict(priorities, workspace, ps);
    }

    method FetchWorkspacePolicy(workspace: string) returns (r: Result<WorkspacePolicy, Error>)
      requires Valid()
      ensures workspace !in policies ==> r == Err(NotFound)
      ensures workspace in policies ==> r.Ok? && r.value.workspace == workspace && IsStored(Contents(), r.value)
    {
      if workspace !in policies { return Err(NotFound); }
      var row := policies[workspace];
      assert PolicyRowSound(row, workspace, priorities);
      var ps := ReadPriorities(workspace);
      var default := NormalizeIdentifier(row.defaultPriority);
      var policy := WorkspacePolicy(
        AuthPolicy(row.allowedAlgorithms, row.challengeTtlSeconds, row.signedCommandsRequired),
        PriorityPolicy(default, ps),
        workspace);
      StoredIsWellFormed(Contents(), policy);
      var valid := ValidateWorkspacePolicy(policy);
      if valid.Err? { return Err(Internal); }
      r := Ok(policy);
    }

    /** A plain INSERT: either constraint may refuse it. */
    method InsertPriority(workspace: string, name: string, row: PriorityRow) returns (r: Result<(), Error>)
      modifies this`priorities
      ensures r.Err? <==> (workspace, name) in old(priorities) || RankTaken(old(priorities), workspace, row.rank)
      ensures r.Err? ==> r.error == Internal
      ensures priorities == if r.Ok? then old(priorities)[(workspace, name) := row] else old(priorities)
    {
      if (workspace, name) in priorities || RankTaken(priorities, workspace, row.rank) { return Err(Internal); }
      priorities := priorities[(workspace, name) := row];
      r := Ok(());
    }

    /**
     * `upsert_workspace_policy`: a policy that does not validate, or a TTL that does not fit the
     * column, changes nothing; any other replaces the workspace's rows, and no constraint refuses it.
     */
    method UpsertWorkspacePolicy(policy: WorkspacePolicy) returns (r: Result<WorkspacePolicy, Error>)
      requires Valid()
      modifies this
      ensures Valid()
      ensures r == Err(BadRequest) <==> !WellFormed(policy)
      ensures r == Err(Internal) <==> WellFormed(policy) && policy.auth.challengeTtlSeconds > I32_MAX
      ensures r.Err? ==> (r.error == BadRequest || r.error == Internal) && Contents() == old(Contents())
      ensures r.Ok? ==>
                && Replaced(old(Contents()), policy, Contents())
                && IsStored(Contents(), r.value) && r.value.workspace == policy.workspace
    {
      var valid := ValidateWorkspacePolicy(policy);
      if valid.Err? { return Err(BadRequest); }
      if policy.auth.challengeTtlSeconds > I32_MAX { return Err(Internal); }
      var default := NormalizeIdentifier(policy.priorities.defaultPriority);
      policies := policies[policy.workspace := PolicyRow(
        default, policy.auth.allowedAlgorithms, policy.auth.challengeTtlSeconds, policy.auth.signedCommandsRequired)];
      ReplacePriorities(policy.workspace, policy.priorities.priorities);
      ReplaceKeepsSound(old(Contents()), policy, Contents());
      r := FetchWorkspacePolicy(policy.workspace);
    }

    /** DELETE, then one INSERT for each priority; with distinct names and ranks every INSERT succeeds. */
    method ReplacePriorities(workspace: string, ps: seq<WorkspacePriority>)
      requires DistinctNames(ps) && DistinctRanks(ps)
      modifies this`priorities
      ensures AddsMissing(WithoutWorkspace(old(priorities), workspace), PriorityRows(workspace, ps), priorities)
    {
      priorities := WithoutWorkspace(priorities, workspace);
      ghost var kept := priorities;
      ghost var rows := PriorityRows(workspace, ps);
      for n := 0 to |ps|
        invariant AddsMissing(kept, rows[..n], priorities)
      {
        var name := NormalizeIdentifier(ps[n].name);
        ghost var sofar := priorities;
        NextRowIsFree(kept, workspace, ps, n, priorities);
        var inserted := InsertPriority(workspace, name, PriorityRow(ps[n].rank, ps[n].description));
        OneMoreRow(kept, rows, n, sofar, priorities);
      }
      assert rows[..|ps|] == rows;
    }

    /** One INSERT for each priority whose name is missing; the first taken rank fails the transaction. */
    method InsertPrioritiesIfMissing(workspace: string, ps: seq<WorkspacePriority>) returns (r: Result<(), Error>)
      requires DistinctNames(ps) && DistinctRanks(ps)
      modifies this`priorities
      ensures r.Ok? <==> !RankCollision(old(priorities), workspace, ps)
      ensures r.Ok? ==> AddsMissing(old(priorities), PriorityRows(workspace, ps), priorities)
      ensures r.Err? ==> r.error == Internal
    {
      ghost var rows := PriorityRows(workspace, ps);
      for n := 0 to |ps|
        invariant AddsMissing(old(priorities), rows[..n], priorities)
        invariant forall i | 0 <= i < n ::
                  (workspace, NameOf(ps[i])) in old(priorities) || !RankTaken(old(priorities), workspace, ps[i].rank)
      {
        var name := NormalizeIdentifier(ps[n].name);
        ghost var sofar := priorities;
        MissingRowMeetsOnlyOldRanks(old(priorities), workspace, ps, n, priorities);
        if (workspace, name) !in priorities {
          var inserted := InsertPriority(workspace, name, PriorityRow(ps[n].rank, ps[n].description));
          if inserted.Err? { return Err(inserted.error); }
        }
        OneMoreRow(old(priorities), rows, n, sofar, priorities);
      }
      assert rows[..|ps|] == rows;
      r := Ok(());
    }

    /**
     * `ensure_workspace_governance`: with a validated bootstrap and a TTL that fits, it succeeds
     * exactly when no bootstrap priority missing by name finds its rank taken, and then adds the
     * missing rows and alters none.
     */
    method EnsureWorkspaceGovernance(workspace: string, b: Bootstrap) returns (r: Result<WorkspacePolicy, Error>)
      requires Valid() && WellFormed(PolicyFor(b, workspace))
      modifies this
      ensures Valid()
      ensures r.Ok? <==>
                && b.auth.challengeTtlSeconds <= I32_MAX
                && !RankCollision(old(priorities), workspace, b.priorities.priorities)
      ensures r.Err? ==> r.error == Internal && Contents() == old(Contents())
      ensures r.Ok? ==>
                && Merged(old(Contents()), workspace, b, Contents())
                && IsStored(Contents(), r.value) && r.value.workspace == workspace && WellFormed(r.value)
    {
      var inserted := InsertBootstrap(workspace, b);
      if inserted.Err? { return Err(inserted.error); }
      r := FetchWorkspacePolicy(workspace);
      StoredIsWellFormed(Contents(), r.value);
    }

    /** The inserts of a bootstrap, in one transaction. */
    method InsertBootstrap(workspace: string, b: Bootstrap) returns (r: Result<(), Error>)
      requires Valid() && WellFormed(PolicyFor(b, workspace))
      modifies this
      ensures Valid()
      ensures r.Ok? <==>
                && b.auth.challengeTtlSeconds <= I32_MAX
                && !RankCollision(old(priorities), workspace, b.priorities.priorities)
      ensures r.Err? ==> r.error == Internal && Contents() == old(Contents())
      ensures r.Ok? ==> Merged(old(Contents()), workspace, b, Contents())
    {
      var savedPolicies, savedPriorities := policies, priorities;
      if b.auth.challengeTtlSeconds > I32_MAX { return Err(Internal); }
      policies := InsertMissing(policies, [(workspace, RowOf(PolicyFor(b, workspace)))]);
      var inserted := InsertPrioritiesIfMissing(workspace, b.priorities.priorities);
      if inserted.Err? {
        policies, priorities := savedPolicies, savedPriorities;
        return Err(inserted.error);
      }
      memberships := InsertMissing(memberships, MembershipRows(workspace, b.memberships));
      keys := InsertMissing(keys, KeyRows(workspace, b.publicKeys));
      MergeKeepsSound(old(Contents()), workspace, b, Contents());
      r := Ok(());
    }
  }

  /** A policy that drops a bootstrap priority and gives its rank to another makes the bootstrap collide. */
  lemma ReusedRankCollides(before: Tables, p: WorkspacePolicy, after: Tables, b: Bootstrap, i: nat, j: nat)
    requires Replaced(before, p, after) && DistinctNames(p.priorities.priorities)
    requires i < |b.priorities.priorities| && j < |p.priorities.priorities|
    requires !Named(p.priorities.priorities, NameOf(b.priorities.priorities[i]))
    requires p.priorities.priorities[j].rank == b.priorities.priorities[i].rank
    ensures RankCollision(after.priorities, p.workspace, b.priorities.priorities)
  {
    var ps := p.priorities.priorities;
    var key := (p.workspace, NameOf(ps[j]));
    ReplacedRows(before.priorities, p, after.priorities, NameOf(b.priorities.priorities[i]));
    ReplacedRows(before.priorities, p, after.priorities, NameOf(ps[j]));
    RankForFinds(ps, NameOf(ps[j]));
    assert key in after.priorities && after.priorities[key].rank == ps[j].rank;
  }

  function OnePriority(name: string): PriorityPolicy {
    PriorityPolicy(name, [WorkspacePriority(None, name, 1)])
  }

  lemma OnePriorityIsWellFormed(name: string, other: string)
    ensures WellFormedPriorities(OnePriority(name))
    ensures Identifier(other) != Identifier(name) ==>
            !Named(OnePriority(other).priorities, NameOf(OnePriority(name).priorities[0]))
  {
    assert NameOf(OnePriority(name).priorities[0]) == Identifier(name);
  }

  /** From an empty store: a bootstrap of one priority, its renaming with the rank kept, and the next touch. */
  method RenameBootstrapPriority(name: string, other: string) returns (ensured: Result<WorkspacePolicy, Error>,
      renamed: Result<WorkspacePolicy, Error>, again: Result<WorkspacePolicy, Error>)
    requires Identifier(name) != Identifier(other)
    ensures ensured.Ok? && renamed.Ok? && again == Err(Internal)
  {
    var auth := AuthPolicy([Ed25519], 300, false);
    var bootstrap := Bootstrap(auth, [], OnePriority(name), []);
    var policy := WorkspacePolicy(auth, OnePriority(other), "w");
    OnePriorityIsWellFormed(name, other);
    OnePriorityIsWellFormed(other, name);
    var store := new Store();
    ensured := store.EnsureWorkspaceGovernance("w", bootstrap);
    ghost var before := store.Contents();
    renamed := store.UpsertWorkspacePolicy(policy);
    ReusedRankCollides(before, policy, store.Contents(), bootstrap, 0, 0);
    again := store.EnsureWorkspaceGovernance("w", bootstrap);
  }

  /**
   * A store in which it fails: the bootstrap's `low` goes in, an administrator renames it to `high` and keeps
   * the rank, and the next touch finds the rank taken.
   */
  method BootstrapCanCollide() returns (ensured: Result<WorkspacePolicy, Error>,
      renamed: Result<WorkspacePolicy, Error>, again: Result<WorkspacePolicy, Error>)
    ensures ensured.Ok? && renamed.Ok? && again == Err(Internal)
  {
    LowIsNotHigh("low", "high");
    ensured, renamed, again := RenameBootstrapPriority("low", "high");
  }

  /** Two words are different names exactly when they differ beyond their case. */
  lemma WordsMakeNames(name: string, other: string)
    requires name != [] && forall i | 0 <= i < |name| :: IsAlphanumeric(name[i])
    requires other != [] && forall i | 0 <= i < |other| :: IsAlphanumeric(other[i])
    ensures Identifier(name) != Identifier(other) <==> Upper(name) != Upper(other)
  {
    WordsOfRun(name);
    WordsOfRun(other);
    NormalisersAreCanonical(name, other);
  }

  lemma LowIsNotHigh(low: string, high: string)
    requires |low| == 3 && low[0] == 'l' && low[1] == 'o' && low[2] == 'w'
    requires |high| == 4 && high[0] == 'h' && high[1] == 'i' && high[2] == 'g' && high[3] == 'h'
    ensures Identifier(low) != Identifier(high)
  {
    WordsMakeNames(low, high);
    assert |Upper(low)| != |Upper(high)|;
  }

  /** `ps` lists the workspace's rows, each once, no rank before a higher one. */
  ghost predicate ListsByRank(t: PriorityTable, workspace: string, ps: seq<WorkspacePriority>) {
    && (forall i, j | 0 <= i < j < |ps| :: ps[i].rank >= ps[j].rank && ps[i].name != ps[j].name)
    && (forall i | 0 <= i < |ps| ::
       (workspace, ps[i].name) in t && t[(workspace, ps[i].name)] == PriorityRow(ps[i].rank, ps[i].description))
    && (forall k | k in t && k.0 == workspace :: exists i | 0 <= i < |ps| :: ps[i].name == k.1)
  }

  method RowsByRank(t: PriorityTable, workspace: string) returns (ps: seq<WorkspacePriority>)
    requires RowsNormal(t)
    ensures ListsByRank(t, workspace, ps)
  {
    ps := [];
    var remaining := set k | k in t && k.0 == workspace;
    while remaining != {}
      invariant forall k | k in remaining :: k in t && k.0 == workspace
      invariant ListsByRank(RowsWithout(t, remaining), workspace, ps)
      invariant RanksAbove(t, ps, remaining)
      decreases remaining
    {
      TopRankExists(t, remaining);
      var top :| top in remaining && forall k | k in remaining :: t[top].rank >= t[k].rank;
      assert 0 <= t[top].rank < 0x1_0000;
      ListOneMore(t, workspace, ps, remaining, top);
      StaysAbove(t, ps, remaining, top);
      ps := ps + [WorkspacePriority(t[top].description, top.1, t[top].rank)];
      remaining := remaining - {top};
    }
    assert RowsWithout(t, remaining) == t;
  }

  ghost predicate RanksAbove(t: PriorityTable, ps: seq<WorkspacePriority>, remaining: set<(string, string)>) {
    forall k, i | k in remaining && k in t && 0 <= i < |ps| :: ps[i].rank >= t[k].rank
  }

  lemma StaysAbove(t: PriorityTable, ps: seq<WorkspacePriority>, remaining: set<(string, string)>,
      top: (string, string))
    requires RanksAbove(t, ps, remaining) && top in remaining && top in t && 0 <= t[top].rank < 0x1_0000
    requires forall k | k in remaining && k in t :: t[top].rank >= t[k].rank
    ensures RanksAbove(t, ps + [WorkspacePriority(t[top].description, top.1, t[top].rank)], remaining - {top})
  {
  }

  lemma FallingRanksAreStrict(t: PriorityTable, workspace: string, ps: seq<WorkspacePriority>)
    requires UniqueRanks(t) && ListsByRank(t, workspace, ps)
    ensures ListsRows(t, workspace, ps)
  {
    forall i, j | 0 <= i < j < |ps| ensures ps[i].rank > ps[j].rank {
      var a, b := (workspace, ps[i].name), (workspace, ps[j].name);
      assert a in t && b in t && a != b;
    }
  }

  function RowsWithout(t: PriorityTable, ids: set<(string, string)>): PriorityTable {
    map k | k in t && k !in ids :: t[k]
  }

  lemma ListOneMore(t: PriorityTable, workspace: string, ps: seq<WorkspacePriority>,
      remaining: set<(string, string)>, top: (string, string))
    requires top in remaining && top in t && top.0 == workspace && 0 <= t[top].rank < 0x1_0000
    requires ListsByRank(RowsWithout(t, remaining), workspace, ps)
    requires RanksAbove(t, ps, remaining)
    ensures ListsByRank(RowsWithout(t, remaining - {top}), workspace,
            ps + [WorkspacePriority(t[top].description, top.1, t[top].rank)])
  {
    var more := ps + [WorkspacePriority(t[top].description, top.1, t[top].rank)];
    var before, after := RowsWithout(t, remaining), RowsWithout(t, remaining - {top});
    forall i | 0 <= i < |more|
      ensures (workspace, more[i].name) in after
              && after[(workspace, more[i].name)] == PriorityRow(more[i].rank, more[i].description)
      ensures i < |ps| ==> more[i].name != top.1
    {
      if i < |ps| { assert (workspace, ps[i].name) in before; } else { assert (workspace, more[i].name) == top; }
    }
    forall k | k in after && k.0 == workspace ensures exists i | 0 <= i < |more| :: more[i].name == k.1 {
      if k == top { assert more[|ps|].name == k.1; }
      else { assert k in before; var i :| 0 <= i < |ps| && ps[i].name == k.1; assert more[i].name == k.1; }
    }
  }

  lemma TopRankExists(t: PriorityTable, ids: set<(string, string)>)
    requires ids != {} && forall k | k in ids :: k in t
    ensures exists top :: top in ids && forall k | k in ids :: t[top].rank >= t[k].rank
  {
    var above := (a: (string, string), b: (string, string)) => a in t && b in t && t[a].rank > t[b].rank;
    MinimalExists(above, ids);
    var top :| top in ids && forall k | k in ids :: !above(k, top);
    forall k | k in ids ensures t[top].rank >= t[k].rank { assert !above(k, top); }
  }

  /** While a replacement inserts, the next row's name and rank are both free. */
  lemma NextRowIsFree(kept: PriorityTable, workspace: string, ps: seq<WorkspacePriority>, n: nat, sofar: PriorityTable)
    requires n < |ps| && DistinctNames(ps) && DistinctRanks(ps)
    requires forall k | k in kept :: k.0 != workspace
    requires AddsMissing(kept, PriorityRows(workspace, ps)[..n], sofar)
    ensures (workspace, NameOf(ps[n])) !in sofar && !RankTaken(sofar, workspace, ps[n].rank)
  {
    var rows := PriorityRows(workspace, ps)[..n];
    forall k | k in sofar && k.0 == workspace ensures k.1 != NameOf(ps[n]) && sofar[k].rank != ps[n].rank {
      var i :| 0 <= i < |rows| && rows[i].0 == k && sofar[k] == rows[i].1;
      assert NameOf(ps[i]) == k.1 && ps[i].rank == sofar[k].rank;
    }
  }

  /** The rows a bootstrap has added so far clash with no later row of its own. */
  lemma MissingRowMeetsOnlyOldRanks(before: PriorityTable, workspace: string, ps: seq<WorkspacePriority>, n: nat,
      sofar: PriorityTable)
    requires n < |ps| && DistinctNames(ps) && DistinctRanks(ps)
    requires AddsMissing(before, PriorityRows(workspace, ps)[..n], sofar)
    ensures (workspace, NameOf(ps[n])) in sofar <==> (workspace, NameOf(ps[n])) in before
    ensures RankTaken(sofar, workspace, ps[n].rank) <==> RankTaken(before, workspace, ps[n].rank)
  {
    var rows := PriorityRows(workspace, ps)[..n];
    forall k | k in sofar && k !in before ensures k.1 != NameOf(ps[n]) && sofar[k].rank != ps[n].rank {
      var i :| 0 <= i < |rows| && rows[i].0 == k && sofar[k] == rows[i].1;
      assert NameOf(ps[i]) == k.1 && ps[i].rank == sofar[k].rank;
    }
    if RankTaken(before, workspace, ps[n].rank) {
      var k :| k in before && k.0 == workspace && before[k].rank == ps[n].rank;
      assert k in sofar && sofar[k] == before[k];
    }
  }
}
