/** Workspace policies: validation, replace-all storage, and the bootstrap merge. */
module Governance {
  import opened Common
  import opened Normalise

  const I32_MAX: int := 0x7FFF_FFFF

  type Rank = r: nat | r < 0x1_0000
  type U32 = n: nat | n < 0x1_0000_0000

  datatype Algorithm = Ed25519 | Secp256k1 | SshEd25519
  datatype Role = Admin | Editor | Viewer

  datatype WorkspacePriority = WorkspacePriority(description: Option<string>, name: string, rank: Rank)
  datatype PriorityPolicy = PriorityPolicy(defaultPriority: string, priorities: seq<WorkspacePriority>)
  datatype AuthPolicy = AuthPolicy(allowedAlgorithms: seq<Algorithm>, challengeTtlSeconds: U32,
    signedCommandsRequired: bool)
  datatype WorkspacePolicy = WorkspacePolicy(auth: AuthPolicy, priorities: PriorityPolicy, workspace: string)

  datatype ValidationError =
    | DuplicatePriorityName(name: string)
    | DuplicatePriorityRank(rank: nat)
    | MissingAuthAlgorithms
    | MissingDefaultPriority(name: string)
    | MissingPriorities

  // ---------------------------------------------------------------------------------------------
  // Validation
  // ---------------------------------------------------------------------------------------------

  function NameOf(p: WorkspacePriority): string {
    Identifier(p.name)
  }

  ghost predicate DistinctNames(ps: seq<WorkspacePriority>) {
    forall i, j | 0 <= i < j < |ps| :: NameOf(ps[i]) != NameOf(ps[j])
  }

  ghost predicate DistinctRanks(ps: seq<WorkspacePriority>) {
    forall i, j | 0 <= i < j < |ps| :: ps[i].rank != ps[j].rank
  }

  ghost predicate Named(ps: seq<WorkspacePriority>, name: string) {
    exists i | 0 <= i < |ps| :: NameOf(ps[i]) == name
  }

  ghost predicate Ranked(ps: seq<WorkspacePriority>, rank: nat) {
    exists i | 0 <= i < |ps| :: ps[i].rank == rank
  }

  ghost predicate WellFormedPriorities(p: PriorityPolicy) {
    && p.priorities != []
    && DistinctNames(p.priorities)
    && DistinctRanks(p.priorities)
    && Named(p.priorities, Identifier(p.defaultPriority))
  }

  ghost predicate WellFormed(p: WorkspacePolicy) {
    p.auth.allowedAlgorithms != [] && WellFormedPriorities(p.priorities)
  }

  /** The error names the first fault the list shows, reading from its start. */
  ghost predicate Faults(p: PriorityPolicy, e: ValidationError) {
    match e
    case MissingPriorities => p.priorities == []
    case DuplicatePriorityName(name) =>
      exists j | 0 <= j < |p.priorities| ::
        && DistinctNames(p.priorities[..j]) && DistinctRanks(p.priorities[..j])
        && NameOf(p.priorities[j]) == name && Named(p.priorities[..j], name)
    case DuplicatePriorityRank(rank) =>
      exists j | 0 <= j < |p.priorities| ::
        && DistinctNames(p.priorities[..j]) && DistinctRanks(p.priorities[..j])
        && !Named(p.priorities[..j], NameOf(p.priorities[j]))
        && p.priorities[j].rank == rank && Ranked(p.priorities[..j], rank)
    case MissingDefaultPriority(name) =>
      && p.priorities != [] && DistinctNames(p.priorities) && DistinctRanks(p.priorities)
      && name == Identifier(p.defaultPriority) && !Named(p.priorities, name)
    case MissingAuthAlgorithms => false
  }

  method ValidatePriorityPolicy(p: PriorityPolicy) returns (r: Result<(), ValidationError>)
    ensures r.Ok? <==> WellFormedPriorities(p)
    ensures r.Err? ==> Faults(p, r.error)
  {
    if p.priorities == [] { return Err(MissingPriorities); }
    var names: set<string> := {};
    var ranks: set<nat> := {};
    var normalizedDefault := NormalizeIdentifier(p.defaultPriority);
    var defaultPresent := false;
    for n := 0 to |p.priorities|
      invariant forall name :: name in names <==> Named(p.priorities[..n], name)
      invariant forall rank :: rank in ranks <==> Ranked(p.priorities[..n], rank)
      invariant DistinctNames(p.priorities[..n]) && DistinctRanks(p.priorities[..n])
      invariant defaultPresent <==> Named(p.priorities[..n], normalizedDefault)
    {
      var priority := p.priorities[n];
      OneMorePriority(p.priorities, n);
      var name := NormalizeIdentifier(priority.name);
      if name == normalizedDefault { defaultPresent := true; }
      if name in names {
        ClashIsFinal(p.priorities, n);
        return Err(DuplicatePriorityName(name));
      }
      names := names + {name};
      if priority.rank in ranks {
        ClashIsFinal(p.priorities, n);
        return Err(DuplicatePriorityRank(priority.rank));
      }
      ranks := ranks + {priority.rank};
    }
    assert p.priorities[..|p.priorities|] == p.priorities;
    if !defaultPresent { return Err(MissingDefaultPriority(normalizedDefault)); }
    r := Ok(());
  }

  lemma OneMorePriority(ps: seq<WorkspacePriority>, n: nat)
    requires n < |ps|
    ensures forall name :: Named(ps[..n + 1], name) <==> Named(ps[..n], name) || name == NameOf(ps[n])
    ensures forall rank: nat :: Ranked(ps[..n + 1], rank) <==> Ranked(ps[..n], rank) || rank == ps[n].rank
    ensures DistinctNames(ps[..n]) && !Named(ps[..n], NameOf(ps[n])) ==> DistinctNames(ps[..n + 1])
    ensures DistinctRanks(ps[..n]) && !Ranked(ps[..n], ps[n].rank) ==> DistinctRanks(ps[..n + 1])
  {
    assert ps[..n + 1][n] == ps[n];
    forall i | 0 <= i < n ensures ps[..n + 1][i] == ps[..n][i] {}
  }

  lemma ClashIsFinal(ps: seq<WorkspacePriority>, n: nat)
    requires n < |ps|
    ensures Named(ps[..n], NameOf(ps[n])) ==> !DistinctNames(ps)
    ensures Ranked(ps[..n], ps[n].rank) ==> !DistinctRanks(ps)
  {
  }

  method ValidateWorkspacePolicy(p: WorkspacePolicy) returns (r: Result<(), ValidationError>)
    ensures r.Ok? <==> WellFormed(p)
    ensures r.Err? ==> if p.auth.allowedAlgorithms == [] then r.error == MissingAuthAlgorithms
            else Faults(p.priorities, r.error)
  {
    if p.auth.allowedAlgorithms == [] { return Err(MissingAuthAlgorithms); }
    r := ValidatePriorityPolicy(p.priorities);
  }

  // ---------------------------------------------------------------------------------------------
  // Reading a policy
  // ---------------------------------------------------------------------------------------------

  /** `rank_for`: the rank of the first priority whose normalised name is `priority`. */
  function RankFor(ps: seq<WorkspacePriority>, priority: string): Option<Rank> {
    if ps == [] then None
    else if NameOf(ps[0]) == priority then Some(ps[0].rank)
    else RankFor(ps[1..], priority)
  }

  function Supports(ps: seq<WorkspacePriority>, priority: string): bool {
    RankFor(ps, priority).Some?
  }

  lemma {:induction false} RankForFinds(ps: seq<WorkspacePriority>, priority: string)
    requires DistinctNames(ps)
    ensures RankFor(ps, priority).None? <==> !Named(ps, priority)
    ensures forall i | 0 <= i < |ps| && NameOf(ps[i]) == priority :: RankFor(ps, priority) == Some(ps[i].rank)
    decreases |ps|
  {
    if ps != [] {
      RankForFinds(ps[1..], priority);
      assert forall i | 0 <= i < |ps[1..]| :: ps[1..][i] == ps[i + 1];
      assert forall i | 1 <= i < |ps| :: ps[i] == ps[1..][i - 1];
    }
  }

  // ---------------------------------------------------------------------------------------------
  // Tables
  // ---------------------------------------------------------------------------------------------

  datatype PolicyRow = PolicyRow(
    defaultPriority: string,
    allowedAlgorithms: seq<Algorithm>,
    challengeTtlSeconds: int,
    signedCommandsRequired: bool)
  datatype PriorityRow = PriorityRow(rank: int, description: Option<string>)
  datatype KeyRow = KeyRow(algorithm: Algorithm, publicKey: string)

  type PriorityTable = map<(string, string), PriorityRow>

  datatype Tables = Tables(
    policies: map<string, PolicyRow>,
    priorities: PriorityTable,
    memberships: map<(string, string), Role>,
    keys: map<(string, string, string), KeyRow>)

  /** UNIQUE (workspace, rank). */
  ghost predicate UniqueRanks(t: PriorityTable) {
    forall a, b | a in t && b in t && a.0 == b.0 && t[a].rank == t[b].rank :: a == b
  }

  predicate RankTaken(t: PriorityTable, workspace: string, rank: int) {
    exists k :: k in t && k.0 == workspace && t[k].rank == rank
  }

  ghost predicate RowsNormal(t: PriorityTable) {
    forall k | k in t :: Identifier(k.1) == k.1 && 0 <= t[k].rank < 0x1_0000
  }

  ghost predicate PolicyRowSound(row: PolicyRow, workspace: string, t: PriorityTable) {
    && row.allowedAlgorithms != []
    && 0 <= row.challengeTtlSeconds <= I32_MAX
    && Identifier(row.defaultPriority) == row.defaultPriority
    && (workspace, row.defaultPriority) in t
  }

  /** What every stored policy satisfies. */
  ghost predicate Sound(t: Tables) {
    && UniqueRanks(t.priorities)
    && RowsNormal(t.priorities)
    && (forall k | k in t.priorities :: k.0 in t.policies)
    && (forall w | w in t.policies :: PolicyRowSound(t.policies[w], w, t.priorities))
  }

  function RowOf(p: WorkspacePolicy): PolicyRow {
    PolicyRow(
      Identifier(p.priorities.defaultPriority),
      p.auth.allowedAlgorithms,
      p.auth.challengeTtlSeconds,
      p.auth.signedCommandsRequired)
  }

  /** `ps` lists the workspace's rows by falling rank. */
  ghost predicate ListsRows(t: PriorityTable, workspace: string, ps: seq<WorkspacePriority>) {
    && (forall i, j | 0 <= i < j < |ps| :: ps[i].rank > ps[j].rank)
    && (forall i | 0 <= i < |ps| ::
       (workspace, ps[i].name) in t && t[(workspace, ps[i].name)] == PriorityRow(ps[i].rank, ps[i].description))
    && (forall k | k in t && k.0 == workspace :: exists i | 0 <= i < |ps| :: ps[i].name == k.1)
  }

  ghost predicate IsStored(t: Tables, p: WorkspacePolicy) {
    && p.workspace in t.policies
    && var row := t.policies[p.workspace];
    && p.auth == AuthPolicy(row.allowedAlgorithms, p.auth.challengeTtlSeconds, row.signedCommandsRequired)
    && p.auth.challengeTtlSeconds == row.challengeTtlSeconds
    && p.priorities.defaultPriority == Identifier(row.defaultPriority)
    && ListsRows(t.priorities, p.workspace, p.priorities.priorities)
  }

  /** A stored policy validates, and agrees with the table on every priority name. */
  lemma StoredIsWellFormed(t: Tables, p: WorkspacePolicy)
    requires Sound(t) && IsStored(t, p)
    ensures WellFormed(p)
    ensures forall name :: Supports(p.priorities.priorities, name) <==> (p.workspace, name) in t.priorities
    ensures forall name | (p.workspace, name) in t.priorities ::
              && RankFor(p.priorities.priorities, name).Some?
              && RankFor(p.priorities.priorities, name).value == t.priorities[(p.workspace, name)].rank
  {
    var ps := p.priorities.priorities;
    forall i | 0 <= i < |ps| ensures NameOf(ps[i]) == ps[i].name {
      assert (p.workspace, ps[i].name) in t.priorities;
    }
    assert DistinctRanks(ps);
    forall i, j | 0 <= i < j < |ps| ensures NameOf(ps[i]) != NameOf(ps[j]) {
      assert ps[i].rank > ps[j].rank;
    }
    forall name ensures Supports(ps, name) <==> (p.workspace, name) in t.priorities
                ensures (p.workspace, name) in t.priorities ==>
                          RankFor(ps, name).Some? && RankFor(ps, name).value == t.priorities[(p.workspace, name)].rank
    {
      RankForFinds(ps, name);
      if (p.workspace, name) in t.priorities {
        var i :| 0 <= i < |ps| && ps[i].name == (p.workspace, name).1;
        assert NameOf(ps[i]) == name;
      }
    }
    assert PolicyRowSound(t.policies[p.workspace], p.workspace, t.priorities);
    var default := t.policies[p.workspace].defaultPriority;
    assert (p.workspace, default) in t.priorities && Supports(ps, default);
    RankForFinds(ps, default);
  }
}
