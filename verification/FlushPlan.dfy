/** What a flush is given, and how each of its attempts must end, over the bundle's rows. */
module FlushPlan {
  import opened Wrappers
  import opened Numerals
  import opened Ordering
  import opened BundleCatalog
  import opened FailureText
  import opened Fanout
  import opened FanoutPhases
  import opened FlushRows
  import IdentityGate

  datatype FlushError = NoSuchBundle | NotOpenForFlush | NoMembers | NoTargets | PreflightShort | ClaimTaken | AllQuarantined
                      | QuarantineBound | Oversize | IdentityMismatch | BuildFailed | QuarantineClash | WriteEscaped | SealLost

  /** Everything a flush learns from outside the bundle tables: its targets, free space, the submission
      members on record, the encoding check, lineage, and what the builder and the media do. */
  datatype Plan = Plan(targets: Option<seq<Target>>, freeBytes: int, tapeCapacity: Option<nat>,
                       records: map<int, IdentityGate.Record>, mappable: nat -> bool, lineage: nat -> Option<nat>,
                       reports: nat -> seq<Report>, writes: seq<Write>)

  /** The builder answers for every target on every attempt, and the media for every target; a group
      basis lists a pool once. */
  ghost predicate Answers(plan: Plan, targets: seq<Target>) {
    && |plan.writes| == |targets| && (forall attempt :: |plan.reports(attempt)| == |targets|)
    && forall j, k :: 0 <= j < k < |targets| ==> targets[j].pool != targets[k].pool
  }

  // ----- What an attempt asks of the rows -----

  /** Every row fits on the tape, when there is a capacity. */
  predicate RowsFit(members: seq<Member>, id: string, plan: Plan) {
    plan.tapeCapacity.Some? ==>
      forall i :: 0 <= i < |members| && members[i].bundle == id ==> members[i].size <= plan.tapeCapacity.value
  }

  /** The identity gate passes over the bundle's rows. */
  ghost predicate Identified(members: seq<Member>, id: string, records: map<int, IdentityGate.Record>) {
    IdentityGate.GatePasses(members, SortedRows(members, id), records)
  }

  predicate AllMappable(members: seq<Member>, id: string, plan: Plan) {
    forall i :: 0 <= i < |members| && members[i].bundle == id ==> plan.mappable(i)
  }

  function FlushInputs(members: seq<Member>, id: string, plan: Plan): seq<Input> {
    InputsOf(members, SortedRows(members, id), plan.lineage)
  }

  /** The targets before `t` build on this attempt. */
  ghost predicate BuildsUpTo(members: seq<Member>, id: string, plan: Plan, targets: seq<Target>, attempt: nat, t: nat) {
    && t <= |targets| == |plan.reports(attempt)|
    && forall k :: 0 <= k < t ==> Builds(targets[k], plan.reports(attempt)[k], FlushInputs(members, id, plan))
  }

  /** The rows pass every check before the build. */
  ghost predicate Screened(members: seq<Member>, id: string, plan: Plan) {
    CountIn(members, id) > 0 && RowsFit(members, id, plan) && Identified(members, id, plan.records)
  }

  /** The attempt has a validated artifact for every target, and goes on to write. */
  ghost predicate ReadyToWrite(members: seq<Member>, id: string, plan: Plan, targets: seq<Target>, attempt: nat) {
    Screened(members, id, plan) && AllMappable(members, id, plan) && BuildsUpTo(members, id, plan, targets, attempt, |targets|)
  }

  /** Target `t` refuses with a message that names row `m`. */
  ghost predicate NamedBy(members: seq<Member>, id: string, plan: Plan, targets: seq<Target>, attempt: nat, t: nat, m: nat) {
    && t < |targets| && BuildsUpTo(members, id, plan, targets, attempt, t) && plan.reports(attempt)[t].Refused?
    && var row := IdentifyText(plan.reports(attempt)[t].message, InputPaths(FlushInputs(members, id, plan)));
       row.Some? && row.value < |SortedRows(members, id)| && SortedRows(members, id)[row.value] == m
  }

  /** The attempt fails for row `m`: the first one in path order that the map cannot carry, or the one
      that the first target without an artifact names in its refusal. */
  ghost predicate ChargedTo(members: seq<Member>, id: string, plan: Plan, targets: seq<Target>, attempt: nat, m: nat) {
    && Screened(members, id, plan) && m < |members| && members[m].bundle == id
    && if AllMappable(members, id, plan) then exists t: nat :: NamedBy(members, id, plan, targets, attempt, t, m)
       else FirstBad(members, id, plan, m)
  }

  predicate FirstBad(members: seq<Member>, id: string, plan: Plan, m: nat)
    requires m < |members|
  {
    !plan.mappable(m)
    && forall i :: 0 <= i < |members| && members[i].bundle == id && !plan.mappable(i) ==> AtMost(members[m].path, members[i].path)
  }

  /** Target `t` has no artifact and charges no row. */
  ghost predicate AbortsAt(members: seq<Member>, id: string, plan: Plan, targets: seq<Target>, attempt: nat, t: nat) {
    && t < |targets| && BuildsUpTo(members, id, plan, targets, attempt, t)
    && !Builds(targets[t], plan.reports(attempt)[t], FlushInputs(members, id, plan))
    && (plan.reports(attempt)[t].Refused? ==>
          IdentifyText(plan.reports(attempt)[t].message, InputPaths(FlushInputs(members, id, plan))).None?)
  }

  /** The attempt refuses with `error`, for this reason and no other. */
  ghost predicate RefusedFor(members: seq<Member>, copies: seq<BundleCopy>, id: string, plan: Plan, targets: seq<Target>,
                             attempt: nat, error: FlushError) {
    match error
    case AllQuarantined => CountIn(members, id) == 0
    case Oversize => CountIn(members, id) > 0 && !RowsFit(members, id, plan)
    case IdentityMismatch => CountIn(members, id) > 0 && RowsFit(members, id, plan) && !Identified(members, id, plan.records)
    case BuildFailed =>
      Screened(members, id, plan) && AllMappable(members, id, plan) && exists t: nat :: AbortsAt(members, id, plan, targets, attempt, t)
    case WriteEscaped =>
      ReadyToWrite(members, id, plan, targets, attempt) && exists k :: 0 <= k < |plan.writes| && Unstorable(copies, plan.writes, k)
    case _ => false
  }

  /** Rows that are ready are charged to nobody, and refused only by the media. */
  lemma ReadyIsFinal(members: seq<Member>, copies: seq<BundleCopy>, id: string, plan: Plan, targets: seq<Target>, attempt: nat,
                     m: nat, error: FlushError)
    requires ReadyToWrite(members, id, plan, targets, attempt)
    ensures !ChargedTo(members, id, plan, targets, attempt, m)
    ensures RefusedFor(members, copies, id, plan, targets, attempt, error) ==> error == WriteEscaped
  {
    forall t: nat
      ensures !NamedBy(members, id, plan, targets, attempt, t, m) && !AbortsAt(members, id, plan, targets, attempt, t)
    {
      assert t < |targets| ==> Builds(targets[t], plan.reports(attempt)[t], FlushInputs(members, id, plan));
    }
  }
}
