/**
 * One reconciliation cycle: look up the current address, list the zone's records, and
 * send an update for every address record whose content has drifted, in list order,
 * stopping the process at the first failure.
 */
module Reconcile {
  import opened Wrappers
  import opened Records
  import opened Provider

  /** The only record type whose content the updater rewrites. */
  const ManagedType := "A"

  /** The outcome of looking up the machine's public address. */
  datatype IpLookup = IpFound(ip: string) | IpFailed(cause: string)

  /** The failures that end a cycle, and with it the process. */
  datatype CycleError =
    | DiscoveryFailed(cause: string)
    | ListFailed(error: ProviderError)
    | UpdateFailed(error: ProviderError)

  datatype CycleOutcome = Done | Fatal(error: CycleError)

  /** One update request: the id it is sent to and the full record it sends. */
  datatype UpdateCall = UpdateCall(id: string, record: ARecord)

  /** The update calls a cycle issued, in order, and how the cycle ended. */
  datatype CycleResult = CycleResult(calls: seq<UpdateCall>, outcome: CycleOutcome)

  /**
   * A listed record needs an update when it is an address record whose content is not
   * the current address. The content is tested first, as the cycle does; the order only
   * decides which skip is logged.
   */
  predicate NeedsUpdate(r: RecordResponse, ip: string)
  {
    if r.rec.content == ip then false
    else r.rec.recordType == ManagedType
  }

  /** The update for a drifted record: its own id, and the record with the new content. */
  function UpdateFor(r: RecordResponse, ip: string): (c: UpdateCall)
    ensures c.id == r.id
    ensures c.record.content == ip
    ensures SameExceptContent(c.record, r.rec)
  {
    UpdateCall(r.id, r.rec.(content := ip))
  }

  /**
   * The positions of the records that need an update, in increasing order: every such
   * position once, and no other.
   */
  function EligibleIndices(rs: seq<RecordResponse>, ip: string): (ix: seq<nat>)
    ensures forall j :: 0 <= j < |ix| ==> ix[j] < |rs|
    ensures forall j, k :: 0 <= j < k < |ix| ==> ix[j] < ix[k]
    ensures forall i :: 0 <= i < |rs| ==> (i in ix <==> NeedsUpdate(rs[i], ip))
  {
    if rs == [] then []
    else
      var front := EligibleIndices(rs[..|rs| - 1], ip);
      if NeedsUpdate(rs[|rs| - 1], ip) then front + [|rs| - 1] else front
  }

  /** The updates a cycle intends to send for the listed records, in list order. */
  function Planned(rs: seq<RecordResponse>, ip: string): seq<UpdateCall>
  {
    if rs == [] then []
    else (if NeedsUpdate(rs[0], ip) then [UpdateFor(rs[0], ip)] else []) + Planned(rs[1..], ip)
  }

  lemma {:induction false} PlannedAppend(a: seq<RecordResponse>, b: seq<RecordResponse>, ip: string)
    ensures Planned(a + b, ip) == Planned(a, ip) + Planned(b, ip)
  {
    if a == [] {
      assert a + b == b;
    } else {
      var head := if NeedsUpdate(a[0], ip) then [UpdateFor(a[0], ip)] else [];
      assert (a + b)[0] == a[0];
      assert (a + b)[1..] == a[1..] + b;
      assert Planned(a + b, ip) == head + Planned(a[1..] + b, ip);
      assert Planned(a, ip) == head + Planned(a[1..], ip);
      PlannedAppend(a[1..], b, ip);
      assert head + (Planned(a[1..], ip) + Planned(b, ip)) == (head + Planned(a[1..], ip)) + Planned(b, ip);
    }
  }

  /**
   * The plan is exactly one update per record that needs one, in list order: the j-th
   * planned call is the update for the j-th eligible record.
   */
  lemma {:induction false} PlannedFollowsEligible(rs: seq<RecordResponse>, ip: string)
    ensures |Planned(rs, ip)| == |EligibleIndices(rs, ip)|
    ensures forall j :: 0 <= j < |Planned(rs, ip)| ==>
      Planned(rs, ip)[j] == UpdateFor(rs[EligibleIndices(rs, ip)[j]], ip)
  {
    if rs != [] {
      var n := |rs| - 1;
      var front := rs[..n];
      assert rs == front + [rs[n]];
      PlannedAppend(front, [rs[n]], ip);
      assert [rs[n]][1..] == [];
      PlannedFollowsEligible(front, ip);
    }
  }

  /**
   * Every planned call targets an id listed in the same cycle, for a record that needs an
   * update, and sends that record unchanged but for its content, which becomes the address.
   */
  lemma {:induction false} PlannedSendsListedRecords(rs: seq<RecordResponse>, ip: string)
    ensures forall c :: c in Planned(rs, ip) ==>
      exists i :: (0 <= i < |rs| && NeedsUpdate(rs[i], ip) && c.id == rs[i].id &&
        c.record.content == ip && SameExceptContent(c.record, rs[i].rec))
  {
    PlannedFollowsEligible(rs, ip);
    var ix := EligibleIndices(rs, ip);
    forall c | c in Planned(rs, ip)
      ensures exists i :: (0 <= i < |rs| && NeedsUpdate(rs[i], ip) && c.id == rs[i].id &&
        c.record.content == ip && SameExceptContent(c.record, rs[i].rec))
    {
      var j :| 0 <= j < |Planned(rs, ip)| && Planned(rs, ip)[j] == c;
      assert ix[j] in ix;
    }
  }

  /** A cycle plans no update exactly when no listed record needs one. */
  lemma {:induction false} NothingPlannedIff(rs: seq<RecordResponse>, ip: string)
    ensures Planned(rs, ip) == [] <==> forall i :: 0 <= i < |rs| ==> !NeedsUpdate(rs[i], ip)
  {
    PlannedFollowsEligible(rs, ip);
    var ix := EligibleIndices(rs, ip);
    if ix != [] {
      assert ix[0] in ix;
    }
  }

  /**
   * The number of the first update call, from the k-th on, whose exchange fails; `count`
   * when none of the first `count` calls fails.
   */
  function FirstRejection(count: nat, transport: nat -> UpdateReply, k: nat): (n: nat)
    requires k <= count
    ensures k <= n <= count
    ensures forall j :: k <= j < n ==> AcceptUpdate(transport(j)).Success?
    ensures n < count ==> AcceptUpdate(transport(n)).Failure?
    decreases count - k
  {
    if k == count || AcceptUpdate(transport(k)).Failure? then k
    else FirstRejection(count, transport, k + 1)
  }

  lemma FirstRejectionIs(count: nat, transport: nat -> UpdateReply, k: nat, m: nat)
    requires k <= m <= count
    requires forall j :: k <= j < m ==> AcceptUpdate(transport(j)).Success?
    requires m < count ==> AcceptUpdate(transport(m)).Failure?
    ensures FirstRejection(count, transport, k) == m
  {
  }

  /**
   * Sending a plan: the calls go out one at a time, in order, and the first one whose
   * exchange fails is the last one sent.
   */
  function Deliver(plan: seq<UpdateCall>, transport: nat -> UpdateReply): CycleResult
  {
    var n := FirstRejection(|plan|, transport, 0);
    if n < |plan| then CycleResult(plan[..n + 1], Fatal(UpdateFailed(AcceptUpdate(transport(n)).error)))
    else CycleResult(plan, Done)
  }

  /** The whole cycle: address lookup, then listing, then delivery of the plan. */
  function Cycle(lookup: IpLookup, listing: ListReply, transport: nat -> UpdateReply): CycleResult
  {
    match lookup
    case IpFailed(cause) => CycleResult([], Fatal(DiscoveryFailed(cause)))
    case IpFound(ip) =>
      match AcceptList(listing)
      case Failure(e) => CycleResult([], Fatal(ListFailed(e)))
      case Success(rs) => Deliver(Planned(rs, ip), transport)
  }

  /** The plan for one more record of the list extends the plan for the records before it. */
  lemma PlannedStep(rs: seq<RecordResponse>, i: nat, ip: string)
    requires i < |rs|
    ensures Planned(rs[..i + 1], ip) ==
      Planned(rs[..i], ip) + (if NeedsUpdate(rs[i], ip) then [UpdateFor(rs[i], ip)] else [])
  {
    assert rs[..i + 1] == rs[..i] + [rs[i]];
    PlannedAppend(rs[..i], [rs[i]], ip);
    assert [rs[i]][1..] == [];
  }

  /** The plan for the first i records is a prefix of the plan for the whole list. */
  lemma PlannedPrefix(rs: seq<RecordResponse>, i: nat, ip: string)
    requires i <= |rs|
    ensures Planned(rs[..i], ip) <= Planned(rs, ip)
  {
    assert rs[..i] + rs[i..] == rs;
    PlannedAppend(rs[..i], rs[i..], ip);
  }

  /** Delivery stops after a rejected call when every call before it was accepted. */
  lemma DeliverStopsAt(plan: seq<UpdateCall>, transport: nat -> UpdateReply, sent: seq<UpdateCall>)
    requires sent != [] && sent <= plan
    requires forall j :: 0 <= j < |sent| - 1 ==> AcceptUpdate(transport(j)).Success?
    requires AcceptUpdate(transport(|sent| - 1)).Failure?
    ensures Deliver(plan, transport) ==
      CycleResult(sent, Fatal(UpdateFailed(AcceptUpdate(transport(|sent| - 1)).error)))
  {
    FirstRejectionIs(|plan|, transport, 0, |sent| - 1);
    assert plan[..|sent|] == sent;
  }

  /** Delivery sends the whole plan and ends normally when every call is accepted. */
  lemma DeliverAll(plan: seq<UpdateCall>, transport: nat -> UpdateReply)
    requires forall j :: 0 <= j < |plan| ==> AcceptUpdate(transport(j)).Success?
    ensures Deliver(plan, transport) == CycleResult(plan, Done)
  {
    FirstRejectionIs(|plan|, transport, 0, |plan|);
  }

  /**
   * Runs one cycle. `transport(k)` is the reply the k-th update call of the cycle gets.
   * Returns the update calls issued, in order, and how the cycle ended.
   */
  method CheckAndUpdate(lookup: IpLookup, listing: ListReply, transport: nat -> UpdateReply)
    returns (calls: seq<UpdateCall>, outcome: CycleOutcome)
    ensures CycleResult(calls, outcome) == Cycle(lookup, listing, transport)
  {
    if lookup.IpFailed? {
      return [], Fatal(DiscoveryFailed(lookup.cause));
    }
    var ip := lookup.ip;
    var fetched := AcceptList(listing);
    if fetched.Failure? {
      return [], Fatal(ListFailed(fetched.error));
    }
    var records := fetched.value;
    calls := [];
    var i := 0;
    while i < |records|
      invariant 0 <= i <= |records|
      invariant calls == Planned(records[..i], ip)
      invariant forall j :: 0 <= j < |calls| ==> AcceptUpdate(transport(j)).Success?
    {
      var record := records[i];
      PlannedStep(records, i, ip);
      if record.rec.content != ip && record.rec.recordType == ManagedType {
        record := record.(rec := record.rec.(content := ip));
        calls := calls + [UpdateCall(record.id, record.rec)];
        var sent := AcceptUpdate(transport(|calls| - 1));
        if sent.Failure? {
          PlannedPrefix(records, i + 1, ip);
          DeliverStopsAt(Planned(records, ip), transport, calls);
          return calls, Fatal(UpdateFailed(sent.error));
        }
      }
      i := i + 1;
    }
    assert records[..i] == records;
    DeliverAll(calls, transport);
    outcome := Done;
  }

  /** A failed address lookup or listing ends the cycle, fatally, before any update. */
  lemma FetchFailureSendsNothing(lookup: IpLookup, listing: ListReply, transport: nat -> UpdateReply)
    requires lookup.IpFailed? || AcceptList(listing).Failure?
    ensures Cycle(lookup, listing, transport).calls == []
    ensures Cycle(lookup, listing, transport).outcome ==
      if lookup.IpFailed? then Fatal(DiscoveryFailed(lookup.cause))
      else Fatal(ListFailed(AcceptList(listing).error))
  {
  }

  /**
   * After a successful lookup and listing, the calls sent are a prefix of the plan; the
   * cycle ends normally exactly when every call sent was accepted, and then the whole plan
   * was sent; otherwise the last call sent is the first rejected one and nothing after
   * it was attempted.
   */
  lemma CycleSendsPrefixOfPlan(ip: string, listing: ListReply, transport: nat -> UpdateReply)
    requires AcceptList(listing).Success?
    ensures var r := Cycle(IpFound(ip), listing, transport);
      var plan := Planned(AcceptList(listing).value, ip);
      && r.calls <= plan
      && (r.outcome == Done <==> forall j :: 0 <= j < |r.calls| ==> AcceptUpdate(transport(j)).Success?)
      && (r.outcome == Done ==> r.calls == plan)
      && (r.outcome.Fatal? ==>
            && r.calls != []
            && (forall j :: 0 <= j < |r.calls| - 1 ==> AcceptUpdate(transport(j)).Success?)
            && r.outcome.error == UpdateFailed(AcceptUpdate(transport(|r.calls| - 1)).error))
  {
    var plan := Planned(AcceptList(listing).value, ip);
    var n := FirstRejection(|plan|, transport, 0);
    if n < |plan| {
      assert AcceptUpdate(transport(|plan[..n + 1]| - 1)).Failure?;
    }
  }

  /**
   * The provider's view of an update: every listed record carrying the call's id is
   * replaced by the record sent; its id is kept.
   */
  function Put(zone: seq<RecordResponse>, c: UpdateCall): seq<RecordResponse>
  {
    seq(|zone|, i requires 0 <= i < |zone| =>
      if zone[i].id == c.id then zone[i].(rec := c.record) else zone[i])
  }

  /** The provider's view after a sequence of updates, applied in order. */
  function PutAll(zone: seq<RecordResponse>, calls: seq<UpdateCall>): seq<RecordResponse>
    decreases |calls|
  {
    if calls == [] then zone else PutAll(Put(zone, calls[0]), calls[1..])
  }

  /**
   * Applying updates that all send address records with content `ip` leaves every record
   * whose id was targeted as such a record, and every other record as it was.
   */
  lemma {:induction false} PutAllSettles(zone: seq<RecordResponse>, calls: seq<UpdateCall>, ip: string)
    requires forall c :: c in calls ==> c.record.content == ip
    ensures |PutAll(zone, calls)| == |zone|
    ensures forall i :: 0 <= i < |zone| ==> PutAll(zone, calls)[i].id == zone[i].id
    ensures forall i :: 0 <= i < |zone| ==>
      if exists c :: c in calls && c.id == zone[i].id
      then PutAll(zone, calls)[i].rec.content == ip
      else PutAll(zone, calls)[i] == zone[i]
    decreases |calls|
  {
    if calls != [] {
      var c := calls[0];
      var z := Put(zone, c);
      PutAllSettles(z, calls[1..], ip);
      forall i | 0 <= i < |zone|
        ensures if exists d :: d in calls && d.id == zone[i].id
          then PutAll(zone, calls)[i].rec.content == ip
          else PutAll(zone, calls)[i] == zone[i]
      {
        if exists d :: d in calls[1..] && d.id == zone[i].id {
          var d :| d in calls[1..] && d.id == zone[i].id;
          assert d in calls;
        } else if zone[i].id == c.id {
          assert c in calls;
        }
      }
    }
  }

  /**
   * Idempotence at the level of records: once every planned update of a cycle has been
   * applied, the same address plans no further update.
   */
  lemma PlanSettles(rs: seq<RecordResponse>, ip: string)
    ensures Planned(PutAll(rs, Planned(rs, ip)), ip) == []
  {
    var plan := Planned(rs, ip);
    PlannedSendsListedRecords(rs, ip);
    PlannedFollowsEligible(rs, ip);
    var ix := EligibleIndices(rs, ip);
    PutAllSettles(rs, plan, ip);
    var after := PutAll(rs, plan);
    forall i | 0 <= i < |after| ensures !NeedsUpdate(after[i], ip) {
      if NeedsUpdate(rs[i], ip) {
        assert i in ix;
        var j :| 0 <= j < |ix| && ix[j] == i;
        assert plan[j] in plan && plan[j].id == rs[i].id;
      }
    }
    NothingPlannedIff(after, ip);
  }

  /**
   * Idempotence of the cycle: after a cycle that ended normally, if the provider applied
   * every update it sent and the address has not changed, the next cycle sends nothing and
   * ends normally, whatever its transport would answer.
   */
  lemma SecondCycleSendsNothing(ip: string, first: ListReply, transport: nat -> UpdateReply,
                                second: ListReply, nextTransport: nat -> UpdateReply)
    requires AcceptList(first).Success?
    requires Cycle(IpFound(ip), first, transport).outcome == Done
    requires AcceptList(second) ==
      Success(PutAll(AcceptList(first).value, Cycle(IpFound(ip), first, transport).calls))
    ensures Cycle(IpFound(ip), second, nextTransport) == CycleResult([], Done)
  {
    var rs := AcceptList(first).value;
    CycleSendsPrefixOfPlan(ip, first, transport);
    PlanSettles(rs, ip);
  }
}
