/** Which transfers a retry selects and which proposals an executor takes on, through the status store. */
module ProposalClaims {
  import opened Seqs
  import opened Filters
  import opened PropStore

  /** A transfer, as a deposit message or as a proposal. */
  datatype Transfer = Transfer(key: Triple, resource: string)

  function Keys(transfers: seq<Transfer>): set<Triple> {
    set t | t in transfers :: t.key
  }

  ghost predicate DistinctTransfers(transfers: seq<Transfer>) {
    forall i, j :: 0 <= i < j < |transfers| ==> transfers[i].key != transfers[j].key
  }

  lemma KeysAppend(transfers: seq<Transfer>, t: Transfer)
    ensures Keys(transfers + [t]) == Keys(transfers) + {t.key}
  { }

  // ----- taking proposals on -----

  predicate Claimable(table: Table, k: Triple) {
    Status(table, k) == Missing || Status(table, k) == Failed
  }

  /** The table and the proposals taken on, after going through a list. */
  function Claim(table: Table, proposals: seq<Transfer>): (Table, seq<Transfer>) {
    if proposals == [] then (table, [])
    else
      var (t, claimed) := Claim(table, proposals[..|proposals| - 1]);
      var p := proposals[|proposals| - 1];
      if Claimable(t, p.key) then (t[p.key := Pending], claimed + [p]) else (t, claimed)
  }

  /** Every claimable key of the list is taken exactly once, becomes Pending, and nothing else changes. */
  lemma {:induction false} ClaimIsExact(table: Table, proposals: seq<Transfer>)
    ensures var (t, claimed) := Claim(table, proposals);
            && DistinctTransfers(claimed)
            && (forall p :: p in claimed ==> p in proposals)
            && (forall k :: k in Keys(claimed) <==> k in Keys(proposals) && Claimable(table, k))
            && (forall k :: Status(t, k) == if k in Keys(claimed) then Pending else Status(table, k))
  {
    if proposals != [] {
      var front, p := proposals[..|proposals| - 1], proposals[|proposals| - 1];
      ClaimIsExact(table, front);
      var (t, claimed) := Claim(table, front);
      assert proposals == front + [p];
      KeysAppend(front, p);
      KeysAppend(claimed, p);
      if Claimable(t, p.key) {
        assert p.key !in Keys(claimed);
        assert DistinctTransfers(claimed + [p]);
      }
    }
  }

  /** The first proposal of a key that can be claimed. */
  predicate FirstClaimable(table: Table, proposals: seq<Transfer>, i: int)
    requires 0 <= i < |proposals|
  {
    Claimable(table, proposals[i].key) && forall j :: 0 <= j < i ==> proposals[j].key != proposals[i].key
  }

  /** What is claimed are those proposals, in their order. */
  lemma {:induction false} ClaimFilters(table: Table, proposals: seq<Transfer>, kept: set<int>)
    requires forall i :: 0 <= i < |proposals| ==> (i in kept <==> FirstClaimable(table, proposals, i))
    ensures IsFilter(Claim(table, proposals).1, proposals, kept)
  {
    if proposals == [] {
      FilterNothing<Transfer>(kept);
    } else {
      var front, p := proposals[..|proposals| - 1], proposals[|proposals| - 1];
      assert proposals == front + [p];
      forall i | 0 <= i < |front| ensures FirstClaimable(table, proposals, i) <==> FirstClaimable(table, front, i) { }
      ClaimFilters(table, front, kept);
      ClaimIsExact(table, front);
      FilterOneMore(Claim(table, front).1, front, p, kept);
      assert p.key in Keys(front) <==> exists j :: 0 <= j < |front| && proposals[j].key == p.key;
      assert Claimable(Claim(table, front).0, p.key) <==> FirstClaimable(table, proposals, |front|);
    }
  }

  /** The positions of a list at which reading or writing the database fails. */
  datatype Faults = Faults(read: set<nat>, write: set<nat>)

  /** The database fails in a call that the executor makes for proposal `i`, having claimed those before it. */
  predicate FaultHits(table: Table, proposals: seq<Transfer>, faults: Faults, i: nat)
    requires i < |proposals|
  {
    i in faults.read || (i in faults.write && Claimable(Claim(table, proposals[..i]).0, proposals[i].key))
  }

  /** Claims the proposals up to the first one for which the database fails. */
  method ProposalsForExecution(store: Store, proposals: seq<Transfer>, faults: Faults)
    returns (claimed: seq<Transfer>, ok: bool, ghost at: nat)
    requires store.Valid()
    modifies store
    ensures store.Valid() && at <= |proposals|
    ensures (store.table, claimed) == Claim(old(store.table), proposals[..at])
    ensures forall i :: 0 <= i < at ==> !FaultHits(old(store.table), proposals, faults, i)
    ensures ok <==> at == |proposals|
    ensures !ok ==> FaultHits(old(store.table), proposals, faults, at)
    ensures ok ==> (store.table, claimed) == Claim(old(store.table), proposals)
  {
    claimed := [];
    for i := 0 to |proposals|
      invariant store.Valid()
      invariant (store.table, claimed) == Claim(old(store.table), proposals[..i])
      invariant forall j :: 0 <= j < i ==> !FaultHits(old(store.table), proposals, faults, j)
    {
      assert proposals[..i + 1][..i] == proposals[..i];
      var status, readOk := store.GetPropStatus(proposals[i].key, i in faults.read);
      if !readOk {
        return claimed, false, i;
      }
      if status != Missing && status != Failed {
        continue;
      }
      var writeOk := store.StorePropStatus(proposals[i].key, Pending, i in faults.write);
      if !writeOk {
        return claimed, false, i;
      }
      claimed := claimed + [proposals[i]];
    }
    assert proposals[..|proposals|] == proposals;
    return claimed, true, |proposals|;
  }

  function SetAll(table: Table, transfers: seq<Transfer>, status: PropStatus): Table {
    if transfers == [] then table
    else SetAll(table, transfers[..|transfers| - 1], status)[transfers[|transfers| - 1].key := status]
  }

  lemma {:induction false} SetAllIsExact(table: Table, transfers: seq<Transfer>, status: PropStatus)
    ensures forall k :: Status(SetAll(table, transfers, status), k) ==
                        if k in Keys(transfers) then status else Status(table, k)
  {
    if transfers != [] {
      var front, last := transfers[..|transfers| - 1], transfers[|transfers| - 1];
      SetAllIsExact(table, front, status);
      assert transfers == front + [last];
      KeysAppend(front, last);
    }
  }

  /** The transfers whose write succeeds. */
  function Written(transfers: seq<Transfer>, failing: set<nat>): seq<Transfer> {
    if transfers == [] then []
    else
      var front, last := transfers[..|transfers| - 1], transfers[|transfers| - 1];
      if |front| in failing then Written(front, failing) else Written(front, failing) + [last]
  }

  lemma {:induction false} AllWritten(transfers: seq<Transfer>)
    ensures Written(transfers, {}) == transfers
  {
    if transfers != [] {
      AllWritten(transfers[..|transfers| - 1]);
    }
  }

  lemma {:induction false} WrittenFilters(transfers: seq<Transfer>, failing: set<nat>, kept: set<int>)
    requires forall i: nat :: i < |transfers| ==> (i in kept <==> i !in failing)
    ensures IsFilter(Written(transfers, failing), transfers, kept)
  {
    if transfers == [] {
      FilterNothing<Transfer>(kept);
    } else {
      var front, last := transfers[..|transfers| - 1], transfers[|transfers| - 1];
      assert transfers == front + [last];
      WrittenFilters(front, failing, kept);
      FilterOneMore(Written(front, failing), front, last, kept);
      assert |front| in kept <==> |front| !in failing;
    }
  }

  /** A failing write is passed over; the others are made. */
  method StoreProposalsStatus(store: Store, proposals: seq<Transfer>, status: PropStatus, failing: set<nat>)
    requires store.Valid()
    modifies store
    ensures store.Valid() && store.table == SetAll(old(store.table), Written(proposals, failing), status)
  {
    for i := 0 to |proposals|
      invariant store.Valid() && store.table == SetAll(old(store.table), Written(proposals[..i], failing), status)
    {
      assert proposals[..i + 1][..i] == proposals[..i];
      var before := Written(proposals[..i], failing);
      assert (before + [proposals[i]])[..|before|] == before;
      var _ := store.StorePropStatus(proposals[i].key, status, i in failing);
    }
    assert proposals[..|proposals|] == proposals;
  }

  // ----- selecting transfers to retry -----

  /** The deposits of one resource that are not executed, in order. */
  function Unexecuted(table: Table, deposits: seq<Transfer>, resource: string): seq<Transfer> {
    if deposits == [] then []
    else
      var before, d := Unexecuted(table, deposits[..|deposits| - 1], resource), deposits[|deposits| - 1];
      if d.resource == resource && Status(table, d.key) != Executed then before + [d] else before
  }

  lemma {:induction false} UnexecutedFilters(table: Table, deposits: seq<Transfer>, resource: string, kept: set<int>)
    requires forall i :: 0 <= i < |deposits| ==>
                           (i in kept <==>
                            deposits[i].resource == resource && Status(table, deposits[i].key) != Executed)
    ensures IsFilter(Unexecuted(table, deposits, resource), deposits, kept)
  {
    if deposits == [] {
      FilterNothing<Transfer>(kept);
    } else {
      var front, d := deposits[..|deposits| - 1], deposits[|deposits| - 1];
      assert deposits == front + [d];
      UnexecutedFilters(table, front, resource, kept);
      FilterOneMore(Unexecuted(table, front, resource), front, d, kept);
    }
  }

  /** The table and the selection while going through a list: a stuck proposal is marked as failed. */
  function Retry(table: Table, deposits: seq<Transfer>, resource: string): (Table, seq<Transfer>) {
    if deposits == [] then (table, [])
    else
      var (t, selected) := Retry(table, deposits[..|deposits| - 1], resource);
      var d := deposits[|deposits| - 1];
      if d.resource != resource || Status(t, d.key) == Executed then (t, selected)
      else (if Status(t, d.key) == Pending then t[d.key := Failed] else t, selected + [d])
  }

  /** Exactly the unexecuted deposits of the resource are selected; only their Pending marks turn to Failed. */
  lemma {:induction false} RetryIsExact(table: Table, deposits: seq<Transfer>, resource: string)
    ensures var (t, selected) := Retry(table, deposits, resource);
            && selected == Unexecuted(table, deposits, resource)
            && (forall k :: Status(t, k) == if k in Keys(selected) && Status(table, k) == Pending then Failed
                                            else Status(table, k))
            && (forall k :: k in Keys(selected) ==> Claimable(t, k))
  {
    if deposits != [] {
      var front, d := deposits[..|deposits| - 1], deposits[|deposits| - 1];
      RetryIsExact(table, front, resource);
      KeysAppend(Retry(table, front, resource).1, d);
    }
  }

  /** The same while the database fails at some positions; such a deposit is passed over. */
  function RetryWith(table: Table, deposits: seq<Transfer>, resource: string, faults: Faults): (Table, seq<Transfer>) {
    if deposits == [] then (table, [])
    else
      var i := |deposits| - 1;
      var (t, selected) := RetryWith(table, deposits[..i], resource, faults);
      var d := deposits[i];
      if d.resource != resource || i in faults.read || Status(t, d.key) == Executed then (t, selected)
      else if Status(t, d.key) != Pending then (t, selected + [d])
      else if i in faults.write then (t, selected)
      else (t[d.key := Failed], selected + [d])
  }

  lemma {:induction false} RetryWithoutFaults(table: Table, deposits: seq<Transfer>, resource: string)
    ensures RetryWith(table, deposits, resource, Faults({}, {})) == Retry(table, deposits, resource)
  {
    if deposits != [] {
      RetryWithoutFaults(table, deposits[..|deposits| - 1], resource);
    }
  }

  /** With faults, too, what is selected was not executed and can be claimed, and no other status changes. */
  lemma {:induction false} RetryWithIsSound(table: Table, deposits: seq<Transfer>, resource: string, faults: Faults)
    ensures var (t, selected) := RetryWith(table, deposits, resource, faults);
            && (forall d :: d in selected ==>
                              d in deposits && d.resource == resource && Status(table, d.key) != Executed)
            && (forall k :: k in Keys(selected) ==> Claimable(t, k))
            && (forall k :: Status(t, k) == if k in Keys(selected) && Status(table, k) == Pending then Failed
                                            else Status(table, k))
  {
    if deposits != [] {
      var front, d := deposits[..|deposits| - 1], deposits[|deposits| - 1];
      RetryWithIsSound(table, front, resource, faults);
      assert deposits == front + [d];
      KeysAppend(RetryWith(table, front, resource, faults).1, d);
    }
  }

  /** Also with faults the selection keeps the order of the deposits. */
  lemma {:induction false} RetryWithKeepsOrder(table: Table, deposits: seq<Transfer>, resource: string, faults: Faults)
    returns (at: seq<int>)
    ensures Picks(RetryWith(table, deposits, resource, faults).1, deposits, at)
  {
    at := [];
    if deposits != [] {
      var front := deposits[..|deposits| - 1];
      at := RetryWithKeepsOrder(table, front, resource, faults);
      if |RetryWith(table, deposits, resource, faults).1| > |at| {
        at := at + [|front|];
      }
    }
  }

  /** A deposit of the resource is passed over only if it was executed or the database failed for it. */
  lemma {:induction false} PassedOver(table: Table, deposits: seq<Transfer>, resource: string, faults: Faults, i: nat)
    requires i < |deposits| && deposits[i].resource == resource && i !in faults.read && i !in faults.write
    ensures Status(table, deposits[i].key) != Executed ==> deposits[i] in RetryWith(table, deposits, resource, faults).1
  {
    var front := deposits[..|deposits| - 1];
    RetryWithIsSound(table, front, resource, faults);
    if i < |front| {
      PassedOver(table, front, resource, faults, i);
    }
  }

  function DepositsOf(domainDeposits: map<nat, seq<Transfer>>, destination: nat): seq<Transfer> {
    if destination in domainDeposits then domainDeposits[destination] else []
  }

  /** The domains are visited in any order; only the deposits for the destination count. */
  method FilterDeposits(store: Store, domainDeposits: map<nat, seq<Transfer>>, resource: string, destination: nat,
                        faults: Faults)
    returns (filtered: seq<Transfer>)
    requires store.Valid()
    modifies store
    ensures store.Valid()
    ensures (store.table, filtered) ==
            RetryWith(old(store.table), DepositsOf(domainDeposits, destination), resource, faults)
  {
    filtered := [];
    var domains := domainDeposits.Keys;
    while domains != {}
      invariant store.Valid() && domains <= domainDeposits.Keys
      invariant (store.table, filtered) ==
                if destination in domainDeposits && destination !in domains
                then RetryWith(old(store.table), domainDeposits[destination], resource, faults)
                else (old(store.table), [])
    {
      var domain :| domain in domains;
      domains := domains - {domain};
      if domain != destination {
        continue;
      }
      filtered := FilterDomain(store, domainDeposits[domain], resource, faults);
    }
  }

  method FilterDomain(store: Store, deposits: seq<Transfer>, resource: string, faults: Faults)
    returns (filtered: seq<Transfer>)
    requires store.Valid()
    modifies store
    ensures store.Valid() && (store.table, filtered) == RetryWith(old(store.table), deposits, resource, faults)
  {
    filtered := [];
    for i := 0 to |deposits|
      invariant store.Valid() && (store.table, filtered) == RetryWith(old(store.table), deposits[..i], resource, faults)
    {
      assert deposits[..i + 1][..i] == deposits[..i];
      if deposits[i].resource != resource {
        continue;
      }
      var isExecuted, ok := IsExecuted(store, deposits[i].key, i in faults.read, i in faults.write);
      if !ok || isExecuted {
        continue;
      }
      filtered := filtered + [deposits[i]];
    }
    assert deposits[..|deposits|] == deposits;
  }

  /** Reads a status and, if it is stuck at Pending, tries to make it Failed. */
  method IsExecuted(store: Store, key: Triple, readFails: bool, writeFails: bool) returns (executed: bool, ok: bool)
    requires store.Valid()
    modifies store
    ensures store.Valid()
    ensures executed <==> readFails || old(Status(store.table, key)) == Executed
    ensures ok <==> !readFails && !(writeFails && old(Status(store.table, key)) == Pending)
    ensures store.table == if ok && old(Status(store.table, key)) == Pending then old(store.table)[key := Failed]
                           else old(store.table)
  {
    var status, readOk := store.GetPropStatus(key, readFails);
    if !readOk {
      return true, false;
    }
    if status == Executed {
      return true, true;
    }
    ok := true;
    if status == Pending {
      ok := store.StorePropStatus(key, Failed, writeFails);
    }
    return false, ok;
  }

  /** A retry followed by an execution takes every selected transfer on, once, even if it is listed twice. */
  lemma RetryThenClaim(table: Table, deposits: seq<Transfer>, resource: string)
    ensures var (retried, selected) := Retry(table, deposits, resource);
            var (t, claimed) := Claim(retried, selected);
            && Keys(claimed) == Keys(Unexecuted(table, deposits, resource))
            && DistinctTransfers(claimed)
            && (forall k :: Status(t, k) == if k in Keys(claimed) then Pending else Status(table, k))
  {
    RetryIsExact(table, deposits, resource);
    var (retried, selected) := Retry(table, deposits, resource);
    ClaimIsExact(retried, selected);
  }
}
