/** The evaluator's checks of an observation, and what they find in a candidate. */
module Evaluation {
  import opened Grouping
  import opened Observation
  import opened Refreeze

  datatype Check = Check(name: string, ok: bool)

  /** What the evaluator reads of a result directory. */
  datatype Snapshot = Snapshot(pendingCount: int, overdueCount: int, escalatedCount: int,
                               itemsCount: nat, exportJsonCount: nat, exportCsvRows: nat,
                               totalAnomalies: int, noCandidates: nat, escalatedUnresolved: nat, overdueNotEscalated: nat,
                               derivedPending: nat, derivedOverdue: nat, derivedEscalated: nat)

  /** A directory written for an observation: its summary, and a CSV file with one row per export entry. */
  function SnapshotOf(o: Observed, s: Summary): Snapshot {
    Snapshot(s.pendingCount, s.overdueCount, s.escalatedCount, |o.items|, |o.exported|, |o.exported|,
             o.anomalies.total, |o.anomalies.noCandidates|, |o.anomalies.escalatedUnresolved|, |o.anomalies.overdueNotEscalated|,
             CountAll(Pending(o.items)), CountAll(Overdue(o.items)), CountAll(Escalated(o.items)))
  }

  /** What the evaluator takes over from the files, and what it counts itself: the items that are not overdue, overdue,
      and escalated. */
  lemma SnapshotCounts(o: Observed, s: Summary)
    ensures var snap := SnapshotOf(o, s);
            && snap.derivedPending == |WithOverdue(o.items, false)| && snap.derivedOverdue == |WithOverdue(o.items, true)|
            && snap.derivedEscalated == |WithEscalation(o.items)|
            && snap.pendingCount == s.pendingCount && snap.overdueCount == s.overdueCount && snap.escalatedCount == s.escalatedCount
            && snap.itemsCount == |o.items| && snap.exportJsonCount == snap.exportCsvRows == |o.exported|
            && snap.noCandidates == |o.anomalies.noCandidates| && snap.overdueNotEscalated == |o.anomalies.overdueNotEscalated|
  {
    ItemCounts(o.items);
  }

  method EvaluateSnapshot(s: Snapshot) returns (checks: seq<Check>)
    ensures |checks| == 5
    ensures checks[0].name == "items/export row count consistency" && checks[1].name == "summary matches items for pending_count"
    ensures checks[2].name == "summary matches items for overdue_count" && checks[3].name == "summary matches items for escalated_count"
    ensures checks[4].name == "anomaly total matches category counts"
    ensures checks[0].ok <==> s.itemsCount == s.exportJsonCount == s.exportCsvRows
    ensures checks[1].ok <==> s.pendingCount == s.derivedPending
    ensures checks[2].ok <==> s.overdueCount == s.derivedOverdue
    ensures checks[3].ok <==> s.escalatedCount == s.derivedEscalated
    ensures checks[4].ok <==> s.totalAnomalies == s.noCandidates + s.escalatedUnresolved + s.overdueNotEscalated
  {
    checks := [];
    var countValues := {s.itemsCount, s.exportJsonCount, s.exportCsvRows};
    OneValue(s.itemsCount, s.exportJsonCount, s.exportCsvRows);
    checks := checks + [Check("items/export row count consistency", |countValues| == 1)];
    checks := checks + [Check("summary matches items for pending_count", s.pendingCount == s.derivedPending)];
    checks := checks + [Check("summary matches items for overdue_count", s.overdueCount == s.derivedOverdue)];
    checks := checks + [Check("summary matches items for escalated_count", s.escalatedCount == s.derivedEscalated)];
    var total := s.noCandidates + s.escalatedUnresolved + s.overdueNotEscalated;
    checks := checks + [Check("anomaly total matches category counts", s.totalAnomalies == total)];
  }

  lemma OneValue(a: nat, b: nat, c: nat)
    ensures |{a, b, c}| == 1 <==> a == b == c
  {
    if a == b == c {
      assert {a, b, c} == {a};
    } else {
      var other := if a == b then c else b;
      assert {a, other} <= {a, b, c};
      assert {a, b, c} == {a, other} + {b, c};
      SubsetSize({a, other}, {a, b, c});
    }
  }

  lemma {:induction false} SubsetSize(s: set<nat>, t: set<nat>)
    requires s <= t
    ensures |s| <= |t|
  {
    if s != {} {
      var x :| x in s;
      SubsetSize(s - {x}, t - {x});
    }
  }

  /** Export rows carry the ids of the items, row by row. */
  predicate Mirrors(items: seq<Item>, exported: seq<Entry>) {
    |items| == |exported| && forall i :: 0 <= i < |items| ==>
      exported[i].Record? && exported[i].approvalId == items[i].approvalId && exported[i].ecoId == items[i].ecoId
  }

  lemma {:induction false} KeptCounts(items: seq<Item>, exported: seq<Entry>, approvals: set<string>, ecos: set<string>)
    requires Mirrors(items, exported)
    ensures var kept := KeptItems(items, approvals);
            && |KeptEntries(exported, approvals, ecos)| <= |kept|
            && (|KeptEntries(exported, approvals, ecos)| == |kept| <==> forall x :: x in kept ==> !OneOf(x.ecoId, ecos))
  {
    if items != [] {
      var n := |items| - 1;
      KeptCounts(items[..n], exported[..n], approvals, ecos);
      var front, kept := KeptItems(items[..n], approvals), KeptItems(items, approvals);
      assert forall x :: x in kept <==> x in front || (x == items[n] && !OneOf(items[n].approvalId, approvals));
    }
  }

  /** The evaluation of a candidate: the summary and anomaly checks always pass; the row-count check
      passes, for export rows that mirror the items, exactly when no kept item shares an ECO with a
      pending one. */
  method EvaluateCandidate(o: Observed) returns (checks: seq<Check>)
    ensures |checks| == 5 && checks[1].ok && checks[2].ok && checks[3].ok && checks[4].ok
    ensures Mirrors(o.items, o.exported) ==>
              (checks[0].ok <==> forall x :: x in Candidate(o).items ==> !OneOf(x.ecoId, PendingEcos(o.items)))
  {
    var c, summary := BuildCandidate(o);
    checks := EvaluateSnapshot(SnapshotOf(c, summary));
    if Mirrors(o.items, o.exported) {
      KeptCounts(o.items, o.exported, PendingApprovals(o.items), PendingEcos(o.items));
    }
  }

  /** A pending and an overdue item of one ECO, both exported: the overdue item is kept and its export row dropped. */
  lemma SharedEcoFailsRowCount(o: Observed)
    requires |o.items| == 2 && !o.items[0].isOverdue && o.items[1].isOverdue && Mirrors(o.items, o.exported)
    requires o.items[0].approvalId == Text("a1") && o.items[1].approvalId == Text("a2")
    requires o.items[0].ecoId == o.items[1].ecoId == Text("e1")
    ensures Candidate(o).items == [o.items[1]] && Candidate(o).exported == []
  {
    var x, y := o.items[0], o.items[1];
    var approvals, ecos := PendingApprovals(o.items), PendingEcos(o.items);
    assert Given(x.approvalId) && Given(x.ecoId) && "a1"[1] != "a2"[1];
    assert approvals == {"a1"} && ecos == {"e1"};
    assert o.items[..1] == [x] && [x][..0] == [];
    assert KeptItems([x], approvals) == [];
    var r, t := o.exported[0], o.exported[1];
    assert o.exported[..1] == [r] && [r][..0] == [];
    assert Excluded(r, approvals, ecos) && Excluded(t, approvals, ecos);
    assert KeptEntries([r], approvals, ecos) == [];
  }
}
