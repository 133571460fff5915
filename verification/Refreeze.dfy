/** The stable candidate: an observation without the approvals that are still pending. */
module Refreeze {
  import opened Options
  import opened Grouping
  import opened Digits
  import opened Observation

  datatype Observed = Observed(items: seq<Item>, exported: seq<Entry>, anomalies: Anomalies)

  /** Not missing, empty or zero. */
  predicate Given(id: Id) {
    match id
    case Missing => false
    case Text(text) => text != ""
    case Number(value) => value != 0
  }

  /** The id as a text: Python's `str`. */
  function Shown(id: Id): (text: string)
    requires Given(id)
    ensures text != ""
  {
    match id
    case Text(text) => text
    case Number(value) => if value < 0 then "-" + Show(-value) else Show(value)
  }

  /** Whether an id is found in a set of texts: a number never is, whatever texts there are. */
  predicate OneOf(id: Id, texts: set<string>) {
    id.Text? && id.text in texts
  }

  /** The ids of pending items, as texts, where they have one. */
  function PendingApprovals(items: seq<Item>): set<string> {
    set i | 0 <= i < |items| && !items[i].isOverdue && Given(items[i].approvalId) :: Shown(items[i].approvalId)
  }

  function PendingEcos(items: seq<Item>): set<string> {
    set i | 0 <= i < |items| && !items[i].isOverdue && Given(items[i].ecoId) :: Shown(items[i].ecoId)
  }

  predicate Excluded(e: Entry, approvals: set<string>, ecos: set<string>) {
    e.Record? && (OneOf(e.approvalId, approvals) || OneOf(e.ecoId, ecos))
  }

  function KeptItems(items: seq<Item>, approvals: set<string>): seq<Item> {
    if items == [] then []
    else
      var last := items[|items| - 1];
      KeptItems(items[..|items| - 1], approvals) + if OneOf(last.approvalId, approvals) then [] else [last]
  }

  function KeptEntries(entries: seq<Entry>, approvals: set<string>, ecos: set<string>): seq<Entry> {
    if entries == [] then []
    else
      var last := entries[|entries| - 1];
      KeptEntries(entries[..|entries| - 1], approvals, ecos) + if Excluded(last, approvals, ecos) then [] else [last]
  }

  method FilterEntries(entries: seq<Entry>, approvals: set<string>, ecos: set<string>) returns (filtered: seq<Entry>)
    ensures filtered == KeptEntries(entries, approvals, ecos)
  {
    filtered := [];
    for i := 0 to |entries|
      invariant filtered == KeptEntries(entries[..i], approvals, ecos)
    {
      assert entries[..i + 1][..i] == entries[..i];
      var entry := entries[i];
      if entry.Plain? {
        filtered := filtered + [entry];
        continue;
      }
      if OneOf(entry.approvalId, approvals) {
        continue;
      }
      if OneOf(entry.ecoId, ecos) {
        continue;
      }
      filtered := filtered + [entry];
    }
    assert entries[..|entries|] == entries;
  }

  function CandidateAnomalies(a: Anomalies, approvals: set<string>, ecos: set<string>): Anomalies {
    var n := KeptEntries(a.noCandidates, approvals, ecos);
    var e := KeptEntries(a.escalatedUnresolved, approvals, ecos);
    var o := KeptEntries(a.overdueNotEscalated, approvals, ecos);
    Anomalies(n, e, o, |n| + |e| + |o|)
  }

  method BuildAnomalies(a: Anomalies, approvals: set<string>, ecos: set<string>) returns (candidate: Anomalies)
    ensures candidate == CandidateAnomalies(a, approvals, ecos)
  {
    var n := FilterEntries(a.noCandidates, approvals, ecos);
    var e := FilterEntries(a.escalatedUnresolved, approvals, ecos);
    var o := FilterEntries(a.overdueNotEscalated, approvals, ecos);
    candidate := Anomalies(n, e, o, |n| + |e| + |o|);
  }

  /** Filtering takes out every copy of an excluded entry and keeps every copy of the others, in order. */
  lemma {:induction false} KeptEntriesExact(entries: seq<Entry>, approvals: set<string>, ecos: set<string>, x: Entry)
    ensures multiset(KeptEntries(entries, approvals, ecos))[x]
         == if Excluded(x, approvals, ecos) then 0 else multiset(entries)[x]
  {
    hide Excluded;
    if entries != [] {
      var n := |entries| - 1;
      KeptEntriesExact(entries[..n], approvals, ecos, x);
      assert multiset(entries) == multiset(entries[..n]) + multiset{entries[n]} by {
        assert entries == entries[..n] + [entries[n]];
      }
    }
  }

  /** How many entries of a list are excluded. */
  function CountExcluded(entries: seq<Entry>, approvals: set<string>, ecos: set<string>): nat {
    if entries == [] then 0
    else
      var n := |entries| - 1;
      CountExcluded(entries[..n], approvals, ecos) + if Excluded(entries[n], approvals, ecos) then 1 else 0
  }

  lemma {:induction false} KeptPlusExcluded(entries: seq<Entry>, approvals: set<string>, ecos: set<string>)
    ensures |KeptEntries(entries, approvals, ecos)| + CountExcluded(entries, approvals, ecos) == |entries|
  {
    if entries != [] {
      KeptPlusExcluded(entries[..|entries| - 1], approvals, ecos);
    }
  }

  /** A consistent total stays consistent: it falls by exactly the number of excluded entries of all three kinds,
      and no kind keeps an excluded entry or loses another one. */
  lemma AnomalyTotalFalls(a: Anomalies, approvals: set<string>, ecos: set<string>)
    requires a.total == |a.noCandidates| + |a.escalatedUnresolved| + |a.overdueNotEscalated|
    ensures var c := CandidateAnomalies(a, approvals, ecos);
            && c.total == |c.noCandidates| + |c.escalatedUnresolved| + |c.overdueNotEscalated|
            && c.total == a.total - CountExcluded(a.noCandidates, approvals, ecos)
                 - CountExcluded(a.escalatedUnresolved, approvals, ecos) - CountExcluded(a.overdueNotEscalated, approvals, ecos)
            && forall x ::
                 && multiset(c.noCandidates)[x] == (if Excluded(x, approvals, ecos) then 0 else multiset(a.noCandidates)[x])
                 && multiset(c.escalatedUnresolved)[x]
                    == (if Excluded(x, approvals, ecos) then 0 else multiset(a.escalatedUnresolved)[x])
                 && multiset(c.overdueNotEscalated)[x]
                    == (if Excluded(x, approvals, ecos) then 0 else multiset(a.overdueNotEscalated)[x])
  {
    KeptPlusExcluded(a.noCandidates, approvals, ecos);
    KeptPlusExcluded(a.escalatedUnresolved, approvals, ecos);
    KeptPlusExcluded(a.overdueNotEscalated, approvals, ecos);
    forall x ensures
      && multiset(KeptEntries(a.noCandidates, approvals, ecos))[x]
         == (if Excluded(x, approvals, ecos) then 0 else multiset(a.noCandidates)[x])
      && multiset(KeptEntries(a.escalatedUnresolved, approvals, ecos))[x]
         == (if Excluded(x, approvals, ecos) then 0 else multiset(a.escalatedUnresolved)[x])
      && multiset(KeptEntries(a.overdueNotEscalated, approvals, ecos))[x]
         == (if Excluded(x, approvals, ecos) then 0 else multiset(a.overdueNotEscalated)[x]) {
      KeptEntriesExact(a.noCandidates, approvals, ecos, x);
      KeptEntriesExact(a.escalatedUnresolved, approvals, ecos, x);
      KeptEntriesExact(a.overdueNotEscalated, approvals, ecos, x);
    }
  }

  /** The observation without the approvals that are still pending; everything is filtered by the ids
      the original items give. */
  function Candidate(o: Observed): Observed {
    var approvals, ecos := PendingApprovals(o.items), PendingEcos(o.items);
    Observed(KeptItems(o.items, approvals), KeptEntries(o.exported, approvals, ecos),
             CandidateAnomalies(o.anomalies, approvals, ecos))
  }

  // ---------- what the candidate keeps, by the items alone ----------

  /** A decimal numeral without leading zeros, with a sign if the number is negative. */
  predicate IsNumeral(text: string, n: int) {
    var digits := if n < 0 && text != "" then text[1..] else text;
    && digits != "" && AllDigits(digits) && (digits[0] == '0' ==> digits == "0")
    && (n < 0 ==> text[0] == '-') && Value(digits) == if n < 0 then -n else n
  }

  /** The text an id is looked for by: itself, or the numeral of a number other than zero. */
  predicate GoesBy(id: Id, text: string) {
    text != "" && ((id.Text? && id.text == text) || (id.Number? && id.value != 0 && IsNumeral(text, id.value)))
  }

  lemma GoesByIff(id: Id, text: string)
    ensures GoesBy(id, text) <==> Given(id) && Shown(id) == text
  {
    if id.Number? && id.value != 0 {
      var n := if id.value < 0 then -id.value else id.value;
      ValueShow(n);
      ShowLeads(n);
      if id.value < 0 {
        assert Shown(id)[1..] == Show(n);
      }
      if IsNumeral(text, id.value) {
        var digits := if id.value < 0 then text[1..] else text;
        ShowValue(digits);
        assert id.value < 0 ==> text == "-" + digits;
      }
    }
  }

  /** Some pending item has an approval id that goes by the text. */
  predicate ApprovalPending(items: seq<Item>, text: string) {
    exists i :: 0 <= i < |items| && !items[i].isOverdue && GoesBy(items[i].approvalId, text)
  }

  predicate EcoPending(items: seq<Item>, text: string) {
    exists i :: 0 <= i < |items| && !items[i].isOverdue && GoesBy(items[i].ecoId, text)
  }

  lemma PendingIff(items: seq<Item>, text: string)
    ensures text in PendingApprovals(items) <==> ApprovalPending(items, text)
    ensures text in PendingEcos(items) <==> EcoPending(items, text)
  {
    forall i | 0 <= i < |items|
      ensures GoesBy(items[i].approvalId, text) <==> Given(items[i].approvalId) && Shown(items[i].approvalId) == text
      ensures GoesBy(items[i].ecoId, text) <==> Given(items[i].ecoId) && Shown(items[i].ecoId) == text {
      GoesByIff(items[i].approvalId, text);
      GoesByIff(items[i].ecoId, text);
    }
  }

  /** An item goes if its approval id is a text that a pending item's goes by. */
  predicate ItemGoes(x: Item, items: seq<Item>) {
    x.approvalId.Text? && ApprovalPending(items, x.approvalId.text)
  }

  /** A record goes if its approval or its ECO is a text that a pending item's goes by. */
  predicate EntryGoes(e: Entry, items: seq<Item>) {
    e.Record? && ((e.approvalId.Text? && ApprovalPending(items, e.approvalId.text)) || (e.ecoId.Text? && EcoPending(items, e.ecoId.text)))
  }

  /** The members at rising positions. */
  ghost predicate Picks<T>(kept: seq<T>, all: seq<T>, at: seq<nat>) {
    && |at| == |kept|
    && (forall i :: 0 <= i < |at| ==> at[i] < |all| && kept[i] == all[at[i]])
    && (forall i, j :: 0 <= i < j < |at| ==> at[i] < at[j])
  }

  ghost predicate ItemsKept(kept: seq<Item>, items: seq<Item>, at: seq<nat>) {
    Picks(kept, items, at) && forall n :: 0 <= n < |items| ==> (n in at <==> !ItemGoes(items[n], items))
  }

  ghost predicate EntriesKept(kept: seq<Entry>, entries: seq<Entry>, items: seq<Item>, at: seq<nat>) {
    Picks(kept, entries, at) && forall n :: 0 <= n < |entries| ==> (n in at <==> !EntryGoes(entries[n], items))
  }

  /** In every list of the candidate: all that need not go, in order; and the anomalies' total is what their lists hold. */
  ghost predicate Stable(c: Observed, o: Observed) {
    && (exists at :: ItemsKept(c.items, o.items, at))
    && (exists at :: EntriesKept(c.exported, o.exported, o.items, at))
    && (exists at :: EntriesKept(c.anomalies.noCandidates, o.anomalies.noCandidates, o.items, at))
    && (exists at :: EntriesKept(c.anomalies.escalatedUnresolved, o.anomalies.escalatedUnresolved, o.items, at))
    && (exists at :: EntriesKept(c.anomalies.overdueNotEscalated, o.anomalies.overdueNotEscalated, o.items, at))
    && c.anomalies.total
       == |c.anomalies.noCandidates| + |c.anomalies.escalatedUnresolved| + |c.anomalies.overdueNotEscalated|
  }

  lemma OneMorePicked<T>(kept: seq<T>, all: seq<T>, at: seq<nat>, keeps: bool) returns (more: seq<nat>)
    requires all != [] && Picks(kept, all[..|all| - 1], at)
    ensures var n := |all| - 1;
            && Picks(kept + (if keeps then [all[n]] else []), all, more)
            && (n in more <==> keeps) && forall m :: 0 <= m < n ==> (m in more <==> m in at)
  {
    more := at + if keeps then [|all| - 1] else [];
    assert kept + [] == kept;
  }

  lemma {:induction false} KeptItemsAt(items: seq<Item>, approvals: set<string>) returns (at: seq<nat>)
    ensures Picks(KeptItems(items, approvals), items, at)
    ensures forall n :: 0 <= n < |items| ==> (n in at <==> !OneOf(items[n].approvalId, approvals))
  {
    hide Picks;
    if items == [] {
      at := [];
      NothingPicked<Item>();
    } else {
      var n := |items| - 1;
      var front := KeptItemsAt(items[..n], approvals);
      at := OneMorePicked(KeptItems(items[..n], approvals), items, front, !OneOf(items[n].approvalId, approvals));
      forall m | 0 <= m < n ensures m in at <==> !OneOf(items[m].approvalId, approvals) {
        assert items[..n][m] == items[m];
      }
    }
  }

  lemma NothingPicked<T>()
    ensures Picks<T>([], [], [])
  {
  }

  lemma {:induction false} KeptEntriesAt(entries: seq<Entry>, approvals: set<string>, ecos: set<string>) returns (at: seq<nat>)
    ensures Picks(KeptEntries(entries, approvals, ecos), entries, at)
    ensures forall n :: 0 <= n < |entries| ==> (n in at <==> !Excluded(entries[n], approvals, ecos))
  {
    hide Picks;
    hide Excluded;
    if entries == [] {
      at := [];
      NothingPicked<Entry>();
    } else {
      var n := |entries| - 1;
      var front := KeptEntriesAt(entries[..n], approvals, ecos);
      at := OneMorePicked(KeptEntries(entries[..n], approvals, ecos), entries, front, !Excluded(entries[n], approvals, ecos));
      forall m | 0 <= m < n ensures m in at <==> !Excluded(entries[m], approvals, ecos) {
        assert entries[..n][m] == entries[m];
      }
    }
  }

  lemma EntriesAreKept(entries: seq<Entry>, items: seq<Item>)
    ensures exists at :: EntriesKept(KeptEntries(entries, PendingApprovals(items), PendingEcos(items)), entries, items, at)
  {
    var at := KeptEntriesAt(entries, PendingApprovals(items), PendingEcos(items));
    forall n | 0 <= n < |entries| ensures n in at <==> !EntryGoes(entries[n], items) {
      if entries[n].Record? && entries[n].approvalId.Text? {
        PendingIff(items, entries[n].approvalId.text);
      }
      if entries[n].Record? && entries[n].ecoId.Text? {
        PendingIff(items, entries[n].ecoId.text);
      }
    }
    assert EntriesKept(KeptEntries(entries, PendingApprovals(items), PendingEcos(items)), entries, items, at);
  }

  lemma CandidateIsStable(o: Observed)
    ensures Stable(Candidate(o), o)
  {
    hide Picks;
    hide EntriesKept;
    var at := KeptItemsAt(o.items, PendingApprovals(o.items));
    forall n | 0 <= n < |o.items| ensures n in at <==> !ItemGoes(o.items[n], o.items) {
      if o.items[n].approvalId.Text? {
        PendingIff(o.items, o.items[n].approvalId.text);
      }
    }
    assert ItemsKept(Candidate(o).items, o.items, at);
    EntriesAreKept(o.exported, o.items);
    EntriesAreKept(o.anomalies.noCandidates, o.items);
    EntriesAreKept(o.anomalies.escalatedUnresolved, o.items);
    EntriesAreKept(o.anomalies.overdueNotEscalated, o.items);
  }

  /** The candidate's files. */
  method BuildCandidate(o: Observed) returns (candidate: Observed, summary: Summary)
    ensures candidate == Candidate(o) && summary == SummaryOf(candidate.items)
    ensures Stable(candidate, o) && Summarizes(summary, candidate.items)
  {
    CandidateIsStable(o);
    hide Stable;
    hide Summarizes;
    var approvals, ecos := PendingApprovals(o.items), PendingEcos(o.items);
    var items := KeptItems(o.items, approvals);
    var exported := FilterEntries(o.exported, approvals, ecos);
    var anomalies := BuildAnomalies(o.anomalies, approvals, ecos);
    summary := BuildSummary(items);
    candidate := Observed(items, exported, anomalies);
  }

  predicate Ready(o: Observed) {
    SummaryOf(Candidate(o).items).pendingCount == 0
  }

  lemma {:induction false} KeptItemsMembers(items: seq<Item>, approvals: set<string>, x: Item)
    ensures x in KeptItems(items, approvals) <==> x in items && !OneOf(x.approvalId, approvals)
  {
    if items != [] {
      KeptItemsMembers(items[..|items| - 1], approvals, x);
      assert items == items[..|items| - 1] + [items[|items| - 1]];
    }
  }

  lemma {:induction false} KeptEntriesMembers(entries: seq<Entry>, approvals: set<string>, ecos: set<string>, x: Entry)
    ensures x in KeptEntries(entries, approvals, ecos) <==> x in entries && !Excluded(x, approvals, ecos)
  {
    if entries != [] {
      KeptEntriesMembers(entries[..|entries| - 1], approvals, ecos, x);
      assert entries == entries[..|entries| - 1] + [entries[|entries| - 1]];
    }
  }

  lemma {:induction false} NothingToDrop(items: seq<Item>, approvals: set<string>)
    requires forall x :: x in items ==> !OneOf(x.approvalId, approvals)
    ensures KeptItems(items, approvals) == items
  {
    if items != [] {
      var n := |items| - 1;
      assert items == items[..n] + [items[n]];
      assert items[n] in items && forall x :: x in items[..n] ==> x in items;
      NothingToDrop(items[..n], approvals);
    }
  }

  lemma {:induction false} NoEntryToDrop(entries: seq<Entry>, approvals: set<string>, ecos: set<string>)
    requires forall x :: x in entries ==> !Excluded(x, approvals, ecos)
    ensures KeptEntries(entries, approvals, ecos) == entries
  {
    if entries != [] {
      assert forall x :: x in entries[..|entries| - 1] ==> x in entries;
      NoEntryToDrop(entries[..|entries| - 1], approvals, ecos);
    }
  }

  lemma EntriesKeptTwice(entries: seq<Entry>, a: set<string>, e: set<string>, a': set<string>, e': set<string>)
    requires a' <= a && e' <= e
    ensures KeptEntries(KeptEntries(entries, a, e), a', e') == KeptEntries(entries, a, e)
  {
    forall x | x in KeptEntries(entries, a, e) ensures !Excluded(x, a', e') {
      KeptEntriesMembers(entries, a, e, x);
    }
    NoEntryToDrop(KeptEntries(entries, a, e), a', e');
  }

  /** A pending item is dropped exactly when its approval id is a text. */
  predicate CanBeExcluded(x: Item) {
    x.approvalId.Text? && x.approvalId.text != ""
  }

  lemma ExcludedById(items: seq<Item>, x: Item)
    requires x in items && !x.isOverdue
    ensures OneOf(x.approvalId, PendingApprovals(items)) <==> CanBeExcluded(x)
  {
    var i :| 0 <= i < |items| && items[i] == x;
    if CanBeExcluded(x) {
      assert Given(items[i].approvalId) && Shown(items[i].approvalId) == x.approvalId.text;
    }
  }

  lemma PendingIdsOfSome(items: seq<Item>, some: seq<Item>)
    requires forall x :: x in some ==> x in items
    ensures PendingApprovals(some) <= PendingApprovals(items) && PendingEcos(some) <= PendingEcos(items)
  {
    forall i | 0 <= i < |some| ensures exists j :: 0 <= j < |items| && items[j] == some[i] {
      assert some[i] in items;
    }
  }

  /** What is still pending in the kept items could not be excluded, and its ids were looked for before. */
  lemma KeptPendingIds(items: seq<Item>)
    ensures var kept := KeptItems(items, PendingApprovals(items));
            && PendingApprovals(kept) <= PendingApprovals(items) && PendingEcos(kept) <= PendingEcos(items)
            && forall x :: x in kept ==> x in items && !OneOf(x.approvalId, PendingApprovals(items))
  {
    var kept := KeptItems(items, PendingApprovals(items));
    forall x | x in kept ensures x in items && !OneOf(x.approvalId, PendingApprovals(items)) {
      KeptItemsMembers(items, PendingApprovals(items), x);
    }
    PendingIdsOfSome(items, kept);
  }

  /** Excluding twice is excluding once. */
  lemma CandidateIdempotent(o: Observed)
    ensures Candidate(Candidate(o)) == Candidate(o)
  {
    var a, e := PendingApprovals(o.items), PendingEcos(o.items);
    var c := Candidate(o);
    KeptPendingIds(o.items);
    var a', e' := PendingApprovals(c.items), PendingEcos(c.items);
    NothingToDrop(c.items, a');
    EntriesKeptTwice(o.exported, a, e, a', e');
    EntriesKeptTwice(o.anomalies.noCandidates, a, e, a', e');
    EntriesKeptTwice(o.anomalies.escalatedUnresolved, a, e, a', e');
    EntriesKeptTwice(o.anomalies.overdueNotEscalated, a, e, a', e');
  }

  lemma {:induction false} CountAllZero(flags: seq<bool>)
    ensures CountAll(flags) == 0 <==> forall i :: 0 <= i < |flags| ==> !flags[i]
  {
    if flags != [] {
      CountAllZero(flags[..|flags| - 1]);
      assert flags == flags[..|flags| - 1] + [flags[|flags| - 1]];
    }
  }

  lemma NonePending(items: seq<Item>)
    ensures CountAll(Pending(items)) == 0 <==> forall x :: x in items ==> x.isOverdue
  {
    CountAllZero(Pending(items));
    assert forall i :: 0 <= i < |items| ==> Pending(items)[i] == !items[i].isOverdue && items[i] in items;
  }

  /** The candidate is ready exactly when every pending item has a text to exclude it by. */
  lemma ReadyIffAllPendingHaveIds(o: Observed)
    ensures Ready(o) <==> forall x :: x in o.items && !x.isOverdue ==> CanBeExcluded(x)
  {
    var approvals := PendingApprovals(o.items);
    var kept := KeptItems(o.items, approvals);
    NonePending(kept);
    forall x | x in o.items && !x.isOverdue ensures x in kept <==> !CanBeExcluded(x) {
      KeptItemsMembers(o.items, approvals, x);
      ExcludedById(o.items, x);
    }
    forall x | x in kept ensures x in o.items {
      KeptItemsMembers(o.items, approvals, x);
    }
  }

  /** An id that is a number is written into the set as a text and then not found there: one pending item
      with approval id 7 and nothing else is never ready. */
  lemma NumberIsNotExcluded(o: Observed)
    requires o.items == [Item(Number(7), Missing, None, None, None, None, false, false)]
    ensures PendingApprovals(o.items) == {"7"} && Candidate(o).items == o.items && !Ready(o)
  {
    var x := o.items[0];
    assert x in o.items && !CanBeExcluded(x);
    assert Shown(x.approvalId) == "7" by {
      assert DigitOf(7) == '7';
    }
    assert PendingApprovals(o.items) == {Shown(x.approvalId)};
    NothingToDrop(o.items, PendingApprovals(o.items));
    ReadyIffAllPendingHaveIds(o);
  }
}
