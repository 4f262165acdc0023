/** What the scorer guarantees for every case, registry and ranking. */
module ScoringTheorems {
  import opened Collections
  import opened Json
  import opened Scoring

  // ---------------------------------------------------------------- registry

  ghost function EntryChildren(entry: Entry): set<string> {
    TextMembers(Get(entry.row, ChildIds))
  }

  ghost predicate EntryOk(entry: Entry) {
    && IsText(EntryId(entry))
    && KeyAgrees(entry)
    && IsTextList(Get(entry.row, ChildIds))
    && NoDuplicates(Texts(Get(entry.row, ChildIds)))
    && Get(entry.row, ChildIds).items != []
  }

  /** The registry contract: well-formed entries, distinct ids, and no child shared by two groups. */
  ghost predicate RegistryOk(entries: seq<Entry>) {
    && (forall i :: 0 <= i < |entries| ==> EntryOk(entries[i]))
    && (forall i, j :: 0 <= i < j < |entries| ==> EntryId(entries[i]) != EntryId(entries[j]))
    && (forall i, j :: 0 <= i < j < |entries| ==> EntryChildren(entries[i]) !! EntryChildren(entries[j]))
  }

  ghost predicate Names(entries: seq<Entry>, i: int, g: string) {
    0 <= i < |entries| && EntryId(entries[i]) == Str(g)
  }

  ghost predicate Holds(entries: seq<Entry>, i: int, c: string) {
    0 <= i < |entries| && c in EntryChildren(entries[i])
  }

  /** `registry` indexes exactly `entries`: owner is the inverse of group to children. */
  ghost predicate Indexes(registry: Registry, entries: seq<Entry>) {
    && (forall i, g :: Names(entries, i, g) ==> g in registry.groups && registry.groups[g] == entries[i].row)
    && (forall g :: g in registry.groups ==> exists i :: Names(entries, i, g))
    && (forall i, c :: Holds(entries, i, c) ==> c in registry.owner && Names(entries, i, registry.owner[c]))
    && (forall c :: c in registry.owner ==> exists i :: Holds(entries, i, c))
  }

  lemma {:induction false} AddChildrenMeaning(owner: map<string, string>, children: seq<string>, group: string)
    ensures AddChildren(owner, children, group).Success? <==> NoDuplicates(children) && owner.Keys !! ToSet(children)
    ensures AddChildren(owner, children, group).Success? ==>
              AddChildren(owner, children, group).value == owner + map c | c in children :: group
  {
    if children != [] {
      var rest := children[..|children| - 1];
      var last := children[|children| - 1];
      AddChildrenMeaning(owner, rest, group);
      SplitLastSet(children);
      assert NoDuplicates(children) <==> NoDuplicates(rest) && last !in ToSet(rest) by {
        assert children == rest + [last];
      }
    }
  }

  /** An entry that meets the contract on its own and shares neither id nor child with `rest`. */
  ghost predicate Fits(rest: seq<Entry>, entry: Entry) {
    && EntryOk(entry)
    && (forall i :: 0 <= i < |rest| ==> EntryId(rest[i]) != EntryId(entry))
    && (forall i :: 0 <= i < |rest| ==> EntryChildren(rest[i]) !! EntryChildren(entry))
  }

  lemma RegistryOkSnoc(rest: seq<Entry>, entry: Entry)
    ensures RegistryOk(rest + [entry]) <==> RegistryOk(rest) && Fits(rest, entry)
  {
    var entries := rest + [entry];
    assert entries[|rest|] == entry;
    assert forall i :: 0 <= i < |rest| ==> entries[i] == rest[i];
  }

  lemma FreshId(registry: Registry, rest: seq<Entry>, id: string)
    requires Indexes(registry, rest)
    ensures id !in registry.groups <==> forall i :: 0 <= i < |rest| ==> EntryId(rest[i]) != Str(id)
  {
    forall i | 0 <= i < |rest| && EntryId(rest[i]) == Str(id)
      ensures id in registry.groups
    {
      assert Names(rest, i, id);
    }
  }

  lemma FreshChildren(registry: Registry, rest: seq<Entry>, children: set<string>)
    requires Indexes(registry, rest)
    ensures registry.owner.Keys !! children <==> forall i :: 0 <= i < |rest| ==> EntryChildren(rest[i]) !! children
  {
    forall i, c | 0 <= i < |rest| && c in EntryChildren(rest[i]) && c in children
      ensures c in registry.owner.Keys * children
    {
      assert Holds(rest, i, c);
    }
    forall c | c in registry.owner.Keys && c in children
      ensures exists i :: 0 <= i < |rest| && !(EntryChildren(rest[i]) !! children)
    {
      var i :| Holds(rest, i, c);
      assert c in EntryChildren(rest[i]) * children;
    }
  }

  /** The registry after an accepted entry. */
  ghost function Grow(registry: Registry, entry: Entry): Registry
    requires IsText(EntryId(entry))
  {
    Registry(registry.groups[EntryId(entry).s := entry.row],
             registry.owner + map c | c in EntryChildren(entry) :: EntryId(entry).s)
  }

  lemma AddEntryFits(registry: Registry, rest: seq<Entry>, entry: Entry)
    requires Indexes(registry, rest)
    ensures AddEntry(registry, entry).Success? <==> Fits(rest, entry)
    ensures AddEntry(registry, entry).Success? ==> AddEntry(registry, entry).value == Grow(registry, entry)
  {
    if EntryOk(entry) {
      var id := EntryId(entry).s;
      var children := Texts(Get(entry.row, ChildIds));
      TextMembersOfList(Get(entry.row, ChildIds));
      AddChildrenMeaning(registry.owner, children, id);
      FreshId(registry, rest, id);
      FreshChildren(registry, rest, EntryChildren(entry));
      assert ToSet(children) == EntryChildren(entry);
      assert (map c | c in children :: id) == map c | c in EntryChildren(entry) :: id;
    }
  }

  lemma NamesSnoc(rest: seq<Entry>, entry: Entry, i: int, g: string)
    ensures Names(rest + [entry], i, g) <==> Names(rest, i, g) || (i == |rest| && EntryId(entry) == Str(g))
  {
  }

  lemma HoldsSnoc(rest: seq<Entry>, entry: Entry, i: int, c: string)
    ensures Holds(rest + [entry], i, c) <==> Holds(rest, i, c) || (i == |rest| && c in EntryChildren(entry))
  {
  }

  lemma IndexesSnoc(registry: Registry, rest: seq<Entry>, entry: Entry)
    requires Indexes(registry, rest) && Fits(rest, entry)
    ensures Indexes(Grow(registry, entry), rest + [entry])
  {
    GroupsSnoc(registry, rest, entry);
    OwnersSnoc(registry, rest, entry);
  }

  lemma GroupsSnoc(registry: Registry, rest: seq<Entry>, entry: Entry)
    requires Indexes(registry, rest) && Fits(rest, entry)
    ensures var entries, grown := rest + [entry], Grow(registry, entry);
            && (forall i, g :: Names(entries, i, g) ==> g in grown.groups && grown.groups[g] == entries[i].row)
            && (forall g :: g in grown.groups ==> exists i :: Names(entries, i, g))
  {
    hide EntryId, EntryChildren;
    var entries, grown := rest + [entry], Grow(registry, entry);
    forall i, g | Names(entries, i, g)
      ensures g in grown.groups && grown.groups[g] == entries[i].row
    {
      NamesSnoc(rest, entry, i, g);
    }
    forall g | g in grown.groups
      ensures exists i :: Names(entries, i, g)
    {
      if Str(g) == EntryId(entry) {
        NamesSnoc(rest, entry, |rest|, g);
      } else {
        var i :| Names(rest, i, g);
        NamesSnoc(rest, entry, i, g);
      }
    }
  }

  lemma OwnersSnoc(registry: Registry, rest: seq<Entry>, entry: Entry)
    requires Indexes(registry, rest) && Fits(rest, entry)
    ensures var entries, grown := rest + [entry], Grow(registry, entry);
            && (forall i, c :: Holds(entries, i, c) ==> c in grown.owner && Names(entries, i, grown.owner[c]))
            && (forall c :: c in grown.owner ==> exists i :: Holds(entries, i, c))
  {
    hide EntryId, EntryChildren;
    var entries, grown := rest + [entry], Grow(registry, entry);
    forall i, c | Holds(entries, i, c)
      ensures c in grown.owner && Names(entries, i, grown.owner[c])
    {
      HoldsSnoc(rest, entry, i, c);
      if i < |rest| {
        assert c in EntryChildren(rest[i]) && c !in EntryChildren(entry);
        NamesSnoc(rest, entry, i, registry.owner[c]);
      } else {
        NamesSnoc(rest, entry, i, EntryId(entry).s);
      }
    }
    forall c | c in grown.owner
      ensures exists i :: Holds(entries, i, c)
    {
      if c in EntryChildren(entry) {
        HoldsSnoc(rest, entry, |rest|, c);
      } else {
        var i :| Holds(rest, i, c);
        HoldsSnoc(rest, entry, i, c);
      }
    }
  }

  lemma {:induction false} AddEntriesMeaning(entries: seq<Entry>)
    ensures AddEntries(entries).Success? <==> RegistryOk(entries)
    ensures AddEntries(entries).Success? ==> Indexes(AddEntries(entries).value, entries)
  {
    if entries != [] {
      var n := |entries| - 1;
      var rest := entries[..n];
      AddEntriesMeaning(rest);
      assert entries == rest + [entries[n]];
      RegistryOkSnoc(rest, entries[n]);
      if RegistryOk(rest) {
        AddEntryFits(AddEntries(rest).value, rest, entries[n]);
        if Fits(rest, entries[n]) {
          IndexesSnoc(AddEntries(rest).value, rest, entries[n]);
        }
      }
    }
  }

  /** The registry is accepted exactly when it meets its contract, and then the indexes are exact inverses. */
  lemma RegistryAcceptedIff(entries: seq<Entry>)
    ensures BuildRegistry(entries).Success? <==> KeysAreText(entries) && RegistryOk(entries)
    ensures BuildRegistry(entries).Success? ==> Indexes(BuildRegistry(entries).value, entries)
  {
    AddEntriesMeaning(entries);
  }

  // ---------------------------------------------------------------- completion rank

  /** The first rank whose row matches group `g`. */
  ghost function FirstRank(byRank: seq<set<string>>, g: string): (r: Option<nat>)
    ensures r.Some? ==> 1 <= r.value <= |byRank| && g in byRank[r.value - 1]
    ensures r.Some? ==> forall i :: 0 <= i < r.value - 1 ==> g !in byRank[i]
    ensures r.None? ==> forall i :: 0 <= i < |byRank| ==> g !in byRank[i]
  {
    if byRank == [] then None
    else
      var before := FirstRank(byRank[..|byRank| - 1], g);
      if before.Some? then before
      else if g in byRank[|byRank| - 1] then Some(|byRank|)
      else None
  }

  /** A group is covered through rank k exactly when its first rank is at most k. */
  lemma CoveredByFirstRank(byRank: seq<set<string>>, k: nat, g: string)
    ensures g in CoveredThrough(byRank, k) <==> FirstRank(byRank, g).Some? && FirstRank(byRank, g).value <= k
  {
    var first := FirstRank(byRank, g);
    if first.Some? && first.value <= k {
      assert byRank[..Min(k, |byRank|)][first.value - 1] == byRank[first.value - 1];
    }
  }

  ghost predicate OnlyWanted(byRank: seq<set<string>>, wanted: set<string>) {
    forall i :: 0 <= i < |byRank| ==> byRank[i] <= wanted
  }

  /** ANY: the completion rank is the minimum of the required groups' first ranks. */
  lemma AnyCompletesAtEarliestFirstRank(byRank: seq<set<string>>, required: set<string>)
    requires OnlyWanted(byRank, required)
    ensures var rank := CompletionRankOf(byRank, required, ANY);
            && (rank.None? <==> forall g :: g in required ==> FirstRank(byRank, g).None?)
            && (rank.Some? ==>
                  && (exists g :: g in required && FirstRank(byRank, g) == rank)
                  && (forall g :: g in required && FirstRank(byRank, g).Some? ==> rank.value <= FirstRank(byRank, g).value))
  {
    var rank := CompletionRankOf(byRank, required, ANY);
    forall g | g in required && FirstRank(byRank, g).Some?
      ensures rank.Some? && rank.value <= FirstRank(byRank, g).value
    {
      CoveredByFirstRank(byRank, FirstRank(byRank, g).value, g);
      assert Complete(byRank, required, ANY, FirstRank(byRank, g).value);
    }
    if rank.Some? {
      var g :| g in CoveredThrough(byRank, rank.value);
      CoveredByFirstRank(byRank, rank.value, g);
      assert g in required;
    }
  }

  /** ALL: the completion rank is the maximum of the required groups' first ranks. */
  lemma AllCompletesAtLatestFirstRank(byRank: seq<set<string>>, required: set<string>)
    requires required != {}
    ensures var rank := CompletionRankOf(byRank, required, ALL);
            && (rank.Some? <==> forall g :: g in required ==> FirstRank(byRank, g).Some?)
            && (rank.Some? ==>
                  && (exists g :: g in required && FirstRank(byRank, g) == rank)
                  && (forall g :: g in required ==> FirstRank(byRank, g).value <= rank.value))
  {
    var rank := CompletionRankOf(byRank, required, ALL);
    if rank.Some? {
      AllCoveredBy(byRank, required, rank.value);
      LastGroupCompletes(byRank, required, rank.value);
    }
    if forall g :: g in required ==> FirstRank(byRank, g).Some? {
      AllCoveredBy(byRank, required, |byRank|);
      var some :| some in required;
      assert FirstRank(byRank, some).Some?;
      assert Complete(byRank, required, ALL, |byRank|);
    }
  }

  /** ALL is complete at k exactly when every required group's first rank is at most k. */
  lemma AllCoveredBy(byRank: seq<set<string>>, required: set<string>, k: nat)
    ensures Complete(byRank, required, ALL, k)
       <==> forall g :: g in required ==> FirstRank(byRank, g).Some? && FirstRank(byRank, g).value <= k
  {
    hide CoveredThrough;
    forall g
      ensures g in CoveredThrough(byRank, k) <==> FirstRank(byRank, g).Some? && FirstRank(byRank, g).value <= k
    {
      CoveredByFirstRank(byRank, k, g);
    }
  }

  lemma LastGroupCompletes(byRank: seq<set<string>>, required: set<string>, r: nat)
    requires required != {} && CompletionRankOf(byRank, required, ALL) == Some(r)
    ensures exists g :: g in required && FirstRank(byRank, g) == Some(r)
  {
    hide CoveredThrough, Complete, FirstRank;
    AllCoveredBy(byRank, required, r);
    AllCoveredBy(byRank, required, r - 1);
    var late :| late in required;
    if r > 1 {
      late :| late in required && !(FirstRank(byRank, late).value <= r - 1);
    }
    assert FirstRank(byRank, late) == Some(r);
  }

  lemma CompleteIsMonotone(byRank: seq<set<string>>, required: set<string>, policy: Policy, k: nat, k': nat)
    requires k <= k'
    ensures CoveredThrough(byRank, k) <= CoveredThrough(byRank, k')
    ensures Complete(byRank, required, policy, k) ==> Complete(byRank, required, policy, k')
  {
    forall g | g in CoveredThrough(byRank, k)
      ensures g in CoveredThrough(byRank, k')
    {
      CoveredByFirstRank(byRank, k, g);
      CoveredByFirstRank(byRank, k', g);
    }
  }

  /** A hit at k is scored exactly when the completion rank exists and is at most min(k, topK). */
  lemma HitIffCompletedInTime(byRank: seq<set<string>>, contract: Contract, topK: nat, k: nat)
    requires contract.Valid() && contract.outcome == EVIDENCE
    requires |byRank| <= topK
    ensures var rank := CompletionRankOf(byRank, contract.Required(), contract.policy);
            && (HitAt(byRank, contract, topK, k) == Some(1.0) <==> rank.Some? && rank.value <= Min(k, topK))
            && HitAt(byRank, contract, topK, k) in {Some(0.0), Some(1.0)}
  {
    var required := contract.Required();
    var bound := Min(k, topK);
    var rank := CompletionRankOf(byRank, required, contract.policy);
    assert contract.required[0] in required;
    assert CoveredThrough(byRank, 0) == {};
    assert HitAt(byRank, contract, topK, k) == Some(1.0) <==> Complete(byRank, required, contract.policy, bound);
    if rank.Some? && rank.value <= bound {
      CompleteIsMonotone(byRank, required, contract.policy, rank.value, bound);
    }
    if Complete(byRank, required, contract.policy, bound) {
      var last := Min(bound, |byRank|);
      assert CoveredThrough(byRank, last) == CoveredThrough(byRank, bound);
      assert Complete(byRank, required, contract.policy, last);
      assert last >= 1;
    }
  }

  /** Hit and recall never fall as k grows, and recall lies in [0, 1]. */
  lemma HitAndRecallAreMonotone(gate: Gate, owner: map<string, string>, contract: Contract, rows: seq<Row>, topK: nat,
                                k: nat, k': nat)
    requires contract.Valid() && contract.outcome == EVIDENCE
    requires k <= k'
    ensures var byRank := MatchedByRank(gate, owner, contract.Required(), rows);
            && HitAt(byRank, contract, topK, k).value <= HitAt(byRank, contract, topK, k').value
            && 0.0 <= RecallAt(byRank, contract, topK, k).value <= RecallAt(byRank, contract, topK, k').value <= 1.0
  {
    var byRank := MatchedByRank(gate, owner, contract.Required(), rows);
    assert OnlyWanted(byRank, contract.Required());
    hide MatchedByRank;
    CompleteIsMonotone(byRank, contract.Required(), contract.policy, Min(k, topK), Min(k', topK));
    var small := CoveredThrough(byRank, Min(k, topK));
    var large := CoveredThrough(byRank, Min(k', topK));
    SubsetCardinality(small, large);
    SubsetCardinality(large, contract.Required());
    NoDuplicatesCardinality(contract.required);
    QuotientIsMonotone(|small|, |large|, |contract.required|);
    QuotientIsMonotone(|large|, |contract.required|, |contract.required|);
  }

  lemma QuotientIsMonotone(a: nat, b: nat, n: nat)
    requires a <= b && n > 0
    ensures 0.0 <= a as real / n as real <= b as real / n as real
    ensures n as real / n as real == 1.0
    ensures a as real / n as real == 1.0 <==> a == n
  {
    var q := a as real / n as real;
    assert q * n as real == a as real;
  }

  /** Recall is 1 exactly when every required group is covered, that is, when the ALL-hit holds. */
  lemma FullRecallIffAllHit(gate: Gate, owner: map<string, string>, contract: Contract, rows: seq<Row>, topK: nat,
                            k: nat)
    requires contract.Valid() && contract.outcome == EVIDENCE
    ensures var byRank := MatchedByRank(gate, owner, contract.Required(), rows);
            (RecallAt(byRank, contract, topK, k) == Some(1.0)) == (HitAt(byRank, contract.(policy := ALL), topK, k) == Some(1.0))
  {
    var byRank := MatchedByRank(gate, owner, contract.Required(), rows);
    assert OnlyWanted(byRank, contract.Required());
    hide MatchedByRank;
    var covered := CoveredThrough(byRank, Min(k, topK));
    NoDuplicatesCardinality(contract.required);
    SubsetCardinality(covered, contract.Required());
    QuotientIsMonotone(|covered|, |contract.required|, |contract.required|);
    assert covered <= contract.Required() by {
      assert forall i :: 0 <= i < |byRank| ==> byRank[i] <= contract.Required();
    }
    assert contract.Required() <= covered <==> covered == contract.Required();
  }

  ghost predicate AtMostOnePerRank(byRank: seq<set<string>>) {
    forall i :: 0 <= i < |byRank| ==> |byRank[i]| <= 1
  }

  /** A row stands for at most one group, so k rows cover at most k groups. */
  lemma {:induction false} CoverageIsAtMostRank(byRank: seq<set<string>>)
    requires AtMostOnePerRank(byRank)
    ensures |Covered(byRank)| <= |byRank|
  {
    if byRank != [] {
      var rest := byRank[..|byRank| - 1];
      var last := byRank[|byRank| - 1];
      CoverageIsAtMostRank(rest);
      assert byRank == rest + [last];
      assert Covered(byRank) == Covered(rest) + last;
    } else {
      assert Covered(byRank) == {};
    }
  }

  /** Completing ALL takes at least as many ranks as there are required groups. */
  lemma AllNeedsOneRankPerGroup(gate: Gate, owner: map<string, string>, contract: Contract, rows: seq<Row>)
    requires contract.Valid() && contract.policy == ALL
    ensures var rank := CompletionRankOf(MatchedByRank(gate, owner, contract.Required(), rows), contract.Required(), ALL);
            rank.Some? ==> rank.value >= |contract.required| && ReciprocalRank(rank) <= 1.0 / |contract.required| as real
  {
    var byRank := MatchedByRank(gate, owner, contract.Required(), rows);
    var rank := CompletionRankOf(byRank, contract.Required(), ALL);
    if rank.Some? {
      NoDuplicatesCardinality(contract.required);
      SubsetCardinality(contract.Required(), CoveredThrough(byRank, rank.value));
      CoverageIsAtMostRank(byRank[..rank.value]);
      ReciprocalIsAntitone(|contract.required|, rank.value);
    }
  }

  lemma ScaleIsMonotone(y: real, a: real, b: real)
    requires y >= 0.0 && a <= b
    ensures y * a <= y * b
  {
  }

  lemma ScaleIsStrict(x: real, y: real, a: real)
    requires a > 0.0
    ensures x < y <==> x * a < y * a
  {
  }

  lemma ReciprocalIsAntitone(a: nat, b: nat)
    requires 0 < a <= b
    ensures 1.0 / b as real <= 1.0 / a as real
  {
    var x, y := 1.0 / a as real, 1.0 / b as real;
    assert x * a as real == 1.0 && y * b as real == 1.0;
    assert y > 0.0;
    ScaleIsMonotone(y, a as real, b as real);
    ScaleIsStrict(x, y, a as real);
  }

  // ---------------------------------------------------------------- invalid rows

  lemma InvalidMeansSomeDefect(gate: Gate, row: Row)
    ensures !RowIsValid(gate, row) <==> exists d :: HasDefect(gate, row, d)
  {
    if !RowIsValid(gate, row) {
      assert HasDefect(gate, row, WRONG_PRODUCT) || HasDefect(gate, row, NON_CHILD)
             || HasDefect(gate, row, NON_SEARCH_CANDIDATE) || HasDefect(gate, row, DISALLOWED_USE)
             || HasDefect(gate, row, UNVERIFIED) || HasDefect(gate, row, FORBIDDEN_DOCUMENT)
             || HasDefect(gate, row, FORBIDDEN_MODEL);
    }
  }

  function DefectSum(counts: DefectCounts): nat {
    counts.wrongProduct + counts.nonChild + counts.nonSearchCandidate + counts.disallowedUse
    + counts.unverified + counts.forbiddenDocument + counts.forbiddenModel
  }

  /** Every individual count is at most the invalid count, which is at most their sum. */
  lemma {:induction false} InvalidCountBounds(gate: Gate, rows: seq<Row>)
    ensures var counts := CountDefects(gate, rows);
            && (forall d :: CountDefect(gate, rows, d) <= counts.invalidTopK)
            && counts.invalidTopK <= DefectSum(counts)
            && counts.invalidTopK <= |rows|
  {
    if rows != [] {
      InvalidCountBounds(gate, rows[1..]);
      InvalidMeansSomeDefect(gate, rows[0]);
      hide RowIsValid, HasDefect;
    }
  }

  /** The invalid count vanishes exactly when all seven individual counts do. */
  lemma NoInvalidRowIffNoDefect(gate: Gate, rows: seq<Row>)
    ensures var counts := CountDefects(gate, rows);
            && (counts.invalidTopK == 0 <==> DefectSum(counts) == 0)
            && (counts.invalidTopK == 0 <==> forall i :: 0 <= i < |rows| ==> RowIsValid(gate, rows[i]))
  {
    InvalidCountBounds(gate, rows);
    CountZeroIffNone(row => !RowIsValid(gate, row), rows);
    var counts := CountDefects(gate, rows);
    assert CountDefect(gate, rows, WRONG_PRODUCT) <= counts.invalidTopK;
    assert CountDefect(gate, rows, NON_CHILD) <= counts.invalidTopK;
    assert CountDefect(gate, rows, NON_SEARCH_CANDIDATE) <= counts.invalidTopK;
    assert CountDefect(gate, rows, DISALLOWED_USE) <= counts.invalidTopK;
    assert CountDefect(gate, rows, UNVERIFIED) <= counts.invalidTopK;
    assert CountDefect(gate, rows, FORBIDDEN_DOCUMENT) <= counts.invalidTopK;
    assert CountDefect(gate, rows, FORBIDDEN_MODEL) <= counts.invalidTopK;
  }

  /** An evidence case passes exactly when it ran on its path, completed in time and shows only valid rows. */
  lemma EvidencePassIff(contract: Contract, gate: Gate, owner: map<string, string>, rows: seq<Row>,
                        observation: Observation, topK: nat)
    requires contract.Valid() && contract.outcome == EVIDENCE
    ensures var evaluated := rows[..Min(topK, |rows|)];
            var score := ScoreRows(contract, gate, owner, rows, observation, topK);
            score.passed <==>
              && observation.path == PGVECTOR_QUERY && observation.queries >= 1
              && score.completionRank.Some?
              && forall i :: 0 <= i < |evaluated| ==> RowIsValid(gate, evaluated[i])
  {
    var evaluated := rows[..Min(topK, |rows|)];
    var byRank := MatchedByRank(gate, owner, contract.Required(), evaluated);
    HitIffCompletedInTime(byRank, contract, topK, topK);
    NoInvalidRowIffNoDefect(gate, evaluated);
  }

  // ---------------------------------------------------------------- invariance

  /** Everything the scorer checks before it looks at the ranked rows. */
  ghost predicate Admitted(row: Row, entries: seq<Entry>, observation: Observation, topK: int,
                           allowedUse: set<string>, verified: set<string>) {
    && topK >= 1 && observation.queries >= 0 && observation.path != ""
    && ReadCase(row).Success? && Admit(ReadCase(row).value, entries).Success?
    && allowedUse != {} && verified != {}
  }

  /** The same score up to the full ranking it came from: the first topK rows decide it.
      The equation fails exactly when a row past topK is malformed and everything before it is accepted. */
  lemma TopKDecidesScore(row: Row, ranked: seq<Row>, entries: seq<Entry>, observation: Observation, topK: int,
                         allowedUse: set<string>, verified: set<string>)
    requires 1 <= topK < |ranked|
    ensures ScoreCase(row, ranked, entries, observation, topK, allowedUse, verified)
         == ScoreCase(row, ranked[..topK], entries, observation, topK, allowedUse, verified)
       <==> !(&& Admitted(row, entries, observation, topK, allowedUse, verified)
              && ChunksAreObjects(ranked[..topK])
              && !ChunksAreObjects(ranked[topK..]))
  {
    hide ReadCase, Admit;
    var head := ranked[..topK];
    assert ChunksAreObjects(ranked) <==> ChunksAreObjects(head) && ChunksAreObjects(ranked[topK..]) by {
      assert forall i :: 0 <= i < topK ==> ranked[i] == head[i];
      assert forall i :: topK <= i < |ranked| ==> ranked[i] == ranked[topK..][i - topK];
    }
    if ChunksAreObjects(ranked) {
      assert CorpusRows(ranked)[..topK] == CorpusRows(head)[..topK];
    }
  }

  /** A case that expects a query and no evidence. */
  function AbsenceCase(product: string): Row {
    map[
      ProductModelCode := Str(product), EvidenceMatchPolicy := Str("NONE"),
      ExpectedRetrievalOutcome := Str("NO_EVIDENCE"), ExpectedExecutionPath := Str(PGVECTOR_QUERY),
      RequiredEvidenceGroupIds := Arr([]), SupportingEvidenceGroupIds := Arr([]),
      ForbiddenDocumentIds := Arr([]), ForbiddenModelCodes := Arr([])]
  }

  lemma AbsenceCaseIsRead(product: string)
    requires product != ""
    ensures ReadCase(AbsenceCase(product)) == Success(Contract(product, NONE, NO_EVIDENCE, PGVECTOR_QUERY, [], [], [], []))
  {
    var row := AbsenceCase(product);
    assert ReadPolicy(Get(row, EvidenceMatchPolicy)) == Success(NONE) by {
      assert |"NONE"| == 4 && |"ANY"| == 3 && |"ALL"| == 3;
    }
    assert ReadOutcome(Get(row, ExpectedRetrievalOutcome)) == Success(NO_EVIDENCE) by {
      assert |"NO_EVIDENCE"| != |"EVIDENCE"|;
    }
    forall f | f in {RequiredEvidenceGroupIds, SupportingEvidenceGroupIds, ForbiddenDocumentIds, ForbiddenModelCodes}
      ensures ReadList(row, f) == Success([])
    {
      assert Texts(Get(row, f)) == [];
    }
    hide ReadPolicy, ReadOutcome, ReadList;
  }

  /** A second row whose `chunk` is a number makes the scorer reject a case it scores without that row. */
  lemma MalformedRowPastTopKRejects(product: string, queries: nat)
    requires product != ""
    ensures var ranked: seq<Row> := [map[], map[Chunk := Int(0)]];
            && ScoreCase(AbsenceCase(product), ranked[..1], [], Observation(PGVECTOR_QUERY, queries), 1,
                         DEFAULT_ALLOWED_USE, DEFAULT_VERIFIED).Success?
            && ScoreCase(AbsenceCase(product), ranked, [], Observation(PGVECTOR_QUERY, queries), 1,
                         DEFAULT_ALLOWED_USE, DEFAULT_VERIFIED) == Failure(ChunkNotObject)
  {
    hide ReadCase, ScoreRows, AbsenceCase;
    AbsenceCaseIsRead(product);
    var ranked: seq<Row> := [map[], map[Chunk := Int(0)]];
    assert ranked[..1] == [map[]];
    assert "EXPERIMENT_ONLY" in DEFAULT_ALLOWED_USE && "TEXT_AND_VISUAL_VERIFIED" in DEFAULT_VERIFIED;
    assert CorpusRow(ranked[0]).Success? && CorpusRow(ranked[1]).Failure?;
    assert BuildRegistry([]) == Success(Registry(map[], map[]));
  }

  lemma CoverageOfPermutation(gate: Gate, owner: map<string, string>, wanted: set<string>, rows: seq<Row>,
                              rows': seq<Row>)
    requires multiset(rows) == multiset(rows')
    ensures Covered(MatchedByRank(gate, owner, wanted, rows)) == Covered(MatchedByRank(gate, owner, wanted, rows'))
  {
    CoverageWithin(gate, owner, wanted, rows, rows');
    CoverageWithin(gate, owner, wanted, rows', rows);
  }

  lemma CoverageWithin(gate: Gate, owner: map<string, string>, wanted: set<string>, rows: seq<Row>, rows': seq<Row>)
    requires multiset(rows) == multiset(rows')
    ensures Covered(MatchedByRank(gate, owner, wanted, rows)) <= Covered(MatchedByRank(gate, owner, wanted, rows'))
  {
    PermutationKeepsMembers(rows, rows');
    var byRank, byRank' := MatchedByRank(gate, owner, wanted, rows), MatchedByRank(gate, owner, wanted, rows');
    forall g | g in Covered(byRank)
      ensures g in Covered(byRank')
    {
      var i :| 0 <= i < |byRank| && g in byRank[i];
      assert rows[i] in rows';
      var j :| 0 <= j < |rows'| && rows'[j] == rows[i];
      assert g in byRank'[j];
    }
  }

  /** Reordering rows within topK changes ranks but neither the verdict, the coverage nor any count. */
  lemma OrderWithinTopKIsIrrelevant(contract: Contract, gate: Gate, owner: map<string, string>,
                                    rows: seq<Row>, rows': seq<Row>, observation: Observation, topK: nat)
    requires contract.Valid() && contract.outcome == EVIDENCE
    requires multiset(rows[..Min(topK, |rows|)]) == multiset(rows'[..Min(topK, |rows'|)])
    ensures var score := ScoreRows(contract, gate, owner, rows, observation, topK);
            var score' := ScoreRows(contract, gate, owner, rows', observation, topK);
            && score.passed == score'.passed
            && score.semanticPassed == score'.semanticPassed
            && score.coveredRequired == score'.coveredRequired
            && score.missingRequired == score'.missingRequired
            && score.coveredSupporting == score'.coveredSupporting
            && score.counts == score'.counts
            && score.completionRank.Some? == score'.completionRank.Some?
  {
    var evaluated, evaluated' := rows[..Min(topK, |rows|)], rows'[..Min(topK, |rows'|)];
    CoverageOfPermutation(gate, owner, contract.Required(), evaluated, evaluated');
    CoverageOfPermutation(gate, owner, contract.Supporting(), evaluated, evaluated');
    CountsOfPermutation(gate, evaluated, evaluated');
    VerdictFromCoverage(contract, gate, owner, rows, observation, topK);
    VerdictFromCoverage(contract, gate, owner, rows', observation, topK);
  }

  lemma CountsOfPermutation(gate: Gate, rows: seq<Row>, rows': seq<Row>)
    requires multiset(rows) == multiset(rows')
    ensures CountDefects(gate, rows) == CountDefects(gate, rows')
  {
    forall d
      ensures CountDefect(gate, rows, d) == CountDefect(gate, rows', d)
    {
      CountOfPermutation(row => HasDefect(gate, row, d), rows, rows');
    }
    CountOfPermutation(row => !RowIsValid(gate, row), rows, rows');
  }

  lemma VerdictFromCoverage(contract: Contract, gate: Gate, owner: map<string, string>, rows: seq<Row>,
                            observation: Observation, topK: nat)
    requires contract.Valid() && contract.outcome == EVIDENCE
    ensures var score := ScoreRows(contract, gate, owner, rows, observation, topK);
            var complete := if contract.policy == ANY then score.coveredRequired != {}
                            else contract.Required() <= score.coveredRequired;
            && (score.completionRank.Some? <==> complete)
            && score.semanticPassed == Some(complete)
            && score.passed == (complete && score.executionContractPassed && score.counts.invalidTopK == 0)
  {
    var evaluated := rows[..Min(topK, |rows|)];
    var byRank := MatchedByRank(gate, owner, contract.Required(), evaluated);
    assert byRank[..Min(topK, |byRank|)] == byRank;
    HitIffCompletedInTime(byRank, contract, topK, topK);
  }
}
