/** Which cases, registries and rankings the v2 scorer accepts, in terms of their fields. */
module AdmissionMeaning {
  import opened Collections
  import opened Json
  import opened FieldRelations
  import opened Scoring
  import opened ScoringTheorems

  // ---------------------------------------------------------------- the case

  /** The field is this list of distinct nonempty texts. */
  ghost predicate Lists(row: Row, field: Field, texts: seq<string>) {
    && DistinctTexts(Get(row, field)) && |Get(row, field).items| == |texts|
    && forall i :: 0 <= i < |texts| ==> Get(row, field).items[i] == Str(texts[i])
  }

  /** The row states the contract, field by field. */
  ghost predicate States(row: Row, c: Contract) {
    && c.product != "" && Get(row, ProductModelCode) == Str(c.product)
    && Get(row, EvidenceMatchPolicy) == Str(match c.policy case ANY => "ANY" case ALL => "ALL" case NONE => "NONE")
    && Get(row, ExpectedRetrievalOutcome) == Str(match c.outcome case EVIDENCE => "EVIDENCE" case NO_EVIDENCE => "NO_EVIDENCE")
    && c.expectedPath != "" && Get(row, ExpectedExecutionPath) == Str(c.expectedPath)
    && Lists(row, RequiredEvidenceGroupIds, c.required) && Lists(row, SupportingEvidenceGroupIds, c.supporting)
    && Lists(row, ForbiddenDocumentIds, c.forbiddenDocuments) && Lists(row, ForbiddenModelCodes, c.forbiddenModels)
  }

  /** The outcome's own rules: evidence is searched for in required groups, its absence lists no group. */
  ghost predicate FitsOutcome(c: Contract) {
    && (forall g :: g in c.required ==> g !in c.supporting)
    && (c.outcome == EVIDENCE ==>
          c.expectedPath == "PGVECTOR_QUERY" && c.policy in {ANY, ALL} && c.required != [])
    && (c.outcome == NO_EVIDENCE ==>
          && c.policy == NONE && c.required == [] && c.supporting == []
          && (c.expectedPath == "PGVECTOR_QUERY" || c.expectedPath in POLICY_BLOCK_PATHS))
  }

  lemma ListMeans(row: Row, field: Field, texts: seq<string>)
    ensures ReadList(row, field) == Success(texts) <==> Lists(row, field, texts)
  {
    var j := Get(row, field);
    TextListMeans(j);
    if IsTextList(j) {
      TextsMean(j);
      if Lists(row, field, texts) {
        assert Texts(j) == texts;
      }
    }
  }

  lemma TextMeans(value: Json, error: ScoringError, text: string)
    ensures ReadText(value, error) == Success(text) <==> value == Str(text) && text != ""
  {
  }

  lemma PolicyMeans(value: Json, policy: Policy)
    ensures ReadPolicy(value) == Success(policy)
       <==> value == Str(match policy case ANY => "ANY" case ALL => "ALL" case NONE => "NONE")
  {
    assert "ANY"[1] == 'N' && "ALL"[1] == 'L' && "NONE"[0] == 'N';
  }

  lemma OutcomeMeans(value: Json, outcome: Outcome)
    ensures ReadOutcome(value) == Success(outcome)
       <==> value == Str(match outcome case EVIDENCE => "EVIDENCE" case NO_EVIDENCE => "NO_EVIDENCE")
  {
    assert "EVIDENCE"[0] == 'E' && "NO_EVIDENCE"[0] == 'N';
  }

  lemma StatesMeans(row: Row, c: Contract)
    ensures States(row, c) <==>
            && ReadText(Get(row, ProductModelCode), ProductMissing) == Success(c.product)
            && ReadPolicy(Get(row, EvidenceMatchPolicy)) == Success(c.policy)
            && ReadOutcome(Get(row, ExpectedRetrievalOutcome)) == Success(c.outcome)
            && ReadText(Get(row, ExpectedExecutionPath), ExpectedPathMissing) == Success(c.expectedPath)
            && ReadList(row, RequiredEvidenceGroupIds) == Success(c.required)
            && ReadList(row, SupportingEvidenceGroupIds) == Success(c.supporting)
            && ReadList(row, ForbiddenDocumentIds) == Success(c.forbiddenDocuments)
            && ReadList(row, ForbiddenModelCodes) == Success(c.forbiddenModels)
  {
    TextMeans(Get(row, ProductModelCode), ProductMissing, c.product);
    PolicyMeans(Get(row, EvidenceMatchPolicy), c.policy);
    OutcomeMeans(Get(row, ExpectedRetrievalOutcome), c.outcome);
    TextMeans(Get(row, ExpectedExecutionPath), ExpectedPathMissing, c.expectedPath);
    ListMeans(row, RequiredEvidenceGroupIds, c.required);
    ListMeans(row, SupportingEvidenceGroupIds, c.supporting);
    ListMeans(row, ForbiddenDocumentIds, c.forbiddenDocuments);
    ListMeans(row, ForbiddenModelCodes, c.forbiddenModels);
    hide ReadText, ReadPolicy, ReadOutcome, ReadList, Lists, Get;
  }

  lemma RolesMean(a: seq<string>, b: seq<string>)
    ensures ToSet(a) !! ToSet(b) <==> forall g :: g in a ==> g !in b
  {
    if ToSet(a) !! ToSet(b) {
      DisjointMembers(a, b);
    }
    if forall g :: g in a ==> g !in b {
      forall g | g in ToSet(a)
        ensures g !in ToSet(b)
      {
      }
    }
  }

  /** A case is read as a contract exactly when it states it and the contract fits its outcome. */
  lemma CaseMeans(row: Row, c: Contract)
    ensures ReadCase(row) == Success(c) <==> States(row, c) && FitsOutcome(c)
  {
    hide ReadText, ReadPolicy, ReadOutcome, ReadList, Lists, Get, States;
    StatesMeans(row, c);
    RolesMean(c.required, c.supporting);
  }

  // ---------------------------------------------------------------- the registry

  /** The entry is the group of that id: the id it carries, or the key it is filed under when it carries none. */
  ghost predicate IsGroup(entry: Entry, g: string) {
    && g != ""
    && (Get(entry.row, EvidenceGroupId) == Str(g) || (Get(entry.row, EvidenceGroupId) == Null && entry.key == Some(g)))
  }

  /** A named group whose key, if any, is its id, with a nonempty list of distinct children. */
  ghost predicate EntryIsSound(entry: Entry) {
    && (exists g :: IsGroup(entry, g) && (entry.key.None? || entry.key == Some(g)))
    && DistinctTexts(Get(entry.row, ChildIds)) && Get(entry.row, ChildIds).items != []
  }

  /** Sound entries, no two with one id or a common child. */
  ghost predicate RegistryIsSound(entries: seq<Entry>) {
    && (forall entry :: entry in entries ==> EntryIsSound(entry))
    && (forall i, j, g :: 0 <= i < j < |entries| && IsGroup(entries[i], g) ==> !IsGroup(entries[j], g))
    && (forall i, j, c :: 0 <= i < j < |entries| && Has(entries[i].row, ChildIds, c) ==> !Has(entries[j].row, ChildIds, c))
  }

  ghost predicate IsGroupRow(entries: seq<Entry>, g: string, row: Row) {
    exists entry :: entry in entries && IsGroup(entry, g) && entry.row == row
  }

  ghost predicate IsGroupOf(entries: seq<Entry>, g: string, c: string) {
    exists entry :: entry in entries && IsGroup(entry, g) && Has(entry.row, ChildIds, c)
  }

  /** The registry finds each group's row and each child's group, and nothing else. */
  ghost predicate Finds(registry: Registry, entries: seq<Entry>) {
    && (forall g, row :: g in registry.groups && registry.groups[g] == row <==> IsGroupRow(entries, g, row))
    && (forall c, g :: c in registry.owner && registry.owner[c] == g <==> IsGroupOf(entries, g, c))
  }

  lemma EntryIdMeans(entry: Entry, g: string)
    ensures g != "" ==> (EntryId(entry) == Str(g) <==> IsGroup(entry, g))
  {
  }

  lemma EntryMeans(entry: Entry)
    ensures EntryOk(entry) && entry.key != Some("") <==> EntryIsSound(entry)
  {
    var id := EntryId(entry);
    if id.Str? {
      EntryIdMeans(entry, id.s);
    }
    TextListMeans(Get(entry.row, ChildIds));
    if IsTextList(Get(entry.row, ChildIds)) {
      TextsMean(Get(entry.row, ChildIds));
    }
  }

  lemma ChildrenMean(entry: Entry, c: string)
    ensures c in EntryChildren(entry) <==> Has(entry.row, ChildIds, c)
  {
    MembersMean(Get(entry.row, ChildIds), c);
  }

  lemma PairMeans(a: Entry, b: Entry)
    requires EntryIsSound(a) && EntryIsSound(b)
    ensures EntryId(a) != EntryId(b) <==> forall g :: IsGroup(a, g) ==> !IsGroup(b, g)
    ensures EntryChildren(a) !! EntryChildren(b) <==> forall c :: Has(a.row, ChildIds, c) ==> !Has(b.row, ChildIds, c)
  {
    var g :| IsGroup(a, g);
    var h :| IsGroup(b, h);
    EntryIdMeans(a, g);
    EntryIdMeans(b, h);
    forall x
      ensures IsGroup(a, x) <==> x == g
      ensures IsGroup(b, x) <==> x == h
    {
      if x != "" {
        EntryIdMeans(a, x);
        EntryIdMeans(b, x);
      }
    }
    hide IsGroup, EntryId, EntryChildren, Has;
    forall c
      ensures c in EntryChildren(a) <==> Has(a.row, ChildIds, c)
      ensures c in EntryChildren(b) <==> Has(b.row, ChildIds, c)
    {
      ChildrenMean(a, c);
      ChildrenMean(b, c);
    }
  }

  lemma SoundIsOk(entries: seq<Entry>)
    ensures KeysAreText(entries) && RegistryOk(entries) <==> RegistryIsSound(entries)
  {
    hide EntryOk, EntryIsSound, EntryId, EntryChildren, IsGroup, Has;
    forall entry
      ensures EntryOk(entry) && entry.key != Some("") <==> EntryIsSound(entry)
    {
      EntryMeans(entry);
    }
    assert (forall entry :: entry in entries ==> EntryIsSound(entry))
      <==> (forall i :: 0 <= i < |entries| ==> EntryIsSound(entries[i]));
    if forall entry :: entry in entries ==> EntryIsSound(entry) {
      forall i, j | 0 <= i < j < |entries|
        ensures EntryId(entries[i]) != EntryId(entries[j])
           <==> forall g :: IsGroup(entries[i], g) ==> !IsGroup(entries[j], g)
        ensures EntryChildren(entries[i]) !! EntryChildren(entries[j])
           <==> forall c :: Has(entries[i].row, ChildIds, c) ==> !Has(entries[j].row, ChildIds, c)
      {
        PairMeans(entries[i], entries[j]);
      }
    }
  }

  lemma IndexesFind(registry: Registry, entries: seq<Entry>)
    requires Indexes(registry, entries) && RegistryIsSound(entries)
    ensures Finds(registry, entries)
  {
    hide RegistryIsSound;
    forall i, g | 0 <= i < |entries|
      ensures Names(entries, i, g) <==> IsGroup(entries[i], g)
    {
      SoundName(entries, i, g);
    }
    forall i, c | 0 <= i < |entries|
      ensures Holds(entries, i, c) <==> Has(entries[i].row, ChildIds, c)
    {
      ChildrenMean(entries[i], c);
    }
    hide IsGroup, Has, EntryId, EntryChildren;
    forall g, row
      ensures g in registry.groups && registry.groups[g] == row <==> IsGroupRow(entries, g, row)
    {
      if g in registry.groups {
        var i :| Names(entries, i, g);
        assert IsGroup(entries[i], g);
      }
      if entry :| entry in entries && IsGroup(entry, g) && entry.row == row {
        var i :| 0 <= i < |entries| && entries[i] == entry;
        assert Names(entries, i, g);
      }
    }
    forall c, g
      ensures c in registry.owner && registry.owner[c] == g <==> IsGroupOf(entries, g, c)
    {
      OwnerIsFound(registry, entries, c, g);
    }
  }

  lemma SoundName(entries: seq<Entry>, i: nat, g: string)
    requires i < |entries| && RegistryIsSound(entries)
    ensures Names(entries, i, g) <==> IsGroup(entries[i], g)
  {
    assert EntryIsSound(entries[i]);
    EntryMeans(entries[i]);
    EntryIdMeans(entries[i], g);
  }

  lemma OwnerIsFound(registry: Registry, entries: seq<Entry>, c: string, g: string)
    requires Indexes(registry, entries)
    requires forall i, g :: 0 <= i < |entries| ==> (Names(entries, i, g) <==> IsGroup(entries[i], g))
    requires forall i, c :: 0 <= i < |entries| ==> (Holds(entries, i, c) <==> Has(entries[i].row, ChildIds, c))
    ensures c in registry.owner && registry.owner[c] == g <==> IsGroupOf(entries, g, c)
  {
    hide IsGroup, Has, EntryChildren;
    if c in registry.owner {
      var i :| Holds(entries, i, c);
      assert Names(entries, i, registry.owner[c]);
      assert entries[i] in entries && IsGroup(entries[i], registry.owner[c]);
    }
    if entry :| entry in entries && IsGroup(entry, g) && Has(entry.row, ChildIds, c) {
      var i :| 0 <= i < |entries| && entries[i] == entry;
      assert Holds(entries, i, c) && Names(entries, i, g) && Names(entries, i, registry.owner[c]);
    }
  }

  /** The registry is built exactly when it is sound, and then it finds every group and every child. */
  lemma RegistryMeans(entries: seq<Entry>)
    ensures BuildRegistry(entries).Success? <==> RegistryIsSound(entries)
    ensures BuildRegistry(entries).Success? ==> Finds(BuildRegistry(entries).value, entries)
  {
    hide BuildRegistry, RegistryOk, KeysAreText, RegistryIsSound, Indexes, Finds;
    RegistryAcceptedIff(entries);
    SoundIsOk(entries);
    if BuildRegistry(entries).Success? {
      IndexesFind(BuildRegistry(entries).value, entries);
    }
  }

  // ---------------------------------------------------------------- admission

  /** The corpus row of a ranked result: the object under `chunk`, or the result itself without one. */
  ghost predicate Unwraps(result: Row, row: Row) {
    Get(result, Chunk) == Obj(row) || (Get(result, Chunk) == Null && result == row)
  }

  /** The registry has the group, and it is of the case's product. */
  ghost predicate IsOffered(entries: seq<Entry>, c: Contract, g: string) {
    exists row :: IsGroupRow(entries, g, row) && Get(row, ExactSalesCode) == Str(c.product)
  }

  lemma OfferedMeans(registry: Registry, entries: seq<Entry>, c: Contract, g: string)
    requires Finds(registry, entries)
    ensures IsOffered(entries, c, g)
       <==> g in registry.groups && Get(registry.groups[g], ExactSalesCode) == Str(c.product)
  {
    hide IsGroupRow, IsGroupOf, Get;
  }

  lemma AdmitMeans(c: Contract, entries: seq<Entry>)
    ensures Admit(c, entries).Success?
       <==> RegistryIsSound(entries) && forall g :: g in c.required || g in c.supporting ==> IsOffered(entries, c, g)
    ensures Admit(c, entries).Success? ==> Admit(c, entries) == BuildRegistry(entries)
  {
    hide RegistryIsSound, BuildRegistry, Finds, IsOffered, Get;
    RegistryMeans(entries);
    if BuildRegistry(entries).Success? {
      var registry := BuildRegistry(entries).value;
      forall g
        ensures IsOffered(entries, c, g)
           <==> g in registry.groups && Get(registry.groups[g], ExactSalesCode) == Str(c.product)
      {
        OfferedMeans(registry, entries, c, g);
      }
      assert forall g :: g in c.Expected() <==> g in c.required || g in c.supporting;
    }
  }

  lemma RowsMean(ranked: seq<Row>)
    ensures ChunksAreObjects(ranked) <==> forall result :: result in ranked ==> exists row :: Unwraps(result, row)
    ensures ChunksAreObjects(ranked) ==> forall i :: 0 <= i < |ranked| ==> Unwraps(ranked[i], CorpusRows(ranked)[i])
  {
    hide Get;
    forall result
      ensures CorpusRow(result).Success? <==> exists row :: Unwraps(result, row)
    {
      if CorpusRow(result).Success? {
        assert Unwraps(result, CorpusRow(result).value);
      }
    }
    hide Unwraps, CorpusRow;
    assert ChunksAreObjects(ranked) <==> forall result :: result in ranked ==> CorpusRow(result).Success?;
  }

  /** A case is scored exactly when the call, the case, the registry and the ranked rows are well formed and the
      registry offers every group the case names. */
  lemma ScoredIff(row: Row, ranked: seq<Row>, entries: seq<Entry>, observation: Observation, topK: int,
                  allowedUse: set<string>, verified: set<string>)
    ensures ScoreCase(row, ranked, entries, observation, topK, allowedUse, verified).Success? <==>
            && topK >= 1 && observation.queries >= 0 && observation.path != ""
            && allowedUse != {} && verified != {}
            && RegistryIsSound(entries)
            && (forall result :: result in ranked ==> exists corpus :: Unwraps(result, corpus))
            && exists c :: States(row, c) && FitsOutcome(c)
                           && forall g :: g in c.required || g in c.supporting ==> IsOffered(entries, c, g)
  {
    hide ReadCase, RegistryIsSound, Admit, ScoreRows, ChunksAreObjects, Unwraps, States, FitsOutcome, IsOffered;
    RowsMean(ranked);
    forall c
      ensures ReadCase(row) == Success(c) <==> States(row, c) && FitsOutcome(c)
    {
      CaseMeans(row, c);
    }
    if ReadCase(row).Success? {
      AdmitMeans(ReadCase(row).value, entries);
    }
  }
}
