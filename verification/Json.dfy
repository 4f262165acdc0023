/** Decoded JSON values and the type tests the Python code applies to them. */
module Json {
  import opened Collections

  /** The keys the modelled code reads; every other key is `Other`. */
  datatype Field =
    | CaseId
    | EvaluationStatus
    | ProductModelCode
    | ExpectedRetrievalOutcome
    | ExpectedExecutionPath
    | EvidenceMatchPolicy
    | RequiredEvidenceGroupIds
    | SupportingEvidenceGroupIds
    | ForbiddenDocumentIds
    | ForbiddenModelCodes
    | ConsultationConditionIds
    | EvidenceGroupId
    | EvidenceGroupIds
    | EvidenceUnitIds
    | ExactSalesCode
    | DocumentId
    | PageRefs
    | ChildIds
    | SourceVariantIds
    | SourceVariantId
    | ConsultationConditions
    | ConditionId
    | TriggerType
    | ConditionSemanticsCode
    | SourceConditionSha256
    | GoldPendingBasisCode
    | GoldMetBasisCode
    | ReviewStatus
    | SourceChildIds
    | SourcePageRefs
    | ChildId
    | ChunkId
    | SourceRecordId
    | RecordType
    | RetrievalRole
    | AllowedUse
    | VerificationStatus
    | SourceVerificationStatus
    | SourceFileSha256
    | ChildTextSha256
    | TextSha256
    | Chunk
    | Other(name: string)

  /** The execution paths of a policy block. */
  const POLICY_BLOCK_PATHS := {
    "POLICY_BLOCK_PRODUCT_MISMATCH",
    "POLICY_BLOCK_UNSUPPORTED_MODEL",
    "POLICY_BLOCK_UNSUPPORTED_CAPABILITY",
    "POLICY_BLOCK_OUT_OF_MANUAL_SCOPE",
    "POLICY_BLOCK_UNVERIFIED_SOURCE"
  }

  datatype Json =
    | Null
    | Bool(b: bool)
    | Int(n: int)
    | Float(r: real)
    | Str(s: string)
    | Arr(items: seq<Json>)
    | Obj(fields: map<Field, Json>)

  type Row = map<Field, Json>

  /** `row.get(field)`: a missing field and an explicit null read the same. */
  function Get(row: Row, field: Field): Json {
    if field in row then row[field] else Null
  }

  /** A nonempty string, the identifier test used throughout. */
  predicate IsText(j: Json) {
    j.Str? && j.s != ""
  }

  predicate IsTextList(j: Json) {
    j.Arr? && forall i :: 0 <= i < |j.items| ==> IsText(j.items[i])
  }

  function Texts(j: Json): (texts: seq<string>)
    requires IsTextList(j)
    ensures |texts| == |j.items|
    ensures forall i :: 0 <= i < |texts| ==> j.items[i] == Str(texts[i]) && texts[i] != ""
  {
    seq(|j.items|, i requires 0 <= i < |j.items| => j.items[i].s)
  }

  /** The string members of a list, whatever else it holds. */
  function TextMembers(j: Json): set<string> {
    if j.Arr? then set i | 0 <= i < |j.items| && j.items[i].Str? :: j.items[i].s else {}
  }

  lemma TextMembersOfList(j: Json)
    requires IsTextList(j)
    ensures TextMembers(j) == ToSet(Texts(j))
  {
    forall s
      ensures s in TextMembers(j) <==> s in ToSet(Texts(j))
    {
      if s in TextMembers(j) {
        var i :| 0 <= i < |j.items| && j.items[i].Str? && j.items[i].s == s;
        assert Texts(j)[i] == s;
      }
      if s in ToSet(Texts(j)) {
        var i :| 0 <= i < |Texts(j)| && Texts(j)[i] == s;
        assert j.items[i].s == s;
      }
    }
  }

  /** Python booleans are integers, so `True` is page 1. */
  predicate IsPage(j: Json) {
    (j.Int? && j.n >= 1) || (j.Bool? && j.b)
  }

  function PageNumber(j: Json): int
    requires IsPage(j)
  {
    if j.Int? then j.n else 1
  }

  predicate IsPageList(j: Json) {
    j.Arr? && forall i :: 0 <= i < |j.items| ==> IsPage(j.items[i])
  }

  /** The pages named by a list; entries that are not pages name none. */
  function Pages(j: Json): set<int> {
    if j.Arr? then set i | 0 <= i < |j.items| && IsPage(j.items[i]) :: PageNumber(j.items[i]) else {}
  }

  /** ASCII upper-casing. */
  function UpperChar(c: char): char {
    if 'a' <= c <= 'z' then (c as int - 32) as char else c
  }

  function Upper(s: string): string {
    if s == "" then "" else [UpperChar(s[0])] + Upper(s[1..])
  }

  /** `str(value).upper() == "CHILD"`, equivalently `str(value).lower() == "child"`. */
  predicate NamesChild(j: Json) {
    j.Str? && Upper(j.s) == "CHILD"
  }

  /** The strings met when iterating a value: a list's members, or a string's characters. */
  function IteratedTexts(j: Json): set<string> {
    match j
    case Arr(_) => TextMembers(j)
    case Str(s) => set c | c in s :: [c]
    case _ => {}
  }

  /** Membership of a JSON value in a set of strings. */
  predicate Member(value: Json, values: set<string>) {
    value.Str? && value.s in values
  }

  predicate IsHexDigit(c: char) {
    '0' <= c <= '9' || 'A' <= c <= 'F' || 'a' <= c <= 'f'
  }

  predicate IsSha256(j: Json) {
    j.Str? && |j.s| == 64 && forall i :: 0 <= i < |j.s| ==> IsHexDigit(j.s[i])
  }
}
