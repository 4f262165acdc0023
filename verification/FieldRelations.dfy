/** Relations between JSON fields, written on the items of the values themselves. */
module FieldRelations {
  import opened Collections
  import opened Json

  // ---------------------------------------------------------------- lists of texts

  /** A list whose items are all nonempty strings. */
  ghost predicate TextItems(j: Json) {
    j.Arr? && forall x :: x in j.items ==> x.Str? && x.s != ""
  }

  /** A list of nonempty strings, no two alike. */
  ghost predicate DistinctTexts(j: Json) {
    TextItems(j) && forall a, b :: 0 <= a < b < |j.items| ==> j.items[a] != j.items[b]
  }

  /** The field is a list with this string among its items. */
  ghost predicate Has(row: Row, field: Field, text: string) {
    Get(row, field).Arr? && Str(text) in Get(row, field).items
  }

  lemma TextListMeans(j: Json)
    ensures IsTextList(j) <==> TextItems(j)
  {
    if IsTextList(j) {
      forall x | x in j.items
        ensures x.Str? && x.s != ""
      {
        var i :| 0 <= i < |j.items| && j.items[i] == x;
      }
    }
  }

  lemma TextsMean(j: Json)
    requires IsTextList(j)
    ensures forall text :: text in Texts(j) <==> Str(text) in j.items
    ensures NoDuplicates(Texts(j)) <==> DistinctTexts(j)
  {
    TextListMeans(j);
    var texts := Texts(j);
    forall text
      ensures text in texts <==> Str(text) in j.items
    {
      if text in texts {
        var i :| 0 <= i < |texts| && texts[i] == text;
        assert j.items[i] == Str(text);
      }
      if Str(text) in j.items {
        var i :| 0 <= i < |j.items| && j.items[i] == Str(text);
        assert texts[i] == text;
      }
    }
    if NoDuplicates(texts) {
      forall a, b | 0 <= a < b < |j.items|
        ensures j.items[a] != j.items[b]
      {
        assert texts[a] != texts[b];
      }
    }
    if DistinctTexts(j) {
      forall a, b | 0 <= a < b < |texts|
        ensures texts[a] != texts[b]
      {
        assert j.items[a] != j.items[b];
      }
    }
  }

  lemma MembersMean(j: Json, text: string)
    ensures text in TextMembers(j) <==> j.Arr? && Str(text) in j.items
  {
    if j.Arr? && Str(text) in j.items {
      var i :| 0 <= i < |j.items| && j.items[i] == Str(text);
      assert j.items[i].s == text;
    }
  }

  /** A list that holds the string, or a string that has it as one of its characters. */
  ghost predicate Yields(j: Json, text: string) {
    || (j.Arr? && Str(text) in j.items)
    || (j.Str? && |text| == 1 && text[0] in j.s)
  }

  lemma IterationMeans(j: Json, text: string)
    ensures text in IteratedTexts(j) <==> Yields(j, text)
  {
    MembersMean(j, text);
    if j.Str? && |text| == 1 && text[0] in j.s {
      assert text == [text[0]];
    }
  }

  lemma MemberMeans(j: Json, values: set<string>)
    ensures Member(j, values) <==> exists text :: text in values && j == Str(text)
  {
  }

  // ---------------------------------------------------------------- condition entries

  /** The entries of the condition list; a group without a list has none. */
  ghost function EntriesOf(group: Row): seq<Json> {
    if Get(group, ConsultationConditions).Arr? then Get(group, ConsultationConditions).items else []
  }

  /** The entry is a condition of that id. */
  ghost predicate IsCondition(entry: Json, id: string) {
    entry.Obj? && id != "" && Get(entry.fields, ConditionId) == Str(id)
  }

  ghost predicate NamesCondition(entries: seq<Json>, id: string) {
    exists entry :: entry in entries && IsCondition(entry, id)
  }

  /** No id is that of two entries. */
  ghost predicate ConditionsDiffer(entries: seq<Json>) {
    forall a, b, id :: 0 <= a < b < |entries| && IsCondition(entries[a], id) ==> !IsCondition(entries[b], id)
  }

  lemma NewEntry(rest: seq<Json>, last: Json)
    ensures ConditionsDiffer(rest + [last])
       <==> ConditionsDiffer(rest) && forall id :: IsCondition(last, id) ==> !NamesCondition(rest, id)
  {
    hide IsCondition;
    var entries := rest + [last];
    if ConditionsDiffer(entries) {
      forall a, b, id | 0 <= a < b < |rest| && IsCondition(rest[a], id)
        ensures !IsCondition(rest[b], id)
      {
        assert entries[a] == rest[a] && entries[b] == rest[b];
      }
      forall id, entry | IsCondition(last, id) && entry in rest
        ensures !IsCondition(entry, id)
      {
        var a :| 0 <= a < |rest| && rest[a] == entry;
        assert entries[a] == entry && entries[|rest|] == last;
      }
    }
  }

  // ---------------------------------------------------------------- pages

  /** A list of positive integers; `True` stands for 1. */
  ghost predicate PageItems(j: Json) {
    j.Arr? && forall x :: x in j.items ==> (x.Int? && x.n >= 1) || x == Bool(true)
  }

  ghost predicate HasPage(j: Json, page: int) {
    j.Arr? && (Int(page) in j.items || (page == 1 && Bool(true) in j.items))
  }

  /** Two nonempty page lists, the first without a page the second lacks. */
  ghost predicate PagesWithin(pages: Json, allowed: Json) {
    && PageItems(pages) && pages.items != []
    && PageItems(allowed) && allowed.items != []
    && forall page :: HasPage(pages, page) ==> HasPage(allowed, page)
  }

  lemma PageListMeans(j: Json)
    ensures IsPageList(j) <==> PageItems(j)
  {
    if IsPageList(j) {
      forall x | x in j.items
        ensures (x.Int? && x.n >= 1) || x == Bool(true)
      {
        var i :| 0 <= i < |j.items| && j.items[i] == x;
      }
    }
  }

  lemma PagesMean(j: Json, page: int)
    ensures page in Pages(j) <==> page >= 1 && HasPage(j, page)
  {
    if page in Pages(j) {
      var i :| 0 <= i < |j.items| && IsPage(j.items[i]) && PageNumber(j.items[i]) == page;
      assert j.items[i] in j.items;
    }
    if page >= 1 && HasPage(j, page) {
      var x := if Int(page) in j.items then Int(page) else Bool(true);
      var i :| 0 <= i < |j.items| && j.items[i] == x;
      assert IsPage(j.items[i]) && PageNumber(j.items[i]) == page;
    }
  }

  lemma PagesArePositive(j: Json, page: int)
    requires PageItems(j) && HasPage(j, page)
    ensures page >= 1
  {
  }

  /** Set inclusion of pages, on the items of a page list. */
  lemma PageInclusion(pages: Json, allowed: Json)
    requires PageItems(pages)
    ensures Pages(pages) <= Pages(allowed) <==> forall page :: HasPage(pages, page) ==> HasPage(allowed, page)
  {
    hide Pages, HasPage, PageItems;
    if Pages(pages) <= Pages(allowed) {
      forall page | HasPage(pages, page)
        ensures HasPage(allowed, page)
      {
        PagesArePositive(pages, page);
        PagesMean(pages, page);
        PagesMean(allowed, page);
      }
    }
    if forall page :: HasPage(pages, page) ==> HasPage(allowed, page) {
      forall page | page in Pages(pages)
        ensures page in Pages(allowed)
      {
        PagesMean(pages, page);
        PagesMean(allowed, page);
      }
    }
  }

  // ---------------------------------------------------------------- hashes and the word "child"

  /** Sixty-four hexadecimal digits in either case. */
  ghost predicate IsHash(j: Json) {
    j.Str? && |j.s| == 64 && forall c :: c in j.s ==> c in "0123456789abcdefABCDEF"
  }

  lemma HexDigitMeans(c: char)
    ensures IsHexDigit(c) <==> c in "0123456789abcdefABCDEF"
  {
  }

  lemma HashMeans(j: Json)
    ensures IsSha256(j) <==> IsHash(j)
  {
    hide IsHexDigit;
    forall c
      ensures IsHexDigit(c) <==> c in "0123456789abcdefABCDEF"
    {
      HexDigitMeans(c);
    }
    if IsSha256(j) {
      forall c | c in j.s
        ensures IsHexDigit(c)
      {
        var i :| 0 <= i < |j.s| && j.s[i] == c;
      }
    }
  }

  /** The five letters of "child", each in either case. */
  ghost predicate SaysChild(j: Json) {
    && j.Str? && |j.s| == 5
    && j.s[0] in "cC" && j.s[1] in "hH" && j.s[2] in "iI" && j.s[3] in "lL" && j.s[4] in "dD"
  }

  lemma {:induction false} UpperEntry(s: string, i: nat)
    ensures |Upper(s)| == |s|
    ensures i < |s| ==> Upper(s)[i] == UpperChar(s[i])
  {
    if s != "" {
      UpperEntry(s[1..], if i > 0 then i - 1 else 0);
    }
  }

  lemma ChildWordMeans(j: Json)
    ensures NamesChild(j) <==> SaysChild(j)
  {
    if j.Str? {
      UpperEntry(j.s, 0);
      UpperEntry(j.s, 1);
      UpperEntry(j.s, 2);
      UpperEntry(j.s, 3);
      UpperEntry(j.s, 4);
      hide Upper;
      if |j.s| == 5 {
        assert NamesChild(j) <==>
          Upper(j.s)[0] == 'C' && Upper(j.s)[1] == 'H' && Upper(j.s)[2] == 'I' && Upper(j.s)[3] == 'L' && Upper(j.s)[4] == 'D';
      }
    }
  }
}
