/** The canonical bytes of a text artifact: CRLF, then CR, become LF. */
module LineEndings {

  newtype Byte = x: int | 0 <= x < 256

  const LF: Byte := 10
  const CR: Byte := 13

  /** `payload.replace(b"\r\n", b"\n")`. */
  function ReplaceCrLf(payload: seq<Byte>): seq<Byte> {
    if payload == [] then []
    else if |payload| >= 2 && payload[0] == CR && payload[1] == LF then [LF] + ReplaceCrLf(payload[2..])
    else [payload[0]] + ReplaceCrLf(payload[1..])
  }

  /** `payload.replace(b"\r", b"\n")`. */
  function ReplaceCr(payload: seq<Byte>): seq<Byte> {
    if payload == [] then [] else [if payload[0] == CR then LF else payload[0]] + ReplaceCr(payload[1..])
  }

  /** Only JSON and YAML files are rewritten. */
  function CanonicalBytes(isText: bool, payload: seq<Byte>): (canonical: seq<Byte>)
    ensures !isText ==> canonical == payload
  {
    if isText then ReplaceCr(ReplaceCrLf(payload)) else payload
  }

  /** One pass from left to right: a CR, with the LF after it if there is one, is a line break. */
  function Normalise(payload: seq<Byte>): seq<Byte> {
    if payload == [] then []
    else if payload[0] == CR then
      [LF] + Normalise(if |payload| >= 2 && payload[1] == LF then payload[2..] else payload[1..])
    else [payload[0]] + Normalise(payload[1..])
  }

  /** The two replacements are the single pass. */
  lemma {:induction false} TwoPassesAreOne(payload: seq<Byte>)
    ensures CanonicalBytes(true, payload) == Normalise(payload)
  {
    if payload != [] {
      var rest := if |payload| >= 2 && payload[0] == CR && payload[1] == LF then payload[2..] else payload[1..];
      TwoPassesAreOne(rest);
      var first := if |payload| >= 2 && payload[0] == CR && payload[1] == LF then LF else payload[0];
      assert ([first] + ReplaceCrLf(rest))[1..] == ReplaceCrLf(rest);
    }
  }

  /** A canonical text holds no CR and is its own canonical form. */
  lemma {:induction false} CanonicalHasNoCr(payload: seq<Byte>)
    ensures CR !in CanonicalBytes(true, payload)
  {
    TwoPassesAreOne(payload);
    if payload != [] {
      var rest := if |payload| >= 2 && payload[0] == CR && payload[1] == LF then payload[2..] else payload[1..];
      CanonicalHasNoCr(rest);
      TwoPassesAreOne(rest);
    }
  }

  lemma {:induction false} CrFreeIsFixed(text: seq<Byte>)
    requires CR !in text
    ensures CanonicalBytes(true, text) == text
  {
    TwoPassesAreOne(text);
    if text != [] {
      CrFreeIsFixed(text[1..]);
      TwoPassesAreOne(text[1..]);
    }
  }

  lemma CanonicalIsIdempotent(isText: bool, payload: seq<Byte>)
    ensures CanonicalBytes(isText, CanonicalBytes(isText, payload)) == CanonicalBytes(isText, payload)
  {
    if isText {
      CanonicalHasNoCr(payload);
      CrFreeIsFixed(CanonicalBytes(true, payload));
    }
  }

  // ---------------------------------------------------------------- re-encoded line breaks

  datatype Break = AsLf | AsCrLf | AsCr

  function Coded(code: Break): seq<Byte> {
    match code
    case AsLf => [LF]
    case AsCrLf => [CR, LF]
    case AsCr => [CR]
  }

  /** The text with the line break at every position written as the code for that position says. */
  function Encode(text: seq<Byte>, codes: seq<Break>): seq<Byte>
    requires |codes| == |text|
  {
    if text == [] then []
    else (if text[0] == LF then Coded(codes[0]) else [text[0]]) + Encode(text[1..], codes[1..])
  }

  /** A break written CR directly before a break written LF: together they read as one. */
  predicate Merges(text: seq<Byte>, codes: seq<Break>, i: nat)
    requires |codes| == |text|
  {
    i + 1 < |text| && text[i] == LF && text[i + 1] == LF && codes[i] == AsCr && codes[i + 1] == AsLf
  }

  function Merged(text: seq<Byte>, codes: seq<Break>): nat
    requires |codes| == |text|
  {
    if text == [] then 0
    else (if Merges(text, codes, 0) then 1 else 0) + Merged(text[1..], codes[1..])
  }

  lemma {:induction false} MergedIsZeroIff(text: seq<Byte>, codes: seq<Break>)
    requires |codes| == |text|
    ensures Merged(text, codes) == 0 <==> forall i: nat :: i + 1 < |text| ==> !Merges(text, codes, i)
  {
    if text != [] {
      var rest, restCodes := text[1..], codes[1..];
      MergedIsZeroIff(rest, restCodes);
      assert forall i: nat :: i + 1 < |rest| ==> Merges(rest, restCodes, i) == Merges(text, codes, i + 1);
      if forall i: nat :: i + 1 < |rest| ==> !Merges(rest, restCodes, i) {
        if !Merges(text, codes, 0) {
          forall i: nat | i + 1 < |text|
            ensures !Merges(text, codes, i)
          {
            if i > 0 {
              assert !Merges(rest, restCodes, i - 1);
            }
          }
        }
      }
    }
  }

  lemma NormaliseLeading(first: Byte, rest: seq<Byte>)
    ensures first != CR ==> Normalise([first] + rest) == [first] + Normalise(rest)
    ensures first == CR && (rest == [] || rest[0] != LF) ==> Normalise([first] + rest) == [LF] + Normalise(rest)
    ensures first == CR && rest != [] && rest[0] == LF ==> Normalise([first] + rest) == [LF] + Normalise(rest[1..])
  {
    assert ([first] + rest)[1..] == rest;
    if first == CR && rest != [] && rest[0] == LF {
      assert ([first] + rest)[2..] == rest[1..];
    }
  }

  /** What a re-encoding reads back as: every merge loses one line break, and nothing else changes. */
  lemma {:induction false} ReadBackLosesMerges(text: seq<Byte>, codes: seq<Break>)
    requires |codes| == |text| && CR !in text
    ensures |Normalise(Encode(text, codes))| + Merged(text, codes) == |text|
    ensures Merged(text, codes) == 0 ==> Normalise(Encode(text, codes)) == text
  {
    if text != [] {
      var rest := Encode(text[1..], codes[1..]);
      ReadBackLosesMerges(text[1..], codes[1..]);
      StartsWithLfIff(text[1..], codes[1..]);
      if text[0] != LF {
        NormaliseLeading(text[0], rest);
      } else {
        match codes[0]
        case AsLf =>
          NormaliseLeading(LF, rest);
        case AsCrLf =>
          NormaliseLeading(CR, [LF] + rest);
          assert [CR, LF] + rest == [CR] + ([LF] + rest);
        case AsCr =>
          NormaliseLeading(CR, rest);
          if rest != [] && rest[0] == LF {
            NormaliseLeading(LF, rest[1..]);
            assert rest == [LF] + rest[1..];
          }
      }
    }
  }

  lemma StartsWithLfIff(text: seq<Byte>, codes: seq<Break>)
    requires |codes| == |text|
    ensures var encoded := Encode(text, codes);
            (encoded != [] && encoded[0] == LF) <==> (text != [] && text[0] == LF && codes[0] == AsLf)
  {
  }

  /** A re-encoding has the text as its canonical form exactly when no CR break stands directly before an LF break. */
  lemma ReencodingReadsBackIff(text: seq<Byte>, codes: seq<Break>)
    requires |codes| == |text| && CR !in text
    ensures CanonicalBytes(true, Encode(text, codes)) == text
            <==> forall i: nat :: i + 1 < |text| ==> !Merges(text, codes, i)
  {
    TwoPassesAreOne(Encode(text, codes));
    ReadBackLosesMerges(text, codes);
    MergedIsZeroIff(text, codes);
  }

  /** One convention throughout, CRLF, CR or LF, always reads back. */
  lemma UniformReencodingReadsBack(text: seq<Byte>, code: Break)
    requires CR !in text
    ensures CanonicalBytes(true, Encode(text, seq(|text|, i => code))) == text
  {
    var codes := seq(|text|, i => code);
    ReencodingReadsBackIff(text, codes);
  }

  /** Two empty lines coded CR and LF come back as one. */
  lemma MixedReencodingCanLoseALine()
    ensures Encode([LF, LF], [AsCr, AsLf]) == [CR, LF]
    ensures CanonicalBytes(true, [CR, LF]) == [LF]
  {
    assert [LF, LF][1..] == [LF] && [AsCr, AsLf][1..] == [AsLf];
    assert [LF][1..] == [] && [AsLf][1..] == [];
    assert Encode([LF], [AsLf]) == [LF];
    TwoPassesAreOne([CR, LF]);
    NormaliseLeading(CR, [LF]);
    assert [CR, LF] == [CR] + [LF];
  }
}
