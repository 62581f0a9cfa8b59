/** Pinned byte signatures: parsing a release, printing the stored pattern, reading it back and matching headers. */
module Signature {
  import opened Prelude

  datatype Json =
    | Null
    | Bool(flag: bool)
    | Int(number: int)
    | Float(amount: real)
    | Str(text: string)
    | Arr(items: seq<Json>)
    | Obj(fields: map<string, Json>)

  const MAX_SEQUENCE: int := 4096
  const WINDOW: int := 1_048_576

  datatype Sequence = Sequence(offset: nat, value: Bytes)

  datatype Definition = Definition(identifier: string, priority: nat, sequences: seq<Sequence>)

  // ------------------------------------------------------------------ hexadecimal

  const DIGITS := "0123456789abcdef"

  function DigitOf(c: char): Option<nat> {
    if '0' <= c <= '9' then Some(c as int - '0' as int)
    else if 'a' <= c <= 'f' then Some(c as int - 'a' as int + 10)
    else if 'A' <= c <= 'F' then Some(c as int - 'A' as int + 10)
    else None
  }

  predicate IsSpace(c: char) {
    c == ' ' || c == '\t' || c == '\n' || c == '\r' || c == 0x0B as char || c == 0x0C as char
  }

  /** `bytes.hex()`. */
  function ToHex(value: Bytes): string {
    if value == [] then ""
    else [DIGITS[value[0] as int / 16], DIGITS[value[0] as int % 16]] + ToHex(value[1..])
  }

  /** `bytes.fromhex()`: pairs of digits in either case, white space allowed between pairs. */
  function FromHex(text: string): Option<Bytes> {
    if text == "" then Some([])
    else if IsSpace(text[0]) then FromHex(text[1..])
    else if |text| < 2 || DigitOf(text[0]).None? || DigitOf(text[1]).None? then None
    else
      var rest := FromHex(text[2..]);
      if rest.None? then None
      else Some([PairOf(DigitOf(text[0]).value, DigitOf(text[1]).value)] + rest.value)
  }

  function PairOf(high: nat, low: nat): Byte {
    if high < 16 && low < 16 then (16 * high + low) as Byte else 0
  }

  /** The strings the release parser lets through: lower-case digits, in pairs, at least one. */
  predicate NormalizedHex(text: string) {
    |text| > 0 && |text| % 2 == 0 && LowerDigits(text)
  }

  lemma DigitsRoundTrip(n: nat)
    requires n < 16
    ensures DigitOf(DIGITS[n]) == Some(n) && !IsSpace(DIGITS[n])
    ensures '0' <= DIGITS[n] <= '9' || 'a' <= DIGITS[n] <= 'f'
  {
  }

  lemma ReadsPair(high: char, low: char, rest: string)
    requires !IsSpace(high) && DigitOf(high).Some? && DigitOf(low).Some? && FromHex(rest).Some?
    ensures FromHex([high, low] + rest) == Some([PairOf(DigitOf(high).value, DigitOf(low).value)] + FromHex(rest).value)
  {
    assert ([high, low] + rest)[2..] == rest;
  }

  lemma SplitByte(b: Byte)
    ensures var n := b as int; n / 16 < 16 && PairOf(n / 16, n % 16) == b
  {
  }

  lemma {:induction false} HexRoundTrips(value: Bytes)
    ensures FromHex(ToHex(value)) == Some(value)
    decreases value
  {
    if value != [] {
      var n := value[0] as int;
      HexRoundTrips(value[1..]);
      DigitsRoundTrip(n / 16);
      DigitsRoundTrip(n % 16);
      SplitByte(value[0]);
      ReadsPair(DIGITS[n / 16], DIGITS[n % 16], ToHex(value[1..]));
      assert value == [value[0]] + value[1..];
    }
  }

  predicate LowerDigits(text: string) {
    forall k | 0 <= k < |text| :: '0' <= text[k] <= '9' || 'a' <= text[k] <= 'f'
  }

  lemma {:induction false} HexIsNormalized(value: Bytes)
    ensures |ToHex(value)| == 2 * |value| && LowerDigits(ToHex(value))
    decreases value
  {
    if value != [] {
      HexIsNormalized(value[1..]);
      DigitsRoundTrip(value[0] as int / 16);
      DigitsRoundTrip(value[0] as int % 16);
    }
  }

  lemma PairSplits(high: nat, low: nat)
    requires high < 16 && low < 16
    ensures var n := PairOf(high, low) as int; n / 16 == high && n % 16 == low
  {
  }

  lemma LowerDigitIsDigit(c: char)
    requires '0' <= c <= '9' || 'a' <= c <= 'f'
    ensures !IsSpace(c) && DigitOf(c).Some? && DigitOf(c).value < 16 && DIGITS[DigitOf(c).value] == c
  {
  }

  lemma PrintsPair(high: nat, low: nat, rest: Bytes)
    requires high < 16 && low < 16
    ensures ToHex([PairOf(high, low)] + rest) == [DIGITS[high], DIGITS[low]] + ToHex(rest)
  {
    PairSplits(high, low);
    assert ([PairOf(high, low)] + rest)[1..] == rest;
  }

  lemma {:induction false} DigitsDecode(text: string)
    requires |text| % 2 == 0 && LowerDigits(text)
    ensures FromHex(text).Some? && ToHex(FromHex(text).value) == text && 2 * |FromHex(text).value| == |text|
    decreases text
  {
    if text != "" {
      DigitsDecode(text[2..]);
      LowerDigitIsDigit(text[0]);
      LowerDigitIsDigit(text[1]);
      assert text == [text[0], text[1]] + text[2..];
      ReadsPair(text[0], text[1], text[2..]);
      PrintsPair(DigitOf(text[0]).value, DigitOf(text[1]).value, FromHex(text[2..]).value);
    }
  }

  // ------------------------------------------------------------------ the release parser

  function ParseSequence(json: Json): Option<Sequence> {
    if !json.Obj? || json.fields.Keys != {"offset", "hex"} then None
    else
      var offset, encoded := json.fields["offset"], json.fields["hex"];
      if !offset.Int? || offset.number < 0 then None
      else if !encoded.Str? || !NormalizedHex(encoded.text) then None
      else
        var value := FromHex(encoded.text);
        if value.None? || |value.value| > MAX_SEQUENCE || offset.number + |value.value| > WINDOW then None
        else Some(Sequence(offset.number, value.value))
  }

  function ParseSequences(items: seq<Json>): Option<seq<Sequence>> {
    if items == [] then Some([])
    else
      var most := ParseSequences(items[..|items| - 1]);
      var last := ParseSequence(items[|items| - 1]);
      if most.None? || last.None? then None else Some(most.value + [last.value])
  }

  predicate Blank(text: string) {
    forall k | 0 <= k < |text| :: IsSpace(text[k])
  }

  predicate NoDuplicates(sequences: seq<Sequence>) {
    forall i, j | 0 <= i < j < |sequences| :: sequences[i] != sequences[j]
  }

  /** The sequences of a signature: one offset/hex pair or a non-empty `all` list, never both. */
  function SequencesOf(fields: map<string, Json>): Option<seq<Sequence>> {
    var single := "offset" in fields || "hex" in fields;
    if single == ("all" in fields) then None
    else if single then
      if "offset" !in fields || "hex" !in fields then None
      else ParseSequences([Obj(map["offset" := fields["offset"], "hex" := fields["hex"]])])
    else if !fields["all"].Arr? || fields["all"].items == [] then None
    else ParseSequences(fields["all"].items)
  }

  /** None stands for the raised release error. */
  function ParseSignature(json: Json): Option<Definition> {
    if !json.Obj? || !(json.fields.Keys <= {"identifier", "priority", "offset", "hex", "all"}) then None
    else if "identifier" !in json.fields || !json.fields["identifier"].Str? || Blank(json.fields["identifier"].text) then None
    else if "priority" !in json.fields || !json.fields["priority"].Int? || json.fields["priority"].number < 0 then None
    else
      var sequences := SequencesOf(json.fields);
      if sequences.None? || !NoDuplicates(sequences.value) then None
      else Some(Definition(json.fields["identifier"].text, json.fields["priority"].number, sequences.value))
  }

  // ------------------------------------------------------------------ the stored pattern

  function Row(offset: int, hex: string): Json {
    Obj(map["offset" := Int(offset), "hex" := Str(hex)])
  }

  function PrintSequence(s: Sequence): Json {
    Row(s.offset, ToHex(s.value))
  }

  function PrintSequences(sequences: seq<Sequence>): seq<Json> {
    seq(|sequences|, k requires 0 <= k < |sequences| => PrintSequence(sequences[k]))
  }

  /** `SignatureDefinition.pattern`. */
  function Pattern(d: Definition): Json {
    Obj(map["all" := Arr(PrintSequences(d.sequences))])
  }

  /** One row of a stored pattern; None stands for the rejection `invalid_signature_release`. */
  function ReadSequence(json: Json): Option<Sequence> {
    if !json.Obj? || json.fields.Keys != {"offset", "hex"} then None
    else if !json.fields["offset"].Int? || json.fields["offset"].number < 0 || !json.fields["hex"].Str? then None
    else
      var value := FromHex(json.fields["hex"].text);
      if value.None? || value.value == [] then None
      else Some(Sequence(json.fields["offset"].number, value.value))
  }

  function ReadSequences(items: seq<Json>): Option<seq<Sequence>> {
    if items == [] then Some([])
    else
      var most := ReadSequences(items[..|items| - 1]);
      var last := ReadSequence(items[|items| - 1]);
      if most.None? || last.None? then None else Some(most.value + [last.value])
  }

  function ReadPattern(json: Json): Option<seq<Sequence>> {
    if !json.Obj? || json.fields.Keys != {"all"} then None
    else if !json.fields["all"].Arr? || json.fields["all"].items == [] then None
    else ReadSequences(json.fields["all"].items)
  }

  /** `_parse_db_pattern`. */
  method ParseDbPattern(json: Json) returns (sequences: Option<seq<Sequence>>)
    ensures sequences == ReadPattern(json)
  {
    if !json.Obj? || json.fields.Keys != {"all"} {
      return None;
    }
    var raw := json.fields["all"];
    if !raw.Arr? || raw.items == [] {
      return None;
    }
    var read := [];
    for i := 0 to |raw.items|
      invariant ReadSequences(raw.items[..i]) == Some(read)
    {
      assert raw.items[..i + 1][..i] == raw.items[..i];
      var row := ReadSequence(raw.items[i]);
      if row.None? {
        FailureSpreads(raw.items, i + 1);
        return None;
      }
      read := read + [row.value];
    }
    assert raw.items[..|raw.items|] == raw.items;
    sequences := Some(read);
  }

  lemma {:induction false} FailureSpreads(items: seq<Json>, n: nat)
    requires n <= |items| && ReadSequences(items[..n]).None?
    ensures ReadSequences(items).None?
    decreases |items|
  {
    if n < |items| {
      assert items[..|items| - 1][..n] == items[..n];
      FailureSpreads(items[..|items| - 1], n);
    } else {
      assert items[..n] == items;
    }
  }

  // ------------------------------------------------------------------ round trips

  /** What the release parser guarantees of every sequence. */
  predicate Bounded(s: Sequence) {
    0 < |s.value| <= MAX_SEQUENCE && s.offset + |s.value| <= WINDOW
  }

  ghost predicate AllBounded(sequences: seq<Sequence>) {
    forall k | 0 <= k < |sequences| :: Bounded(sequences[k])
  }

  lemma ParsedSequenceIsBounded(json: Json)
    requires ParseSequence(json).Some?
    ensures Bounded(ParseSequence(json).value)
  {
    DigitsDecode(json.fields["hex"].text);
  }

  lemma RowReads(offset: nat, hex: string, value: Bytes)
    requires FromHex(hex) == Some(value) && value != []
    ensures ReadSequence(Row(offset, hex)) == Some(Sequence(offset, value))
  {
  }

  lemma RowParses(offset: nat, hex: string, value: Bytes)
    requires FromHex(hex) == Some(value) && NormalizedHex(hex) && Bounded(Sequence(offset, value))
    ensures ParseSequence(Row(offset, hex)) == Some(Sequence(offset, value))
  {
  }

  lemma PrintedSequenceReads(s: Sequence)
    requires Bounded(s)
    ensures ReadSequence(PrintSequence(s)) == Some(s) && ParseSequence(PrintSequence(s)) == Some(s)
  {
    var hex := ToHex(s.value);
    assert PrintSequence(s) == Row(s.offset, hex);
    assert FromHex(hex) == Some(s.value) by {
      HexRoundTrips(s.value);
    }
    assert NormalizedHex(hex) by {
      HexIsNormalized(s.value);
    }
    RowReads(s.offset, hex, s.value);
    RowParses(s.offset, hex, s.value);
  }

  lemma {:induction false} ParsedSequencesAreBounded(items: seq<Json>)
    requires ParseSequences(items).Some?
    ensures AllBounded(ParseSequences(items).value) && |ParseSequences(items).value| == |items|
    decreases |items|
  {
    if items != [] {
      ParsedSequencesAreBounded(items[..|items| - 1]);
      ParsedSequenceIsBounded(items[|items| - 1]);
    }
  }

  lemma {:induction false} ReadsPointwise(items: seq<Json>, sequences: seq<Sequence>)
    requires |items| == |sequences| && forall k | 0 <= k < |items| :: ReadSequence(items[k]) == Some(sequences[k])
    ensures ReadSequences(items) == Some(sequences)
    decreases |items|
  {
    if items != [] {
      ReadsPointwise(items[..|items| - 1], sequences[..|sequences| - 1]);
      assert sequences == sequences[..|sequences| - 1] + [sequences[|sequences| - 1]];
    }
  }

  lemma {:induction false} ParsesPointwise(items: seq<Json>, sequences: seq<Sequence>)
    requires |items| == |sequences| && forall k | 0 <= k < |items| :: ParseSequence(items[k]) == Some(sequences[k])
    ensures ParseSequences(items) == Some(sequences)
    decreases |items|
  {
    if items != [] {
      ParsesPointwise(items[..|items| - 1], sequences[..|sequences| - 1]);
      assert sequences == sequences[..|sequences| - 1] + [sequences[|sequences| - 1]];
    }
  }

  lemma PrintedSequencesRead(sequences: seq<Sequence>)
    requires AllBounded(sequences)
    ensures ReadSequences(PrintSequences(sequences)) == Some(sequences)
    ensures ParseSequences(PrintSequences(sequences)) == Some(sequences)
  {
    var items := PrintSequences(sequences);
    forall k | 0 <= k < |items| ensures ReadSequence(items[k]) == Some(sequences[k]) && ParseSequence(items[k]) == Some(sequences[k]) {
      PrintedSequenceReads(sequences[k]);
    }
    ReadsPointwise(items, sequences);
    ParsesPointwise(items, sequences);
  }

  lemma ParsedSignatureIsBounded(json: Json)
    requires ParseSignature(json).Some?
    ensures var d := ParseSignature(json).value; d.sequences != [] && AllBounded(d.sequences) && NoDuplicates(d.sequences)
  {
    var fields := json.fields;
    if "all" in fields {
      ParsedSequencesAreBounded(fields["all"].items);
    } else {
      ParsedSequencesAreBounded([Obj(map["offset" := fields["offset"], "hex" := fields["hex"]])]);
    }
  }

  /** Every signature of an accepted release is read back from its stored pattern sequence by sequence. */
  lemma StoredPatternReadsBack(json: Json)
    requires ParseSignature(json).Some?
    ensures var d := ParseSignature(json).value; ReadPattern(Pattern(d)) == Some(d.sequences)
  {
    ParsedSignatureIsBounded(json);
    PrintedSequencesRead(ParseSignature(json).value.sequences);
  }

  /** A definition written as a release signature. */
  function Reprinted(d: Definition): Json {
    Obj(map["identifier" := Str(d.identifier), "priority" := Int(d.priority), "all" := Arr(PrintSequences(d.sequences))])
  }

  lemma ReprintedSequences(d: Definition)
    requires d.sequences != [] && AllBounded(d.sequences)
    ensures SequencesOf(Reprinted(d).fields) == Some(d.sequences)
  {
    PrintedSequencesRead(d.sequences);
    var fields := Reprinted(d).fields;
    assert "all" in fields && "offset" !in fields && "hex" !in fields;
  }

  /** The stored pattern, put back under its identifier and priority, parses to the same definition: nothing was lost. */
  lemma PatternReparses(json: Json)
    requires ParseSignature(json).Some?
    ensures var d := ParseSignature(json).value; Reprinted(d).fields["all"] == Pattern(d).fields["all"] && ParseSignature(Reprinted(d)) == Some(d)
  {
    ParsedSignatureIsBounded(json);
    ReprintedSequences(ParseSignature(json).value);
  }
}
