/** What reading, detection and import answer, stated on the bytes, the JSON and the tables themselves. */
module SignatureOutcomes {
  import opened Prelude
  import opened Signature
  import opened SignatureMatching
  import opened SignatureImport

  // ------------------------------------------------------------------ hexadecimal text

  /** Text that encodes nothing between two encoded pairs. */
  predicate Spacing(text: string) {
    forall c | c in text :: c in " \t\n\r" || c as int == 11 || c as int == 12
  }

  lemma {:induction false} SpacingIsSkipped(before: string, after: string)
    requires Spacing(before)
    ensures FromHex(before + after) == FromHex(after)
    decreases before
  {
    if before == "" {
      assert before + after == after;
    } else {
      assert before[0] in before && (before + after)[1..] == before[1..] + after;
      SpacingIsSkipped(before[1..], after);
    }
  }

  /** The digits in either case. */
  const LOWER := "0123456789abcdef"
  const UPPER := "0123456789ABCDEF"

  /** A pair of digits in either case is one byte. */
  lemma PairIsByte(high: nat, low: nat, text: string)
    requires high < 16 && low < 16 && |text| >= 2
    requires text[0] == LOWER[high] || text[0] == UPPER[high]
    requires text[1] == LOWER[low] || text[1] == UPPER[low]
    ensures FromHex(text)
         == if FromHex(text[2..]).None? then None else Some([(16 * high + low) as Byte] + FromHex(text[2..]).value)
  {
    DigitIs(high, text[0]);
    DigitIs(low, text[1]);
  }

  lemma DigitIs(n: nat, c: char)
    requires n < 16 && (c == LOWER[n] || c == UPPER[n])
    ensures DigitOf(c) == Some(n) && !IsSpace(c)
  {
  }

  /** A pair that does not start with white space and has a character that is no digit makes the whole text unreadable. */
  lemma OddTextIsRefused(text: string)
    requires text != "" && !Spacing(text[..1])
    requires |text| == 1 || (text[0] !in LOWER && text[0] !in UPPER) || (text[1] !in LOWER && text[1] !in UPPER)
    ensures FromHex(text).None?
  {
    assert !IsSpace(text[0]);
    if |text| > 1 {
      NoDigit(text[0]);
      NoDigit(text[1]);
    }
  }

  lemma NoDigit(c: char)
    ensures c !in LOWER && c !in UPPER ==> DigitOf(c).None?
  {
    if DigitOf(c).Some? {
      var n := DigitOf(c).value;
      assert LOWER[n] == c || UPPER[n] == c;
    }
  }

  // ------------------------------------------------------------------ a stored pattern

  /** The JSON of one byte sequence, as a pattern stores it. */
  ghost predicate Spells(json: Json, q: Sequence) {
    && q.value != []
    && json.Obj? && json.fields.Keys == {"offset", "hex"}
    && json.fields["offset"] == Int(q.offset) && json.fields["hex"].Str? && FromHex(json.fields["hex"].text) == Some(q.value)
  }

  lemma SpelledReads(json: Json, q: Sequence)
    ensures ReadSequence(json) == Some(q) <==> Spells(json, q)
  {
  }

  lemma {:induction false} ReadAll(items: seq<Json>, sequences: seq<Sequence>)
    ensures ReadSequences(items) == Some(sequences)
       <==> |items| == |sequences| && forall k | 0 <= k < |items| :: Spells(items[k], sequences[k])
    decreases |items|
  {
    if items != [] {
      var most, last := items[..|items| - 1], items[|items| - 1];
      if sequences != [] {
        var before, q := sequences[..|sequences| - 1], sequences[|sequences| - 1];
        assert sequences == before + [q];
        ReadAll(most, before);
        SpelledReads(last, q);
        if ReadSequences(items) == Some(sequences) {
          assert ReadSequences(most) == Some(before);
        }
      }
    }
  }

  /** A stored pattern reads as these sequences exactly when it is an object with `all` alone, a non-empty list that spells them. */
  lemma PatternReadsIff(json: Json, sequences: seq<Sequence>)
    ensures ReadPattern(json) == Some(sequences) <==>
      && json.Obj? && json.fields.Keys == {"all"} && json.fields["all"].Arr?
      && sequences != [] && |json.fields["all"].items| == |sequences|
      && forall k | 0 <= k < |sequences| :: Spells(json.fields["all"].items[k], sequences[k])
  {
    if json.Obj? && json.fields.Keys == {"all"} && json.fields["all"].Arr? {
      ReadAll(json.fields["all"].items, sequences);
    }
  }

  // ------------------------------------------------------------------ a signature of a release

  /** The JSON of one byte sequence, as a release gives it: lower-case digits only, and within both limits. */
  ghost predicate Declares(json: Json, q: Sequence) {
    && Spells(json, q)
    && (forall c | c in json.fields["hex"].text :: c in LOWER)
    && |q.value| <= 4096 && q.offset + |q.value| <= 1_048_576
  }

  lemma LowerMeansDigit(text: string)
    ensures LowerDigits(text) <==> forall c | c in text :: c in LOWER
  {
    if LowerDigits(text) {
      forall c | c in text ensures c in LOWER {
        LowerDigitIsDigit(c);
      }
    } else {
      var k :| 0 <= k < |text| && !('0' <= text[k] <= '9' || 'a' <= text[k] <= 'f');
      assert text[k] in text && text[k] !in LOWER;
    }
  }

  lemma {:induction false} LowerPairs(text: string)
    requires LowerDigits(text) && FromHex(text).Some?
    ensures |text| % 2 == 0
    decreases text
  {
    if text != "" {
      LowerDigitIsDigit(text[0]);
      LowerPairs(text[2..]);
    }
  }

  lemma DeclaredParses(json: Json, q: Sequence)
    ensures ParseSequence(json) == Some(q) <==> Declares(json, q)
  {
    if json.Obj? && json.fields.Keys == {"offset", "hex"} && json.fields["hex"].Str? {
      var text := json.fields["hex"].text;
      LowerMeansDigit(text);
      if LowerDigits(text) {
        if FromHex(text).Some? {
          LowerPairs(text);
        }
        if |text| % 2 == 0 {
          DigitsDecode(text);
        }
      }
    }
  }

  lemma {:induction false} ParseAll(items: seq<Json>, sequences: seq<Sequence>)
    ensures ParseSequences(items) == Some(sequences)
       <==> |items| == |sequences| && forall k | 0 <= k < |items| :: Declares(items[k], sequences[k])
    decreases |items|
  {
    if items != [] {
      var most, last := items[..|items| - 1], items[|items| - 1];
      if sequences != [] {
        var before, q := sequences[..|sequences| - 1], sequences[|sequences| - 1];
        assert sequences == before + [q];
        ParseAll(most, before);
        DeclaredParses(last, q);
        if ParseSequences(items) == Some(sequences) {
          assert ParseSequences(most) == Some(before);
        }
      }
    }
  }

  /** The fields of a signature give its sequences: one in the signature itself, or a list under `all`, never both. */
  ghost predicate Gives(fields: map<string, Json>, sequences: seq<Sequence>) {
    if "all" in fields then
      && "offset" !in fields && "hex" !in fields
      && fields["all"].Arr? && sequences != [] && |fields["all"].items| == |sequences|
      && forall k | 0 <= k < |sequences| :: Declares(fields["all"].items[k], sequences[k])
    else
      && "offset" in fields && "hex" in fields && |sequences| == 1
      && Declares(Obj(map["offset" := fields["offset"], "hex" := fields["hex"]]), sequences[0])
  }

  lemma GivenSequences(fields: map<string, Json>, sequences: seq<Sequence>)
    ensures SequencesOf(fields) == Some(sequences) <==> Gives(fields, sequences)
  {
    if "all" in fields {
      if fields["all"].Arr? {
        ParseAll(fields["all"].items, sequences);
      }
    } else if "offset" in fields && "hex" in fields {
      ParseAll([Obj(map["offset" := fields["offset"], "hex" := fields["hex"]])], sequences);
    }
  }

  /**
   A release's signature is accepted as this definition exactly when it has no other field than the five, an identifier
   that is not blank, a priority that is not negative, and sequences in one of the two forms, no two of them the same.
   */
  lemma SignatureParsesIff(json: Json, d: Definition)
    ensures ParseSignature(json) == Some(d) <==>
      && json.Obj? && json.fields.Keys <= {"identifier", "priority", "offset", "hex", "all"}
      && "identifier" in json.fields && json.fields["identifier"] == Str(d.identifier) && !Spacing(d.identifier)
      && "priority" in json.fields && json.fields["priority"] == Int(d.priority)
      && Gives(json.fields, d.sequences)
      && forall i, j | 0 <= i < j < |d.sequences| :: d.sequences[i] != d.sequences[j]
  {
    if json.Obj? {
      GivenSequences(json.fields, d.sequences);
      BlankIsSpacing(d.identifier);
    }
  }

  lemma BlankIsSpacing(text: string)
    ensures Blank(text) <==> Spacing(text)
  {
    if Blank(text) {
      assert Spacing(text);
    } else {
      var k :| 0 <= k < |text| && !IsSpace(text[k]);
      assert text[k] in text;
    }
  }

  // ------------------------------------------------------------------ detection

  /** The bytes stand in the file at their offset. */
  predicate Occurs(file: Bytes, q: Sequence) {
    q.offset + |q.value| <= |file| && file[q.offset..q.offset + |q.value|] == q.value
  }

  lemma OccursIsMatch(file: Bytes, q: Sequence)
    requires q.value != []
    ensures Slice(file, q.offset, |q.value|) == q.value <==> Occurs(file, q)
  {
  }

  /** Every sequence of the row's pattern stands in the file. */
  ghost predicate Carries(row: StoredRow, file: Bytes) {
    && row.kind == "byte_sequence" && ReadPattern(row.pattern).Some?
    && forall k | 0 <= k < |ReadPattern(row.pattern).value| :: Occurs(file, ReadPattern(row.pattern).value[k])
  }

  lemma CarriesIsHit(row: StoredRow, file: Bytes)
    ensures Hits(row, file) <==> Carries(row, file)
  {
    if ReadRow(row).Success? {
      var sequences := ReadRow(row).value;
      PatternReadsIff(row.pattern, sequences);
      forall k | 0 <= k < |sequences| ensures Slice(file, sequences[k].offset, |sequences[k].value|) == sequences[k].value <==> Occurs(file, sequences[k]) {
        assert Spells(row.pattern.fields["all"].items[k], sequences[k]);
        OccursIsMatch(file, sequences[k]);
      }
    }
  }

  ghost predicate Names(row: StoredRow, file: Bytes, format: int, identifier: string) {
    row.format == format && row.identifier == identifier && Carries(row, file)
  }

  /** The rows that match with this format and identifier. */
  ghost function Naming(rows: seq<StoredRow>, file: Bytes, format: int, identifier: string): nat -> bool {
    (k: nat) => k < |rows| && Names(rows[k], file, format, identifier)
  }

  lemma {:induction false} IdentifiersCount(rows: seq<StoredRow>, n: nat, file: Bytes, format: int, identifier: string)
    requires n <= |rows|
    ensures Identifiers(rows[..n], format, file)[identifier] == |Satisfying(Naming(rows, file, format, identifier), n)|
  {
    if n > 0 {
      assert rows[..n][..n - 1] == rows[..n - 1];
      IdentifiersCount(rows, n - 1, file, format, identifier);
      CarriesIsHit(rows[n - 1], file);
      OneMoreSatisfying(Naming(rows, file, format, identifier), n - 1);
    }
  }

  /** The formats of the rows whose pattern the file carries. */
  ghost function Carried(rows: seq<StoredRow>, file: Bytes): set<int> {
    set k | 0 <= k < |rows| && Carries(rows[k], file) :: rows[k].format
  }

  lemma CarriedAreFormats(rows: seq<StoredRow>, file: Bytes)
    ensures Formats(rows, file) == Carried(rows, file)
  {
    forall k | 0 <= k < |rows| ensures Hits(rows[k], file) <==> Carries(rows[k], file) {
      CarriesIsHit(rows[k], file);
    }
  }

  /**
   A file is unknown exactly when it carries no row's pattern, ambiguous exactly when it carries patterns of two
   formats, and otherwise found as the one format, each identifier named as often as a row with it matches.
   */
  lemma JudgeExactly(rows: seq<StoredRow>, file: Bytes)
    ensures var formats := Carried(rows, file);
      match Judge(rows, file)
      case Unknown => formats == {}
      case Ambiguous(found) => found == formats && exists a, b :: a in formats && b in formats && a != b
      case Found(format, identifiers) =>
        formats == {format} && forall x :: identifiers[x] == |Satisfying(Naming(rows, file, format, x), |rows|)|
      case Refused(_) => false
  {
    CarriedAreFormats(rows, file);
    var formats := Formats(rows, file);
    if |formats| > 1 {
      var a := Single(formats);
      CardinalityWithout(formats, a);
      var b := Single(formats - {a});
      assert a in formats && b in formats && a != b;
    } else if formats != {} {
      var format := Single(formats);
      CardinalityWithout(formats, format);
      OnlyMember(formats, format);
      forall x ensures Identifiers(rows, format, file)[x] == |Satisfying(Naming(rows, file, format, x), |rows|)| {
        assert rows[..|rows|] == rows;
        IdentifiersCount(rows, |rows|, file, format, x);
      }
    }
  }

  /** Why a row cannot be used at all, if it cannot. */
  ghost function Fault(row: StoredRow): Option<string> {
    if row.kind != "byte_sequence" then Some("unsupported_signature_kind")
    else if ReadPattern(row.pattern).None? then Some("invalid_signature_release")
    else None
  }

  lemma {:induction false} FirstFaultRefuses(rows: seq<StoredRow>, i: nat)
    requires i < |rows| && Fault(rows[i]).Some? && forall k | 0 <= k < i :: Fault(rows[k]).None?
    ensures FirstFailure(rows) == Fault(rows[i])
  {
    assert forall k | 0 <= k < i :: rows[..i][k] == rows[k];
    FirstFailureIs(rows, i);
  }

  lemma {:induction false} ReachIsReached(sequences: seq<Sequence>, limit: nat)
    ensures Reach(sequences) <= limit <==> forall k | 0 <= k < |sequences| :: sequences[k].offset + |sequences[k].value| <= limit
    decreases |sequences|
  {
    if sequences != [] {
      ReachIsReached(sequences[..|sequences| - 1], limit);
      assert forall k | 0 <= k < |sequences| - 1 :: sequences[..|sequences| - 1][k] == sequences[k];
    }
  }

  /** No sequence of the row ends beyond the limit. */
  ghost predicate Within(row: StoredRow, limit: nat) {
    ReadPattern(row.pattern).Some? ==>
      forall k | 0 <= k < |ReadPattern(row.pattern).value| ::
        ReadPattern(row.pattern).value[k].offset + |ReadPattern(row.pattern).value[k].value| <= limit
  }

  ghost predicate AllWithin(rows: seq<StoredRow>, limit: nat) {
    forall k | 0 <= k < |rows| :: Within(rows[k], limit)
  }

  lemma AllWithinOneMore(rows: seq<StoredRow>, limit: nat)
    requires rows != []
    ensures AllWithin(rows, limit) <==> AllWithin(rows[..|rows| - 1], limit) && Within(rows[|rows| - 1], limit)
  {
    assert rows == rows[..|rows| - 1] + [rows[|rows| - 1]];
  }

  lemma {:induction false} MaxReadIsReached(rows: seq<StoredRow>, limit: nat)
    requires Readable(rows)
    ensures MaxRead(rows) <= limit <==> AllWithin(rows, limit)
    decreases |rows|
  {
    if rows != [] {
      MaxReadIsReached(rows[..|rows| - 1], limit);
      ReachIsReached(ReadRow(rows[|rows| - 1]).value, limit);
      AllWithinOneMore(rows, limit);
    }
  }

  /**
   Detection refuses a release without rows, the first row it cannot use, and a sequence that ends beyond the first
   mebibyte; otherwise it judges the whole file.
   */
  lemma DetectExactly(rows: seq<StoredRow>, file: Bytes)
    ensures rows == [] ==> Detect(rows, file) == Refused("signature_release_empty")
    ensures forall i | 0 <= i < |rows| && Fault(rows[i]).Some? && (forall k | 0 <= k < i :: Fault(rows[k]).None?) ::
      Detect(rows, file) == Refused(Fault(rows[i]).value)
    ensures rows != [] && (forall k | 0 <= k < |rows| :: Fault(rows[k]).None?) ==>
      Detect(rows, file)
      == if AllWithin(rows, 1_048_576) then Judge(rows, file) else Refused("signature_window_exceeded")
  {
    forall i | 0 <= i < |rows| && Fault(rows[i]).Some? && (forall k | 0 <= k < i :: Fault(rows[k]).None?)
      ensures Detect(rows, file) == Refused(Fault(rows[i]).value)
    {
      FirstFaultRefuses(rows, i);
    }
    if forall k | 0 <= k < |rows| :: Fault(rows[k]).None? {
      assert Readable(rows);
      MaxReadIsReached(rows, 1_048_576);
      HeaderDecides(rows, file);
    }
  }
}
