/** Detection of a payload's format by the byte signatures stored for a release. */
module SignatureMatching {
  import opened Prelude
  import opened CommutativeFold
  import opened Signature

  datatype StoredRow = StoredRow(format: int, identifier: string, kind: string, pattern: Json)

  datatype Detection = Found(format: int, identifiers: multiset<string>) | Unknown | Ambiguous(formats: set<int>) | Refused(reason: string)

  /** `data[offset : offset + length]`, cut off at the end of the data. */
  function Slice(data: Bytes, offset: nat, length: nat): Bytes {
    data[Min(offset, |data|)..Min(offset + length, |data|)]
  }

  predicate Matches(data: Bytes, sequences: seq<Sequence>) {
    forall k | 0 <= k < |sequences| :: Slice(data, sequences[k].offset, |sequences[k].value|) == sequences[k].value
  }

  function ReadRow(row: StoredRow): Result<seq<Sequence>, string> {
    if row.kind != "byte_sequence" then Failure("unsupported_signature_kind")
    else
      var sequences := ReadPattern(row.pattern);
      if sequences.None? then Failure("invalid_signature_release") else Success(sequences.value)
  }

  predicate Readable(rows: seq<StoredRow>) {
    forall k | 0 <= k < |rows| :: ReadRow(rows[k]).Success?
  }

  function FirstFailure(rows: seq<StoredRow>): Option<string>
    ensures FirstFailure(rows).None? <==> Readable(rows)
  {
    if rows == [] then None
    else
      var earlier := FirstFailure(rows[..|rows| - 1]);
      assert rows == rows[..|rows| - 1] + [rows[|rows| - 1]];
      if earlier.Some? then earlier
      else if ReadRow(rows[|rows| - 1]).Failure? then Some(ReadRow(rows[|rows| - 1]).error)
      else None
  }

  function Reach(sequences: seq<Sequence>): nat {
    if sequences == [] then 0
    else
      var last := sequences[|sequences| - 1];
      var earlier := Reach(sequences[..|sequences| - 1]);
      if last.offset + |last.value| > earlier then last.offset + |last.value| else earlier
  }

  function MaxRead(rows: seq<StoredRow>): nat {
    if rows == [] then 0
    else
      var read := ReadRow(rows[|rows| - 1]);
      Max(MaxRead(rows[..|rows| - 1]), if read.Success? then Reach(read.value) else 0)
  }

  predicate Hits(row: StoredRow, data: Bytes) {
    ReadRow(row).Success? && Matches(data, ReadRow(row).value)
  }

  function Formats(rows: seq<StoredRow>, data: Bytes): set<int> {
    set k | 0 <= k < |rows| && Hits(rows[k], data) :: rows[k].format
  }

  function Union(): (multiset<string>, multiset<string>) -> multiset<string> {
    (a: multiset<string>, b: multiset<string>) => a + b
  }

  function Named(format: int, data: Bytes): StoredRow -> multiset<string> {
    (row: StoredRow) => if row.format == format && Hits(row, data) then multiset{row.identifier} else multiset{}
  }

  /** The identifiers of the rows of one format that match. */
  function Identifiers(rows: seq<StoredRow>, format: int, data: Bytes): multiset<string> {
    Fold(Union(), multiset{}, Named(format, data), rows)
  }

  ghost function Single<T>(s: set<T>): (x: T)
    requires s != {}
    ensures x in s
  {
    var x :| x in s;
    x
  }

  /** Exactly one matching format identifies the data. */
  ghost function Judge(rows: seq<StoredRow>, data: Bytes): Detection {
    var formats := Formats(rows, data);
    if formats == {} then Unknown
    else if |formats| > 1 then Ambiguous(formats)
    else Found(Single(formats), Identifiers(rows, Single(formats), data))
  }

  function Header(rows: seq<StoredRow>, file: Bytes): Bytes {
    file[..Min(MaxRead(rows), |file|)]
  }

  ghost function Detect(rows: seq<StoredRow>, file: Bytes): Detection {
    if rows == [] then Refused("signature_release_empty")
    else if FirstFailure(rows).Some? then Refused(FirstFailure(rows).value)
    else if MaxRead(rows) > WINDOW then Refused("signature_window_exceeded")
    else Judge(rows, Header(rows, file))
  }

  // ------------------------------------------------------------------ the bounded header decides like the whole file

  lemma {:induction false} ReachCovers(sequences: seq<Sequence>, k: nat)
    requires k < |sequences|
    ensures sequences[k].offset + |sequences[k].value| <= Reach(sequences)
    decreases |sequences|
  {
    if k < |sequences| - 1 {
      ReachCovers(sequences[..|sequences| - 1], k);
    }
  }

  lemma {:induction false} MaxReadCovers(rows: seq<StoredRow>, k: nat)
    requires k < |rows| && ReadRow(rows[k]).Success?
    ensures Reach(ReadRow(rows[k]).value) <= MaxRead(rows)
    decreases |rows|
  {
    if k < |rows| - 1 {
      MaxReadCovers(rows[..|rows| - 1], k);
    }
  }

  lemma SliceOfPrefix(file: Bytes, limit: nat, offset: nat, length: nat)
    requires offset + length <= limit
    ensures Slice(file[..Min(limit, |file|)], offset, length) == Slice(file, offset, length)
  {
  }

  lemma PrefixMatchesAlike(file: Bytes, limit: nat, sequences: seq<Sequence>)
    requires Reach(sequences) <= limit
    ensures Matches(file[..Min(limit, |file|)], sequences) <==> Matches(file, sequences)
  {
    forall k | 0 <= k < |sequences|
      ensures Slice(file[..Min(limit, |file|)], sequences[k].offset, |sequences[k].value|)
           == Slice(file, sequences[k].offset, |sequences[k].value|)
    {
      ReachCovers(sequences, k);
      SliceOfPrefix(file, limit, sequences[k].offset, |sequences[k].value|);
    }
  }

  lemma {:induction false} IdentifiersAgree(rows: seq<StoredRow>, format: int, a: Bytes, b: Bytes)
    requires forall k | 0 <= k < |rows| :: Hits(rows[k], a) <==> Hits(rows[k], b)
    ensures Identifiers(rows, format, a) == Identifiers(rows, format, b)
    decreases |rows|
  {
    if rows != [] {
      IdentifiersAgree(rows[..|rows| - 1], format, a, b);
    }
  }

  /** Reading only as far as the longest signature reaches finds the same formats and identifiers as reading everything. */
  lemma HeaderDecides(rows: seq<StoredRow>, file: Bytes)
    ensures Judge(rows, Header(rows, file)) == Judge(rows, file)
  {
    var header := Header(rows, file);
    forall k | 0 <= k < |rows| ensures Hits(rows[k], header) <==> Hits(rows[k], file) {
      if ReadRow(rows[k]).Success? {
        MaxReadCovers(rows, k);
        PrefixMatchesAlike(file, MaxRead(rows), ReadRow(rows[k]).value);
      }
    }
    assert Formats(rows, header) == Formats(rows, file);
    if Formats(rows, file) != {} {
      IdentifiersAgree(rows, Single(Formats(rows, file)), header, file);
    }
  }

  // ------------------------------------------------------------------ the order of the rows does not matter

  lemma UnionIsMonoid()
    ensures CommutativeMonoid(Union(), multiset{})
  {
    forall x: multiset<string>, y: multiset<string>, z: multiset<string> ensures Associates(Union(), x, y, z) {
      assert (x + y) + z == x + (y + z);
    }
    forall x: multiset<string>, y: multiset<string> ensures Commutes(Union(), x, y) {
      assert x + y == y + x;
    }
    forall x: multiset<string> ensures Unit(Union(), multiset{}, x) {
      assert x + multiset{} == x;
    }
  }

  lemma {:induction false} SameMembers(a: seq<StoredRow>, b: seq<StoredRow>, data: Bytes)
    requires multiset(a) == multiset(b)
    ensures Formats(a, data) <= Formats(b, data)
  {
    forall format | format in Formats(a, data) ensures format in Formats(b, data) {
      var k :| 0 <= k < |a| && Hits(a[k], data) && a[k].format == format;
      assert a[k] in multiset(b);
      var j :| 0 <= j < |b| && b[j] == a[k];
    }
  }

  lemma SameFormats(a: seq<StoredRow>, b: seq<StoredRow>, data: Bytes)
    requires multiset(a) == multiset(b)
    ensures Formats(a, data) == Formats(b, data)
  {
    SameMembers(a, b, data);
    SameMembers(b, a, data);
  }

  lemma SameJudgement(a: seq<StoredRow>, b: seq<StoredRow>, data: Bytes, formats: set<int>)
    requires Formats(a, data) == formats == Formats(b, data)
    requires formats != {} ==> Identifiers(a, Single(formats), data) == Identifiers(b, Single(formats), data)
    ensures Judge(a, data) == Judge(b, data)
  {
  }

  lemma RowOrderIsIrrelevant(a: seq<StoredRow>, b: seq<StoredRow>, data: Bytes)
    requires multiset(a) == multiset(b)
    ensures Judge(a, data) == Judge(b, data)
  {
    var formats := Formats(a, data);
    SameFormats(a, b, data);
    if formats != {} {
      IdentifiersPermute(a, b, Single(formats), data);
    }
    SameJudgement(a, b, data, formats);
  }

  lemma IdentifiersPermute(a: seq<StoredRow>, b: seq<StoredRow>, format: int, data: Bytes)
    requires multiset(a) == multiset(b)
    ensures Identifiers(a, format, data) == Identifiers(b, format, data)
  {
    UnionIsMonoid();
    FoldPermutes(Union(), multiset{}, Named(format, data), a, b);
  }

  // ------------------------------------------------------------------ what an accepted release can do

  /** The rows the importer stores: every signature's own pattern, as byte sequences. */
  ghost predicate StoredFrom(row: StoredRow, json: Json) {
    && ParseSignature(json).Some?
    && row.kind == "byte_sequence"
    && row.identifier == ParseSignature(json).value.identifier
    && row.pattern == Pattern(ParseSignature(json).value)
  }

  lemma {:induction false} ReachIsBounded(sequences: seq<Sequence>)
    requires AllBounded(sequences)
    ensures Reach(sequences) <= WINDOW
    decreases |sequences|
  {
    if sequences != [] {
      ReachIsBounded(sequences[..|sequences| - 1]);
      assert Bounded(sequences[|sequences| - 1]);
    }
  }

  lemma {:induction false} MaxReadIsBounded(rows: seq<StoredRow>)
    requires forall k | 0 <= k < |rows| :: ReadRow(rows[k]).Success? ==> Reach(ReadRow(rows[k]).value) <= WINDOW
    ensures MaxRead(rows) <= WINDOW
    decreases |rows|
  {
    if rows != [] {
      MaxReadIsBounded(rows[..|rows| - 1]);
    }
  }

  lemma StoredRowReads(row: StoredRow, json: Json)
    requires StoredFrom(row, json)
    ensures ReadRow(row) == Success(ParseSignature(json).value.sequences) && Reach(ParseSignature(json).value.sequences) <= WINDOW
  {
    StoredPatternReadsBack(json);
    ParsedSignatureIsBounded(json);
    ReachIsBounded(ParseSignature(json).value.sequences);
  }

  /** The stored row matches the data exactly when the release's signature does. */
  ghost predicate HitsByRelease(row: StoredRow, json: Json, data: Bytes) {
    ParseSignature(json).Some? && (Hits(row, data) <==> Matches(data, ParseSignature(json).value.sequences))
  }

  /**
   The rows of an accepted release are never refused as invalid, of an unsupported kind or out of the window, and
   detection is exactly the judgement of the release's own signatures over the whole file.
   */
  lemma ReleaseNeverRefused(rows: seq<StoredRow>, release: seq<Json>, file: Bytes)
    requires rows != [] && |rows| == |release| && forall k | 0 <= k < |rows| :: StoredFrom(rows[k], release[k])
    ensures !Detect(rows, file).Refused? && Detect(rows, file) == Judge(rows, file)
    ensures forall k | 0 <= k < |rows| :: HitsByRelease(rows[k], release[k], file)
  {
    forall k | 0 <= k < |rows| ensures HitsByRelease(rows[k], release[k], file) {
      StoredRowReads(rows[k], release[k]);
    }
    forall k | 0 <= k < |rows| ensures ReadRow(rows[k]).Success? && Reach(ReadRow(rows[k]).value) <= WINDOW {
      StoredRowReads(rows[k], release[k]);
    }
    NeverRefused(rows, file);
  }

  lemma NeverRefused(rows: seq<StoredRow>, file: Bytes)
    requires rows != [] && forall k | 0 <= k < |rows| :: ReadRow(rows[k]).Success? && Reach(ReadRow(rows[k]).value) <= WINDOW
    ensures !Detect(rows, file).Refused? && Detect(rows, file) == Judge(rows, file)
  {
    MaxReadIsBounded(rows);
    HeaderDecides(rows, file);
  }

  // ------------------------------------------------------------------ the loop

  /** `_detect` up to the structural fallback: read the patterns, read the header, collect the matches by format. */
  method DetectFormat(rows: seq<StoredRow>, file: Bytes) returns (d: Detection)
    ensures d == Detect(rows, file)
  {
    if rows == [] {
      return Refused("signature_release_empty");
    }
    var failure, maxRead := ReadPatterns(rows);
    if failure.Some? {
      return Refused(failure.value);
    }
    if maxRead > WINDOW {
      return Refused("signature_window_exceeded");
    }
    var header := file[..Min(maxRead, |file|)];
    var matches := CollectMatches(rows, header);
    if matches.Keys == {} {
      return Unknown;
    }
    if |matches.Keys| != 1 {
      return Ambiguous(matches.Keys);
    }
    var format :| format in matches;
    OnlyMember(matches.Keys, format);
    d := Found(format, matches[format]);
  }

  /** The first refused row, or else how far the signatures reach. */
  method ReadPatterns(rows: seq<StoredRow>) returns (failure: Option<string>, maxRead: nat)
    ensures failure == FirstFailure(rows)
    ensures failure.None? ==> maxRead == MaxRead(rows)
  {
    failure, maxRead := None, 0;
    for i := 0 to |rows|
      invariant FirstFailure(rows[..i]).None? && maxRead == MaxRead(rows[..i])
    {
      assert rows[..i + 1][..i] == rows[..i];
      var read := ReadRow(rows[i]);
      if read.Failure? {
        FirstFailureIs(rows, i);
        return Some(read.error), maxRead;
      }
      maxRead := Max(maxRead, Reach(read.value));
    }
    assert rows[..|rows|] == rows;
  }

  lemma OnlyMember(s: set<int>, x: int)
    requires x in s && |s| == 1
    ensures s == {x}
  {
    CardinalityWithout(s, x);
    assert s == (s - {x}) + {x};
  }

  lemma {:induction false} FirstFailureIs(rows: seq<StoredRow>, i: nat)
    requires i < |rows| && Readable(rows[..i]) && ReadRow(rows[i]).Failure?
    ensures FirstFailure(rows) == Some(ReadRow(rows[i]).error)
    decreases |rows|
  {
    if i < |rows| - 1 {
      assert rows[..|rows| - 1][..i] == rows[..i];
      FirstFailureIs(rows[..|rows| - 1], i);
    } else {
      assert rows[..|rows| - 1] == rows[..i];
    }
  }

  /** The identifiers that matched, by format. */
  method CollectMatches(rows: seq<StoredRow>, header: Bytes) returns (matches: map<int, multiset<string>>)
    requires Readable(rows)
    ensures matches.Keys == Formats(rows, header)
    ensures forall format | format in matches :: matches[format] == Identifiers(rows, format, header)
  {
    matches := map[];
    for i := 0 to |rows|
      invariant Gathered(matches, rows[..i], header)
    {
      GatheredGrows(rows, i, header, matches);
      if Matches(header, ReadRow(rows[i]).value) {
        matches := WithIdentifier(matches, rows[i]);
      }
    }
    assert rows[..|rows|] == rows;
    forall format | format in matches ensures matches[format] == Identifiers(rows, format, header) {
      assert Identifiers(rows, format, header) == Known(matches, format);
    }
  }

  function WithIdentifier(matches: map<int, multiset<string>>, row: StoredRow): map<int, multiset<string>> {
    matches[row.format := Known(matches, row.format) + multiset{row.identifier}]
  }

  ghost predicate Gathered(matches: map<int, multiset<string>>, rows: seq<StoredRow>, header: Bytes) {
    && matches.Keys == Formats(rows, header)
    && forall format :: Identifiers(rows, format, header) == Known(matches, format)
  }

  lemma GatheredGrows(rows: seq<StoredRow>, i: nat, header: Bytes, matches: map<int, multiset<string>>)
    requires i < |rows| && Gathered(matches, rows[..i], header)
    ensures Gathered(if Hits(rows[i], header) then WithIdentifier(matches, rows[i]) else matches, rows[..i + 1], header)
  {
    FormatsGrow(rows, i, header);
    var after := if Hits(rows[i], header) then WithIdentifier(matches, rows[i]) else matches;
    forall format ensures Identifiers(rows[..i + 1], format, header) == Known(after, format) {
      assert Identifiers(rows[..i], format, header) == Known(matches, format);
      IdentifiersGrow(rows, i, format, header);
      KnownGrows(matches, rows[i], format, header);
    }
  }

  lemma KnownGrows(matches: map<int, multiset<string>>, row: StoredRow, format: int, header: Bytes)
    ensures Known(if Hits(row, header) then WithIdentifier(matches, row) else matches, format)
         == Known(matches, format) + Named(format, header)(row)
  {
  }

  function Known(matches: map<int, multiset<string>>, format: int): multiset<string> {
    if format in matches then matches[format] else multiset{}
  }

  lemma FormatsGrow(rows: seq<StoredRow>, i: nat, header: Bytes)
    requires i < |rows|
    ensures Formats(rows[..i + 1], header) == Formats(rows[..i], header) + if Hits(rows[i], header) then {rows[i].format} else {}
  {
    var longer, shorter := rows[..i + 1], rows[..i];
    assert longer[i] == rows[i];
    assert forall k | 0 <= k < i :: longer[k] == shorter[k];
  }

  lemma IdentifiersGrow(rows: seq<StoredRow>, i: nat, format: int, header: Bytes)
    requires i < |rows|
    ensures Identifiers(rows[..i + 1], format, header) == Identifiers(rows[..i], format, header) + Named(format, header)(rows[i])
  {
    assert rows[..i + 1][..i] == rows[..i];
  }
}
