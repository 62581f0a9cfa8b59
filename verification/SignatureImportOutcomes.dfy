/** What an import leaves in each table, and what detection then finds, stated on the release's own formats and signatures. */
module SignatureImportOutcomes {
  import opened Prelude
  import opened Signature
  import opened SignatureMatching
  import opened SignatureImport
  import opened SignatureOutcomes

  // ------------------------------------------------------------------ what a release claims

  /** One of the release's formats lists this media type or extension. */
  predicate Lists(f: Format, c: Claim) {
    c.owner == f.slug && c.value in if c.kind == MediaType then f.mediaTypes else f.extensions
  }

  predicate Claimed(formats: seq<Format>, c: Claim) {
    exists k | 0 <= k < |formats| :: Lists(formats[k], c)
  }

  lemma ListedIsClaim(f: Format, c: Claim)
    ensures c in ClaimsOf(f) <==> Lists(f, c)
  {
    LabelledHolds(MediaType, f.mediaTypes, f.slug, c);
    LabelledHolds(Extension, f.extensions, f.slug, c);
  }

  lemma LabelledHolds(kind: Kind, values: seq<string>, owner: string, c: Claim)
    ensures c in Labelled(kind, values, owner) <==> c.kind == kind && c.owner == owner && c.value in values
  {
    if c.kind == kind && c.owner == owner && c.value in values {
      var k :| 0 <= k < |values| && values[k] == c.value;
      assert Labelled(kind, values, owner)[k] == c;
    }
  }

  lemma OneMoreLists(most: seq<Format>, last: Format, c: Claim)
    ensures Claimed(most + [last], c) <==> Claimed(most, c) || Lists(last, c)
  {
    var formats := most + [last];
    if Claimed(most, c) {
      var k :| 0 <= k < |most| && Lists(most[k], c);
      assert Lists(formats[k], c);
    }
    if Lists(last, c) {
      assert Lists(formats[|most|], c);
    }
  }

  lemma {:induction false} ClaimedIsClaim(formats: seq<Format>, c: Claim)
    ensures c in AllClaims(formats) <==> Claimed(formats, c)
    decreases |formats|
  {
    if formats != [] {
      var most, last := formats[..|formats| - 1], formats[|formats| - 1];
      ClaimedIsClaim(most, c);
      ListedIsClaim(last, c);
      OneMoreLists(most, last, c);
      assert formats == most + [last];
    }
  }

  /** No two claims give the same media type or extension to two formats. */
  ghost predicate OneOwner(formats: seq<Format>) {
    forall a, b | Claimed(formats, a) && Claimed(formats, b) && a.kind == b.kind && a.value == b.value :: a.owner == b.owner
  }

  /** A release passes the owner check exactly when each media type and each extension has one owner. */
  lemma OwnersPassIff(formats: seq<Format>)
    ensures Unambiguous(AllClaims(formats)) <==> OneOwner(formats)
  {
    var claims := AllClaims(formats);
    if Unambiguous(claims) {
      forall a, b | Claimed(formats, a) && Claimed(formats, b) && a.kind == b.kind && a.value == b.value ensures a.owner == b.owner {
        ClaimedIsClaim(formats, a);
        ClaimedIsClaim(formats, b);
        if a.owner != b.owner {
          ClashIsAmbiguous(claims, a, b);
        }
      }
    }
    if OneOwner(formats) {
      forall i, j | 0 <= i < |claims| && 0 <= j < |claims| ensures !Clash(claims[i], claims[j]) {
        ClaimedIsClaim(formats, claims[i]);
        ClaimedIsClaim(formats, claims[j]);
      }
    }
  }

  // ------------------------------------------------------------------ the import

  /** An active evidence row gives one of the release's media types or extensions to another format. */
  ghost predicate Taken(evidence: seq<Claim>, formats: seq<Format>) {
    exists a, b :: a in evidence && Claimed(formats, b) && a.kind == b.kind && a.value == b.value && a.owner != b.owner
  }

  lemma TakenIsNotFree(s: State, formats: seq<Format>)
    ensures EvidenceFree(s, AllClaims(formats)) <==> !Taken(s.evidence, formats)
  {
    var claims := AllClaims(formats);
    if Taken(s.evidence, formats) {
      var a, b :| a in s.evidence && Claimed(formats, b) && a.kind == b.kind && a.value == b.value && a.owner != b.owner;
      ClaimedIsClaim(formats, b);
      var i :| 0 <= i < |s.evidence| && s.evidence[i] == a;
      var k :| 0 <= k < |claims| && claims[k] == b;
      assert Clash(s.evidence[i], claims[k]);
    } else {
      forall i, k | 0 <= i < |s.evidence| && 0 <= k < |claims| ensures !Clash(s.evidence[i], claims[k]) {
        ClaimedIsClaim(formats, claims[k]);
        assert s.evidence[i] in s.evidence;
      }
    }
  }

  /** The signature's row, under its release and with its priority, stands in its place after the rows that were there. */
  ghost predicate Added(s: State, t: State, formats: seq<Format>, k: nat, j: nat) {
    k < |formats| && j < |formats[k].signatures| && formats[k].slug in s.usable ==>
      var place, d := |s.signatures| + Before(formats, k) + j, formats[k].signatures[j];
      && place < |t.signatures|
      && t.signatures[place] == SignatureRow(|s.releases|, d.priority,
           StoredRow(s.usable[formats[k].slug], d.identifier, "byte_sequence", Pattern(d)))
  }

  /** Every active release of the authority is retired and the other releases stay as they are; the new one comes last, active. */
  ghost predicate TakesOver(before: seq<Release>, after: seq<Release>, p: Pinned) {
    && |after| == |before| + 1
    && after[|before|] == Release(p.authority, p.identifier, p.digest, p.length, Active)
    && forall i | 0 <= i < |before| ::
         after[i] == if before[i].authority == p.authority && before[i].status == Active
                     then Release(p.authority, before[i].identifier, before[i].digest, before[i].length, Retired) else before[i]
  }

  /** A release stored already is returned if it has the same bytes and is active, and refused otherwise; nothing changes. */
  lemma ReimportExactly(s: State, p: Pinned, i: nat)
    requires Sound(s) && i < |s.releases| && s.releases[i].authority == p.authority && s.releases[i].identifier == p.identifier
    ensures Import(s, p)
         == (s, if s.releases[i].digest != p.digest || s.releases[i].length != p.length then Failure(BytesDiffer)
                else if s.releases[i].status != Active then Failure(NotActive) else Success(i))
  {
    var found := FindRelease(s.releases, p).value;
    assert found == i;
  }

  /**
   A release that is not stored yet is imported unless one of its formats is unusable or active evidence gives one of its
   media types or extensions to another format. The import adds one row a signature and the missing evidence, and makes
   the release the authority's active one.
   */
  lemma ImportExactly(s: State, p: Pinned)
    requires forall i | 0 <= i < |s.releases| :: s.releases[i].authority != p.authority || s.releases[i].identifier != p.identifier
    ensures var (t, r) := Import(s, p);
      if exists k | 0 <= k < |p.formats| :: p.formats[k].slug !in s.usable then (t, r) == (s, Failure(UnusableFormat))
      else if Taken(s.evidence, p.formats) then (t, r) == (s, Failure(EvidenceTaken))
      else
        && r == Success(|s.releases|)
        && t.usable == s.usable && TakesOver(s.releases, t.releases, p)
        && s.signatures <= t.signatures && |t.signatures| == |s.signatures| + Before(p.formats, |p.formats|)
        && (forall k: nat, j: nat :: Added(s, t, p.formats, k, j))
        && s.evidence <= t.evidence
        && (forall c: Claim :: c in t.evidence <==> c in s.evidence || Claimed(p.formats, c))
  {
    TakenIsNotFree(s, p.formats);
    var t := Import(s, p).0;
    if SlugsUsable(s.usable, p.formats) && !Taken(s.evidence, p.formats) {
      RowsAreCounted(s.usable, |s.releases|, p.formats);
      RowsAreOfRelease(s.usable, |s.releases|, p.formats);
      forall k: nat, j: nat ensures Added(s, t, p.formats, k, j) {
        if k < |p.formats| && j < |p.formats[k].signatures| {
          RowIsInPlace(s.usable, |s.releases|, p.formats, k, j);
          assert AllRows(s.usable, |s.releases|, p.formats)[Before(p.formats, k) + j] in AllRows(s.usable, |s.releases|, p.formats);
        }
      }
      forall c: Claim ensures c in t.evidence <==> c in s.evidence || Claimed(p.formats, c) {
        MissingAreClaims(s.evidence, AllClaims(p.formats), c);
        ClaimedIsClaim(p.formats, c);
      }
    }
  }

  // ------------------------------------------------------------------ detection under an imported release

  /** All sequences of the signature stand in the file. */
  ghost predicate Shown(d: Definition, file: Bytes) {
    forall i | 0 <= i < |d.sequences| :: Occurs(file, d.sequences[i])
  }

  /** Some signature of the format does. */
  ghost predicate FormatShown(f: Format, file: Bytes) {
    exists j | 0 <= j < |f.signatures| :: Shown(f.signatures[j], file)
  }

  /** The formats of the release the file shows, by the identifier they are stored under. */
  ghost function ShownFormats(usable: map<string, int>, formats: seq<Format>, file: Bytes): set<int> {
    set k | 0 <= k < |formats| && formats[k].slug in usable && FormatShown(formats[k], file) :: usable[formats[k].slug]
  }

  /** Signatures as the release parser lets them through. */
  ghost predicate Parsed(formats: seq<Format>) {
    forall k, j | 0 <= k < |formats| && 0 <= j < |formats[k].signatures| ::
      formats[k].signatures[j].sequences != [] && AllBounded(formats[k].signatures[j].sequences)
  }

  lemma RowShows(row: StoredRow, d: Definition, file: Bytes)
    requires row.kind == "byte_sequence" && row.pattern == Pattern(d) && d.sequences != [] && AllBounded(d.sequences)
    ensures (Carries(row, file) <==> Shown(d, file)) && Fault(row).None? && Within(row, 1_048_576)
  {
    PrintedSequencesRead(d.sequences);
    assert ReadPattern(row.pattern) == Some(d.sequences);
    assert forall i | 0 <= i < |d.sequences| :: Bounded(d.sequences[i]);
  }

  /** Every place is that of one signature. */
  lemma {:induction false} PlaceOf(formats: seq<Format>, n: nat, place: nat) returns (k: nat, j: nat)
    requires n <= |formats| && place < Before(formats, n)
    ensures k < n && j < |formats[k].signatures| && place == Before(formats, k) + j
  {
    if place < Before(formats, n - 1) {
      k, j := PlaceOf(formats, n - 1, place);
    } else {
      k, j := n - 1, place - Before(formats, n - 1);
    }
  }

  lemma {:induction false} BeforeGrows(formats: seq<Format>, k: nat, n: nat)
    requires k <= n <= |formats|
    ensures Before(formats, k) <= Before(formats, n)
    decreases n
  {
    if k < n {
      BeforeGrows(formats, k, n - 1);
    }
  }

  lemma CarriedAreShown(rows: seq<StoredRow>, usable: map<string, int>, formats: seq<Format>, file: Bytes)
    requires StoredInPlace(rows, usable, formats) && Parsed(formats)
    ensures Carried(rows, file) == ShownFormats(usable, formats, file)
    ensures (forall i | 0 <= i < |rows| :: Fault(rows[i]).None?) && AllWithin(rows, 1_048_576)
  {
    forall i | 0 <= i < |rows|
      ensures Fault(rows[i]).None? && Within(rows[i], 1_048_576)
      ensures Carries(rows[i], file) ==> rows[i].format in ShownFormats(usable, formats, file)
    {
      var k, j := PlaceOf(formats, |formats|, i);
      assert StoredAt(rows, usable, formats, k, j);
      RowShows(rows[i], formats[k].signatures[j], file);
    }
    forall x | x in ShownFormats(usable, formats, file) ensures x in Carried(rows, file) {
      var k :| 0 <= k < |formats| && FormatShown(formats[k], file) && usable[formats[k].slug] == x;
      var j :| 0 <= j < |formats[k].signatures| && Shown(formats[k].signatures[j], file);
      assert StoredAt(rows, usable, formats, k, j);
      RowShows(rows[Before(formats, k) + j], formats[k].signatures[j], file);
    }
  }

  /**
   Under a release that was just imported a file is found as the one format whose signatures it shows, ambiguous when it
   shows signatures of formats stored under different identifiers, and unknown when it shows none.
   */
  lemma ImportedFormatIsFound(s: State, p: Pinned, file: Bytes)
    requires Sound(s) && FindRelease(s.releases, p).None? && Import(s, p).1.Success? && Parsed(p.formats)
    requires Before(p.formats, |p.formats|) > 0
    ensures var (t, r) := Import(s, p); var shown := ShownFormats(s.usable, p.formats, file);
      match Detect(Selected(t.signatures, r.value), file)
      case Unknown => shown == {}
      case Ambiguous(found) => found == shown && exists a, b :: a in shown && b in shown && a != b
      case Found(format, _) => shown == {format}
      case Refused(_) => false
  {
    ImportStoresSignatures(s, p, 0);
    var (t, r) := Import(s, p);
    var rows := Selected(t.signatures, r.value);
    CarriedAreShown(rows, s.usable, p.formats, file);
    DetectExactly(rows, file);
    JudgeExactly(rows, file);
  }

  /** A file that shows signatures of one format only is found as that format. */
  lemma OneFormatIsFound(s: State, p: Pinned, file: Bytes, k: nat)
    requires Sound(s) && FindRelease(s.releases, p).None? && Import(s, p).1.Success? && Parsed(p.formats)
    requires k < |p.formats| && FormatShown(p.formats[k], file)
    requires forall i | 0 <= i < |p.formats| && i != k :: !FormatShown(p.formats[i], file)
    ensures var (t, r) := Import(s, p); var d := Detect(Selected(t.signatures, r.value), file);
      d.Found? && d.format == s.usable[p.formats[k].slug]
  {
    var j :| 0 <= j < |p.formats[k].signatures| && Shown(p.formats[k].signatures[j], file);
    BeforeGrows(p.formats, k + 1, |p.formats|);
    ImportStoresSignatures(s, p, 0);
    ImportedFormatIsFound(s, p, file);
    assert ShownFormats(s.usable, p.formats, file) == {s.usable[p.formats[k].slug]};
  }
}
