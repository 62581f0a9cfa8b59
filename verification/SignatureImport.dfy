/** Importing a pinned release: its signatures, who owns which media type and extension, and which release is active. */
module SignatureImport {
  import opened Prelude
  import opened Signature
  import opened SignatureMatching

  datatype Kind = MediaType | Extension

  datatype Format = Format(slug: string, mediaTypes: seq<string>, extensions: seq<string>, signatures: seq<Definition>)

  datatype Claim = Claim(kind: Kind, value: string, owner: string)

  datatype Pinned = Pinned(authority: string, identifier: string, digest: string, length: nat, formats: seq<Format>)

  datatype Status = Candidate | Active | Retired

  datatype Release = Release(authority: string, identifier: string, digest: string, length: nat, status: Status)

  datatype SignatureRow = SignatureRow(release: nat, priority: nat, row: StoredRow)

  /** `usable` gives the known active terminal formats by slug; `evidence` holds the active evidence rows. */
  datatype State = State(usable: map<string, int>, releases: seq<Release>, signatures: seq<SignatureRow>, evidence: seq<Claim>)

  datatype Error = BytesDiffer | NotActive | UnusableFormat | EvidenceTaken

  // ------------------------------------------------------------------ claims

  function Labelled(kind: Kind, values: seq<string>, owner: string): seq<Claim> {
    seq(|values|, k requires 0 <= k < |values| => Claim(kind, values[k], owner))
  }

  function ClaimsOf(f: Format): seq<Claim> {
    Labelled(MediaType, f.mediaTypes, f.slug) + Labelled(Extension, f.extensions, f.slug)
  }

  function AllClaims(formats: seq<Format>): seq<Claim> {
    if formats == [] then [] else AllClaims(formats[..|formats| - 1]) + ClaimsOf(formats[|formats| - 1])
  }

  predicate Clash(a: Claim, b: Claim) {
    a.kind == b.kind && a.value == b.value && a.owner != b.owner
  }

  /** Every media type and every extension has one owner. */
  predicate Unambiguous(claims: seq<Claim>) {
    forall i, j | 0 <= i < |claims| && 0 <= j < |claims| :: !Clash(claims[i], claims[j])
  }

  /** The owner dictionary agrees with the claims seen so far. */
  ghost predicate Records(owners: map<(Kind, string), string>, claims: seq<Claim>) {
    && (forall k | 0 <= k < |claims| ::
          (claims[k].kind, claims[k].value) in owners && owners[(claims[k].kind, claims[k].value)] == claims[k].owner)
    && (forall key | key in owners :: Claim(key.0, key.1, owners[key]) in claims)
  }

  /** `setdefault` for the claims of one format; refused when another format was there first. */
  method NoteClaims(owners: map<(Kind, string), string>, ghost before: seq<Claim>, claims: seq<Claim>)
    returns (ok: bool, noted: map<(Kind, string), string>)
    requires Records(owners, before)
    ensures ok ==> Records(noted, before + claims)
    ensures !ok ==> !Unambiguous(before + claims)
  {
    noted := owners;
    assert before + claims[..0] == before;
    for k := 0 to |claims|
      invariant Records(noted, before + claims[..k])
    {
      var key := (claims[k].kind, claims[k].value);
      if key in noted && noted[key] != claims[k].owner {
        OtherOwner(noted, before, claims, k);
        return false, noted;
      }
      OneMoreClaim(noted, before, claims, k);
      noted := noted[key := claims[k].owner];
    }
    assert claims[..|claims|] == claims;
    ok := true;
  }

  lemma OneMoreClaim(owners: map<(Kind, string), string>, before: seq<Claim>, claims: seq<Claim>, k: nat)
    requires k < |claims| && Records(owners, before + claims[..k])
    requires var c := claims[k]; (c.kind, c.value) in owners ==> owners[(c.kind, c.value)] == c.owner
    ensures Records(owners[(claims[k].kind, claims[k].value) := claims[k].owner], before + claims[..k + 1])
  {
    var c, seen := claims[k], before + claims[..k];
    var noted := owners[(c.kind, c.value) := c.owner];
    assert before + claims[..k + 1] == seen + [c];
    forall key | key in noted ensures Claim(key.0, key.1, noted[key]) in seen + [c] {
      if key in owners {
        PrefixMember(seen, [c], Claim(key.0, key.1, owners[key]));
      } else {
        assert (seen + [c])[|seen|] == c;
      }
    }
  }

  lemma OtherOwner(owners: map<(Kind, string), string>, before: seq<Claim>, claims: seq<Claim>, k: nat)
    requires k < |claims| && Records(owners, before + claims[..k])
    requires var c := claims[k]; (c.kind, c.value) in owners && owners[(c.kind, c.value)] != c.owner
    ensures !Unambiguous(before + claims)
  {
    var c, seen := claims[k], before + claims[..k];
    var first := Claim(c.kind, c.value, owners[(c.kind, c.value)]);
    assert before + claims == seen + claims[k..];
    PrefixMember(seen, claims[k..], first);
    assert (seen + claims[k..])[|seen|] == c;
    ClashIsAmbiguous(before + claims, first, c);
  }

  /** The check of `parse_pinned_release` over the whole release. */
  method CheckOwners(formats: seq<Format>) returns (ok: bool)
    ensures ok <==> Unambiguous(AllClaims(formats))
  {
    var owners: map<(Kind, string), string> := map[];
    for i := 0 to |formats|
      invariant Records(owners, AllClaims(formats[..i]))
    {
      assert formats[..i + 1][..i] == formats[..i];
      ok, owners := NoteClaims(owners, AllClaims(formats[..i]), ClaimsOf(formats[i]));
      if !ok {
        AmbiguityPersists(formats, i + 1);
        return false;
      }
    }
    assert formats[..|formats|] == formats;
    RecordedIsUnambiguous(owners, AllClaims(formats));
    ok := true;
  }

  lemma PrefixMember(a: seq<Claim>, b: seq<Claim>, c: Claim)
    requires c in a
    ensures c in a + b
  {
  }

  lemma ClashIsAmbiguous(claims: seq<Claim>, a: Claim, b: Claim)
    requires a in claims && b in claims && Clash(a, b)
    ensures !Unambiguous(claims)
  {
    var i :| 0 <= i < |claims| && claims[i] == a;
    var j :| 0 <= j < |claims| && claims[j] == b;
    assert Clash(claims[i], claims[j]);
  }

  lemma {:induction false} AmbiguityPersists(formats: seq<Format>, i: nat)
    requires i <= |formats| && !Unambiguous(AllClaims(formats[..i]))
    ensures !Unambiguous(AllClaims(formats))
    decreases |formats|
  {
    if i < |formats| {
      var most := formats[..|formats| - 1];
      assert most[..i] == formats[..i];
      AmbiguityPersists(most, i);
      var claims := AllClaims(most);
      var j, k :| 0 <= j < |claims| && 0 <= k < |claims| && Clash(claims[j], claims[k]);
      PrefixMember(claims, ClaimsOf(formats[|formats| - 1]), claims[j]);
      PrefixMember(claims, ClaimsOf(formats[|formats| - 1]), claims[k]);
      ClashIsAmbiguous(AllClaims(formats), claims[j], claims[k]);
    } else {
      assert formats[..i] == formats;
    }
  }

  lemma RecordedIsUnambiguous(owners: map<(Kind, string), string>, claims: seq<Claim>)
    requires Records(owners, claims)
    ensures Unambiguous(claims)
  {
  }

  // ------------------------------------------------------------------ the import transaction

  predicate Identifies(r: Release, p: Pinned) {
    r.authority == p.authority && r.identifier == p.identifier
  }

  function FindRelease(rows: seq<Release>, p: Pinned): (found: Option<nat>)
    ensures found.Some? ==> found.value < |rows| && Identifies(rows[found.value], p)
    ensures found.None? ==> forall i | 0 <= i < |rows| :: !Identifies(rows[i], p)
  {
    if rows == [] then None
    else if Identifies(rows[|rows| - 1], p) then Some(|rows| - 1)
    else FindRelease(rows[..|rows| - 1], p)
  }

  predicate SlugsUsable(usable: map<string, int>, formats: seq<Format>) {
    forall k | 0 <= k < |formats| :: formats[k].slug in usable
  }

  function RowOf(format: int, d: Definition): StoredRow {
    StoredRow(format, d.identifier, "byte_sequence", Pattern(d))
  }

  /** The signature rows of one format. */
  function FormatRows(release: nat, format: int, signatures: seq<Definition>): seq<SignatureRow> {
    seq(|signatures|, k requires 0 <= k < |signatures| =>
          SignatureRow(release, signatures[k].priority, RowOf(format, signatures[k])))
  }

  /** The signature rows of all formats of a release. */
  function AllRows(usable: map<string, int>, release: nat, formats: seq<Format>): seq<SignatureRow>
    requires SlugsUsable(usable, formats)
  {
    if formats == [] then []
    else
      var last := formats[|formats| - 1];
      AllRows(usable, release, formats[..|formats| - 1]) + FormatRows(release, usable[last.slug], last.signatures)
  }

  /** No active evidence of another format stands in the way. */
  predicate EvidenceFree(s: State, claims: seq<Claim>) {
    forall i, k | 0 <= i < |s.evidence| && 0 <= k < |claims| :: !Clash(s.evidence[i], claims[k])
  }

  /** The claims not yet active for their own format, in order. */
  function Missing(evidence: seq<Claim>, claims: seq<Claim>): seq<Claim> {
    if claims == [] then []
    else
      var last := claims[|claims| - 1];
      Missing(evidence, claims[..|claims| - 1]) + if last in evidence then [] else [last]
  }

  function Superseded(rows: seq<Release>, authority: string): seq<Release> {
    seq(|rows|, k requires 0 <= k < |rows| =>
          if rows[k].authority == authority && rows[k].status == Active then rows[k].(status := Retired) else rows[k])
  }

  function Import(s: State, p: Pinned): (State, Result<nat, Error>) {
    var existing := FindRelease(s.releases, p);
    if existing.Some? then
      var row := s.releases[existing.value];
      if row.digest != p.digest || row.length != p.length then (s, Failure(BytesDiffer))
      else if row.status != Active then (s, Failure(NotActive))
      else (s, Success(existing.value))
    else if !SlugsUsable(s.usable, p.formats) then (s, Failure(UnusableFormat))
    else if !EvidenceFree(s, AllClaims(p.formats)) then (s, Failure(EvidenceTaken))
    else
      var imported := Release(p.authority, p.identifier, p.digest, p.length, Active);
      (s.(releases := Superseded(s.releases, p.authority) + [imported],
          signatures := s.signatures + AllRows(s.usable, |s.releases|, p.formats),
          evidence := s.evidence + Missing(s.evidence, AllClaims(p.formats))),
       Success(|s.releases|))
  }

  /** One active release an authority, one owner for each piece of active evidence, no signature without its release. */
  ghost predicate Sound(s: State) {
    && Unambiguous(s.evidence)
    && (forall k | 0 <= k < |s.signatures| :: s.signatures[k].release < |s.releases|)
    && (forall i, j | 0 <= i < j < |s.releases| && s.releases[i].authority == s.releases[j].authority ::
          s.releases[i].status != Active || s.releases[j].status != Active)
    && (forall i, j | 0 <= i < j < |s.releases| :: s.releases[i].authority != s.releases[j].authority
                                                || s.releases[i].identifier != s.releases[j].identifier)
  }

  lemma {:induction false} MissingAreClaims(evidence: seq<Claim>, claims: seq<Claim>, c: Claim)
    ensures c in Missing(evidence, claims) <==> c in claims && c !in evidence
    decreases |claims|
  {
    if claims != [] {
      MissingAreClaims(evidence, claims[..|claims| - 1], c);
      assert claims == claims[..|claims| - 1] + [claims[|claims| - 1]];
    }
  }

  /** The parser's check inside the release and the importer's check against the store together keep every owner unique. */
  lemma ImportKeepsEvidence(evidence: seq<Claim>, claims: seq<Claim>)
    requires Unambiguous(evidence) && Unambiguous(claims)
    requires forall i, k | 0 <= i < |evidence| && 0 <= k < |claims| :: !Clash(evidence[i], claims[k])
    ensures Unambiguous(evidence + Missing(evidence, claims))
    ensures forall c | c in claims :: c in evidence + Missing(evidence, claims)
  {
    var added := Missing(evidence, claims);
    forall c: Claim ensures c in added <==> c in claims && c !in evidence {
      MissingAreClaims(evidence, claims, c);
    }
    var all := evidence + added;
    forall i, j | 0 <= i < |all| && 0 <= j < |all| ensures !Clash(all[i], all[j]) {
      assert all[i] in evidence || all[i] in claims;
      assert all[j] in evidence || all[j] in claims;
    }
  }

  lemma ImportKeepsSound(s: State, p: Pinned)
    requires Sound(s) && Unambiguous(AllClaims(p.formats))
    ensures Sound(Import(s, p).0)
  {
    if FindRelease(s.releases, p).None? && EvidenceFree(s, AllClaims(p.formats)) {
      ImportKeepsEvidence(s.evidence, AllClaims(p.formats));
      if SlugsUsable(s.usable, p.formats) {
        RowsAreOfRelease(s.usable, |s.releases|, p.formats);
      }
    }
  }

  lemma {:induction false} RowsAreOfRelease(usable: map<string, int>, release: nat, formats: seq<Format>)
    requires SlugsUsable(usable, formats)
    ensures forall x | x in AllRows(usable, release, formats) :: x.release == release
  {
    if formats != [] {
      RowsAreOfRelease(usable, release, formats[..|formats| - 1]);
    }
  }

  /** A successful import leaves this release as the authority's only active one, with all its evidence active. */
  lemma ImportActivates(s: State, p: Pinned)
    requires Sound(s) && Unambiguous(AllClaims(p.formats)) && Import(s, p).1.Success?
    ensures var (t, r) := Import(s, p);
      && r.value < |t.releases| && Identifies(t.releases[r.value], p) && t.releases[r.value].digest == p.digest
      && (forall i | 0 <= i < |t.releases| && t.releases[i].authority == p.authority :: t.releases[i].status == Active <==> i == r.value)
      && (FindRelease(s.releases, p).None? ==> forall c | c in AllClaims(p.formats) :: c in t.evidence)
  {
    if FindRelease(s.releases, p).None? {
      ImportKeepsEvidence(s.evidence, AllClaims(p.formats));
    }
  }

  /** Importing the same pinned release again returns the same row and changes nothing. */
  lemma ImportIsIdempotent(s: State, p: Pinned)
    requires Sound(s) && Unambiguous(AllClaims(p.formats)) && Import(s, p).1.Success?
    ensures var (t, r) := Import(s, p); Import(t, p) == (t, r)
  {
    var (t, r) := Import(s, p);
    ImportKeepsSound(s, p);
    ImportActivates(s, p);
    var again := FindRelease(t.releases, p).value;
    assert again == r.value;
  }

  // ------------------------------------------------------------------ what detection reads of a release

  /** The rows detection selects for a release; the order it sorts them in does not matter. */
  function Selected(rows: seq<SignatureRow>, release: nat): seq<StoredRow> {
    if rows == [] then []
    else
      var last := rows[|rows| - 1];
      Selected(rows[..|rows| - 1], release) + if last.release == release then [last.row] else []
  }

  lemma {:induction false} SelectedConcat(a: seq<SignatureRow>, b: seq<SignatureRow>, release: nat)
    ensures Selected(a + b, release) == Selected(a, release) + Selected(b, release)
  {
    if b == [] {
      assert a + b == a;
    } else {
      assert (a + b)[..|a + b| - 1] == a + b[..|b| - 1];
      SelectedConcat(a, b[..|b| - 1], release);
    }
  }

  lemma {:induction false} SelectedAll(rows: seq<SignatureRow>, release: nat)
    requires forall x | x in rows :: x.release == release
    ensures |Selected(rows, release)| == |rows| && forall k | 0 <= k < |rows| :: Selected(rows, release)[k] == rows[k].row
  {
    if rows != [] {
      SelectedAll(rows[..|rows| - 1], release);
      assert rows[|rows| - 1] in rows;
    }
  }

  lemma {:induction false} SelectedNone(rows: seq<SignatureRow>, release: nat)
    requires forall x | x in rows :: x.release != release
    ensures Selected(rows, release) == []
  {
    if rows != [] {
      SelectedNone(rows[..|rows| - 1], release);
      assert rows[|rows| - 1] in rows;
    }
  }

  /** The definitions of a release, format by format. */
  function Definitions(formats: seq<Format>): seq<Definition> {
    if formats == [] then [] else Definitions(formats[..|formats| - 1]) + formats[|formats| - 1].signatures
  }

  predicate Defines(row: SignatureRow, d: Definition) {
    row.row == RowOf(row.row.format, d) && row.priority == d.priority
  }

  ghost predicate AllDefine(rows: seq<SignatureRow>, all: seq<Definition>) {
    |rows| == |all| && forall k | 0 <= k < |all| :: Defines(rows[k], all[k])
  }

  lemma DefineTogether(a: seq<SignatureRow>, b: seq<SignatureRow>, first: seq<Definition>, second: seq<Definition>)
    requires AllDefine(a, first) && AllDefine(b, second)
    ensures AllDefine(a + b, first + second)
  {
    forall k | 0 <= k < |first + second| ensures Defines((a + b)[k], (first + second)[k]) {
      if k < |first| {
        assert Defines(a[k], first[k]);
      } else {
        assert Defines(b[k - |first|], second[k - |first|]);
      }
    }
  }

  lemma {:induction false} RowsAreDefinitions(usable: map<string, int>, release: nat, formats: seq<Format>)
    requires SlugsUsable(usable, formats)
    ensures AllDefine(AllRows(usable, release, formats), Definitions(formats))
  {
    if formats != [] {
      var most, last := formats[..|formats| - 1], formats[|formats| - 1];
      RowsAreDefinitions(usable, release, most);
      DefineTogether(AllRows(usable, release, most), FormatRows(release, usable[last.slug], last.signatures),
                     Definitions(most), last.signatures);
    }
  }

  /** How many signatures the formats before the `k`th have. */
  function Before(formats: seq<Format>, k: nat): nat
    requires k <= |formats|
  {
    if k == 0 then 0 else Before(formats, k - 1) + |formats[k - 1].signatures|
  }

  /** The `j`th signature of the `k`th format is stored in its place, as a byte sequence of the usable format of that slug. */
  ghost predicate StoredAt(rows: seq<StoredRow>, usable: map<string, int>, formats: seq<Format>, k: nat, j: nat) {
    k < |formats| && j < |formats[k].signatures| && formats[k].slug in usable ==>
      var place, d := Before(formats, k) + j, formats[k].signatures[j];
      place < |rows| && rows[place] == StoredRow(usable[formats[k].slug], d.identifier, "byte_sequence", Pattern(d))
  }

  lemma {:induction false} BeforeAgrees(a: seq<Format>, b: seq<Format>, k: nat)
    requires k <= |a| && k <= |b| && a[..k] == b[..k]
    ensures Before(a, k) == Before(b, k)
  {
    if k > 0 {
      assert a[..k - 1] == a[..k][..k - 1] && b[..k - 1] == b[..k][..k - 1];
      assert a[k - 1] == a[..k][k - 1] && b[k - 1] == b[..k][k - 1];
      BeforeAgrees(a, b, k - 1);
    }
  }

  lemma {:induction false} RowIsInPlace(usable: map<string, int>, release: nat, formats: seq<Format>, k: nat, j: nat)
    requires SlugsUsable(usable, formats) && k < |formats| && j < |formats[k].signatures|
    ensures var rows := AllRows(usable, release, formats); var place, d := Before(formats, k) + j, formats[k].signatures[j];
      && |rows| == Before(formats, |formats|) && place < |rows|
      && rows[place].priority == d.priority
      && rows[place].row == StoredRow(usable[formats[k].slug], d.identifier, "byte_sequence", Pattern(d))
    decreases |formats|
  {
    var most := formats[..|formats| - 1];
    RowsAreCounted(usable, release, most);
    BeforeAgrees(most, formats, |most|);
    BeforeAgrees(most, formats, k);
    if k < |most| {
      RowIsInPlace(usable, release, most, k, j);
    }
  }

  lemma {:induction false} RowsAreCounted(usable: map<string, int>, release: nat, formats: seq<Format>)
    requires SlugsUsable(usable, formats)
    ensures |AllRows(usable, release, formats)| == Before(formats, |formats|)
    decreases |formats|
  {
    if formats != [] {
      var most := formats[..|formats| - 1];
      RowsAreCounted(usable, release, most);
      BeforeAgrees(most, formats, |most|);
    }
  }

  /** Every signature of the formats is stored in its place, and nothing else is. */
  ghost predicate StoredInPlace(rows: seq<StoredRow>, usable: map<string, int>, formats: seq<Format>) {
    && |rows| == Before(formats, |formats|) && SlugsUsable(usable, formats)
    && forall k: nat, j: nat :: StoredAt(rows, usable, formats, k, j)
  }

  lemma {:induction false} NewRowsSelected(before: seq<SignatureRow>, added: seq<SignatureRow>, release: nat)
    requires forall x | x in before :: x.release != release
    requires forall x | x in added :: x.release == release
    ensures var rows := Selected(before + added, release);
      |rows| == |added| && forall k | 0 <= k < |added| :: rows[k] == added[k].row
  {
    SelectedConcat(before, added, release);
    SelectedNone(before, release);
    SelectedAll(added, release);
    assert [] + Selected(added, release) == Selected(added, release);
  }

  lemma {:induction false} OtherRowsSelected(before: seq<SignatureRow>, added: seq<SignatureRow>, other: nat)
    requires forall x | x in added :: x.release != other
    ensures Selected(before + added, other) == Selected(before, other)
  {
    SelectedConcat(before, added, other);
    SelectedNone(added, other);
    assert Selected(before, other) + [] == Selected(before, other);
  }

  lemma {:induction false} RowsInPlace(usable: map<string, int>, release: nat, formats: seq<Format>, rows: seq<StoredRow>)
    requires SlugsUsable(usable, formats)
    requires var added := AllRows(usable, release, formats);
      |rows| == |added| && forall k | 0 <= k < |added| :: rows[k] == added[k].row
    ensures StoredInPlace(rows, usable, formats)
  {
    RowsAreCounted(usable, release, formats);
    forall k: nat, j: nat ensures StoredAt(rows, usable, formats, k, j) {
      if k < |formats| && j < |formats[k].signatures| {
        RowIsInPlace(usable, release, formats, k, j);
      }
    }
  }

  /**
   A new import stores exactly its own signatures under its release, each in its place as a byte sequence of its own
   format, and leaves those of every other release alone.
   */
  lemma ImportStoresSignatures(s: State, p: Pinned, other: nat)
    requires Sound(s) && FindRelease(s.releases, p).None? && Import(s, p).1.Success?
    ensures var (t, r) := Import(s, p); var rows := Selected(t.signatures, r.value);
      && StoredInPlace(rows, s.usable, p.formats)
      && (other != r.value ==> Selected(t.signatures, other) == Selected(s.signatures, other))
  {
    var release := |s.releases|;
    var added := AllRows(s.usable, release, p.formats);
    RowsAreOfRelease(s.usable, release, p.formats);
    NewRowsSelected(s.signatures, added, release);
    RowsInPlace(s.usable, release, p.formats, Selected(s.signatures + added, release));
    if other != release {
      OtherRowsSelected(s.signatures, added, other);
    }
  }

  /** The release's definitions are what its signatures, in the same order, parse to. */
  ghost predicate ParsedFrom(p: Pinned, release: seq<Json>) {
    && |release| == |Definitions(p.formats)|
    && forall k | 0 <= k < |release| :: ParseSignature(release[k]) == Some(Definitions(p.formats)[k])
  }

  /**
   Detection under a release that was parsed and imported never refuses the release, and judges every file by exactly
   the signatures the release was parsed from.
   */
  lemma ImportedReleaseDetects(s: State, p: Pinned, release: seq<Json>, file: Bytes)
    requires Sound(s) && FindRelease(s.releases, p).None? && Import(s, p).1.Success? && release != [] && ParsedFrom(p, release)
    ensures var (t, r) := Import(s, p); var rows := Selected(t.signatures, r.value);
      && |rows| == |release| && !Detect(rows, file).Refused? && Detect(rows, file) == Judge(rows, file)
      && forall k | 0 <= k < |rows| :: HitsByRelease(rows[k], release[k], file)
  {
    var id := |s.releases|;
    var added := AllRows(s.usable, id, p.formats);
    var rows := Selected(s.signatures + added, id);
    RowsAreOfRelease(s.usable, id, p.formats);
    RowsAreDefinitions(s.usable, id, p.formats);
    NewRowsSelected(s.signatures, added, id);
    forall k | 0 <= k < |rows| ensures StoredFrom(rows[k], release[k]) {
      assert Defines(added[k], Definitions(p.formats)[k]);
    }
    ReleaseNeverRefused(rows, release, file);
  }

  // ------------------------------------------------------------------ the importer in place

  class ReleaseStore {
    var usable: map<string, int>
    var releases: seq<Release>
    var signatures: seq<SignatureRow>
    var evidence: seq<Claim>

    function Rows(): State
      reads this
    {
      State(usable, releases, signatures, evidence)
    }

    constructor (usable: map<string, int>)
      ensures Rows() == State(usable, [], [], []) && Sound(Rows())
    {
      this.usable, releases, signatures, evidence := usable, [], [], [];
    }

    method FindExisting(p: Pinned) returns (found: Option<nat>)
      ensures found == FindRelease(releases, p)
    {
      var n := |releases|;
      assert releases[..n] == releases;
      while n > 0
        invariant 0 <= n <= |releases| && FindRelease(releases, p) == FindRelease(releases[..n], p)
      {
        assert releases[..n][..n - 1] == releases[..n - 1];
        if Identifies(releases[n - 1], p) {
          return Some(n - 1);
        }
        n := n - 1;
      }
      found := None;
    }

    /** One format's signatures, row by row. */
    method AddFormatSignatures(release: nat, format: int, definitions: seq<Definition>)
      modifies this`signatures
      ensures signatures == old(signatures) + FormatRows(release, format, definitions)
    {
      for k := 0 to |definitions|
        invariant signatures == old(signatures) + FormatRows(release, format, definitions[..k])
      {
        signatures := signatures + [SignatureRow(release, definitions[k].priority, RowOf(format, definitions[k]))];
        assert FormatRows(release, format, definitions[..k + 1])
            == FormatRows(release, format, definitions[..k]) + [SignatureRow(release, definitions[k].priority, RowOf(format, definitions[k]))];
      }
      assert definitions[..|definitions|] == definitions;
    }

    method AddSignatures(release: nat, formats: seq<Format>)
      requires SlugsUsable(usable, formats)
      modifies this`signatures
      ensures signatures == old(signatures) + AllRows(usable, release, formats)
    {
      for i := 0 to |formats|
        invariant signatures == old(signatures) + AllRows(usable, release, formats[..i])
      {
        assert formats[..i + 1][..i] == formats[..i];
        AddFormatSignatures(release, usable[formats[i].slug], formats[i].signatures);
      }
      assert formats[..|formats|] == formats;
    }

    method AddEvidence(claims: seq<Claim>)
      modifies this`evidence
      ensures evidence == old(evidence) + Missing(old(evidence), claims)
    {
      var existing := evidence;
      assert evidence == existing + Missing(existing, claims[..0]);
      for k := 0 to |claims|
        invariant evidence == existing + Missing(existing, claims[..k])
      {
        assert claims[..k + 1][..k] == claims[..k];
        if claims[k] !in existing {
          evidence := evidence + [claims[k]];
        }
      }
      assert claims[..|claims|] == claims;
    }

    method RetireActive(authority: string)
      modifies this`releases
      ensures releases == Superseded(old(releases), authority)
    {
      for k := 0 to |releases|
        invariant |releases| == |old(releases)|
        invariant forall i | 0 <= i < k :: releases[i] == Superseded(old(releases), authority)[i]
        invariant forall i | k <= i < |releases| :: releases[i] == old(releases[i])
      {
        if releases[k].authority == authority && releases[k].status == Active {
          releases := releases[k := releases[k].(status := Retired)];
        }
      }
      assert releases == Superseded(old(releases), authority);
    }

    /** `import_repository_pinned_release`: insert as candidate, add signatures and evidence, retire the others, activate. */
    method ImportRelease(p: Pinned) returns (r: Result<nat, Error>)
      requires Sound(Rows()) && Unambiguous(AllClaims(p.formats))
      modifies this
      ensures Sound(Rows()) && (Rows(), r) == Import(old(Rows()), p)
    {
      ImportKeepsSound(Rows(), p);
      var existing := FindExisting(p);
      if existing.Some? {
        var row := releases[existing.value];
        if row.digest != p.digest || row.length != p.length {
          return Failure(BytesDiffer);
        }
        return if row.status != Active then Failure(NotActive) else Success(existing.value);
      }
      if !SlugsUsable(usable, p.formats) {
        return Failure(UnusableFormat);
      }
      if !EvidenceFree(Rows(), AllClaims(p.formats)) {
        return Failure(EvidenceTaken);
      }
      var id := |releases|;
      AddSignatures(id, p.formats);
      AddEvidence(AllClaims(p.formats));
      RetireActive(p.authority);
      releases := releases + [Release(p.authority, p.identifier, p.digest, p.length, Active)];
      r := Success(id);
    }
  }
}
