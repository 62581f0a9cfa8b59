/** What ingestion guarantees about staged files, the content-addressed store and the version chains. */
module ArtifactRuns {
  import opened Prelude
  import opened ArtifactIngest
  import opened SupersessionChains

  // ------------------------------------------------------------------ staging

  /** The bytes of all data chunks together. */
  function Joined(chunks: seq<Chunk>): Bytes {
    if chunks == [] then [] else (if chunks[0].Data? then chunks[0].bytes else []) + Joined(chunks[1..])
  }

  predicate AllData(chunks: seq<Chunk>) {
    forall k | 0 <= k < |chunks| :: chunks[k].Data?
  }

  lemma {:induction false} TakesInExactly(chunks: seq<Chunk>, maxBytes: int, content: Bytes)
    requires |content| <= maxBytes
    ensures var taken := TakeIn(chunks, maxBytes, content);
      && (taken.Collected? <==> AllData(chunks) && 0 < |content + Joined(chunks)| <= maxBytes)
      && (taken.Collected? ==> taken.content == content + Joined(chunks))
      && (taken.Refused? ==> |taken.prefix| <= maxBytes)
  {
    if chunks != [] && chunks[0].Data? {
      var bytes := chunks[0].bytes;
      assert content + Joined(chunks) == (content + bytes) + Joined(chunks[1..]);
      assert AllData(chunks) <==> AllData(chunks[1..]) by {
        assert forall k | 0 <= k < |chunks[1..]| :: chunks[1..][k] == chunks[k + 1];
      }
      if |content| + |bytes| <= maxBytes {
        TakesInExactly(chunks[1..], maxBytes, content + bytes);
      }
    }
  }

  /** A stream is staged exactly when it is all bytes, not empty and within the limit, and then byte for byte. */
  lemma StagesExactly(chunks: seq<Chunk>, maxBytes: int)
    requires maxBytes > 0
    ensures var taken := TakeIn(chunks, maxBytes, []);
      && (taken.Collected? <==> AllData(chunks) && 0 < |Joined(chunks)| <= maxBytes)
      && (taken.Collected? ==> taken.content == Joined(chunks))
      && (taken.Refused? ==> |taken.prefix| <= maxBytes)
  {
    TakesInExactly(chunks, maxBytes, []);
    assert [] + Joined(chunks) == Joined(chunks);
  }

  // ------------------------------------------------------------------ the fate of the staged file

  predicate Starts(q: Request, s: Script) {
    q.wellFormed && q.maxBytes > 0 && s.ready && s.stageable
  }

  /** The promotion raises before it reaches its own clean-up. */
  predicate PromotionCannotStart(d: Disk, name: string, s: Storage) {
    || s.mkdirFails
    || (name in d.canonical && (d.canonical[name].Special? || s.readFails))
    || (name !in d.canonical && s.mkstempFails)
  }

  /** The exits that leave the staged file behind although deleting works. */
  predicate Strands(w: World, q: Request, s: Script, hash: Hash) {
    var taken := TakeIn(q.chunks, q.maxBytes, []);
    && taken.Collected?
    && var verdict := Inspect(s.inspection, taken.content, hash);
       verdict.InspectionCancels? || (verdict.Cleared? && PromotionCannotStart(w.disk, hash(taken.content), s.storage))
  }

  lemma PromotionLeaves(d: Disk, token: nat, name: string, length: nat, s: Storage, hash: Hash)
    requires token in d.staging && s.deletes
    ensures var (t, r) := Promote(d, token, name, length, s, hash);
      && (token in t.staging <==> PromotionCannotStart(d, name, s))
      && (r.Success? ==> token !in t.staging)
      && t.staging - {token} == d.staging - {token}
  {
  }

  /** The token of the next staged file is unused. */
  ghost predicate TokensFresh(d: Disk) {
    forall k | k in d.staging :: k < d.next
  }

  /**
   Assuming deletes succeed, every exit of `ingest` leaves the staged file behind exactly when the inspection
   is cancelled or the promotion raises before its own clean-up; no other staged file is touched.
   */
  lemma StagedFileFate(w: World, q: Request, s: Script, hash: Hash)
    requires TokensFresh(w.disk) && s.storage.deletes
    ensures var t := Ingest(w, q, s, hash).0;
      && (w.disk.next in t.disk.staging <==> Starts(q, s) && Strands(w, q, s, hash))
      && t.disk.staging - {w.disk.next} == w.disk.staging
  {
    var token := w.disk.next;
    var taken := TakeIn(q.chunks, q.maxBytes, []);
    if Starts(q, s) && taken.Collected? {
      var content := taken.content;
      StoreFate(w.(disk := Staged(w.disk, content)), q, token, content, s, hash);
    }
  }

  lemma StoreFate(w: World, q: Request, token: nat, content: Bytes, s: Script, hash: Hash)
    requires token in w.disk.staging && s.storage.deletes
    ensures var t := InspectAndStore(w, q, token, content, s, hash).0; var verdict := Inspect(s.inspection, content, hash);
      && (token in t.disk.staging <==>
            verdict.InspectionCancels? || (verdict.Cleared? && PromotionCannotStart(w.disk, hash(content), s.storage)))
      && t.disk.staging - {token} == w.disk.staging - {token}
  {
    var seen := w.disk.(staging := w.disk.staging[token := Altered(s.inspection, content)]);
    PromotionLeaves(seen, token, hash(content), |content|, s.storage, hash);
  }

  /** The documented law fails: deleting works, yet the staged file survives a raised promotion. */
  lemma StagedFileCanSurvive(hash: Hash, q: Request, s: Script)
    requires Starts(q, s) && q.chunks == [Data([1])] && s.storage.deletes && s.storage.mkdirFails
    requires s.inspection == Inspection(Passes, 0, Passes, Passes, true, Passes, None)
    ensures var w := World(Disk(map[], 0, map[]), Tables([], [], [], []));
      var (t, r) := Ingest(w, q, s, hash);
      r == Failure(PromotionFailed) && 0 in t.disk.staging
  {
    assert TakeIn(q.chunks, q.maxBytes, []) == Collected([1]) by {
      assert TakeIn(q.chunks[1..], q.maxBytes, [] + [1]) == Collected([1]);
    }
  }

  /** A rejection row is only ever written for a file that is no longer staged, and nothing is promoted beside it. */
  lemma RejectionFollowsDeletion(w: World, q: Request, s: Script, hash: Hash)
    ensures var (t, r) := Ingest(w, q, s, hash);
      && w.tables.rejections <= t.tables.rejections
      && (t.tables.rejections != w.tables.rejections || (r.Success? && r.value.Rejected?) ==>
            w.disk.next !in t.disk.staging && t.disk.canonical == w.disk.canonical
            && t.tables == w.tables.(rejections := t.tables.rejections))
  {
  }

  // ------------------------------------------------------------------ version chains

  /** Versions of the same resource form one chain. */
  function VersionKey(): Artifact -> (int, string) {
    (a: Artifact) => (a.endpoint, a.resource)
  }

  function PriorVersion(): Artifact -> Option<nat> {
    (a: Artifact) => a.supersedes
  }

  /** The last of the first `n` rows that is a version of the resource. */
  function LastVersion(rows: seq<Artifact>, endpoint: int, resource: string, n: nat): (last: Option<nat>)
    requires n <= |rows|
    ensures last.Some? ==> last.value < n && IsVersion(rows[last.value], endpoint, resource)
  {
    Last(rows, VersionKey(), (endpoint, resource), n)
  }

  /** The versions of each resource form one chain. */
  ghost predicate VersionsChained(rows: seq<Artifact>) {
    Chained(rows, VersionKey(), PriorVersion())
  }

  /** Of all the versions of a resource exactly the last one is not superseded. */
  lemma OneTip(rows: seq<Artifact>, endpoint: int, resource: string, i: nat)
    requires VersionsChained(rows) && i < |rows| && IsVersion(rows[i], endpoint, resource)
    ensures !Superseded(rows, i) <==> LastVersion(rows, endpoint, resource, |rows|) == Some(i)
  {
    OnlyLastIsFree(rows, VersionKey(), PriorVersion(), i);
    assert forall j | 0 <= j < |rows| :: PriorVersion()(rows[j]) == rows[j].supersedes;
  }

  /** The query for the newest un-superseded version finds the end of the chain, whatever the acceptance times. */
  lemma {:induction false} TipIsLast(rows: seq<Artifact>, endpoint: int, resource: string, n: nat)
    requires VersionsChained(rows) && n <= |rows|
    ensures Tip(rows, endpoint, resource, n)
         == (var last := LastVersion(rows, endpoint, resource, |rows|); if last.Some? && last.value < n then last else None)
  {
    if n > 0 {
      TipIsLast(rows, endpoint, resource, n - 1);
      if IsVersion(rows[n - 1], endpoint, resource) {
        OneTip(rows, endpoint, resource, n - 1);
        LastIsLast(rows, VersionKey(), (endpoint, resource), |rows|, n - 1);
      }
    }
  }

  /**
   Accepting a payload the resource already has adds no link; a new one is appended to the chain: it supersedes
   the old tip, nothing supersedes it, and it becomes the only tip.
   */
  lemma AcceptingExtendsChain(t: Tables, q: Request, payload: nat, now: Instant)
    requires VersionsChained(t.artifacts)
    ensures var rows, later := t.artifacts, WithArtifact(t, q, payload, now).artifacts;
      && VersionsChained(later)
      && (FindArtifact(rows, q, payload).Some? ==> later == rows)
      && (FindArtifact(rows, q, payload).None? ==>
            && later == rows + [Artifact(q.endpoint, q.resource, payload, LastVersion(rows, q.endpoint, q.resource, |rows|), now)]
            && LastVersion(later, q.endpoint, q.resource, |later|) == Some(|rows|))
  {
    if FindArtifact(t.artifacts, q, payload).None? {
      var rows, later := t.artifacts, WithArtifact(t, q, payload, now).artifacts;
      TipIsLast(rows, q.endpoint, q.resource, |rows|);
      AppendKeepsChain(rows, VersionKey(), PriorVersion(), later[|rows|]);
    }
  }
}
