/** What an ingest comes to, from the stream and the inspections it went through to the rows it leaves. */
module ArtifactOutcomes {
  import opened Prelude
  import opened ArtifactIngest
  import opened ArtifactRuns
  import opened ArtifactStore
  import opened SupersessionChains

  // ------------------------------------------------------------------ the stream

  lemma {:induction false} TakesPrefix(chunks: seq<Chunk>, maxBytes: int, content: Bytes, k: nat)
    requires k <= |chunks| && AllData(chunks[..k]) && |content| + |Joined(chunks[..k])| <= maxBytes
    ensures TakeIn(chunks, maxBytes, content) == TakeIn(chunks[k..], maxBytes, content + Joined(chunks[..k]))
    decreases k
  {
    if k == 0 {
      assert chunks[0..] == chunks && content + Joined(chunks[..0]) == content;
    } else {
      assert chunks[..k][0] == chunks[0] && chunks[..k][1..] == chunks[1..][..k - 1];
      var rest := chunks[1..][..k - 1];
      forall j | 0 <= j < |rest| ensures rest[j].Data? {
        assert rest[j] == chunks[..k][j + 1];
      }
      TakesPrefix(chunks[1..], maxBytes, content + chunks[0].bytes, k - 1);
      assert chunks[1..][k - 1..] == chunks[k..];
      assert (content + chunks[0].bytes) + Joined(chunks[1..][..k - 1]) == content + Joined(chunks[..k]);
    }
  }

  /** The first chunk that is not bytes, that raises, or that passes the limit ends the stream, with what came before it. */
  lemma StreamStopsAt(chunks: seq<Chunk>, maxBytes: int, k: nat)
    requires k < |chunks| && AllData(chunks[..k]) && |Joined(chunks[..k])| <= maxBytes
    ensures var before := Joined(chunks[..k]);
      match chunks[k]
      case NotBytes => TakeIn(chunks, maxBytes, []) == Refused("invalid_stream_chunk", before)
      case StreamRaises => TakeIn(chunks, maxBytes, []) == Broken
      case Data(bytes) => |before| + |bytes| > maxBytes ==> TakeIn(chunks, maxBytes, []) == Refused("resource_limit_exceeded", before)
  {
    TakesPrefix(chunks, maxBytes, [], k);
    assert [] + Joined(chunks[..k]) == Joined(chunks[..k]);
  }

  /** A stream of bytes that are none at all is refused as empty. */
  lemma EmptyStream(chunks: seq<Chunk>, maxBytes: int)
    requires AllData(chunks) && Joined(chunks) == [] && maxBytes > 0
    ensures TakeIn(chunks, maxBytes, []) == Refused("empty_payload", [])
  {
    assert chunks[..|chunks|] == chunks;
    TakesPrefix(chunks, maxBytes, [], |chunks|);
    assert [] + Joined(chunks) == [];
  }

  /** The stream delivers all its bytes, some, and no more than the limit. */
  predicate Delivers(q: Request) {
    AllData(q.chunks) && 0 < |Joined(q.chunks)| <= q.maxBytes
  }

  // ------------------------------------------------------------------ rejections

  /** The row is of the same run and retrieval. */
  predicate RejectsRetrieval(row: Rejection, q: Request) {
    row.run == q.run && row.retrieval == q.retrieval
  }

  /**
   How a rejection ends: the staged file goes first, then one row is written for the retrieval unless it has one, and
   nothing else changes. `left` is what the staged file holds when it cannot be deleted.
   */
  ghost predicate RejectsWith(w: World, t: World, r: Result<Outcome, Error>, q: Request, s: Script, left: Bytes, row: Rejection) {
    var d := w.disk;
    if !s.storage.deletes then
      r == Failure(NotDeleted) && t == w.(disk := d.(staging := d.staging[d.next := left], next := d.next + 1))
    else
      && t.disk == d.(staging := d.staging - {d.next}, next := d.next + 1)
      && match s.commit
         case Fails => r == Failure(PersistenceFailed) && t.tables == w.tables
         case CommitCancelled => r == Failure(PersistenceCancelled) && t.tables == w.tables
         case Commits =>
           && r.Success? && r.value.Rejected? && r.value.reason == row.reason && r.value.rejection < |t.tables.rejections|
           && (if exists i | 0 <= i < |w.tables.rejections| :: RejectsRetrieval(w.tables.rejections[i], q) then
                 t.tables == w.tables && RejectsRetrieval(w.tables.rejections[r.value.rejection], q)
               else
                 t.tables == w.tables.(rejections := w.tables.rejections + [row]) && r.value.rejection == |w.tables.rejections|)
  }

  lemma RejectRejects(w: World, q: Request, s: Script, staged: Bytes, left: Bytes, row: Rejection)
    ensures var d := w.disk; var seen := w.(disk := d.(staging := d.staging[d.next := left], next := d.next + 1));
      var (t, r) := Reject(seen, q, d.next, row, s);
      RejectsWith(w, t, r, q, s, left, row)
  {
    var d := w.disk;
    assert d.staging[d.next := left] - {d.next} == d.staging - {d.next};
  }

  /** A request that is not well formed, infrastructure that is not ready and a file that cannot be staged end it untouched. */
  lemma IngestDoesNotStart(w: World, q: Request, s: Script, hash: Hash)
    requires !Starts(q, s)
    ensures Ingest(w, q, s, hash)
         == (w, Failure(if !q.wellFormed || q.maxBytes <= 0 then InvalidRequest else if !s.ready then Unavailable else StagingFailed))
  {
  }

  /** A stream cut short at chunk `k` is rejected with what had been staged, or raises. */
  lemma IngestStopsAt(w: World, q: Request, s: Script, hash: Hash, k: nat)
    requires Starts(q, s) && k < |q.chunks| && AllData(q.chunks[..k]) && |Joined(q.chunks[..k])| <= q.maxBytes
    ensures var (t, r) := Ingest(w, q, s, hash); var before := Joined(q.chunks[..k]);
      match q.chunks[k]
      case NotBytes =>
        RejectsWith(w, t, r, q, s, before, Rejection(q.run, q.retrieval, hash(before), |before|, "invalid_stream_chunk", None, false))
      case StreamRaises => r == Failure(if s.storage.deletes then StreamFailed else NotDeleted) && t.tables == w.tables
      case Data(bytes) => |before| + |bytes| > q.maxBytes ==>
        RejectsWith(w, t, r, q, s, before, Rejection(q.run, q.retrieval, hash(before), |before|, "resource_limit_exceeded", None, false))
  {
    StreamStopsAt(q.chunks, q.maxBytes, k);
    var before := Joined(q.chunks[..k]);
    match TakeIn(q.chunks, q.maxBytes, []) {
      case Refused(reason, prefix) =>
        RejectRejects(w, q, s, prefix, prefix, Rejection(q.run, q.retrieval, hash(prefix), |prefix|, reason, None, false));
      case _ =>
    }
  }

  lemma IngestOfNothing(w: World, q: Request, s: Script, hash: Hash)
    requires Starts(q, s) && AllData(q.chunks) && Joined(q.chunks) == []
    ensures var (t, r) := Ingest(w, q, s, hash);
      RejectsWith(w, t, r, q, s, [], Rejection(q.run, q.retrieval, hash([]), 0, "empty_payload", None, false))
  {
    EmptyStream(q.chunks, q.maxBytes);
    RejectRejects(w, q, s, [], [], Rejection(q.run, q.retrieval, hash([]), 0, "empty_payload", None, false));
  }

  // ------------------------------------------------------------------ the inspections

  /** The staged file has the bytes it was staged with, as far as hash and length tell. */
  predicate Unchanged(i: Inspection, content: Bytes, hash: Hash) {
    i.altered.Some? ==> hash(i.altered.value) == hash(content) && |i.altered.value| == |content|
  }

  /** Every inspection passed. */
  predicate AllPass(i: Inspection, content: Bytes, hash: Hash) {
    i.detection == Passes && i.declared == Passes && i.scan == Passes && i.parserKnown && i.parse == Passes && Unchanged(i, content, hash)
  }

  /** The row of a rejection by the inspections. */
  function Rejected(q: Request, content: Bytes, hash: Hash, reason: string, format: Option<int>, scanned: bool): Rejection {
    Rejection(q.run, q.retrieval, hash(content), |content|, reason, format, scanned)
  }

  /** How an ingest ends at the first inspection that does not pass: what is raised, or what row is written. */
  ghost predicate EndsAt(w: World, t: World, r: Result<Outcome, Error>, q: Request, s: Script, content: Bytes, hash: Hash, probe: Probe,
                         raising: Option<string>, format: Option<int>, scannedWhenRaised: bool, scanned: bool) {
    var i := s.inspection;
    var left := if i.altered.Some? then i.altered.value else content;
    match probe
    case Passes => true
    case Cancels => r == Failure(InspectionCancelled) && t.tables == w.tables
    case Raises =>
      if raising.Some? then RejectsWith(w, t, r, q, s, left, Rejected(q, content, hash, raising.value, format, scannedWhenRaised))
      else r == Failure(if s.storage.deletes then InspectionFailed else NotDeleted) && t.tables == w.tables
    case Refuses(reason) => RejectsWith(w, t, r, q, s, left, Rejected(q, content, hash, reason, format, scanned))
  }

  /**
   The first inspection that does not pass decides, in their order: detection and declared evidence raise or reject, a
   scanner or parser that fails rejects under its own reason, a scanner's refusal counts as a scan, a format without a
   parser and a file that has changed are rejected last.
   */
  lemma IngestEndsAtFirst(w: World, q: Request, s: Script, hash: Hash)
    requires Starts(q, s) && Delivers(q)
    ensures var (t, r) := Ingest(w, q, s, hash); var i, content := s.inspection, Joined(q.chunks);
      var left := if i.altered.Some? then i.altered.value else content; var format := Some(i.format);
      if i.detection != Passes then EndsAt(w, t, r, q, s, content, hash, i.detection, None, None, false, false)
      else if i.declared != Passes then EndsAt(w, t, r, q, s, content, hash, i.declared, None, format, false, false)
      else if i.scan != Passes then EndsAt(w, t, r, q, s, content, hash, i.scan, Some("scanner_failure"), format, false, true)
      else if !i.parserKnown then
        RejectsWith(w, t, r, q, s, left, Rejected(q, content, hash, "unsupported_safe_parser", format, true))
      else if i.parse != Passes then EndsAt(w, t, r, q, s, content, hash, i.parse, Some("safe_parser_failure"), format, true, true)
      else if !Unchanged(i, content, hash) then
        RejectsWith(w, t, r, q, s, left, Rejected(q, content, hash, "changing_hash", None, true))
      else r.Success? ==> r.value.Accepted?
  {
    StagesExactly(q.chunks, q.maxBytes);
    var content := Joined(q.chunks);
    var left := Altered(s.inspection, content);
    var staged := w.(disk := Staged(w.disk, content));
    assert staged.disk.staging[w.disk.next := left] == w.disk.staging[w.disk.next := left];
    match Inspect(s.inspection, content, hash) {
      case RejectedAs(reason, format, scanned) =>
        RejectRejects(w, q, s, content, left, Rejected(q, content, hash, reason, format, scanned));
      case _ =>
    }
  }

  /** What an accepted ingest has passed: the stream, every inspection, and the second look at the staged file. */
  lemma AcceptedPassedAll(w: World, q: Request, s: Script, hash: Hash)
    requires var r := Ingest(w, q, s, hash).1; r.Success? && r.value.Accepted?
    ensures Starts(q, s) && Delivers(q) && AllPass(s.inspection, Joined(q.chunks), hash) && s.commit == Commits
  {
    StagesExactly(q.chunks, q.maxBytes);
  }

  // ------------------------------------------------------------------ the store

  /** Nothing goes wrong with the files, and nobody else links the path meanwhile. */
  predicate Works(s: Storage) {
    s.deletes && !s.mkdirFails && !s.readFails && !s.mkstempFails && !s.copyFails && s.copied.None? && !s.linkFails && s.raced.None?
  }

  /** What lies at the path of the bytes is a regular file with their hash and length, or nothing. */
  predicate PathFits(d: Disk, name: string, length: nat, hash: Hash) {
    name in d.canonical ==>
      d.canonical[name].Regular? && hash(d.canonical[name].content) == name && |d.canonical[name].content| == length
  }

  /** Every payload row under this hash has this length and format. */
  predicate PayloadFits(t: Tables, name: string, length: nat, format: int) {
    forall i | 0 <= i < |t.payloads| :: t.payloads[i].contentHash == name ==> t.payloads[i] == Payload(name, length, format)
  }

  /** Every observation of the retrieval is of a version of this resource with these bytes. */
  predicate ObservationFits(t: Tables, q: Request, name: string) {
    forall i | 0 <= i < |t.observations| ::
      t.observations[i].run == q.run && t.observations[i].retrieval == q.retrieval ==>
        var a := t.observations[i].artifact;
        && a < |t.artifacts| && t.artifacts[a].endpoint == q.endpoint && t.artifacts[a].resource == q.resource
        && t.artifacts[a].payload < |t.payloads| && t.payloads[t.artifacts[a].payload].contentHash == name
  }

  lemma PayloadConflictIff(t: Tables, name: string, length: nat, format: int)
    requires RowsLinked(t)
    ensures PayloadConflict(t, name, length, format) <==> !PayloadFits(t, name, length, format)
  {
    var found := FindPayload(t.payloads, name, length);
    if found.Some? {
      assert t.payloads[found.value].contentHash == name;
    }
  }

  lemma ObservationConflictIff(t: Tables, q: Request, name: string, length: nat, format: int)
    requires RowsLinked(t) && PayloadFits(t, name, length, format)
    ensures ObservationConflict(t, q, ArtifactOf(t, q, PayloadOf(t, name, length))) <==> !ObservationFits(t, q, name)
  {
    var p := PayloadOf(t, name, length);
    var a := ArtifactOf(t, q, p);
    var found := FindObservation(t.observations, q);
    assert p < |t.payloads| ==> t.payloads[p].contentHash == name;
    assert forall k | 0 <= k < |t.payloads| && t.payloads[k].contentHash == name :: IsPayload(t.payloads[k], name, length);
    if found.Some? {
      var o := t.observations[found.value];
      assert forall i | 0 <= i < |t.observations| && IsObservation(t.observations[i], q) :: i == found.value;
      var row := t.artifacts[o.artifact];
      if IsVersion(row, q.endpoint, q.resource) && t.payloads[row.payload].contentHash == name {
        assert row.payload == p;
        assert a == o.artifact;
      }
    }
  }

  /** The acceptance transaction succeeds exactly when the rows that are there fit. */
  lemma AcceptanceSucceedsIff(t: Tables, q: Request, name: string, length: nat, format: int, now: Instant)
    requires RowsLinked(t)
    ensures PersistAcceptance(t, q, name, length, format, now).1.Some? <==> PayloadFits(t, name, length, format) && ObservationFits(t, q, name)
  {
    PayloadConflictIff(t, name, length, format);
    if PayloadFits(t, name, length, format) {
      ObservationConflictIff(t, q, name, length, format);
    }
  }

  /** A promotion of verified bytes with nothing in its way succeeds exactly when what lies at the path fits. */
  lemma PromotionSucceedsIff(d: Disk, token: nat, name: string, length: nat, s: Storage, hash: Hash)
    requires token in d.staging && Works(s) && hash(d.staging[token]) == name && |d.staging[token]| == length
    ensures Promote(d, token, name, length, s, hash).1.Success? <==> PathFits(d, name, length, hash)
  {
  }

  /**
   With a store that works an ingest is accepted if and only if it starts, its stream delivers, every inspection passes,
   the commit goes through, and the path, the payload rows and the observations that are already there fit the bytes.
   */
  lemma AcceptedIff(w: World, q: Request, s: Script, hash: Hash)
    requires RowsLinked(w.tables) && Works(s.storage)
    ensures var r := Ingest(w, q, s, hash).1; var content := Joined(q.chunks); var name, n := hash(content), |content|;
      (r.Success? && r.value.Accepted?)
      <==> && Starts(q, s) && Delivers(q) && AllPass(s.inspection, content, hash) && s.commit == Commits
           && PathFits(w.disk, name, n, hash) && PayloadFits(w.tables, name, n, s.inspection.format) && ObservationFits(w.tables, q, name)
  {
    var content := Joined(q.chunks);
    if Starts(q, s) && Delivers(q) && AllPass(s.inspection, content, hash) {
      StagesExactly(q.chunks, q.maxBytes);
      var token := w.disk.next;
      var staged := w.(disk := Staged(w.disk, content));
      var seen := staged.(disk := staged.disk.(staging := staged.disk.staging[token := Altered(s.inspection, content)]));
      PromotionSucceedsIff(seen.disk, token, hash(content), |content|, s.storage, hash);
      AcceptanceSucceedsIff(w.tables, q, hash(content), |content|, s.inspection.format, s.now);
    } else if Ingest(w, q, s, hash).1.Success? && Ingest(w, q, s, hash).1.value.Accepted? {
      AcceptedPassedAll(w, q, s, hash);
    }
  }

  // ------------------------------------------------------------------ the rows and the files

  /** The newest version of the resource, if it has one. */
  ghost predicate NewestVersionIs(rows: seq<Artifact>, q: Request, newest: Option<nat>) {
    && (newest.Some? ==>
          newest.value < |rows| && rows[newest.value].endpoint == q.endpoint && rows[newest.value].resource == q.resource)
    && (forall k | 0 <= k < |rows| && rows[k].endpoint == q.endpoint && rows[k].resource == q.resource ::
          newest.Some? && k <= newest.value)
  }

  lemma NewestVersionFound(rows: seq<Artifact>, q: Request, newest: Option<nat>)
    requires NewestVersionIs(rows, q, newest)
    ensures newest == LastVersion(rows, q.endpoint, q.resource, |rows|)
  {
    if newest.Some? {
      LastIsLast(rows, VersionKey(), (q.endpoint, q.resource), |rows|, newest.value);
    }
  }

  /** Some version of the resource has these bytes. */
  predicate HasBytes(t: Tables, q: Request, name: string) {
    exists i | 0 <= i < |t.artifacts| ::
      && t.artifacts[i].endpoint == q.endpoint && t.artifacts[i].resource == q.resource
      && t.artifacts[i].payload < |t.payloads| && t.payloads[t.artifacts[i].payload].contentHash == name
  }

  predicate KnowsHash(t: Tables, name: string) {
    exists i | 0 <= i < |t.payloads| :: t.payloads[i].contentHash == name
  }

  predicate KnowsRetrieval(t: Tables, q: Request) {
    exists i | 0 <= i < |t.observations| :: t.observations[i].run == q.run && t.observations[i].retrieval == q.retrieval
  }

  /** The artifact is a version of the resource with these bytes, and the retrieval is recorded for it. */
  ghost predicate Keeps(t: Tables, q: Request, name: string, length: nat, format: int, a: nat) {
    && a < |t.artifacts| && t.artifacts[a].endpoint == q.endpoint && t.artifacts[a].resource == q.resource
    && t.artifacts[a].payload < |t.payloads| && t.payloads[t.artifacts[a].payload] == Payload(name, length, format)
    && exists i | 0 <= i < |t.observations| ::
         t.observations[i].run == q.run && t.observations[i].retrieval == q.retrieval && t.observations[i].artifact == a
  }

  lemma RowsAreFound(t: Tables, q: Request, name: string, length: nat, format: int)
    requires RowsLinked(t) && PayloadFits(t, name, length, format)
    ensures FindPayload(t.payloads, name, length).Some? <==> KnowsHash(t, name)
    ensures FindObservation(t.observations, q).Some? <==> KnowsRetrieval(t, q)
    ensures FindArtifact(t.artifacts, q, PayloadOf(t, name, length)).Some? <==> HasBytes(t, q, name)
  {
    if KnowsHash(t, name) {
      var i :| 0 <= i < |t.payloads| && t.payloads[i].contentHash == name;
      assert IsPayload(t.payloads[i], name, length);
    }
    var p := PayloadOf(t, name, length);
    assert forall k | 0 <= k < |t.payloads| && t.payloads[k].contentHash == name :: IsPayload(t.payloads[k], name, length);
    if HasBytes(t, q, name) {
      var i :| 0 <= i < |t.artifacts| && t.artifacts[i].endpoint == q.endpoint && t.artifacts[i].resource == q.resource
               && t.artifacts[i].payload < |t.payloads| && t.payloads[t.artifacts[i].payload].contentHash == name;
      assert t.artifacts[i].payload == p;
      assert IsVersion(t.artifacts[i], q.endpoint, q.resource);
    }
    var found := FindArtifact(t.artifacts, q, p);
    if found.Some? {
      assert t.artifacts[found.value].payload == p;
    }
  }

  lemma AcceptanceKeeps(t: Tables, q: Request, name: string, length: nat, format: int, now: Instant)
    requires RowsLinked(t)
    ensures var (u, a) := PersistAcceptance(t, q, name, length, format, now); a.Some? ==> Keeps(u, q, name, length, format, a.value)
  {
    AcceptanceLinks(t, q, name, length, format, now);
  }

  /**
   An acceptance appends at most one row to each table: the payload unless its hash is known, the version of the resource
   unless it has these bytes already, superseding the resource's newest one, and the retrieval unless it is recorded.
   */
  lemma AcceptanceExactly(t: Tables, q: Request, name: string, length: nat, format: int, now: Instant, newest: Option<nat>)
    requires RowsLinked(t) && NewestVersionIs(t.artifacts, q, newest)
    ensures var (u, a) := PersistAcceptance(t, q, name, length, format, now);
      && (a.None? ==> u == t)
      && (a.Some? ==>
            && Keeps(u, q, name, length, format, a.value)
            && u.rejections == t.rejections
            && u.payloads == (if KnowsHash(t, name) then t.payloads else t.payloads + [Payload(name, length, format)])
            && (if HasBytes(t, q, name) then u.artifacts == t.artifacts
                else
                  && a.value == |t.artifacts|
                  && u.artifacts == t.artifacts + [Artifact(q.endpoint, q.resource, u.artifacts[a.value].payload, newest, now)])
            && u.observations == (if KnowsRetrieval(t, q) then t.observations
                                  else t.observations + [Observation(q.run, q.retrieval, a.value)]))
  {
    AcceptanceKeeps(t, q, name, length, format, now);
    if PersistAcceptance(t, q, name, length, format, now).1.Some? {
      PayloadConflictIff(t, name, length, format);
      RowsAreFound(t, q, name, length, format);
      NewestVersionFound(t.artifacts, q, newest);
      AcceptingExtendsChain(WithPayload(t, name, length, format), q, PayloadOf(t, name, length), now);
    }
  }

  /**
   After the promotion: a cancelled commit leaves everything, a failed one leaves the rows and takes the file away exactly
   when this ingest created it, and one that goes through keeps the file.
   */
  lemma RecordExactly(w: World, q: Request, name: string, length: nat, format: int, created: bool, commit: Commit, now: Instant)
    ensures var (t, r) := Record(w, q, name, length, format, created, commit, now);
      var (u, a) := PersistAcceptance(w.tables, q, name, length, format, now);
      match commit
      case CommitCancelled => (t, r) == (w, Failure(PersistenceCancelled))
      case Fails => r == Failure(PersistenceFailed) && t.tables == w.tables
                    && t.disk == w.disk.(canonical := if created then w.disk.canonical - {name} else w.disk.canonical)
      case Commits =>
        if a.Some? then (t, r) == (w.(tables := u), Success(Accepted(a.value)))
        else r == Failure(PersistenceFailed) && t.tables == w.tables
             && t.disk == w.disk.(canonical := if created then w.disk.canonical - {name} else w.disk.canonical)
  {
  }

  /** Only the staged file is gone; `r` says so unless it cannot be deleted. */
  ghost predicate Drops(d: Disk, t: Disk, token: nat, deletes: bool, r: Result<bool, Error>, meant: Result<bool, Error>) {
    if deletes then t == d.(staging := d.staging - {token}) && r == meant else t == d && r == Failure(NotDeleted)
  }

  /**
   A promotion, exit by exit: a directory that cannot be made, a path that cannot be read and a copy that cannot be opened
   raise before any clean-up; otherwise the staged file goes, an existing or linked path with the same bytes is taken over,
   other bytes raise, and only a link of its own copy creates the file.
   */
  lemma PromoteExactly(d: Disk, token: nat, name: string, length: nat, s: Storage, hash: Hash)
    requires token in d.staging
    ensures var (t, r) := Promote(d, token, name, length, s, hash);
      var same := (x: Bytes) => hash(x) == name && |x| == length;
      var copy := if s.copied.Some? then s.copied.value else d.staging[token];
      if s.mkdirFails then (t, r) == (d, Failure(PromotionFailed))
      else if name in d.canonical then
        if d.canonical[name].Special? || s.readFails then (t, r) == (d, Failure(PromotionFailed))
        else Drops(d, t, token, s.deletes, r, if same(d.canonical[name].content) then Success(false) else Failure(PromotionFailed))
      else if s.mkstempFails then (t, r) == (d, Failure(PromotionFailed))
      else if s.copyFails || !same(copy) then Drops(d, t, token, s.deletes, r, Failure(PromotionFailed))
      else if s.raced.Some? then
        Drops(d.(canonical := d.canonical[name := s.raced.value]), t, token, s.deletes, r,
              if s.raced.value.Regular? && same(s.raced.value.content) then Success(false) else Failure(PromotionFailed))
      else if s.linkFails then Drops(d, t, token, s.deletes, r, Failure(PromotionFailed))
      else Drops(d.(canonical := d.canonical[name := Regular(copy)]), t, token, s.deletes, r, Success(true))
  {
  }
}
