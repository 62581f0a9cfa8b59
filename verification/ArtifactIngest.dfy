/**
 Deletion-first ingestion of retrieved bytes: staging, inspection, promotion into a content-addressed
 store and persistence. Files are map entries, rows are positions, and `hash` stands for SHA-256.
 */
module ArtifactIngest {
  import opened Prelude

  type Hash = Bytes -> string

  /** What a canonical path holds; anything that is not a regular file is `Special`. */
  datatype Entry = Regular(content: Bytes) | Special

  /** `mkstemp` names files apart: staged files are numbered, and temporary copies never outlive the call. */
  datatype Disk = Disk(staging: map<nat, Bytes>, next: nat, canonical: map<string, Entry>)

  datatype Payload = Payload(contentHash: string, byteLength: nat, format: int)

  datatype Artifact = Artifact(endpoint: int, resource: string, payload: nat, supersedes: Option<nat>, acceptedAt: Instant)

  datatype Observation = Observation(run: int, retrieval: string, artifact: nat)

  datatype Rejection = Rejection(run: int, retrieval: string, contentHash: string, byteLength: nat, reason: string,
                                 format: Option<int>, scanned: bool)

  datatype Tables = Tables(payloads: seq<Payload>, artifacts: seq<Artifact>, observations: seq<Observation>,
                           rejections: seq<Rejection>)

  datatype World = World(disk: Disk, tables: Tables)

  datatype Chunk = Data(bytes: Bytes) | NotBytes | StreamRaises

  datatype Request = Request(endpoint: int, resource: string, run: int, retrieval: string, maxBytes: int,
                             chunks: seq<Chunk>, wellFormed: bool)

  datatype Probe = Passes | Refuses(reason: string) | Raises | Cancels

  /** What the inspections of one staged file come to; `altered` is the file's content when it is hashed again. */
  datatype Inspection = Inspection(detection: Probe, format: int, declared: Probe, scan: Probe, parserKnown: bool, parse: Probe,
                                   altered: Option<Bytes>)

  /** What goes wrong in the store; `raced` is what another ingest links first. */
  datatype Storage = Storage(deletes: bool, mkdirFails: bool, readFails: bool, mkstempFails: bool, copyFails: bool,
                             copied: Option<Bytes>, linkFails: bool, raced: Option<Entry>)

  datatype Commit = Commits | Fails | CommitCancelled

  datatype Script = Script(ready: bool, stageable: bool, inspection: Inspection, storage: Storage, commit: Commit, now: Instant)

  datatype Error =
    | InvalidRequest
    | Unavailable
    | StagingFailed
    | StreamFailed
    | NotDeleted
    | InspectionFailed
    | InspectionCancelled
    | PromotionFailed
    | PersistenceFailed
    | PersistenceCancelled

  datatype Outcome = Accepted(artifact: nat) | Rejected(rejection: nat, reason: string)

  // ------------------------------------------------------------------ staging

  datatype Intake = Collected(content: Bytes) | Refused(reason: string, prefix: Bytes) | Broken

  /** Take the chunks in one after the other on top of `content`. */
  function TakeIn(chunks: seq<Chunk>, maxBytes: int, content: Bytes): Intake {
    if chunks == [] then
      if content == [] then Refused("empty_payload", content) else Collected(content)
    else match chunks[0]
      case NotBytes => Refused("invalid_stream_chunk", content)
      case StreamRaises => Broken
      case Data(bytes) =>
        if |content| + |bytes| > maxBytes then Refused("resource_limit_exceeded", content)
        else TakeIn(chunks[1..], maxBytes, content + bytes)
  }

  function Unlinked(d: Disk, token: nat): Disk {
    d.(staging := d.staging - {token})
  }

  /** Unlink the staged file and look again. */
  function Delete(d: Disk, token: nat, works: bool): (Disk, bool) {
    if works || token !in d.staging then (Unlinked(d, token), true) else (d, false)
  }

  // ------------------------------------------------------------------ inspection

  datatype Verdict =
    | Cleared(detected: int)
    | RejectedAs(reason: string, format: Option<int>, scanned: bool)
    | InspectionBreaks
    | InspectionCancels

  function AfterScan(i: Inspection, content: Bytes, hash: Hash): Verdict {
    if !i.parserKnown then RejectedAs("unsupported_safe_parser", Some(i.format), true)
    else match i.parse
      case Cancels => InspectionCancels
      case Raises => RejectedAs("safe_parser_failure", Some(i.format), true)
      case Refuses(reason) => RejectedAs(reason, Some(i.format), true)
      case Passes =>
        if i.altered.Some? && (hash(i.altered.value) != hash(content) || |i.altered.value| != |content|)
        then RejectedAs("changing_hash", None, true)
        else Cleared(i.format)
  }

  function Inspect(i: Inspection, content: Bytes, hash: Hash): Verdict {
    match i.detection
    case Cancels => InspectionCancels
    case Raises => InspectionBreaks
    case Refuses(reason) => RejectedAs(reason, None, false)
    case Passes =>
      match i.declared
      case Cancels => InspectionCancels
      case Raises => InspectionBreaks
      case Refuses(reason) => RejectedAs(reason, Some(i.format), false)
      case Passes =>
        match i.scan
        case Cancels => InspectionCancels
        case Raises => RejectedAs("scanner_failure", Some(i.format), false)
        case Refuses(reason) => RejectedAs(reason, Some(i.format), true)
        case Passes => AfterScan(i, content, hash)
  }

  function Altered(i: Inspection, content: Bytes): Bytes {
    if i.altered.Some? then i.altered.value else content
  }

  // ------------------------------------------------------------------ promotion

  /** Leave the `try` of the promotion by an exception: the temporary and the staged file go. */
  function Abandon(d: Disk, token: nat, deletes: bool): (Disk, Result<bool, Error>) {
    var (d1, gone) := Delete(d, token, deletes);
    (d1, Failure(if gone then PromotionFailed else NotDeleted))
  }

  function SameBytes(content: Bytes, name: string, length: nat, hash: Hash): bool {
    hash(content) == name && |content| == length
  }

  /** The path exists already: its bytes must be the same, and the staged copy goes. */
  function Reuse(d: Disk, token: nat, name: string, length: nat, s: Storage, hash: Hash): (Disk, Result<bool, Error>)
    requires name in d.canonical
  {
    if d.canonical[name].Special? || s.readFails then (d, Failure(PromotionFailed))
    else
      var (d1, gone) := Delete(d, token, s.deletes);
      if !gone then (d1, Failure(NotDeleted))
      else if !SameBytes(d.canonical[name].content, name, length, hash) then (d1, Failure(PromotionFailed))
      else (d1, Success(false))
  }

  /** Link the verified temporary copy under its name, unless another ingest was faster. */
  function Link(d: Disk, token: nat, name: string, copied: Bytes, s: Storage, hash: Hash): (Disk, Result<bool, Error>) {
    if s.raced.Some? then
      var raced := d.(canonical := d.canonical[name := s.raced.value]);
      if s.raced.value.Special? || !SameBytes(s.raced.value.content, name, |copied|, hash) then Abandon(raced, token, s.deletes)
      else
        var (d1, gone) := Delete(raced, token, s.deletes);
        (d1, if gone then Success(false) else Failure(NotDeleted))
    else if s.linkFails then Abandon(d, token, s.deletes)
    else
      var (d1, gone) := Delete(d.(canonical := d.canonical[name := Regular(copied)]), token, s.deletes);
      (d1, if gone then Success(true) else Failure(NotDeleted))
  }

  /** Move the staged bytes to the path their hash names; the result says whether this call created the file. */
  function Promote(d: Disk, token: nat, name: string, length: nat, s: Storage, hash: Hash): (Disk, Result<bool, Error>)
    requires token in d.staging
  {
    if s.mkdirFails then (d, Failure(PromotionFailed))
    else if name in d.canonical then Reuse(d, token, name, length, s, hash)
    else if s.mkstempFails then (d, Failure(PromotionFailed))
    else
      var copied := if s.copied.Some? then s.copied.value else d.staging[token];
      if s.copyFails || !SameBytes(copied, name, length, hash) then Abandon(d, token, s.deletes)
      else Link(d, token, name, copied, s, hash)
  }

  // ------------------------------------------------------------------ persistence

  predicate IsPayload(p: Payload, name: string, length: nat) {
    p.contentHash == name && p.byteLength == length
  }

  function FindPayload(rows: seq<Payload>, name: string, length: nat): (found: Option<nat>)
    ensures found.Some? ==> found.value < |rows| && IsPayload(rows[found.value], name, length)
    ensures found.None? ==> forall i | 0 <= i < |rows| :: !IsPayload(rows[i], name, length)
  {
    if rows == [] then None
    else if IsPayload(rows[|rows| - 1], name, length) then Some(|rows| - 1)
    else FindPayload(rows[..|rows| - 1], name, length)
  }

  predicate IsVersion(a: Artifact, endpoint: int, resource: string) {
    a.endpoint == endpoint && a.resource == resource
  }

  function FindArtifact(rows: seq<Artifact>, q: Request, payload: nat): (found: Option<nat>)
    ensures found.Some? ==>
      found.value < |rows| && IsVersion(rows[found.value], q.endpoint, q.resource) && rows[found.value].payload == payload
    ensures found.None? ==>
      forall i | 0 <= i < |rows| :: IsVersion(rows[i], q.endpoint, q.resource) ==> rows[i].payload != payload
  {
    if rows == [] then None
    else if IsVersion(rows[|rows| - 1], q.endpoint, q.resource) && rows[|rows| - 1].payload == payload then Some(|rows| - 1)
    else FindArtifact(rows[..|rows| - 1], q, payload)
  }

  predicate Superseded(rows: seq<Artifact>, i: nat) {
    exists j | 0 <= j < |rows| :: rows[j].supersedes == Some(i)
  }

  /** Among the first `n` rows, the latest accepted version of the resource that nothing supersedes. */
  function Tip(rows: seq<Artifact>, endpoint: int, resource: string, n: nat): (tip: Option<nat>)
    requires n <= |rows|
    ensures tip.Some? ==> tip.value < n
  {
    if n == 0 then None
    else
      var best := Tip(rows, endpoint, resource, n - 1);
      if IsVersion(rows[n - 1], endpoint, resource) && !Superseded(rows, n - 1)
         && (best.None? || rows[n - 1].acceptedAt > rows[best.value].acceptedAt)
      then Some(n - 1) else best
  }

  predicate IsObservation(o: Observation, q: Request) {
    o.run == q.run && o.retrieval == q.retrieval
  }

  function FindObservation(rows: seq<Observation>, q: Request): (found: Option<nat>)
    ensures found.Some? ==> found.value < |rows| && IsObservation(rows[found.value], q)
    ensures found.None? ==> forall i | 0 <= i < |rows| :: !IsObservation(rows[i], q)
  {
    if rows == [] then None
    else if IsObservation(rows[|rows| - 1], q) then Some(|rows| - 1)
    else FindObservation(rows[..|rows| - 1], q)
  }

  function WithPayload(t: Tables, name: string, length: nat, format: int): Tables {
    if FindPayload(t.payloads, name, length).Some? then t
    else t.(payloads := t.payloads + [Payload(name, length, format)])
  }

  function WithArtifact(t: Tables, q: Request, payload: nat, now: Instant): Tables {
    if FindArtifact(t.artifacts, q, payload).Some? then t
    else
      var tip := Tip(t.artifacts, q.endpoint, q.resource, |t.artifacts|);
      t.(artifacts := t.artifacts + [Artifact(q.endpoint, q.resource, payload, tip, now)])
  }

  function WithObservation(t: Tables, q: Request, artifact: nat): Tables {
    if FindObservation(t.observations, q).Some? then t
    else t.(observations := t.observations + [Observation(q.run, q.retrieval, artifact)])
  }

  function PayloadOf(t: Tables, name: string, length: nat): nat {
    var found := FindPayload(t.payloads, name, length);
    if found.Some? then found.value else |t.payloads|
  }

  function ArtifactOf(t: Tables, q: Request, payload: nat): nat {
    var found := FindArtifact(t.artifacts, q, payload);
    if found.Some? then found.value else |t.artifacts|
  }

  predicate Named(rows: seq<Payload>, name: string) {
    exists i | 0 <= i < |rows| :: rows[i].contentHash == name
  }

  /** The stored payload has another format, or another payload has the storage path, which is unique. */
  predicate PayloadConflict(t: Tables, name: string, length: nat, format: int) {
    var found := FindPayload(t.payloads, name, length);
    if found.Some? then t.payloads[found.value].format != format else Named(t.payloads, name)
  }

  /** The retrieval was already recorded for another artifact. */
  predicate ObservationConflict(t: Tables, q: Request, artifact: nat) {
    var found := FindObservation(t.observations, q);
    found.Some? && t.observations[found.value].artifact != artifact
  }

  /** One acceptance transaction; a conflict rolls it back. */
  function PersistAcceptance(t: Tables, q: Request, name: string, length: nat, format: int, now: Instant): (Tables, Option<nat>) {
    if PayloadConflict(t, name, length, format) then (t, None)
    else
      var payload := PayloadOf(t, name, length);
      var artifact := ArtifactOf(t, q, payload);
      if ObservationConflict(t, q, artifact) then (t, None)
      else
        (WithObservation(WithArtifact(WithPayload(t, name, length, format), q, payload, now), q, artifact), Some(artifact))
  }

  predicate IsRejection(r: Rejection, q: Request) {
    r.run == q.run && r.retrieval == q.retrieval
  }

  function FindRejection(rows: seq<Rejection>, q: Request): (found: Option<nat>)
    ensures found.Some? ==> found.value < |rows| && IsRejection(rows[found.value], q)
    ensures found.None? ==> forall i | 0 <= i < |rows| :: !IsRejection(rows[i], q)
  {
    if rows == [] then None
    else if IsRejection(rows[|rows| - 1], q) then Some(|rows| - 1)
    else FindRejection(rows[..|rows| - 1], q)
  }

  /** One rejection transaction, only once the staged file is gone. */
  function PersistRejection(w: World, q: Request, token: nat, row: Rejection, commit: Commit): (World, Result<Outcome, Error>) {
    if token in w.disk.staging then (w, Failure(NotDeleted))
    else if commit == Fails then (w, Failure(PersistenceFailed))
    else if commit == CommitCancelled then (w, Failure(PersistenceCancelled))
    else
      var found := FindRejection(w.tables.rejections, q);
      if found.Some? then (w, Success(Rejected(found.value, row.reason)))
      else (w.(tables := w.tables.(rejections := w.tables.rejections + [row])),
            Success(Rejected(|w.tables.rejections|, row.reason)))
  }

  // ------------------------------------------------------------------ the whole ingest

  /** Delete the staged file, then record the rejection. */
  function Reject(w: World, q: Request, token: nat, row: Rejection, s: Script): (World, Result<Outcome, Error>) {
    var (d, gone) := Delete(w.disk, token, s.storage.deletes);
    if !gone then (w.(disk := d), Failure(NotDeleted))
    else PersistRejection(w.(disk := d), q, token, row, s.commit)
  }

  function Raise(w: World, token: nat, s: Script, error: Error): (World, Result<Outcome, Error>) {
    var (d, gone) := Delete(w.disk, token, s.storage.deletes);
    (w.(disk := d), Failure(if gone then error else NotDeleted))
  }

  /** After a failed persistence the file is unlinked when this ingest created it. */
  function Withdraw(d: Disk, name: string, created: bool): Disk {
    if created then d.(canonical := d.canonical - {name}) else d
  }

  /** Persist what was promoted; a cancellation is not an `Exception`, so nothing is withdrawn then. */
  function Record(w: World, q: Request, name: string, length: nat, format: int, created: bool, commit: Commit, now: Instant)
    : (World, Result<Outcome, Error>)
  {
    if commit == CommitCancelled then (w, Failure(PersistenceCancelled))
    else
      var (t, artifact) := PersistAcceptance(w.tables, q, name, length, format, now);
      if commit == Fails || artifact.None? then
        (w.(disk := Withdraw(w.disk, name, created)), Failure(PersistenceFailed))
      else (w.(tables := t), Success(Accepted(artifact.value)))
  }

  function PromoteAndRecord(w: World, q: Request, token: nat, name: string, length: nat, format: int, s: Script, hash: Hash)
    : (World, Result<Outcome, Error>)
    requires token in w.disk.staging
  {
    var (d, created) := Promote(w.disk, token, name, length, s.storage, hash);
    if created.Failure? then (w.(disk := d), Failure(created.error))
    else Record(w.(disk := d), q, name, length, format, created.value, s.commit, s.now)
  }

  function InspectAndStore(w: World, q: Request, token: nat, content: Bytes, s: Script, hash: Hash): (World, Result<Outcome, Error>)
    requires token in w.disk.staging
  {
    var verdict := Inspect(s.inspection, content, hash);
    var seen := w.(disk := w.disk.(staging := w.disk.staging[token := Altered(s.inspection, content)]));
    match verdict
    case InspectionCancels => (seen, Failure(InspectionCancelled))
    case InspectionBreaks => Raise(seen, token, s, InspectionFailed)
    case RejectedAs(reason, format, scanned) =>
      Reject(seen, q, token, Rejection(q.run, q.retrieval, hash(content), |content|, reason, format, scanned), s)
    case Cleared(format) => PromoteAndRecord(seen, q, token, hash(content), |content|, format, s, hash)
  }

  function Staged(d: Disk, content: Bytes): Disk {
    d.(staging := d.staging[d.next := content], next := d.next + 1)
  }

  function Ingest(w: World, q: Request, s: Script, hash: Hash): (World, Result<Outcome, Error>) {
    if !q.wellFormed || q.maxBytes <= 0 then (w, Failure(InvalidRequest))
    else if !s.ready then (w, Failure(Unavailable))
    else if !s.stageable then (w, Failure(StagingFailed))
    else
      var token := w.disk.next;
      match TakeIn(q.chunks, q.maxBytes, [])
      case Broken => Raise(w.(disk := Staged(w.disk, [])), token, s, StreamFailed)
      case Refused(reason, prefix) =>
        Reject(w.(disk := Staged(w.disk, prefix)), q, token,
               Rejection(q.run, q.retrieval, hash(prefix), |prefix|, reason, None, false), s)
      case Collected(content) => InspectAndStore(w.(disk := Staged(w.disk, content)), q, token, content, s, hash)
  }
}
