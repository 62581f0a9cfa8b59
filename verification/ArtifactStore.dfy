/** The content-addressed store and its tables over runs of ingests that do not overlap, and what overlapping ones break. */
module ArtifactStore {
  import opened Prelude
  import opened ArtifactIngest
  import opened ArtifactRuns
  import opened SupersessionChains

  /** Every canonical file carries the hash of its bytes as its name. */
  ghost predicate ContentAddressed(d: Disk, hash: Hash) {
    forall name | name in d.canonical && d.canonical[name].Regular? :: hash(d.canonical[name].content) == name
  }

  predicate HasFile(d: Disk, p: Payload) {
    p.contentHash in d.canonical && d.canonical[p.contentHash].Regular?
    && |d.canonical[p.contentHash].content| == p.byteLength
  }

  /** Every payload row names an existing file of its length. */
  ghost predicate PayloadsStored(d: Disk, rows: seq<Payload>) {
    forall i | 0 <= i < |rows| :: HasFile(d, rows[i])
  }

  ghost predicate PayloadsDistinct(rows: seq<Payload>) {
    forall i, j | 0 <= i < j < |rows| :: rows[i].contentHash != rows[j].contentHash
  }

  ghost predicate ArtifactsLinked(t: Tables) {
    && (forall i | 0 <= i < |t.artifacts| :: t.artifacts[i].payload < |t.payloads|)
    && (forall i, j | 0 <= i < j < |t.artifacts| ::
          IsVersion(t.artifacts[i], t.artifacts[j].endpoint, t.artifacts[j].resource) ==>
            t.artifacts[i].payload != t.artifacts[j].payload)
  }

  ghost predicate ObservationsLinked(t: Tables) {
    && (forall i | 0 <= i < |t.observations| :: t.observations[i].artifact < |t.artifacts|)
    && (forall i, j | 0 <= i < j < |t.observations| ::
          t.observations[i].run != t.observations[j].run || t.observations[i].retrieval != t.observations[j].retrieval)
  }

  ghost predicate RejectionsDistinct(rows: seq<Rejection>) {
    forall i, j | 0 <= i < j < |rows| :: rows[i].run != rows[j].run || rows[i].retrieval != rows[j].retrieval
  }

  ghost predicate RowsLinked(t: Tables) {
    && PayloadsDistinct(t.payloads) && ArtifactsLinked(t) && VersionsChained(t.artifacts)
    && ObservationsLinked(t) && RejectionsDistinct(t.rejections)
  }

  ghost predicate Consistent(w: World, hash: Hash) {
    TokensFresh(w.disk) && ContentAddressed(w.disk, hash) && PayloadsStored(w.disk, w.tables.payloads) && RowsLinked(w.tables)
  }

  // ------------------------------------------------------------------ persistence

  lemma WithPayloadLinks(t: Tables, name: string, length: nat, format: int)
    requires RowsLinked(t) && !PayloadConflict(t, name, length, format)
    ensures var u := WithPayload(t, name, length, format); var p := PayloadOf(t, name, length);
      && RowsLinked(u) && p < |u.payloads| && u.payloads[p] == Payload(name, length, format)
      && (u.payloads == t.payloads || u.payloads == t.payloads + [Payload(name, length, format)])
  {
  }

  lemma WithArtifactLinks(t: Tables, q: Request, payload: nat, now: Instant)
    requires RowsLinked(t) && payload < |t.payloads|
    ensures var u := WithArtifact(t, q, payload, now); var a := ArtifactOf(t, q, payload);
      && RowsLinked(u) && a < |u.artifacts|
      && IsVersion(u.artifacts[a], q.endpoint, q.resource) && u.artifacts[a].payload == payload
      && t.artifacts <= u.artifacts
  {
    AcceptingExtendsChain(t, q, payload, now);
  }

  /** An accepted ingest leaves its payload, its version and its observation linked to each other. */
  ghost predicate Recorded(t: Tables, q: Request, name: string, length: nat, format: int, a: nat) {
    && a < |t.artifacts| && IsVersion(t.artifacts[a], q.endpoint, q.resource)
    && t.artifacts[a].payload < |t.payloads| && t.payloads[t.artifacts[a].payload] == Payload(name, length, format)
    && Observed(t, q, a)
  }

  /** The retrieval is recorded for this artifact. */
  ghost predicate Observed(t: Tables, q: Request, a: nat) {
    exists i | 0 <= i < |t.observations| :: IsObservation(t.observations[i], q) && t.observations[i].artifact == a
  }

  lemma WithObservationLinks(t: Tables, q: Request, a: nat)
    requires RowsLinked(t) && a < |t.artifacts| && !ObservationConflict(t, q, a)
    ensures RowsLinked(WithObservation(t, q, a)) && Observed(WithObservation(t, q, a), q, a)
  {
    var u := WithObservation(t, q, a);
    var found := FindObservation(t.observations, q);
    var i := if found.Some? then found.value else |t.observations|;
    assert IsObservation(u.observations[i], q) && u.observations[i].artifact == a;
  }

  /** Whatever the files do, an acceptance keeps the rows linked, and one that commits links its own. */
  lemma AcceptanceLinks(t: Tables, q: Request, name: string, length: nat, format: int, now: Instant)
    requires RowsLinked(t)
    ensures var (u, a) := PersistAcceptance(t, q, name, length, format, now);
      && RowsLinked(u)
      && (a.None? ==> u == t)
      && (a.Some? ==> Recorded(u, q, name, length, format, a.value))
      && (u.payloads == t.payloads || u.payloads == t.payloads + [Payload(name, length, format)])
  {
    if PersistAcceptance(t, q, name, length, format, now).1.Some? {
      var payload := PayloadOf(t, name, length);
      WithPayloadLinks(t, name, length, format);
      var t0 := WithPayload(t, name, length, format);
      WithArtifactLinks(t0, q, payload, now);
      WithObservationLinks(WithArtifact(t0, q, payload, now), q, ArtifactOf(t, q, payload));
    }
  }

  /** Accepting the same retrieval of the same bytes again returns the same artifact and writes no row. */
  lemma AcceptanceIsIdempotent(t: Tables, q: Request, name: string, length: nat, format: int, now: Instant, later: Instant)
    requires RowsLinked(t) && PersistAcceptance(t, q, name, length, format, now).1.Some?
    ensures var (u, a) := PersistAcceptance(t, q, name, length, format, now);
      PersistAcceptance(u, q, name, length, format, later) == (u, a)
  {
    var (u, a) := PersistAcceptance(t, q, name, length, format, now);
    AcceptanceLinks(t, q, name, length, format, now);
    FoundAgain(u, q, name, length, format, a.value);
  }

  lemma FoundAgain(u: Tables, q: Request, name: string, length: nat, format: int, a: nat)
    requires RowsLinked(u) && Recorded(u, q, name, length, format, a)
    ensures FindPayload(u.payloads, name, length) == Some(u.artifacts[a].payload)
    ensures FindArtifact(u.artifacts, q, u.artifacts[a].payload) == Some(a)
    ensures FindObservation(u.observations, q).Some? && u.observations[FindObservation(u.observations, q).value].artifact == a
  {
    var p := u.artifacts[a].payload;
    assert IsPayload(u.payloads[p], name, length);
    var fp := FindPayload(u.payloads, name, length).value;
    assert fp == p;
    var fa := FindArtifact(u.artifacts, q, p).value;
    assert fa == a;
    var i :| 0 <= i < |u.observations| && IsObservation(u.observations[i], q) && u.observations[i].artifact == a;
    var fo := FindObservation(u.observations, q).value;
    assert fo == i;
  }

  // ------------------------------------------------------------------ promotion

  /** The canonical files of `d` plus at most one new one, stored under its own hash. */
  ghost predicate Grown(d: Disk, t: Disk, name: string, hash: Hash) {
    || t.canonical == d.canonical
    || (name !in d.canonical && name in t.canonical && t.canonical[name].Regular? && hash(t.canonical[name].content) == name
        && t.canonical == d.canonical[name := t.canonical[name]])
  }

  lemma PromotionStores(d: Disk, token: nat, name: string, length: nat, s: Storage, hash: Hash)
    requires token in d.staging && ContentAddressed(d, hash) && s.raced.None?
    ensures var (t, r) := Promote(d, token, name, length, s, hash);
      && Grown(d, t, name, hash) && t.next == d.next && t.staging.Keys <= d.staging.Keys
      && (r.Success? ==> HasFile(t, Payload(name, length, 0)) && (r.value <==> name !in d.canonical))
  {
  }

  lemma GrownKeeps(d: Disk, t: Disk, name: string, hash: Hash, rows: seq<Payload>)
    requires ContentAddressed(d, hash) && PayloadsStored(d, rows) && Grown(d, t, name, hash)
    ensures ContentAddressed(t, hash) && PayloadsStored(t, rows)
  {
    forall i | 0 <= i < |rows| ensures HasFile(t, rows[i]) {
      assert HasFile(d, rows[i]);
    }
  }

  /** Withdrawing the file keeps the rows backed exactly when the ingest did not create it or no row names it. */
  lemma WithdrawKeepsRowsIff(d: Disk, rows: seq<Payload>, name: string, created: bool)
    requires PayloadsStored(d, rows)
    ensures PayloadsStored(Withdraw(d, name, created), rows) <==> !created || !Named(rows, name)
  {
    var t := Withdraw(d, name, created);
    if created && Named(rows, name) {
      var i :| 0 <= i < |rows| && rows[i].contentHash == name;
      assert !HasFile(t, rows[i]);
    } else {
      forall i | 0 <= i < |rows| ensures HasFile(t, rows[i]) {
        assert HasFile(d, rows[i]);
      }
    }
  }

  // ------------------------------------------------------------------ one ingest

  lemma RecordKeepsConsistent(w: World, q: Request, name: string, length: nat, format: int, created: bool, commit: Commit,
                              now: Instant, hash: Hash)
    requires Consistent(w, hash) && HasFile(w.disk, Payload(name, length, 0)) && (created ==> !Named(w.tables.payloads, name))
    ensures var (t, r) := Record(w, q, name, length, format, created, commit, now);
      && Consistent(t, hash)
      && (r.Success? ==> t.disk == w.disk && r.value.Accepted? && Recorded(t.tables, q, name, length, format, r.value.artifact))
  {
    AcceptanceLinks(w.tables, q, name, length, format, now);
    WithdrawKeepsRowsIff(w.disk, w.tables.payloads, name, created);
  }

  lemma CreatedIsUnnamed(d: Disk, rows: seq<Payload>, name: string)
    requires PayloadsStored(d, rows) && name !in d.canonical
    ensures !Named(rows, name)
  {
    forall i | 0 <= i < |rows| ensures rows[i].contentHash != name {
      assert HasFile(d, rows[i]);
    }
  }

  lemma PromoteAndRecordKeepsConsistent(w: World, q: Request, token: nat, name: string, length: nat, format: int, s: Script, hash: Hash)
    requires Consistent(w, hash) && token in w.disk.staging && s.storage.raced.None?
    ensures var (t, r) := PromoteAndRecord(w, q, token, name, length, format, s, hash);
      && Consistent(t, hash)
      && (r.Success? ==>
            && HasFile(t.disk, Payload(name, length, format))
            && r.value.Accepted? && Recorded(t.tables, q, name, length, format, r.value.artifact))
  {
    var (d, created) := Promote(w.disk, token, name, length, s.storage, hash);
    PromotionStores(w.disk, token, name, length, s.storage, hash);
    GrownKeeps(w.disk, d, name, hash, w.tables.payloads);
    if created.Success? {
      if created.value {
        CreatedIsUnnamed(w.disk, w.tables.payloads, name);
      }
      RecordKeepsConsistent(w.(disk := d), q, name, length, format, created.value, s.commit, s.now, hash);
    }
  }

  /** Only files staged under used tokens changed; nothing canonical did. */
  ghost predicate SameStore(w: World, t: World) {
    t.disk.canonical == w.disk.canonical && t.disk.next == w.disk.next && t.disk.staging.Keys <= w.disk.staging.Keys
  }

  lemma RejectKeepsConsistent(w: World, q: Request, token: nat, row: Rejection, s: Script, hash: Hash)
    requires Consistent(w, hash) && IsRejection(row, q)
    ensures Consistent(Reject(w, q, token, row, s).0, hash)
  {
    var t := Reject(w, q, token, row, s).0;
    assert SameStore(w, t);
    assert PayloadsStored(t.disk, t.tables.payloads) by {
      forall i | 0 <= i < |t.tables.payloads| ensures HasFile(t.disk, t.tables.payloads[i]) {
        assert HasFile(w.disk, w.tables.payloads[i]);
      }
    }
  }

  lemma SameStoreKeepsConsistent(w: World, t: World, hash: Hash)
    requires Consistent(w, hash) && SameStore(w, t) && t.tables == w.tables
    ensures Consistent(t, hash)
  {
    forall i | 0 <= i < |t.tables.payloads| ensures HasFile(t.disk, t.tables.payloads[i]) {
      assert HasFile(w.disk, w.tables.payloads[i]);
    }
  }

  lemma InspectKeepsConsistent(w: World, q: Request, token: nat, content: Bytes, s: Script, hash: Hash)
    requires Consistent(w, hash) && token in w.disk.staging && s.storage.raced.None?
    ensures var (t, r) := InspectAndStore(w, q, token, content, s, hash);
      && Consistent(t, hash)
      && (r.Success? && r.value.Accepted? ==>
            var format := s.inspection.format;
            HasFile(t.disk, Payload(hash(content), |content|, format))
            && Recorded(t.tables, q, hash(content), |content|, format, r.value.artifact))
  {
    var seen := w.(disk := w.disk.(staging := w.disk.staging[token := Altered(s.inspection, content)]));
    SameStoreKeepsConsistent(w, seen, hash);
    match Inspect(s.inspection, content, hash)
    case InspectionCancels =>
    case InspectionBreaks => SameStoreKeepsConsistent(seen, Raise(seen, token, s, InspectionFailed).0, hash);
    case RejectedAs(reason, format, scanned) =>
      RejectKeepsConsistent(seen, q, token, Rejection(q.run, q.retrieval, hash(content), |content|, reason, format, scanned), s, hash);
    case Cleared(format) =>
      assert format == s.inspection.format;
      PromoteAndRecordKeepsConsistent(seen, q, token, hash(content), |content|, format, s, hash);
  }

  lemma StagingKeepsConsistent(w: World, content: Bytes, hash: Hash)
    requires Consistent(w, hash)
    ensures Consistent(w.(disk := Staged(w.disk, content)), hash)
  {
    var t := w.(disk := Staged(w.disk, content));
    forall i | 0 <= i < |t.tables.payloads| ensures HasFile(t.disk, t.tables.payloads[i]) {
      assert HasFile(w.disk, w.tables.payloads[i]);
    }
  }

  /** No other bytes have the hash of these. */
  ghost predicate Unmistakable(content: Bytes, hash: Hash) {
    forall other: Bytes :: hash(other) == hash(content) ==> other == content
  }

  /**
   An ingest that nobody races keeps the store and its tables consistent on every exit; when it accepts, the
   stream's own bytes are stored under their hash and payload, version and observation point at each other.
   */
  lemma IngestKeepsConsistent(w: World, q: Request, s: Script, hash: Hash)
    requires Consistent(w, hash) && s.storage.raced.None?
    ensures var (t, r) := Ingest(w, q, s, hash);
      && Consistent(t, hash)
      && (r.Success? && r.value.Accepted? ==>
            var content := Joined(q.chunks);
            && HasFile(t.disk, Payload(hash(content), |content|, s.inspection.format))
            && (Unmistakable(content, hash) ==> t.disk.canonical[hash(content)] == Regular(content))
            && Recorded(t.tables, q, hash(content), |content|, s.inspection.format, r.value.artifact))
  {
    if Starts(q, s) {
      var token := w.disk.next;
      StagesExactly(q.chunks, q.maxBytes);
      match TakeIn(q.chunks, q.maxBytes, [])
      case Broken =>
        var staged := w.(disk := Staged(w.disk, []));
        StagingKeepsConsistent(w, [], hash);
        SameStoreKeepsConsistent(staged, Raise(staged, token, s, StreamFailed).0, hash);
      case Refused(reason, prefix) =>
        StagingKeepsConsistent(w, prefix, hash);
        RejectKeepsConsistent(w.(disk := Staged(w.disk, prefix)), q, token,
                              Rejection(q.run, q.retrieval, hash(prefix), |prefix|, reason, None, false), s, hash);
      case Collected(content) =>
        StagingKeepsConsistent(w, content, hash);
        InspectKeepsConsistent(w.(disk := Staged(w.disk, content)), q, token, content, s, hash);
    }
  }

  // ------------------------------------------------------------------ runs

  datatype Job = Job(request: Request, script: Script)

  const EMPTY_WORLD := World(Disk(map[], 0, map[]), Tables([], [], [], []))

  function Run(w: World, jobs: seq<Job>, hash: Hash): World {
    if jobs == [] then w
    else
      var last := jobs[|jobs| - 1];
      Ingest(Run(w, jobs[..|jobs| - 1], hash), last.request, last.script, hash).0
  }

  /** A run takes its ingests one after the other. */
  lemma {:induction false} RunsCompose(w: World, a: seq<Job>, b: seq<Job>, last: Job, hash: Hash)
    ensures Run(w, a + b, hash) == Run(Run(w, a, hash), b, hash) && Run(w, [], hash) == w
    ensures Run(w, [last], hash) == Ingest(w, last.request, last.script, hash).0
    decreases |b|
  {
    assert [last][..0] == [];
    if b == [] {
      assert a + b == a;
    } else {
      assert (a + b)[..|a + b| - 1] == a + b[..|b| - 1];
      RunsCompose(w, a, b[..|b| - 1], last, hash);
    }
  }

  ghost predicate NotOverlapping(jobs: seq<Job>) {
    forall k | 0 <= k < |jobs| :: jobs[k].script.storage.raced.None?
  }

  /** Over any run of ingests that do not overlap every payload row names a file that hashes to its name. */
  lemma {:induction false} RunsAreConsistent(jobs: seq<Job>, hash: Hash)
    requires NotOverlapping(jobs)
    ensures Consistent(Run(EMPTY_WORLD, jobs, hash), hash)
  {
    if jobs != [] {
      var most := jobs[..|jobs| - 1];
      RunsAreConsistent(most, hash);
      var last := jobs[|jobs| - 1];
      IngestKeepsConsistent(Run(EMPTY_WORLD, most, hash), last.request, last.script, hash);
    }
  }

  // ------------------------------------------------------------------ what the rows keep, raced or not

  lemma RejectionLinks(w: World, q: Request, token: nat, row: Rejection, s: Script)
    requires RowsLinked(w.tables) && IsRejection(row, q)
    ensures RowsLinked(Reject(w, q, token, row, s).0.tables)
  {
  }

  /** Whatever others do to the files meanwhile, an ingest keeps the rows linked. */
  lemma IngestLinks(w: World, q: Request, s: Script, hash: Hash)
    requires RowsLinked(w.tables)
    ensures RowsLinked(Ingest(w, q, s, hash).0.tables)
  {
    if Starts(q, s) {
      var token := w.disk.next;
      match TakeIn(q.chunks, q.maxBytes, [])
      case Broken =>
      case Refused(reason, prefix) =>
        RejectionLinks(w.(disk := Staged(w.disk, prefix)), q, token,
                       Rejection(q.run, q.retrieval, hash(prefix), |prefix|, reason, None, false), s);
      case Collected(content) => StoringLinks(w.(disk := Staged(w.disk, content)), q, token, content, s, hash);
    }
  }

  lemma StoringLinks(w: World, q: Request, token: nat, content: Bytes, s: Script, hash: Hash)
    requires RowsLinked(w.tables) && token in w.disk.staging
    ensures RowsLinked(InspectAndStore(w, q, token, content, s, hash).0.tables)
  {
    var seen := w.(disk := w.disk.(staging := w.disk.staging[token := Altered(s.inspection, content)]));
    match Inspect(s.inspection, content, hash)
    case InspectionCancels =>
    case InspectionBreaks =>
    case RejectedAs(reason, format, scanned) =>
      RejectionLinks(seen, q, token, Rejection(q.run, q.retrieval, hash(content), |content|, reason, format, scanned), s);
    case Cleared(format) => AcceptanceLinks(w.tables, q, hash(content), |content|, format, s.now);
  }

  lemma {:induction false} RunsLink(jobs: seq<Job>, hash: Hash)
    ensures RowsLinked(Run(EMPTY_WORLD, jobs, hash).tables)
  {
    if jobs != [] {
      RunsLink(jobs[..|jobs| - 1], hash);
      var last := jobs[|jobs| - 1];
      IngestLinks(Run(EMPTY_WORLD, jobs[..|jobs| - 1], hash), last.request, last.script, hash);
    }
  }

  /** Version `i` supersedes an earlier version of its resource, if any, and is not superseded exactly as the latest one. */
  ghost predicate InChain(rows: seq<Artifact>, i: nat) {
    && i < |rows|
    && (rows[i].supersedes.Some? ==>
          && rows[i].supersedes.value < i
          && IsVersion(rows[rows[i].supersedes.value], rows[i].endpoint, rows[i].resource))
    && (!Superseded(rows, i) <==> LastVersion(rows, rows[i].endpoint, rows[i].resource, |rows|) == Some(i))
  }

  lemma LinkedIsInChain(rows: seq<Artifact>, i: nat)
    requires VersionsChained(rows) && i < |rows|
    ensures InChain(rows, i)
  {
    assert Links(rows, VersionKey(), PriorVersion(), i);
    OneTip(rows, rows[i].endpoint, rows[i].resource, i);
  }

  /** In every run, raced or not, each resource has one acyclic chain of versions with exactly one tip, its latest version. */
  lemma {:induction false} RunsHaveOneTip(jobs: seq<Job>, hash: Hash, i: nat)
    requires i < |Run(EMPTY_WORLD, jobs, hash).tables.artifacts|
    ensures InChain(Run(EMPTY_WORLD, jobs, hash).tables.artifacts, i)
  {
    RunsLink(jobs, hash);
    LinkedIsInChain(Run(EMPTY_WORLD, jobs, hash).tables.artifacts, i);
  }

  /** In every run, raced or not, a run's retrieval is observed once, as one existing artifact. */
  lemma {:induction false} RunsObserveOnce(jobs: seq<Job>, hash: Hash, i: nat, j: nat)
    requires var rows := Run(EMPTY_WORLD, jobs, hash).tables.observations;
      && i < |rows| && j < |rows| && rows[i].run == rows[j].run && rows[i].retrieval == rows[j].retrieval
    ensures i == j && Run(EMPTY_WORLD, jobs, hash).tables.observations[i].artifact < |Run(EMPTY_WORLD, jobs, hash).tables.artifacts|
  {
    RunsLink(jobs, hash);
  }
}
