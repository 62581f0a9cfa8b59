/** The ingestion runtime as it runs: the stream loop, file operations and row inserts in place. */
module ArtifactService {
  import opened Prelude
  import opened ArtifactIngest
  import Store = ArtifactStore

  class ArtifactRuntime {
    const hash: Hash
    var staging: map<nat, Bytes>
    var next: nat
    var canonical: map<string, Entry>
    var payloads: seq<Payload>
    var artifacts: seq<Artifact>
    var observations: seq<Observation>
    var rejections: seq<Rejection>

    function Files(): Disk
      reads this
    {
      Disk(staging, next, canonical)
    }

    function Rows(): Tables
      reads this
    {
      Tables(payloads, artifacts, observations, rejections)
    }

    function State(): World
      reads this
    {
      World(Files(), Rows())
    }

    constructor (hash: Hash)
      ensures this.hash == hash && State() == World(Disk(map[], 0, map[]), Tables([], [], [], []))
      ensures Store.Consistent(State(), hash)
    {
      this.hash := hash;
      staging, next, canonical := map[], 0, map[];
      payloads, artifacts, observations, rejections := [], [], [], [];
      new;
      Store.RunsAreConsistent([], hash);
    }

    /** Write the stream to the staged file, chunk by chunk, under the byte limit. */
    method Stage(q: Request) returns (token: nat, taken: Intake)
      requires q.maxBytes > 0
      modifies this`staging, this`next
      ensures token == old(next) && taken == TakeIn(q.chunks, q.maxBytes, [])
      ensures Files() == Staged(old(Files()), match taken
                                              case Collected(content) => content
                                              case Refused(_, prefix) => prefix
                                              case Broken => [])
    {
      token := next;
      var content: Bytes := [];
      var k := 0;
      taken := Collected([]);
      var stopped := false;
      while k < |q.chunks| && !stopped
        invariant 0 <= k <= |q.chunks|
        invariant if stopped then taken == TakeIn(q.chunks, q.maxBytes, []) && !taken.Collected?
                  else TakeIn(q.chunks, q.maxBytes, []) == TakeIn(q.chunks[k..], q.maxBytes, content)
        invariant stopped && taken.Refused? ==> taken.prefix == content
        decreases |q.chunks| - k, !stopped
      {
        match q.chunks[k]
        case NotBytes => taken, stopped := Refused("invalid_stream_chunk", content), true;
        case StreamRaises => taken, stopped := Broken, true;
        case Data(bytes) =>
          var nextLength := |content| + |bytes|;
          if nextLength > q.maxBytes {
            taken, stopped := Refused("resource_limit_exceeded", content), true;
          } else {
            assert q.chunks[k..][1..] == q.chunks[k + 1..];
            content := content + bytes;
            k := k + 1;
          }
      }
      if !stopped {
        taken := if content == [] then Refused("empty_payload", content) else Collected(content);
      }
      staging := staging[token := if taken.Broken? then [] else content];
      next := next + 1;
    }

    method DeleteAndVerify(token: nat, works: bool) returns (gone: bool)
      modifies this`staging
      ensures (Files(), gone) == Delete(old(Files()), token, works)
    {
      if works || token !in staging {
        staging := staging - {token};
      }
      gone := token !in staging;
    }

    /** Hash what lies at an existing path; a special file or a read error raises. */
    method HashExisting(name: string, readFails: bool) returns (found: Option<(string, nat)>)
      requires name in canonical
      ensures found == if canonical[name].Special? || readFails then None
                       else Some((hash(canonical[name].content), |canonical[name].content|))
    {
      if canonical[name].Special? || readFails {
        return None;
      }
      found := Some((hash(canonical[name].content), |canonical[name].content|));
    }

    method PromoteFile(token: nat, name: string, length: nat, s: Storage) returns (created: Result<bool, Error>)
      requires token in staging
      modifies this`staging, this`canonical
      ensures (Files(), created) == Promote(old(Files()), token, name, length, s, hash)
    {
      if s.mkdirFails {
        return Failure(PromotionFailed);
      }
      if name in canonical {
        var existing := HashExisting(name, s.readFails);
        if existing.None? {
          return Failure(PromotionFailed);
        }
        var gone := DeleteAndVerify(token, s.deletes);
        if !gone {
          return Failure(NotDeleted);
        }
        return if existing.value != (name, length) then Failure(PromotionFailed) else Success(false);
      }
      if s.mkstempFails {
        return Failure(PromotionFailed);
      }
      created := CopyAndLink(token, name, length, s);
    }

    method CopyAndLink(token: nat, name: string, length: nat, s: Storage) returns (created: Result<bool, Error>)
      requires token in staging && name !in canonical && !s.mkdirFails && !s.mkstempFails
      modifies this`staging, this`canonical
      ensures (Files(), created) == Promote(old(Files()), token, name, length, s, hash)
    {
      var temporary := if s.copied.Some? then s.copied.value else staging[token];
      var mine := false;
      var failed := s.copyFails || hash(temporary) != name || |temporary| != length;
      if !failed {
        if s.raced.Some? {
          canonical := canonical[name := s.raced.value];
          failed := s.raced.value.Special? || !SameBytes(s.raced.value.content, name, length, hash);
        } else if s.linkFails {
          failed := true;
        } else {
          canonical := canonical[name := Regular(temporary)];
          mine := true;
        }
      }
      var gone := DeleteAndVerify(token, s.deletes);
      created := if !gone then Failure(NotDeleted) else if failed then Failure(PromotionFailed) else Success(mine);
    }

    method FindPayloadRow(name: string, length: nat) returns (found: Option<nat>)
      ensures found == FindPayload(payloads, name, length)
    {
      var n := |payloads|;
      assert payloads[..n] == payloads;
      while n > 0
        invariant 0 <= n <= |payloads| && FindPayload(payloads, name, length) == FindPayload(payloads[..n], name, length)
      {
        assert payloads[..n][..n - 1] == payloads[..n - 1];
        if IsPayload(payloads[n - 1], name, length) {
          return Some(n - 1);
        }
        n := n - 1;
      }
      found := None;
    }

    method FindArtifactRow(q: Request, payload: nat) returns (found: Option<nat>)
      ensures found == FindArtifact(artifacts, q, payload)
    {
      var n := |artifacts|;
      assert artifacts[..n] == artifacts;
      while n > 0
        invariant 0 <= n <= |artifacts| && FindArtifact(artifacts, q, payload) == FindArtifact(artifacts[..n], q, payload)
      {
        assert artifacts[..n][..n - 1] == artifacts[..n - 1];
        if IsVersion(artifacts[n - 1], q.endpoint, q.resource) && artifacts[n - 1].payload == payload {
          return Some(n - 1);
        }
        n := n - 1;
      }
      found := None;
    }

    method FindTip(endpoint: int, resource: string) returns (tip: Option<nat>)
      ensures tip == Tip(artifacts, endpoint, resource, |artifacts|)
    {
      tip := None;
      for i := 0 to |artifacts|
        invariant tip == Tip(artifacts, endpoint, resource, i)
      {
        if IsVersion(artifacts[i], endpoint, resource) && !Superseded(artifacts, i)
           && (tip.None? || artifacts[i].acceptedAt > artifacts[tip.value].acceptedAt) {
          tip := Some(i);
        }
      }
    }

    method FindObservationRow(q: Request) returns (found: Option<nat>)
      ensures found == FindObservation(observations, q)
    {
      var n := |observations|;
      assert observations[..n] == observations;
      while n > 0
        invariant 0 <= n <= |observations| && FindObservation(observations, q) == FindObservation(observations[..n], q)
      {
        assert observations[..n][..n - 1] == observations[..n - 1];
        if IsObservation(observations[n - 1], q) {
          return Some(n - 1);
        }
        n := n - 1;
      }
      found := None;
    }

    method FindRejectionRow(q: Request) returns (found: Option<nat>)
      ensures found == FindRejection(rejections, q)
    {
      var n := |rejections|;
      assert rejections[..n] == rejections;
      while n > 0
        invariant 0 <= n <= |rejections| && FindRejection(rejections, q) == FindRejection(rejections[..n], q)
      {
        assert rejections[..n][..n - 1] == rejections[..n - 1];
        if IsRejection(rejections[n - 1], q) {
          return Some(n - 1);
        }
        n := n - 1;
      }
      found := None;
    }

    method EnsurePayload(name: string, length: nat, format: int) returns (payload: nat)
      modifies this`payloads
      ensures Rows() == WithPayload(old(Rows()), name, length, format) && payload == PayloadOf(old(Rows()), name, length)
    {
      var found := FindPayloadRow(name, length);
      if found.Some? {
        return found.value;
      }
      payload := |payloads|;
      payloads := payloads + [Payload(name, length, format)];
    }

    method EnsureArtifact(q: Request, payload: nat, now: Instant) returns (artifact: nat)
      modifies this`artifacts
      ensures Rows() == WithArtifact(old(Rows()), q, payload, now) && artifact == ArtifactOf(old(Rows()), q, payload)
    {
      var found := FindArtifactRow(q, payload);
      if found.Some? {
        return found.value;
      }
      var previous := FindTip(q.endpoint, q.resource);
      artifact := |artifacts|;
      artifacts := artifacts + [Artifact(q.endpoint, q.resource, payload, previous, now)];
    }

    /** Payload, version and observation rows in one transaction; a conflict undoes what was flushed. */
    method PersistAccepted(q: Request, name: string, length: nat, format: int, now: Instant) returns (artifact: Option<nat>)
      modifies this`payloads, this`artifacts, this`observations
      ensures (Rows(), artifact) == PersistAcceptance(old(Rows()), q, name, length, format, now)
      ensures Files() == old(Files())
    {
      var saved := Rows();
      var known := FindPayloadRow(name, length);
      if known.Some? {
        if payloads[known.value].format != format {
          return None;
        }
      } else if exists i | 0 <= i < |payloads| :: payloads[i].contentHash == name {
        // The storage path is unique, so the insert fails.
        return None;
      }
      var payload := EnsurePayload(name, length, format);
      var version := EnsureArtifact(q, payload, now);
      var observation := FindObservationRow(q);
      if observation.None? {
        observations := observations + [Observation(q.run, q.retrieval, version)];
      } else if observations[observation.value].artifact != version {
        payloads, artifacts := saved.payloads, saved.artifacts;
        return None;
      }
      artifact := Some(version);
    }

    method PersistRejected(q: Request, token: nat, row: Rejection, commit: Commit) returns (r: Result<Outcome, Error>)
      modifies this`rejections
      ensures (State(), r) == PersistRejection(old(State()), q, token, row, commit)
    {
      if token in staging {
        return Failure(NotDeleted);
      }
      if commit != Commits {
        return Failure(if commit == Fails then PersistenceFailed else PersistenceCancelled);
      }
      var existing := FindRejectionRow(q);
      if existing.Some? {
        return Success(Rejected(existing.value, row.reason));
      }
      rejections := rejections + [row];
      r := Success(Rejected(|rejections| - 1, row.reason));
    }

    method RejectStaged(q: Request, token: nat, row: Rejection, s: Script) returns (r: Result<Outcome, Error>)
      modifies this`staging, this`rejections
      ensures (State(), r) == Reject(old(State()), q, token, row, s)
    {
      var gone := DeleteAndVerify(token, s.storage.deletes);
      if !gone {
        return Failure(NotDeleted);
      }
      r := PersistRejected(q, token, row, s.commit);
    }

    method RaiseStaged(token: nat, s: Script, error: Error) returns (r: Result<Outcome, Error>)
      modifies this`staging
      ensures (State(), r) == Raise(old(State()), token, s, error)
    {
      var gone := DeleteAndVerify(token, s.storage.deletes);
      r := Failure(if gone then error else NotDeleted);
    }

    method RecordAccepted(q: Request, name: string, length: nat, format: int, created: bool, commit: Commit, now: Instant)
      returns (r: Result<Outcome, Error>)
      modifies this`canonical, this`payloads, this`artifacts, this`observations
      ensures (State(), r) == Record(old(State()), q, name, length, format, created, commit, now)
    {
      if commit == CommitCancelled {
        return Failure(PersistenceCancelled);
      }
      var saved := Rows();
      var artifact := PersistAccepted(q, name, length, format, now);
      if commit == Fails || artifact.None? {
        payloads, artifacts, observations := saved.payloads, saved.artifacts, saved.observations;
        if created {
          canonical := canonical - {name};
        }
        return Failure(PersistenceFailed);
      }
      r := Success(Accepted(artifact.value));
    }

    /** The inspections one after the other; the first that does not pass ends them, and a refusal raises its reason. */
    method RunInspections(i: Inspection, content: Bytes) returns (verdict: Verdict)
      ensures verdict == Inspect(i, content, hash)
    {
      match i.detection {
        case Cancels => return InspectionCancels;
        case Raises => return InspectionBreaks;
        case Refuses(reason) => return RejectedAs(reason, None, false);
        case Passes =>
      }
      var detected := Some(i.format);
      match i.declared {
        case Cancels => return InspectionCancels;
        case Raises => return InspectionBreaks;
        case Refuses(reason) => return RejectedAs(reason, detected, false);
        case Passes =>
      }
      match i.scan {
        case Cancels => return InspectionCancels;
        case Raises => return RejectedAs("scanner_failure", detected, false);
        case Refuses(reason) => return RejectedAs(reason, detected, true);
        case Passes =>
      }
      if !i.parserKnown {
        return RejectedAs("unsupported_safe_parser", detected, true);
      }
      match i.parse {
        case Cancels => return InspectionCancels;
        case Raises => return RejectedAs("safe_parser_failure", detected, true);
        case Refuses(reason) => return RejectedAs(reason, detected, true);
        case Passes =>
      }
      var current := Altered(i, content);
      verdict := if hash(current) != hash(content) || |current| != |content| then RejectedAs("changing_hash", None, true)
                 else Cleared(i.format);
    }

    method InspectStaged(q: Request, token: nat, content: Bytes, s: Script) returns (r: Result<Outcome, Error>)
      requires token in staging
      modifies this
      ensures (State(), r) == InspectAndStore(old(State()), q, token, content, s, hash)
    {
      staging := staging[token := Altered(s.inspection, content)];
      var verdict := RunInspections(s.inspection, content);
      match verdict
      case InspectionCancels => r := Failure(InspectionCancelled);
      case InspectionBreaks => r := RaiseStaged(token, s, InspectionFailed);
      case RejectedAs(reason, format, scanned) =>
        r := RejectStaged(q, token, Rejection(q.run, q.retrieval, hash(content), |content|, reason, format, scanned), s);
      case Cleared(format) =>
        var created := PromoteFile(token, hash(content), |content|, s.storage);
        if created.Failure? {
          return Failure(created.error);
        }
        r := RecordAccepted(q, hash(content), |content|, format, created.value, s.commit, s.now);
    }

    /** One ingest from the open stream to its outcome. */
    method IngestStream(q: Request, s: Script) returns (r: Result<Outcome, Error>)
      modifies this
      ensures (State(), r) == Ingest(old(State()), q, s, hash)
      ensures old(Store.Consistent(State(), hash)) && s.storage.raced.None? ==> Store.Consistent(State(), hash)
    {
      if s.storage.raced.None? && Store.Consistent(State(), hash) {
        Store.IngestKeepsConsistent(State(), q, s, hash);
      }
      if !q.wellFormed || q.maxBytes <= 0 {
        return Failure(InvalidRequest);
      }
      if !s.ready {
        return Failure(Unavailable);
      }
      if !s.stageable {
        return Failure(StagingFailed);
      }
      var token, taken := Stage(q);
      match taken
      case Broken => r := RaiseStaged(token, s, StreamFailed);
      case Refused(reason, prefix) =>
        r := RejectStaged(q, token, Rejection(q.run, q.retrieval, hash(prefix), |prefix|, reason, None, false), s);
      case Collected(content) => r := InspectStaged(q, token, content, s);
    }
  }
}
