/**
 Any number of ingests at once. Staging and inspection touch an ingest's own file only; looking for the canonical path,
 linking it, persisting the rows and withdrawing the file after a failure are separate steps, and others may come between.
 */
module ArtifactOverlap {
  import opened Prelude
  import opened ArtifactIngest
  import opened ArtifactRuns
  import opened ArtifactStore

  /** Where one ingest stands between two steps; a promoted one relies on a file that no row of its own names yet. */
  datatype Phase =
    | Waiting
    | Inspected(token: nat, name: string, length: nat, format: int)
    | Copied(token: nat, name: string, length: nat, format: int, copy: Bytes)
    | Promoted(name: string, length: nat, format: int, created: bool)
    | Withdrawing(name: string, created: bool)
    | Done(result: Result<Outcome, Error>)

  datatype Actor = Actor(request: Request, phase: Phase)

  datatype Floor = Floor(world: World, actors: seq<Actor>)

  function Moved(f: Floor, i: nat, world: World, phase: Phase): Floor
    requires i < |f.actors|
  {
    Floor(world, f.actors[i := f.actors[i].(phase := phase)])
  }

  function Ended(outcome: (World, Result<Outcome, Error>)): (World, Phase) {
    (outcome.0, Done(outcome.1))
  }

  // ------------------------------------------------------------------ the steps of one ingest

  /** From the request to a cleared verdict, or to the end. */
  function Examined(w: World, q: Request, s: Script, hash: Hash): (World, Phase) {
    if !q.wellFormed || q.maxBytes <= 0 then (w, Done(Failure(InvalidRequest)))
    else if !s.ready then (w, Done(Failure(Unavailable)))
    else if !s.stageable then (w, Done(Failure(StagingFailed)))
    else
      var token := w.disk.next;
      match TakeIn(q.chunks, q.maxBytes, [])
      case Broken => Ended(Raise(w.(disk := Staged(w.disk, [])), token, s, StreamFailed))
      case Refused(reason, prefix) =>
        Ended(Reject(w.(disk := Staged(w.disk, prefix)), q, token,
                     Rejection(q.run, q.retrieval, hash(prefix), |prefix|, reason, None, false), s))
      case Collected(content) =>
        var staged := w.(disk := Staged(w.disk, content));
        var seen := staged.(disk := staged.disk.(staging := staged.disk.staging[token := Altered(s.inspection, content)]));
        match Inspect(s.inspection, content, hash)
        case InspectionCancels => (seen, Done(Failure(InspectionCancelled)))
        case InspectionBreaks => Ended(Raise(seen, token, s, InspectionFailed))
        case RejectedAs(reason, format, scanned) =>
          Ended(Reject(seen, q, token, Rejection(q.run, q.retrieval, hash(content), |content|, reason, format, scanned), s))
        case Cleared(format) => (seen, Inspected(token, hash(content), |content|, format))
  }

  /** The file is in its place, or the promotion raised. */
  function Settled(w: World, p: Phase, r: (Disk, Result<bool, Error>)): (World, Phase)
    requires p.Inspected? || p.Copied?
  {
    (w.(disk := r.0), if r.1.Success? then Promoted(p.name, p.length, p.format, r.1.value) else Done(Failure(r.1.error)))
  }

  /** Take an existing file, or copy the staged bytes beside their path. */
  function Looked(w: World, p: Phase, s: Storage, hash: Hash): (World, Phase)
    requires p.Inspected?
  {
    var d := w.disk;
    if s.mkdirFails then (w, Done(Failure(PromotionFailed)))
    else if p.name in d.canonical then Settled(w, p, Reuse(d, p.token, p.name, p.length, s, hash))
    else if s.mkstempFails then (w, Done(Failure(PromotionFailed)))
    else if p.token !in d.staging then Settled(w, p, Abandon(d, p.token, s.deletes))
    else
      var copy := if s.copied.Some? then s.copied.value else d.staging[p.token];
      if s.copyFails || !SameBytes(copy, p.name, p.length, hash) then Settled(w, p, Abandon(d, p.token, s.deletes))
      else (w, Copied(p.token, p.name, p.length, p.format, copy))
  }

  /** Link the copy, unless somebody linked the path since this ingest looked. */
  function Linked(w: World, p: Phase, s: Storage, hash: Hash): (World, Phase)
    requires p.Copied?
  {
    var raced := if p.name in w.disk.canonical then Some(w.disk.canonical[p.name]) else None;
    Settled(w, p, Link(w.disk, p.token, p.name, p.copy, s.(raced := raced), hash))
  }

  function Persisted(w: World, q: Request, p: Phase, commit: Commit, now: Instant): (World, Phase)
    requires p.Promoted?
  {
    if commit == CommitCancelled then (w, Done(Failure(PersistenceCancelled)))
    else
      var (t, artifact) := PersistAcceptance(w.tables, q, p.name, p.length, p.format, now);
      if commit == Fails || artifact.None? then (w, Withdrawing(p.name, p.created))
      else (w.(tables := t), Done(Success(Accepted(artifact.value))))
  }

  datatype Step =
    | Examine(script: Script)
    | Look(storage: Storage)
    | LinkUp(storage: Storage)
    | Persist(commit: Commit, now: Instant)
    | Unlink

  /** What the step does to the world and to its ingest; a step out of turn does nothing. */
  function Stepped(w: World, a: Actor, step: Step, hash: Hash): (World, Phase) {
    match step
    case Examine(s) => if a.phase.Waiting? then Examined(w, a.request, s, hash) else (w, a.phase)
    case Look(s) => if a.phase.Inspected? then Looked(w, a.phase, s, hash) else (w, a.phase)
    case LinkUp(s) => if a.phase.Copied? then Linked(w, a.phase, s, hash) else (w, a.phase)
    case Persist(commit, now) => if a.phase.Promoted? then Persisted(w, a.request, a.phase, commit, now) else (w, a.phase)
    case Unlink =>
      if a.phase.Withdrawing? then
        (w.(disk := Withdraw(w.disk, a.phase.name, a.phase.created)), Done(Failure(PersistenceFailed)))
      else (w, a.phase)
  }

  /** The step is not the one its ingest waits for. */
  predicate OutOfTurn(a: Actor, step: Step) {
    match a.phase
    case Waiting => !step.Examine?
    case Inspected(_, _, _, _) => !step.Look?
    case Copied(_, _, _, _, _) => !step.LinkUp?
    case Promoted(_, _, _, _) => !step.Persist?
    case Withdrawing(_, _) => !step.Unlink?
    case Done(_) => true
  }

  lemma OutOfTurnIsIdle(w: World, a: Actor, step: Step, hash: Hash)
    requires OutOfTurn(a, step)
    ensures Stepped(w, a, step, hash) == (w, a.phase)
  {
  }

  datatype Event = Event(actor: nat, step: Step)

  function Apply(f: Floor, e: Event, hash: Hash): Floor {
    if e.actor >= |f.actors| then f
    else
      var (w, p) := Stepped(f.world, f.actors[e.actor], e.step, hash);
      Moved(f, e.actor, w, p)
  }

  function RunEvents(f: Floor, events: seq<Event>, hash: Hash): Floor {
    if events == [] then f else Apply(RunEvents(f, events[..|events| - 1], hash), events[|events| - 1], hash)
  }

  function Opening(requests: seq<Request>): Floor {
    Floor(EMPTY_WORLD, seq(|requests|, i requires 0 <= i < |requests| => Actor(requests[i], Waiting)))
  }

  // ------------------------------------------------------------------ one ingest alone

  /** The steps of one ingest, in their order. */
  function WholeIngest(s: Script): seq<Event> {
    [Event(0, Examine(s)), Event(0, Look(s.storage)), Event(0, LinkUp(s.storage)), Event(0, Persist(s.commit, s.now)),
     Event(0, Unlink)]
  }

  /** The steps of one ingest with nobody in between do what the whole ingest does. */
  lemma AloneIsIngest(w: World, q: Request, s: Script, hash: Hash)
    requires s.storage.raced.None?
    ensures var (t, r) := Ingest(w, q, s, hash);
      RunEvents(Floor(w, [Actor(q, Waiting)]), WholeIngest(s), hash) == Floor(t, [Actor(q, Done(r))])
  {
    var steps := [Examine(s), Look(s.storage), LinkUp(s.storage), Persist(s.commit, s.now), Unlink];
    var events := WholeIngest(s);
    var f := Floor(w, [Actor(q, Waiting)]);
    var (w1, p1) := Stepped(w, Actor(q, Waiting), steps[0], hash);
    var (w2, p2) := Stepped(w1, Actor(q, p1), steps[1], hash);
    var (w3, p3) := Stepped(w2, Actor(q, p2), steps[2], hash);
    var (w4, p4) := Stepped(w3, Actor(q, p3), steps[3], hash);
    AloneSteps(f, w, q, Waiting, events, 0, hash);
    AloneSteps(f, w1, q, p1, events, 1, hash);
    AloneSteps(f, w2, q, p2, events, 2, hash);
    AloneSteps(f, w3, q, p3, events, 3, hash);
    AloneSteps(f, w4, q, p4, events, 4, hash);
    assert events[..5] == events;
    ExaminedThenStored(w, q, s, hash);
    if p1.Inspected? {
      PromotedThenRecorded(w1, q, p1, s, hash);
    }
  }

  lemma AloneSteps(f: Floor, w: World, q: Request, p: Phase, events: seq<Event>, k: nat, hash: Hash)
    requires k < |events| && events[k].actor == 0 && RunEvents(f, events[..k], hash) == Floor(w, [Actor(q, p)])
    ensures var (t, next) := Stepped(w, Actor(q, p), events[k].step, hash);
      RunEvents(f, events[..k + 1], hash) == Floor(t, [Actor(q, next)])
  {
    assert events[..k + 1][..k] == events[..k];
  }

  lemma ExaminedThenStored(w: World, q: Request, s: Script, hash: Hash)
    ensures var (w1, p1) := Examined(w, q, s, hash);
      && (p1.Done? || p1.Inspected?)
      && (p1.Done? ==> Ingest(w, q, s, hash) == (w1, p1.result))
      && (p1.Inspected? ==>
            && p1.token in w1.disk.staging
            && Ingest(w, q, s, hash) == PromoteAndRecord(w1, q, p1.token, p1.name, p1.length, p1.format, s, hash))
  {
  }

  lemma PromotedThenRecorded(w: World, q: Request, p: Phase, s: Script, hash: Hash)
    requires p.Inspected? && p.token in w.disk.staging && s.storage.raced.None?
    ensures var a1 := Stepped(w, Actor(q, p), Look(s.storage), hash);
      var a2 := Stepped(a1.0, Actor(q, a1.1), LinkUp(s.storage), hash);
      var a3 := Stepped(a2.0, Actor(q, a2.1), Persist(s.commit, s.now), hash);
      var a4 := Stepped(a3.0, Actor(q, a3.1), Unlink, hash);
      var (t, r) := PromoteAndRecord(w, q, p.token, p.name, p.length, p.format, s, hash);
      a4 == (t, Done(r))
  {
    var a1 := Stepped(w, Actor(q, p), Look(s.storage), hash);
    var a2 := Stepped(a1.0, Actor(q, a1.1), LinkUp(s.storage), hash);
    var (d, r) := Promote(w.disk, p.token, p.name, p.length, s.storage, hash);
    assert a1.1.Copied? ==> s.storage.(raced := None) == s.storage;
    assert a2 == Settled(w, p, (d, r));
  }

  // ------------------------------------------------------------------ what every step but a withdrawal keeps

  /** A verified copy has the bytes its name promises. */
  predicate Verified(p: Phase, hash: Hash) {
    p.Copied? ==> SameBytes(p.copy, p.name, p.length, hash)
  }

  /** The file a promoted ingest relies on is there. */
  predicate Supported(d: Disk, p: Phase) {
    p.Promoted? ==> HasFile(d, Payload(p.name, p.length, p.format))
  }

  ghost predicate KeepsFiles(d: Disk, t: Disk) {
    forall name | name in d.canonical :: name in t.canonical && t.canonical[name] == d.canonical[name]
  }

  lemma ExaminedKeeps(w: World, q: Request, s: Script, hash: Hash)
    ensures var (t, p) := Examined(w, q, s, hash);
      && t.disk.canonical == w.disk.canonical && t.tables.payloads == w.tables.payloads
      && !p.Copied? && !p.Promoted? && !p.Withdrawing?
  {
  }

  lemma SettledKeeps(w: World, a: Actor, step: Step, hash: Hash)
    requires step.Look? || step.LinkUp?
    requires Verified(a.phase, hash) && Supported(w.disk, a.phase)
    ensures var (t, p) := Stepped(w, a, step, hash);
      && KeepsFiles(w.disk, t.disk) && t.tables == w.tables && Verified(p, hash) && Supported(t.disk, p)
  {
  }

  lemma PersistedKeeps(w: World, q: Request, p: Phase, commit: Commit, now: Instant)
    requires p.Promoted? && Supported(w.disk, p) && PayloadsStored(w.disk, w.tables.payloads)
    ensures var (t, after) := Persisted(w, q, p, commit, now);
      && t.disk == w.disk && (after.Withdrawing? || after.Done?) && PayloadsStored(t.disk, t.tables.payloads)
  {
    var t := Persisted(w, q, p, commit, now).0;
    forall i | 0 <= i < |t.tables.payloads| ensures HasFile(t.disk, t.tables.payloads[i]) {
      if i < |w.tables.payloads| {
        assert HasFile(w.disk, w.tables.payloads[i]);
        assert t.tables.payloads[i] == w.tables.payloads[i];
      }
    }
  }

  lemma KeptFilesStore(d: Disk, t: Disk, rows: seq<Payload>)
    requires KeepsFiles(d, t) && PayloadsStored(d, rows)
    ensures PayloadsStored(t, rows)
  {
    forall i | 0 <= i < |rows| ensures HasFile(t, rows[i]) {
      assert HasFile(d, rows[i]);
    }
  }

  predicate Withdraws(a: Actor, step: Step) {
    step.Unlink? && a.phase.Withdrawing?
  }

  /** Any step but a withdrawal leaves every file in place and supports what it promotes and the rows it writes. */
  lemma SteppedKeeps(w: World, a: Actor, step: Step, hash: Hash)
    requires !Withdraws(a, step) && Verified(a.phase, hash) && Supported(w.disk, a.phase)
    requires PayloadsStored(w.disk, w.tables.payloads)
    ensures var (t, p) := Stepped(w, a, step, hash);
      && KeepsFiles(w.disk, t.disk) && PayloadsStored(t.disk, t.tables.payloads) && Verified(p, hash) && Supported(t.disk, p)
  {
    var t := Stepped(w, a, step, hash).0;
    match step
    case Examine(s) =>
      ExaminedKeeps(w, a.request, s, hash);
      KeptFilesStore(w.disk, t.disk, w.tables.payloads);
    case Look(_) =>
      SettledKeeps(w, a, step, hash);
      KeptFilesStore(w.disk, t.disk, w.tables.payloads);
    case LinkUp(_) =>
      SettledKeeps(w, a, step, hash);
      KeptFilesStore(w.disk, t.disk, w.tables.payloads);
    case Persist(commit, now) =>
      if a.phase.Promoted? {
        PersistedKeeps(w, a.request, a.phase, commit, now);
      }
    case Unlink =>
  }

  // ------------------------------------------------------------------ the invariant and when it breaks

  ghost predicate AllVerified(f: Floor, hash: Hash) {
    forall i | 0 <= i < |f.actors| :: Verified(f.actors[i].phase, hash)
  }

  /** Every payload row and every promoted ingest still on its way finds its file. */
  ghost predicate Backed(f: Floor) {
    && PayloadsStored(f.world.disk, f.world.tables.payloads)
    && forall i | 0 <= i < |f.actors| :: Supported(f.world.disk, f.actors[i].phase)
  }

  /** Some ingest has promoted to this path and not written its row yet. */
  predicate Relied(f: Floor, name: string) {
    exists i | 0 <= i < |f.actors| :: f.actors[i].phase.Promoted? && f.actors[i].phase.name == name
  }

  /** The event is a withdrawal, and of a file that somebody needs. */
  predicate Harms(f: Floor, e: Event) {
    && e.actor < |f.actors| && Withdraws(f.actors[e.actor], e.step)
    && var p := f.actors[e.actor].phase;
       p.created && (Named(f.world.tables.payloads, p.name) || Relied(f, p.name))
  }

  lemma StepKeepsVerified(f: Floor, e: Event, hash: Hash)
    requires AllVerified(f, hash)
    ensures AllVerified(Apply(f, e, hash), hash)
  {
    if e.actor < |f.actors| {
      var a := f.actors[e.actor];
      assert Verified(a.phase, hash);
      if e.step.Examine? {
        ExaminedKeeps(f.world, a.request, e.step.script, hash);
      }
      assert Verified(Stepped(f.world, a, e.step, hash).1, hash);
    }
  }

  lemma OtherStepsKeepBacked(f: Floor, e: Event, hash: Hash)
    requires AllVerified(f, hash) && Backed(f) && e.actor < |f.actors| && !Withdraws(f.actors[e.actor], e.step)
    ensures Backed(Apply(f, e, hash))
  {
    var a := f.actors[e.actor];
    SteppedKeeps(f.world, a, e.step, hash);
    var t := Apply(f, e, hash);
    forall i | 0 <= i < |t.actors| ensures Supported(t.world.disk, t.actors[i].phase) {
      if i != e.actor {
        assert Supported(f.world.disk, f.actors[i].phase);
      }
    }
  }

  /**
   The exact reach of the clean-up after a failed persistence: a withdrawal leaves every row and every ingest on its way
   with its file if and only if the withdrawing ingest did not create the file, or no row names it and no other ingest
   has promoted to it and is still to write its row.
   */
  lemma WithdrawIsSafeIff(f: Floor, i: nat, hash: Hash)
    requires Backed(f) && i < |f.actors| && f.actors[i].phase.Withdrawing?
    ensures var p := f.actors[i].phase;
      Backed(Apply(f, Event(i, Unlink), hash)) <==> !p.created || (!Named(f.world.tables.payloads, p.name) && !Relied(f, p.name))
  {
    var p, t := f.actors[i].phase, Apply(f, Event(i, Unlink), hash);
    var rows := f.world.tables.payloads;
    WithdrawKeepsRowsIff(f.world.disk, rows, p.name, p.created);
    if p.created && Relied(f, p.name) {
      var j :| 0 <= j < |f.actors| && f.actors[j].phase.Promoted? && f.actors[j].phase.name == p.name;
      assert t.actors[j] == f.actors[j] && !Supported(t.world.disk, t.actors[j].phase);
    } else {
      forall j | 0 <= j < |t.actors| ensures Supported(t.world.disk, t.actors[j].phase) {
        assert Supported(f.world.disk, f.actors[j].phase);
      }
    }
  }

  lemma StepKeepsBackedIff(f: Floor, e: Event, hash: Hash)
    requires AllVerified(f, hash) && Backed(f)
    ensures Backed(Apply(f, e, hash)) <==> !Harms(f, e)
  {
    if e.actor < |f.actors| {
      if Withdraws(f.actors[e.actor], e.step) {
        WithdrawIsSafeIff(f, e.actor, hash);
        assert e == Event(e.actor, Unlink);
      } else {
        OtherStepsKeepBacked(f, e, hash);
      }
    }
  }

  // ------------------------------------------------------------------ runs

  lemma OpeningIsSound(requests: seq<Request>, hash: Hash)
    ensures AllVerified(Opening(requests), hash) && Backed(Opening(requests))
    ensures RowsLinked(Opening(requests).world.tables) && ContentAddressed(Opening(requests).world.disk, hash)
  {
  }

  lemma {:induction false} RunsKeepVerified(requests: seq<Request>, events: seq<Event>, hash: Hash)
    ensures AllVerified(RunEvents(Opening(requests), events, hash), hash)
  {
    OpeningIsSound(requests, hash);
    if events != [] {
      RunsKeepVerified(requests, events[..|events| - 1], hash);
      StepKeepsVerified(RunEvents(Opening(requests), events[..|events| - 1], hash), events[|events| - 1], hash);
    }
  }

  /** The state after the first `k` events. */
  function After(requests: seq<Request>, events: seq<Event>, k: nat, hash: Hash): Floor
    requires k <= |events|
  {
    RunEvents(Opening(requests), events[..k], hash)
  }

  /** Event `k` of the run is a harmful withdrawal. */
  ghost predicate HarmsAt(requests: seq<Request>, events: seq<Event>, k: nat, hash: Hash) {
    k < |events| && Harms(After(requests, events, k, hash), events[k])
  }

  ghost predicate BackedAt(requests: seq<Request>, events: seq<Event>, k: nat, hash: Hash) {
    k <= |events| && Backed(After(requests, events, k, hash))
  }

  /**
   Over any interleaving of any number of ingests, whatever fails in them: every payload row and every promoted ingest
   finds its file at every moment up to event `n` if and only if no withdrawal up to then was of a file somebody needed.
   */
  lemma {:induction false} BackedIffNoHarm(requests: seq<Request>, events: seq<Event>, n: nat, hash: Hash)
    requires n <= |events|
    ensures (forall k: nat | k <= n :: BackedAt(requests, events, k, hash))
       <==> (forall k: nat | k < n :: !HarmsAt(requests, events, k, hash))
    decreases n
  {
    OpeningIsSound(requests, hash);
    if n == 0 {
      assert After(requests, events, 0, hash) == Opening(requests);
    } else {
      BackedIffNoHarm(requests, events, n - 1, hash);
      var f := After(requests, events, n - 1, hash);
      assert events[..n][..n - 1] == events[..n - 1];
      assert After(requests, events, n, hash) == Apply(f, events[n - 1], hash);
      RunsKeepVerified(requests, events[..n - 1], hash);
      if BackedAt(requests, events, n - 1, hash) {
        StepKeepsBackedIff(f, events[n - 1], hash);
        assert BackedAt(requests, events, n, hash) <==> !HarmsAt(requests, events, n - 1, hash);
      }
    }
  }

  // ------------------------------------------------------------------ what every interleaving keeps

  lemma StepKeepsAddresses(f: Floor, e: Event, hash: Hash)
    requires AllVerified(f, hash) && ContentAddressed(f.world.disk, hash)
    ensures ContentAddressed(Apply(f, e, hash).world.disk, hash)
  {
    if e.actor < |f.actors| {
      var a := f.actors[e.actor];
      assert Verified(a.phase, hash);
      if e.step.Examine? {
        ExaminedKeeps(f.world, a.request, e.step.script, hash);
      }
    }
  }

  lemma ExaminedLinks(w: World, q: Request, s: Script, hash: Hash)
    requires RowsLinked(w.tables)
    ensures RowsLinked(Examined(w, q, s, hash).0.tables)
  {
    if Starts(q, s) {
      var token := w.disk.next;
      match TakeIn(q.chunks, q.maxBytes, [])
      case Broken =>
      case Refused(reason, prefix) =>
        RejectionLinks(w.(disk := Staged(w.disk, prefix)), q, token,
                       Rejection(q.run, q.retrieval, hash(prefix), |prefix|, reason, None, false), s);
      case Collected(content) =>
        var seen := w.(disk := Staged(w.disk, content).(staging := Staged(w.disk, content).staging[token := Altered(s.inspection, content)]));
        match Inspect(s.inspection, content, hash) {
          case RejectedAs(reason, format, scanned) =>
            RejectionLinks(seen, q, token, Rejection(q.run, q.retrieval, hash(content), |content|, reason, format, scanned), s);
          case _ =>
        }
    }
  }

  lemma StepKeepsRows(f: Floor, e: Event, hash: Hash)
    requires RowsLinked(f.world.tables)
    ensures RowsLinked(Apply(f, e, hash).world.tables)
  {
    if e.actor < |f.actors| {
      var a := f.actors[e.actor];
      match e.step
      case Examine(s) => ExaminedLinks(f.world, a.request, s, hash);
      case Persist(commit, now) =>
        if a.phase.Promoted? {
          AcceptanceLinks(f.world.tables, a.request, a.phase.name, a.phase.length, a.phase.format, now);
        }
      case _ =>
    }
  }

  /** Over any interleaving every canonical file hashes to its name, and the rows stay linked. */
  lemma {:induction false} InterleavingsKeepAddresses(requests: seq<Request>, events: seq<Event>, hash: Hash)
    ensures var f := RunEvents(Opening(requests), events, hash);
      ContentAddressed(f.world.disk, hash) && RowsLinked(f.world.tables)
  {
    OpeningIsSound(requests, hash);
    if events != [] {
      var most := events[..|events| - 1];
      InterleavingsKeepAddresses(requests, most, hash);
      RunsKeepVerified(requests, most, hash);
      StepKeepsAddresses(RunEvents(Opening(requests), most, hash), events[|events| - 1], hash);
      StepKeepsRows(RunEvents(Opening(requests), most, hash), events[|events| - 1], hash);
    }
  }

  /** Over any interleaving each resource has one acyclic chain of versions with exactly one tip, its latest version. */
  lemma {:induction false} InterleavingsHaveOneTip(requests: seq<Request>, events: seq<Event>, hash: Hash, i: nat)
    requires i < |RunEvents(Opening(requests), events, hash).world.tables.artifacts|
    ensures InChain(RunEvents(Opening(requests), events, hash).world.tables.artifacts, i)
  {
    InterleavingsKeepAddresses(requests, events, hash);
    LinkedIsInChain(RunEvents(Opening(requests), events, hash).world.tables.artifacts, i);
  }

  /** Over any interleaving a run's retrieval is observed once, as one existing artifact. */
  lemma {:induction false} InterleavingsObserveOnce(requests: seq<Request>, events: seq<Event>, hash: Hash, i: nat, j: nat)
    requires var rows := RunEvents(Opening(requests), events, hash).world.tables.observations;
      && i < |rows| && j < |rows| && rows[i].run == rows[j].run && rows[i].retrieval == rows[j].retrieval
    ensures var t := RunEvents(Opening(requests), events, hash).world.tables;
      i == j && t.observations[i].artifact < |t.artifacts|
  {
    InterleavingsKeepAddresses(requests, events, hash);
  }

  // ------------------------------------------------------------------ two ways to lose a file

  /** A request for these bytes, and a script in which nothing goes wrong. */
  predicate Offers(q: Request, content: Bytes) {
    q.wellFormed && content != [] && |content| <= q.maxBytes && q.chunks == [Data(content)]
  }

  const CALM := Storage(true, false, false, false, false, None, false, None)
  const SMOOTH := Script(true, true, Inspection(Passes, 0, Passes, Passes, true, Passes, None), CALM, Commits, 0)

  lemma OfferIsInspected(w: World, q: Request, content: Bytes, hash: Hash)
    requires Offers(q, content)
    ensures Examined(w, q, SMOOTH, hash)
         == (w.(disk := Staged(w.disk, content)), Inspected(w.disk.next, hash(content), |content|, 0))
  {
    assert TakeIn(q.chunks, q.maxBytes, []) == Collected(content) by {
      assert [] + content == content;
      assert TakeIn(q.chunks[1..], q.maxBytes, content) == Collected(content);
    }
    assert Staged(w.disk, content).staging[w.disk.next := content] == Staged(w.disk, content).staging;
  }

  /** Both ingests of the same bytes have promoted: the first created the file, the second found it. */
  function Shared(first: Request, second: Request, content: Bytes, hash: Hash): Floor {
    Floor(World(Disk(map[], 2, map[hash(content) := Regular(content)]), Tables([], [], [], [])),
          [Actor(first, Promoted(hash(content), |content|, 0, true)), Actor(second, Promoted(hash(content), |content|, 0, false))])
  }

  const BOTH_PROMOTE: seq<Event> := [Event(0, Examine(SMOOTH)), Event(0, Look(CALM)), Event(0, LinkUp(CALM)),
                                     Event(1, Examine(SMOOTH)), Event(1, Look(CALM))]

  lemma RunNext(f: Floor, events: seq<Event>, k: nat, hash: Hash)
    requires k < |events|
    ensures RunEvents(f, events[..k + 1], hash) == Apply(RunEvents(f, events[..k], hash), events[k], hash)
  {
    assert events[..k + 1][..k] == events[..k];
  }

  lemma BothPromote(first: Request, second: Request, content: Bytes, hash: Hash)
    requires Offers(first, content) && Offers(second, content)
    ensures RunEvents(Opening([first, second]), BOTH_PROMOTE, hash) == Shared(first, second, content, hash)
  {
    var name, n := hash(content), |content|;
    var tables := Tables([], [], [], []);
    var f0 := Opening([first, second]);
    var waiting := Actor(second, Waiting);
    OfferIsInspected(EMPTY_WORLD, first, content, hash);
    var f1 := Floor(World(Disk(map[0 := content], 1, map[]), tables), [Actor(first, Inspected(0, name, n, 0)), waiting]);
    assert Apply(f0, BOTH_PROMOTE[0], hash) == f1;
    var f2 := Floor(f1.world, [Actor(first, Copied(0, name, n, 0, content)), waiting]);
    assert Apply(f1, BOTH_PROMOTE[1], hash) == f2;
    var stored := World(Disk(map[], 1, map[name := Regular(content)]), tables);
    var f3 := Floor(stored, [Actor(first, Promoted(name, n, 0, true)), waiting]);
    assert Apply(f2, BOTH_PROMOTE[2], hash) == f3;
    OfferIsInspected(stored, second, content, hash);
    var f4 := Floor(stored.(disk := Staged(stored.disk, content)),
                    [Actor(first, Promoted(name, n, 0, true)), Actor(second, Inspected(1, name, n, 0))]);
    assert Apply(f3, BOTH_PROMOTE[3], hash) == f4;
    assert Apply(f4, BOTH_PROMOTE[4], hash) == Shared(first, second, content, hash);
    RunNext(f0, BOTH_PROMOTE, 0, hash);
    RunNext(f0, BOTH_PROMOTE, 1, hash);
    RunNext(f0, BOTH_PROMOTE, 2, hash);
    RunNext(f0, BOTH_PROMOTE, 3, hash);
    RunNext(f0, BOTH_PROMOTE, 4, hash);
    assert BOTH_PROMOTE[..0] == [] && BOTH_PROMOTE[..5] == BOTH_PROMOTE;
  }

  /** With the file found by the second, its commit writes the only payload row and leaves the rest alone. */
  lemma SecondCommits(first: Request, second: Request, content: Bytes, hash: Hash)
    ensures var f := Shared(first, second, content, hash);
      var t := Apply(f, Event(1, Persist(Commits, 0)), hash);
      && t.world.disk == f.world.disk && t.world.tables.payloads == [Payload(hash(content), |content|, 0)]
      && |t.actors| == 2 && t.actors[0] == f.actors[0] && t.actors[1].phase.Done?
  {
  }

  /** The second commits its row, then the first fails to persist and removes the file under the committed row. */
  lemma OverlapCanOrphan(first: Request, second: Request, content: Bytes, hash: Hash)
    requires Offers(first, content) && Offers(second, content)
    ensures var f := RunEvents(Opening([first, second]), BOTH_PROMOTE, hash);
      var g := Apply(Apply(f, Event(1, Persist(Commits, 0)), hash), Event(0, Persist(Fails, 0)), hash);
      var t := Apply(g, Event(0, Unlink), hash);
      && Backed(f) && Backed(g) && Named(g.world.tables.payloads, hash(content)) && Harms(g, Event(0, Unlink))
      && t.world.tables.payloads == [Payload(hash(content), |content|, 0)] && !PayloadsStored(t.world.disk, t.world.tables.payloads)
  {
    BothPromote(first, second, content, hash);
    var f := Shared(first, second, content, hash);
    var row := Payload(hash(content), |content|, 0);
    SecondCommits(first, second, content, hash);
    var h := Apply(f, Event(1, Persist(Commits, 0)), hash);
    var g := Apply(h, Event(0, Persist(Fails, 0)), hash);
    assert g.world == h.world && g.world.tables.payloads[0] == row && g.actors[0].phase.Withdrawing?;
    assert HasFile(g.world.disk, row);
    var t := Apply(g, Event(0, Unlink), hash);
    assert t.world.tables.payloads == [row] && !HasFile(t.world.disk, t.world.tables.payloads[0]);
  }

  /**
   The first fails and removes the file while no row names it, so every row is still backed; then the second, which had
   found the file, commits its row, and the row has no file.
   */
  lemma LateRecordIsOrphaned(first: Request, second: Request, content: Bytes, hash: Hash)
    requires Offers(first, content) && Offers(second, content)
    ensures var f := RunEvents(Opening([first, second]), BOTH_PROMOTE, hash);
      var g := Apply(f, Event(0, Persist(Fails, 0)), hash);
      var u := Apply(g, Event(0, Unlink), hash);
      var t := Apply(u, Event(1, Persist(Commits, 0)), hash);
      && Backed(g) && !Named(g.world.tables.payloads, hash(content)) && Harms(g, Event(0, Unlink))
      && PayloadsStored(u.world.disk, u.world.tables.payloads)
      && t.world.tables.payloads == [Payload(hash(content), |content|, 0)] && !PayloadsStored(t.world.disk, t.world.tables.payloads)
  {
    BothPromote(first, second, content, hash);
    var f := Shared(first, second, content, hash);
    var g := Apply(f, Event(0, Persist(Fails, 0)), hash);
    assert g.world == f.world && g.actors[1] == f.actors[1];
    assert Relied(g, hash(content));
    var u := Apply(g, Event(0, Unlink), hash);
    var t := Apply(u, Event(1, Persist(Commits, 0)), hash);
    assert t.world.tables.payloads == [Payload(hash(content), |content|, 0)];
    assert !HasFile(t.world.disk, t.world.tables.payloads[0]);
  }
}
