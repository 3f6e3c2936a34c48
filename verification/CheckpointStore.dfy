/**
 * The two-slot checkpoint store and the journal that gives its payloads authority
 * (src/runtime/checkpoint-store.ts, src/runtime/checkpoint-persistence.ts), with a crash possible between any two
 * effects.
 *
 * A directory change is durable once the directory is synchronized; until then a crash may leave any of the directory
 * states since the last synchronization. A file's content is durable once the file is synchronized; until then a crash
 * may tear it. Renaming is atomic, and there is one writer.
 */
module CheckpointStore {
  import opened Wrappers

  /** Payload bytes. A digest is injective, so content stands for its own digest. */
  type Payload = string

  datatype Name = PendingFile | Slot(odd: bool)

  datatype Inode = Inode(data: Payload, synced: bool)

  type Directory = map<Name, nat>

  /** `views` are the directory states since the last synchronization, the last one being what the process sees. */
  datatype Disk = Disk(inodes: seq<Inode>, views: seq<Directory>)

  /** `checkpoint_committed`: the sequence is the event's position among them. */
  datatype Event = Event(sequence: nat, payload: Payload)

  datatype Phase =
    | Idle
    | Clearing(payload: Payload, unlinked: bool)
    | Cleared(payload: Payload)
    | Ready(payload: Payload)
    | Written(payload: Payload)
    | Synced(payload: Payload)
    | Renamed(payload: Payload)
    | Published(payload: Payload)
    | Cleanup(unlinked: bool)

  datatype State = State(disk: Disk, journal: seq<Event>, phase: Phase)

  datatype Action =
    | Begin(payload: Payload)
    | Unlink
    | SyncDirectory
    | Inspect
    | Create(written: Payload)
    | SyncFile
    | Rename
    | Append(durable: bool)
    | Fail
    | Crash(view: nat, torn: Payload)

  const RETAINED_SLOTS := 2
  const MAX_PHYSICAL_ENTRIES := 3

  function Live(disk: Disk): Directory
    requires disk.views != []
  {
    disk.views[|disk.views| - 1]
  }

  function Change(disk: Disk, directory: Directory): Disk {
    disk.(views := disk.views + [directory])
  }

  function Flush(disk: Disk): Disk
    requires disk.views != []
  {
    disk.(views := [Live(disk)])
  }

  function SlotOf(sequence: nat): Name { Slot(sequence % RETAINED_SLOTS == 1) }

  /** The checkpoint being published comes right after the newest one in the journal. */
  function NextSequence(s: State): nat { |s.journal| + 1 }

  function SizeOf(disk: Disk, i: nat): nat { if i < |disk.inodes| then |disk.inodes[i].data| else 0 }

  function Size(disk: Disk, directory: Directory, name: Name): nat {
    if name in directory then SizeOf(disk, directory[name]) else 0
  }

  function TotalBytes(disk: Disk, directory: Directory): nat {
    Size(disk, directory, PendingFile) + Size(disk, directory, Slot(false)) + Size(disk, directory, Slot(true))
  }

  /** Whether publishing is declined for want of entries or of bytes. */
  predicate Declined(disk: Disk, limit: nat, payload: Payload)
    requires disk.views != []
  {
    |Live(disk)| > RETAINED_SLOTS || TotalBytes(disk, Live(disk)) > limit * MAX_PHYSICAL_ENTRIES - |payload|
  }

  function Tear(inode: Inode, torn: Payload): Inode {
    if inode.synced then inode else Inode(if |torn| <= |inode.data| then torn else inode.data, true)
  }

  function TearAll(inodes: seq<Inode>, torn: Payload): (r: seq<Inode>)
    ensures |r| == |inodes| && forall i | 0 <= i < |inodes| :: r[i] == Tear(inodes[i], torn)
  {
    if inodes == [] then [] else TearAll(inodes[..|inodes| - 1], torn) + [Tear(inodes[|inodes| - 1], torn)]
  }

  function DoCrash(s: State, view: nat, torn: Payload): State
    requires view < |s.disk.views|
  {
    State(Disk(TearAll(s.disk.inodes, torn), [s.disk.views[view]]), s.journal, Idle)
  }

  /** The effect of one action of publishing, cleaning up, appending or failing; nothing when it is not enabled. */
  function Apply(s: State, limit: nat, a: Action): State
    requires s.disk.views != []
  {
    var live := Live(s.disk);
    match (a, s.phase)
    case (Begin(payload), Idle) => if 1 <= |payload| <= limit then s.(phase := Clearing(payload, false)) else s
    // Removing a leftover pending file; a missing one needs neither unlink nor synchronization.
    case (Unlink, Clearing(payload, false)) =>
      if PendingFile in live then s.(disk := Change(s.disk, live - {PendingFile}), phase := Clearing(payload, true))
      else s.(phase := Cleared(payload))
    case (SyncDirectory, Clearing(payload, true)) => s.(disk := Flush(s.disk), phase := Cleared(payload))
    case (Inspect, Cleared(payload)) =>
      if Declined(s.disk, limit, payload) then s.(phase := Idle) else s.(phase := Ready(payload))
    // Exclusive creation; a short write is an error.
    case (Create(written), Ready(payload)) =>
      if PendingFile in live || |written| > |payload| then s.(phase := Cleanup(false))
      else
        s.(disk := Change(s.disk.(inodes := s.disk.inodes + [Inode(written, false)]), live[PendingFile := |s.disk.inodes|]),
           phase := if written == payload then Written(payload) else Cleanup(false))
    case (SyncFile, Written(payload)) =>
      if PendingFile in live && live[PendingFile] < |s.disk.inodes| then
        var i := live[PendingFile];
        s.(disk := s.disk.(inodes := s.disk.inodes[i := s.disk.inodes[i].(synced := true)]), phase := Synced(payload))
      else s.(phase := Cleanup(false))
    case (Rename, Synced(payload)) =>
      if PendingFile in live then
        s.(disk := Change(s.disk, live[SlotOf(NextSequence(s)) := live[PendingFile]] - {PendingFile}),
           phase := Renamed(payload))
      else s.(phase := Cleanup(false))
    case (SyncDirectory, Renamed(payload)) => s.(disk := Flush(s.disk), phase := Published(payload))
    case (Append(durable), Published(payload)) =>
      s.(journal := if durable then s.journal + [Event(NextSequence(s), payload)] else s.journal, phase := Idle)
    // Any failure tries to remove the pending file once more; a failing cleanup ends the attempt.
    case (Unlink, Cleanup(false)) =>
      if PendingFile in live then s.(disk := Change(s.disk, live - {PendingFile}), phase := Cleanup(true))
      else s.(phase := Idle)
    case (SyncDirectory, Cleanup(true)) => s.(disk := Flush(s.disk), phase := Idle)
    case (Fail, Cleanup(_)) => s.(phase := Idle)
    case (Fail, Idle) => s
    case (Fail, _) => s.(phase := Cleanup(false))
    case (Crash(view, torn), _) => if view < |s.disk.views| then DoCrash(s, view, torn) else s
    case _ => s
  }

  function Empty(): State { State(Disk([], [map[]]), [], Idle) }

  function ApplyAll(limit: nat, actions: seq<Action>): (s: State)
    ensures s.disk.views != []
  {
    if actions == [] then Empty() else Apply(ApplyAll(limit, actions[..|actions| - 1]), limit, actions[|actions| - 1])
  }

  // ----- The invariant.

  predicate FileIs(disk: Disk, directory: Directory, name: Name, inode: Inode) {
    name in directory && directory[name] < |disk.inodes| && disk.inodes[directory[name]] == inode
  }

  predicate EntryOk(disk: Disk, limit: nat, directory: Directory, name: Name)
    requires name in directory
  {
    && directory[name] < |disk.inodes|
    && |disk.inodes[directory[name]].data| <= limit
    && (name.Slot? ==> disk.inodes[directory[name]].synced && |disk.inodes[directory[name]].data| >= 1)
  }

  /** Every view holds bounded entries, and the newest event's payload in the slot of its parity. */
  predicate ViewOk(s: State, limit: nat, v: nat)
    requires v < |s.disk.views|
  {
    && (forall name {:trigger EntryOk(s.disk, limit, s.disk.views[v], name)} | name in s.disk.views[v] ::
          EntryOk(s.disk, limit, s.disk.views[v], name))
    && (s.journal != [] ==>
          FileIs(s.disk, s.disk.views[v], SlotOf(|s.journal|), Inode(s.journal[|s.journal| - 1].payload, true)))
  }

  predicate PhaseOk(s: State, limit: nat)
    requires s.disk.views != []
  {
    var live := Live(s.disk);
    match s.phase
    case Idle => true
    case Cleanup(_) => true
    case Clearing(payload, unlinked) => 1 <= |payload| <= limit && (unlinked ==> PendingFile !in live)
    case Cleared(payload) => 1 <= |payload| <= limit && PendingFile !in live
    case Ready(payload) => 1 <= |payload| <= limit && PendingFile !in live
    case Written(payload) =>
      1 <= |payload| <= limit && FileIs(s.disk, live, PendingFile, Inode(payload, false))
    case Synced(payload) => 1 <= |payload| <= limit && FileIs(s.disk, live, PendingFile, Inode(payload, true))
    case Renamed(payload) => FileIs(s.disk, live, SlotOf(NextSequence(s)), Inode(payload, true))
    case Published(payload) =>
      |s.disk.views| == 1 && FileIs(s.disk, live, SlotOf(NextSequence(s)), Inode(payload, true))
  }

  predicate Sound(s: State, limit: nat) {
    && s.disk.views != []
    && (forall v {:trigger ViewOk(s, limit, v)} | 0 <= v < |s.disk.views| :: ViewOk(s, limit, v))
    && (forall n {:trigger s.journal[n]} | 0 <= n < |s.journal| :: s.journal[n].sequence == n + 1)
    && PhaseOk(s, limit)
  }

  /** Neighbouring sequences use different slots. */
  lemma SlotsAlternate(n: nat)
    ensures SlotOf(n) != SlotOf(n + 1)
  {
  }

  lemma ViewsKept(s: State, s': State, limit: nat)
    requires Sound(s, limit) && s'.journal == s.journal && s'.disk.views != []
    requires |s.disk.inodes| <= |s'.disk.inodes|
    requires forall i {:trigger s'.disk.inodes[i]} | 0 <= i < |s.disk.inodes| ::
               |s'.disk.inodes[i].data| <= |s.disk.inodes[i].data|
               && (s.disk.inodes[i].synced ==> s'.disk.inodes[i] == s.disk.inodes[i])
    ensures forall v {:trigger s'.disk.views[v]} | 0 <= v < |s'.disk.views| && s'.disk.views[v] in s.disk.views ::
              ViewOk(s', limit, v)
  {
    forall v | 0 <= v < |s'.disk.views| && s'.disk.views[v] in s.disk.views ensures ViewOk(s', limit, v) {
      var w :| 0 <= w < |s.disk.views| && s.disk.views[w] == s'.disk.views[v];
      assert ViewOk(s, limit, w);
      forall name | name in s'.disk.views[v] ensures EntryOk(s'.disk, limit, s'.disk.views[v], name) {
        assert EntryOk(s.disk, limit, s.disk.views[w], name);
      }
    }
  }

  /** The process's own view after a change of the pending file or of the slot that is not authoritative. */
  lemma NewViewOk(s: State, s': State, limit: nat, changed: Name)
    requires Sound(s, limit) && s'.journal == s.journal && s'.disk.views != [] && s.disk.inodes <= s'.disk.inodes
    requires changed == PendingFile || changed == SlotOf(NextSequence(s))
    requires changed in Live(s'.disk) ==> EntryOk(s'.disk, limit, Live(s'.disk), changed)
    requires forall name | name in Live(s'.disk) && name != changed ::
               name in Live(s.disk) && Live(s'.disk)[name] == Live(s.disk)[name]
    requires forall name | name in Live(s.disk) && name != changed && name != PendingFile :: name in Live(s'.disk)
    ensures ViewOk(s', limit, |s'.disk.views| - 1)
  {
    assert ViewOk(s, limit, |s.disk.views| - 1);
    SlotsAlternate(|s.journal|);
    forall name | name in Live(s'.disk) ensures EntryOk(s'.disk, limit, Live(s'.disk), name) {
      if name != changed { assert EntryOk(s.disk, limit, Live(s.disk), name); }
    }
  }

  ghost predicate ViewsOk(s: State, limit: nat) {
    s.disk.views != []
    && forall v {:trigger ViewOk(s, limit, v)} | 0 <= v < |s.disk.views| :: ViewOk(s, limit, v)
  }

  /** An action that only drops views, or none, and changes no synchronized content. */
  lemma FewerViews(s: State, s': State, limit: nat)
    requires Sound(s, limit) && s'.journal == s.journal && s'.disk.views != []
    requires |s.disk.inodes| <= |s'.disk.inodes|
    requires forall i {:trigger s'.disk.inodes[i]} | 0 <= i < |s.disk.inodes| ::
               |s'.disk.inodes[i].data| <= |s.disk.inodes[i].data|
               && (s.disk.inodes[i].synced ==> s'.disk.inodes[i] == s.disk.inodes[i])
    requires forall v | 0 <= v < |s'.disk.views| :: s'.disk.views[v] in s.disk.views
    ensures ViewsOk(s', limit)
  {
    ViewsKept(s, s', limit);
    forall v | 0 <= v < |s'.disk.views| ensures ViewOk(s', limit, v) { assert s'.disk.views[v] in s.disk.views; }
  }

  /** An action that changes the process's view by one entry. */
  lemma OneMoreView(s: State, s': State, limit: nat, changed: Name)
    requires Sound(s, limit) && s'.journal == s.journal && s.disk.inodes <= s'.disk.inodes
    requires |s'.disk.views| == |s.disk.views| + 1 && s'.disk.views[..|s.disk.views|] == s.disk.views
    requires changed == PendingFile || changed == SlotOf(NextSequence(s))
    requires changed in Live(s'.disk) ==> EntryOk(s'.disk, limit, Live(s'.disk), changed)
    requires forall name | name in Live(s'.disk) && name != changed ::
               name in Live(s.disk) && Live(s'.disk)[name] == Live(s.disk)[name]
    requires forall name | name in Live(s.disk) && name != changed && name != PendingFile :: name in Live(s'.disk)
    ensures ViewsOk(s', limit)
  {
    ViewsKept(s, s', limit);
    NewViewOk(s, s', limit, changed);
    forall v | 0 <= v < |s.disk.views| ensures ViewOk(s', limit, v) {
      assert s'.disk.views[v] == s'.disk.views[..|s.disk.views|][v];
    }
  }

  lemma PendingActionKeepsSound(s: State, limit: nat, a: Action)
    requires Sound(s, limit) && (a.Unlink? || a.Create?)
    ensures Sound(Apply(s, limit, a), limit)
  {
    var s' := Apply(s, limit, a);
    if s'.disk != s.disk {
      assert s'.disk.views == s.disk.views + [Live(s'.disk)];
      OneMoreView(s, s', limit, PendingFile);
    } else {
      FewerViews(s, s', limit);
    }
  }

  lemma RenameKeepsSound(s: State, limit: nat)
    requires Sound(s, limit)
    ensures Sound(Apply(s, limit, Rename), limit)
  {
    var s' := Apply(s, limit, Rename);
    if s'.disk != s.disk {
      assert s'.disk.views == s.disk.views + [Live(s'.disk)];
      OneMoreView(s, s', limit, SlotOf(NextSequence(s)));
    } else {
      FewerViews(s, s', limit);
    }
  }

  lemma SyncFileKeepsSound(s: State, limit: nat)
    requires Sound(s, limit)
    ensures Sound(Apply(s, limit, SyncFile), limit)
  {
    FewerViews(s, Apply(s, limit, SyncFile), limit);
  }

  lemma CrashKeepsSound(s: State, limit: nat, view: nat, torn: Payload)
    requires Sound(s, limit) && view < |s.disk.views|
    ensures Sound(DoCrash(s, view, torn), limit)
  {
    FewerViews(s, DoCrash(s, view, torn), limit);
  }

  lemma AppendKeepsSound(s: State, limit: nat, durable: bool)
    requires Sound(s, limit)
    ensures Sound(Apply(s, limit, Append(durable)), limit)
  {
    assert ViewOk(s, limit, 0);
    var s' := Apply(s, limit, Append(durable));
    forall v | 0 <= v < |s'.disk.views| ensures ViewOk(s', limit, v) {
      assert ViewOk(s, limit, v);
      forall name | name in s'.disk.views[v] ensures EntryOk(s'.disk, limit, s'.disk.views[v], name) {
        assert EntryOk(s.disk, limit, s.disk.views[v], name);
      }
    }
  }

  lemma QuietActionKeepsSound(s: State, limit: nat, a: Action)
    requires Sound(s, limit) && (a.Begin? || a.SyncDirectory? || a.Inspect? || a.Fail?)
    ensures Sound(Apply(s, limit, a), limit)
  {
    FewerViews(s, Apply(s, limit, a), limit);
  }

  lemma {:induction false} RunKeepsSound(limit: nat, actions: seq<Action>)
    ensures Sound(ApplyAll(limit, actions), limit)
  {
    if actions == [] {
      assert ViewOk(Empty(), limit, 0);
    } else {
      var s := ApplyAll(limit, actions[..|actions| - 1]);
      RunKeepsSound(limit, actions[..|actions| - 1]);
      match actions[|actions| - 1] {
        case Unlink => PendingActionKeepsSound(s, limit, Unlink);
        case Create(written) => PendingActionKeepsSound(s, limit, Create(written));
        case Rename => RenameKeepsSound(s, limit);
        case SyncFile => SyncFileKeepsSound(s, limit);
        case Crash(view, torn) => if view < |s.disk.views| { CrashKeepsSound(s, limit, view, torn); }
        case Append(durable) => AppendKeepsSound(s, limit, durable);
        case _ => QuietActionKeepsSound(s, limit, actions[|actions| - 1]);
      }
    }
  }

  // ----- Main results.

  /** What reading a checkpoint event's content finds in a directory. */
  function ReadBack(disk: Disk, directory: Directory, e: Event): Option<Payload> {
    var name := SlotOf(e.sequence);
    if name !in directory || directory[name] >= |disk.inodes| then None
    else
      var data := disk.inodes[directory[name]].data;
      if |data| != |e.payload| || data != e.payload then None else Some(data)
  }

  lemma NewestReadsBack(s: State, limit: nat)
    requires Sound(s, limit) && s.journal != []
    ensures var newest := s.journal[|s.journal| - 1];
            newest.sequence == |s.journal| && ReadBack(s.disk, Live(s.disk), newest) == Some(newest.payload)
  {
    assert ViewOk(s, limit, |s.disk.views| - 1);
  }

  /**
   * The newest checkpoint survives: after any sequence of publications, failures, retries and crashes, and after one
   * more crash at that very moment, the newest event with authority still finds exactly its payload.
   */
  lemma NewestCheckpointSurvives(limit: nat, actions: seq<Action>, view: nat, torn: Payload)
    requires ApplyAll(limit, actions).journal != [] && view < |ApplyAll(limit, actions).disk.views|
    ensures var s := ApplyAll(limit, actions);
            var newest := s.journal[|s.journal| - 1];
            var crashed := DoCrash(s, view, torn);
            && newest.sequence == |s.journal|
            && crashed.journal == s.journal
            && ReadBack(crashed.disk, Live(crashed.disk), newest) == Some(newest.payload)
            && ReadBack(s.disk, Live(s.disk), newest) == Some(newest.payload)
  {
    RunKeepsSound(limit, actions);
    var s := ApplyAll(limit, actions);
    NewestReadsBack(s, limit);
    CrashKeepsSound(s, limit, view, torn);
    NewestReadsBack(DoCrash(s, view, torn), limit);
  }

  // ----- An undisturbed publication.

  /** The actions of one publication; a leftover pending file is removed first. */
  function Publication(leftover: bool, payload: Payload, durable: bool): seq<Action> {
    [Begin(payload), Unlink] + (if leftover then [SyncDirectory] else [])
    + [Inspect, Create(payload), SyncFile, Rename, SyncDirectory, Append(durable)]
  }

  function Continue(s: State, limit: nat, actions: seq<Action>): (s': State)
    requires s.disk.views != []
    ensures s'.disk.views != []
    decreases |actions|
  {
    if actions == [] then s else Continue(Apply(s, limit, actions[0]), limit, actions[1..])
  }

  lemma {:induction false} ContinueRun(limit: nat, before: seq<Action>, after: seq<Action>)
    ensures ApplyAll(limit, before + after) == Continue(ApplyAll(limit, before), limit, after)
    decreases |after|
  {
    if after == [] {
      assert before + after == before;
    } else {
      var longer := before + [after[0]];
      assert longer[..|longer| - 1] == before && longer + after[1..] == before + after;
      ContinueRun(limit, longer, after[1..]);
    }
  }

  lemma ContinueStep(s: State, limit: nat, a: Action, rest: seq<Action>)
    requires s.disk.views != []
    ensures Continue(s, limit, [a] + rest) == Continue(Apply(s, limit, a), limit, rest)
  {
    assert ([a] + rest)[1..] == rest;
  }

  /** The pending file is gone, and everything else is as it was. */
  predicate ClearedOf(s: State, s': State, payload: Payload)
    requires s.disk.views != [] && s'.disk.views != []
  {
    && s'.phase == Cleared(payload) && s'.journal == s.journal && s'.disk.inodes == s.disk.inodes
    && Live(s'.disk) == Live(s.disk) - {PendingFile}
  }

  lemma Clear(s: State, limit: nat, payload: Payload, rest: seq<Action>) returns (s': State)
    requires s.disk.views != [] && s.phase.Idle? && 1 <= |payload| <= limit
    ensures s'.disk.views != [] && ClearedOf(s, s', payload)
    ensures var leftover := PendingFile in Live(s.disk);
            Continue(s, limit, [Begin(payload), Unlink] + (if leftover then [SyncDirectory] else []) + rest)
            == Continue(s', limit, rest)
  {
    var leftover := PendingFile in Live(s.disk);
    var sync: seq<Action> := if leftover then [SyncDirectory] else [];
    var begun := Apply(s, limit, Begin(payload));
    assert [Begin(payload), Unlink] + sync + rest == [Begin(payload)] + ([Unlink] + (sync + rest));
    ContinueStep(s, limit, Begin(payload), [Unlink] + (sync + rest));
    ContinueStep(begun, limit, Unlink, sync + rest);
    s' := Apply(begun, limit, Unlink);
    if leftover {
      ContinueStep(s', limit, SyncDirectory, rest);
      s' := Apply(s', limit, SyncDirectory);
    } else {
      assert sync + rest == rest && Live(s.disk) - {PendingFile} == Live(s.disk);
    }
  }

  /** The new slot holds the payload durably, and the other slot what it held. */
  predicate Stored(s: State, s': State, payload: Payload)
    requires s.disk.views != [] && s'.disk.views != []
  {
    var slot := SlotOf(NextSequence(s));
    && FileIs(s'.disk, Live(s'.disk), slot, Inode(payload, true))
    && s.disk.inodes <= s'.disk.inodes && |s'.disk.views| == 1
    && (forall name <- Live(s.disk) | name != slot && name != PendingFile ::
          name in Live(s'.disk) && Live(s'.disk)[name] == Live(s.disk)[name])
  }

  lemma {:induction false} ContinueTwice(s: State, limit: nat, first: seq<Action>, rest: seq<Action>)
    requires s.disk.views != []
    ensures Continue(s, limit, first + rest) == Continue(Continue(s, limit, first), limit, rest)
    decreases |first|
  {
    if first == [] {
      assert first + rest == rest;
    } else {
      assert first + rest == [first[0]] + (first[1..] + rest);
      ContinueStep(s, limit, first[0], first[1..] + rest);
      ContinueTwice(Apply(s, limit, first[0]), limit, first[1..], rest);
    }
  }

  lemma WritePending(s: State, limit: nat, payload: Payload)
    requires s.disk.views != [] && s.phase == Cleared(payload) && PendingFile !in Live(s.disk)
    requires !Declined(s.disk, limit, payload)
    ensures var s' := Continue(s, limit, [Inspect, Create(payload), SyncFile]);
            && s'.phase == Synced(payload) && s'.journal == s.journal
            && s'.disk.inodes == s.disk.inodes + [Inode(payload, true)]
            && Live(s'.disk) == Live(s.disk)[PendingFile := |s.disk.inodes|]
  {
    var ready := Apply(s, limit, Inspect);
    var written := Apply(ready, limit, Create(payload));
    ContinueStep(s, limit, Inspect, [Create(payload), SyncFile]);
    ContinueStep(ready, limit, Create(payload), [SyncFile]);
    ContinueStep(written, limit, SyncFile, []);
    assert [SyncFile] + [] == [SyncFile];
    assert written.disk.inodes == s.disk.inodes + [Inode(payload, false)];
    assert written.disk.inodes[|s.disk.inodes| := Inode(payload, true)] == s.disk.inodes + [Inode(payload, true)];
  }

  lemma MovePending(s: State, limit: nat, payload: Payload, durable: bool)
    requires s.disk.views != [] && s.phase == Synced(payload)
    requires FileIs(s.disk, Live(s.disk), PendingFile, Inode(payload, true))
    ensures var s' := Continue(s, limit, [Rename, SyncDirectory, Append(durable)]);
            && s'.phase == Idle && PendingFile !in Live(s'.disk) && Stored(s, s', payload)
            && s'.journal == s.journal + (if durable then [Event(|s.journal| + 1, payload)] else [])
  {
    var slot := SlotOf(NextSequence(s));
    var renamed := Apply(s, limit, Rename);
    assert Live(renamed.disk) == Live(s.disk)[slot := Live(s.disk)[PendingFile]] - {PendingFile};
    var published := Apply(renamed, limit, SyncDirectory);
    assert published.phase == Published(payload) && published.disk == Disk(s.disk.inodes, [Live(renamed.disk)]);
    ContinueStep(s, limit, Rename, [SyncDirectory, Append(durable)]);
    ContinueStep(renamed, limit, SyncDirectory, [Append(durable)]);
    ContinueStep(published, limit, Append(durable), []);
    assert [Append(durable)] + [] == [Append(durable)];
  }

  lemma Store(s: State, limit: nat, payload: Payload, durable: bool)
    requires s.disk.views != [] && s.phase == Cleared(payload) && PendingFile !in Live(s.disk)
    requires !Declined(s.disk, limit, payload)
    ensures var s' := Continue(s, limit, [Inspect, Create(payload), SyncFile, Rename, SyncDirectory, Append(durable)]);
            && s'.phase == Idle && PendingFile !in Live(s'.disk) && Stored(s, s', payload)
            && s'.journal == s.journal + (if durable then [Event(|s.journal| + 1, payload)] else [])
  {
    var write, move := [Inspect, Create(payload), SyncFile], [Rename, SyncDirectory, Append(durable)];
    assert write + move == [Inspect, Create(payload), SyncFile, Rename, SyncDirectory, Append(durable)];
    ContinueTwice(s, limit, write, move);
    WritePending(s, limit, payload);
    MovePending(Continue(s, limit, write), limit, payload, durable);
  }

  lemma PublicationContinues(limit: nat, actions: seq<Action>, payload: Payload, durable: bool) returns (cleared: State)
    requires ApplyAll(limit, actions).phase.Idle? && 1 <= |payload| <= limit
    ensures var s := ApplyAll(limit, actions);
            && cleared.disk.views != [] && ClearedOf(s, cleared, payload)
            && ApplyAll(limit, actions + Publication(PendingFile in Live(s.disk), payload, durable))
               == Continue(cleared, limit, [Inspect, Create(payload), SyncFile, Rename, SyncDirectory, Append(durable)])
  {
    var s := ApplyAll(limit, actions);
    ContinueRun(limit, actions, Publication(PendingFile in Live(s.disk), payload, durable));
    cleared := Clear(s, limit, payload, [Inspect, Create(payload), SyncFile, Rename, SyncDirectory, Append(durable)]);
  }

  /** What the slot held that the publication did not touch still reads back. */
  lemma PriorReadsBack(s: State, cleared: State, s': State, limit: nat, payload: Payload)
    requires Sound(s, limit) && s.journal != []
    requires cleared.disk.views != [] && s'.disk.views != []
    requires ClearedOf(s, cleared, payload) && Stored(cleared, s', payload)
    ensures var prior := s.journal[|s.journal| - 1];
            ReadBack(s'.disk, Live(s'.disk), prior) == Some(prior.payload)
  {
    NewestReadsBack(s, limit);
    SlotsAlternate(|s.journal|);
    assert SlotOf(|s.journal|) in Live(cleared.disk);
  }

  /**
   * Publishing goes through: from every reachable idle state an undisturbed publication of any payload within the limit
   * stores it, its event is the next one, and the checkpoint before it still reads back.
   */
  lemma PublicationSucceeds(limit: nat, actions: seq<Action>, payload: Payload, durable: bool)
    requires ApplyAll(limit, actions).phase.Idle? && 1 <= |payload| <= limit
    ensures var s := ApplyAll(limit, actions);
            var s' := ApplyAll(limit, actions + Publication(PendingFile in Live(s.disk), payload, durable));
            var event := Event(|s.journal| + 1, payload);
            && s'.phase == Idle && PendingFile !in Live(s'.disk)
            && s'.journal == s.journal + (if durable then [event] else [])
            && ReadBack(s'.disk, Live(s'.disk), event) == Some(payload)
            && (s.journal != [] ==>
                  var prior := s.journal[|s.journal| - 1];
                  ReadBack(s'.disk, Live(s'.disk), prior) == Some(prior.payload))
  {
    var s := ApplyAll(limit, actions);
    var cleared := PublicationContinues(limit, actions, payload, durable);
    RunKeepsSound(limit, actions);
    ClearedHasRoom(s, cleared, limit, payload);
    Store(cleared, limit, payload, durable);
    if s.journal != [] {
      var store := [Inspect, Create(payload), SyncFile, Rename, SyncDirectory, Append(durable)];
      PriorReadsBack(s, cleared, Continue(cleared, limit, store), limit, payload);
    }
  }

  lemma ClearedHasRoom(s: State, cleared: State, limit: nat, payload: Payload)
    requires Sound(s, limit) && cleared.disk.views != [] && ClearedOf(s, cleared, payload) && |payload| <= limit
    ensures !Declined(cleared.disk, limit, payload)
  {
    assert ViewOk(s, limit, |s.disk.views| - 1);
    AtMostThreeEntries(Live(cleared.disk));
    forall name | name in Live(cleared.disk) ensures Size(cleared.disk, Live(cleared.disk), name) <= limit {
      assert EntryOk(s.disk, limit, Live(s.disk), name);
    }
  }

  lemma Cleans(s: State, limit: nat)
    requires s.disk.views != [] && s.phase == Cleanup(false)
    ensures var s' := if PendingFile in Live(s.disk) then Apply(Apply(s, limit, Unlink), limit, SyncDirectory)
                      else Apply(s, limit, Unlink);
            && s'.phase == Idle && s'.journal == s.journal && s'.disk.inodes == s.disk.inodes
            && Live(s'.disk) == Live(s.disk) - {PendingFile}
  {
    if PendingFile !in Live(s.disk) { assert Live(s.disk) - {PendingFile} == Live(s.disk); }
  }

  /** A failure at any point is cleaned up: no pending file is left, no event was written, and the store is idle again. */
  lemma FailureCleansUp(limit: nat, actions: seq<Action>)
    requires var phase := ApplyAll(limit, actions).phase; !phase.Idle? && !phase.Cleanup?
    ensures var s := ApplyAll(limit, actions);
            var cleanup := if PendingFile in Live(s.disk) then [Fail, Unlink, SyncDirectory] else [Fail, Unlink];
            var s' := ApplyAll(limit, actions + cleanup);
            && s'.phase == Idle && s'.journal == s.journal && s'.disk.inodes == s.disk.inodes
            && Live(s'.disk) == Live(s.disk) - {PendingFile}
  {
    var s := ApplyAll(limit, actions);
    var failed := Apply(s, limit, Fail);
    assert failed == s.(phase := Cleanup(false));
    Cleans(failed, limit);
    RunStep(limit, actions, Fail);
    RunStep(limit, actions + [Fail], Unlink);
    RunStep(limit, actions + [Fail] + [Unlink], SyncDirectory);
    assert actions + [Fail] + [Unlink] == actions + [Fail, Unlink];
    assert actions + [Fail] + [Unlink] + [SyncDirectory] == actions + [Fail, Unlink, SyncDirectory];
  }

  lemma RunStep(limit: nat, actions: seq<Action>, a: Action)
    ensures ApplyAll(limit, actions + [a]) == Apply(ApplyAll(limit, actions), limit, a)
  {
    assert (actions + [a])[..|actions|] == actions;
  }

  // ----- What a crash can do.

  /** Before its file is synchronized, a crash may leave any text that is no longer in the pending file. */
  lemma CrashTearsPending(limit: nat, actions: seq<Action>, payload: Payload, torn: Payload)
    requires ApplyAll(limit, actions).phase == Written(payload) && |torn| <= |payload|
    ensures var s := ApplyAll(limit, actions);
            var crashed := DoCrash(s, |s.disk.views| - 1, torn);
            crashed.phase == Idle && FileIs(crashed.disk, Live(crashed.disk), PendingFile, Inode(torn, true))
  {
    RunKeepsSound(limit, actions);
  }

  lemma RenameAddsView(s: State, limit: nat, payload: Payload)
    requires s.disk.views != [] && s.phase == Synced(payload) && PendingFile in Live(s.disk)
    ensures var s' := Apply(s, limit, Rename);
            var moved := Live(s.disk)[SlotOf(NextSequence(s)) := Live(s.disk)[PendingFile]] - {PendingFile};
            s'.disk == Disk(s.disk.inodes, s.disk.views + [moved])
  {
  }

  /** Before the directory is synchronized, a crash may undo the rename or keep it. */
  lemma CrashUndoesRename(limit: nat, actions: seq<Action>, payload: Payload, torn: Payload)
    requires ApplyAll(limit, actions).phase == Synced(payload)
    ensures var s, s' := ApplyAll(limit, actions), ApplyAll(limit, actions + [Rename]);
            && |s'.disk.views| >= 2
            && (var undone := DoCrash(s', |s'.disk.views| - 2, torn);
                Live(undone.disk) == Live(s.disk)
                && FileIs(undone.disk, Live(undone.disk), PendingFile, Inode(payload, true)))
            && (var kept := DoCrash(s', |s'.disk.views| - 1, torn);
                FileIs(kept.disk, Live(kept.disk), SlotOf(NextSequence(s)), Inode(payload, true))
                && PendingFile !in Live(kept.disk))
  {
    RunKeepsSound(limit, actions);
    RunStep(limit, actions, Rename);
    RenameAddsView(ApplyAll(limit, actions), limit, payload);
  }

  lemma SubsetSize<T>(a: set<T>, b: set<T>)
    requires a <= b
    ensures |a| <= |b|
    decreases b
  {
    if a != {} {
      var x :| x in a;
      SubsetSize(a - {x}, b - {x});
    }
  }

  lemma AtMostThreeEntries(directory: Directory)
    ensures |directory| <= MAX_PHYSICAL_ENTRIES
    ensures PendingFile !in directory ==> |directory| <= RETAINED_SLOTS
  {
    forall name | name in directory ensures name in {PendingFile, Slot(false), Slot(true)} {
      match name { case PendingFile => case Slot(odd) => if odd {} }
    }
    SubsetSize(directory.Keys, {PendingFile, Slot(false), Slot(true)});
    if PendingFile !in directory { SubsetSize(directory.Keys, {Slot(false), Slot(true)}); }
    assert |directory| == |directory.Keys|;
  }

  /** At no moment, crashed or not, does storage exceed three entries or three payload limits. */
  lemma StorageBounded(limit: nat, actions: seq<Action>, view: nat)
    requires view < |ApplyAll(limit, actions).disk.views|
    ensures var s := ApplyAll(limit, actions);
            && |s.disk.views[view]| <= MAX_PHYSICAL_ENTRIES
            && TotalBytes(s.disk, s.disk.views[view]) <= limit * MAX_PHYSICAL_ENTRIES
  {
    RunKeepsSound(limit, actions);
    var s := ApplyAll(limit, actions);
    assert ViewOk(s, limit, view);
    AtMostThreeEntries(s.disk.views[view]);
    forall name | name in s.disk.views[view] ensures Size(s.disk, s.disk.views[view], name) <= limit {
      assert EntryOk(s.disk, limit, s.disk.views[view], name);
    }
  }

  /** So the capacity test of a publication never declines. */
  lemma CapacityNeverDeclines(limit: nat, actions: seq<Action>)
    requires ApplyAll(limit, actions).phase.Cleared?
    ensures var s := ApplyAll(limit, actions); !Declined(s.disk, limit, s.phase.payload)
  {
    RunKeepsSound(limit, actions);
    var s := ApplyAll(limit, actions);
    assert ViewOk(s, limit, |s.disk.views| - 1);
    AtMostThreeEntries(Live(s.disk));
    forall name | name in Live(s.disk) ensures Size(s.disk, Live(s.disk), name) <= limit {
      assert EntryOk(s.disk, limit, Live(s.disk), name);
    }
  }

  // ----- The loops of the store.

  datatype StoreError = TooManyEntries | UnboundedEntry | CapacityExceeded | InvalidReference | PayloadMismatch

  const READ_CHUNK := 64 * 1024

  predicate BoundedFile(disk: Disk, limit: nat, name: Name)
    requires disk.views != []
  {
    Size(disk, Live(disk), name) <= limit && (name.Slot? ==> Size(disk, Live(disk), name) >= 1)
  }

  function SumSizes(disk: Disk, names: seq<Name>): nat
    requires disk.views != []
  {
    if names == [] then 0
    else SumSizes(disk, names[..|names| - 1]) + Size(disk, Live(disk), names[|names| - 1])
  }

  /**
   * Inspection accepts a listing exactly when it has at most three entries, each within its bound, and then reports
   * their exact total. The aggregate test inside the loop cannot fail by itself.
   */
  method InspectEntries(disk: Disk, limit: nat, names: seq<Name>) returns (r: Result<nat, StoreError>)
    requires disk.views != []
    ensures r.Ok? <==> |names| <= MAX_PHYSICAL_ENTRIES && forall name <- names :: BoundedFile(disk, limit, name)
    ensures r.Ok? ==> r.value == SumSizes(disk, names)
    ensures r != Err(CapacityExceeded)
  {
    if |names| > MAX_PHYSICAL_ENTRIES { return Err(TooManyEntries); }
    var bytes := 0;
    for k := 0 to |names|
      invariant bytes == SumSizes(disk, names[..k]) <= k * limit
      invariant forall name <- names[..k] :: BoundedFile(disk, limit, name)
    {
      var size := Size(disk, Live(disk), names[k]);
      assert BoundedFile(disk, limit, names[k]) <==> (if names[k].Slot? then 1 else 0) <= size <= limit;
      if size < (if names[k].Slot? then 1 else 0) || size > limit {
        assert names[k] in names;
        return Err(UnboundedEntry);
      }
      if bytes > limit * MAX_PHYSICAL_ENTRIES - size { return Err(CapacityExceeded); }
      assert names[..k + 1][..k] == names[..k];
      bytes := bytes + size;
    }
    assert names[..|names|] == names;
    return Ok(bytes);
  }

  function Least(a: nat, b: nat): nat { if a < b then a else b }

  /**
   * How many of `size` bytes a chunked read gets when its k-th call yields at most `counts[k]` bytes. A call that
   * yields nothing ends it; so does the last count.
   */
  function Delivered(counts: seq<nat>, size: nat): (n: nat)
    ensures n <= size
  {
    if size == 0 || counts == [] || counts[0] == 0 then 0
    else
      var n := Least(counts[0], Least(READ_CHUNK, size));
      n + Delivered(counts[1..], size - n)
  }

  /** A bounded chunked read of one slot, whose calls may come short or empty, agrees with reading the file as a whole. */
  method Read(disk: Disk, limit: nat, names: seq<Name>, e: Event, counts: seq<nat>) returns (r: Result<Payload, StoreError>)
    requires disk.views != []
    ensures r.Ok? ==> Some(r.value) == ReadBack(disk, Live(disk), e)
    ensures r.Ok? <==>
            && ReadBack(disk, Live(disk), e).Some? && e.sequence >= 1 && 1 <= |e.payload| <= limit
            && |names| <= MAX_PHYSICAL_ENTRIES && (forall name <- names :: BoundedFile(disk, limit, name))
            && Delivered(counts, |e.payload|) == |e.payload|
  {
    if e.sequence < 1 || |e.payload| < 1 || |e.payload| > limit { return Err(InvalidReference); }
    var inspected := InspectEntries(disk, limit, names);
    if inspected.Err? { return Err(inspected.error); }
    var name := SlotOf(e.sequence);
    if name !in Live(disk) || Live(disk)[name] >= |disk.inodes| { return Err(PayloadMismatch); }
    var file := disk.inodes[Live(disk)[name]].data;
    if |file| != |e.payload| { return Err(PayloadMismatch); }
    var buffer, offset, call := "", 0, 0;
    while offset < |e.payload|
      invariant offset <= |file| && buffer == file[..offset] && call <= |counts|
      invariant Delivered(counts, |e.payload|) == offset + Delivered(counts[call..], |e.payload| - offset)
    {
      var bytesRead := if call < |counts| then Least(counts[call], Least(READ_CHUNK, |e.payload| - offset)) else 0;
      if bytesRead == 0 { break; }
      assert counts[call..][1..] == counts[call + 1..];
      buffer := buffer + file[offset..offset + bytesRead];
      offset, call := offset + bytesRead, call + 1;
    }
    if offset != |e.payload| || buffer != e.payload { return Err(PayloadMismatch); }
    return Ok(buffer);
  }
}
