/**
 * What the status projection shows, read from the events (src/core/journal.ts): how the run ended, and for every frame
 * of a journal that the strict fold accepts its phase and its newest output.
 */
module StatusContents {
  import opened Wrappers
  import opened Journal
  import opened StatusFold
  import opened JournalGrammar
  import opened DerivedContents
  import CrashCut
  import JournalContents
  import JournalLanguage
  import JournalVerdict
  import R = RecoveryJournal

  // ----- How the run ended.

  function EndingOf(t: Terminal): Ending {
    match t
    case RunCompleted(_, mode, outputRef) => Ending(Completed, Some(mode), outputRef, None)
    case RunFailed(_, code, message) => Ending(RunFailure, None, None, Some((code, message)))
    case RunCancelled(_, message) => Ending(RunCancellation, None, None, Some(("CANCELLED", message)))
  }

  function IsTerminal(): Event -> bool { (e: Event) => e.RunTerminal? }

  ghost predicate EndingTold(es: seq<Event>, ending: Ending) {
    && (!Any(es, IsTerminal()) ==> ending == Ending(Running, None, None, None))
    && (Any(es, IsTerminal()) ==> exists t :: First(es, RunTerminal(t), IsTerminal()) && ending == EndingOf(t))
  }

  lemma EndingStep(s: Status, e: Event)
    ensures StatusEvent(s, e).ending ==
            if e.RunTerminal? && s.ending.state == Running then EndingOf(e.terminal) else s.ending
  {
  }

  lemma {:induction false} EndingIsFirst(es: seq<Event>)
    ensures EndingTold(es, ReduceStatus(es).ending)
    ensures ReduceStatus(es).ending.state == Running <==> !Any(es, IsTerminal())
  {
    if es != [] {
      var front, e := es[..|es| - 1], es[|es| - 1];
      assert es == front + [e];
      EndingIsFirst(front);
      EndingStep(ReduceStatus(front), e);
      AnyAppend(front, e, IsTerminal());
      if Any(front, IsTerminal()) {
        var t :| First(front, RunTerminal(t), IsTerminal()) && ReduceStatus(front).ending == EndingOf(t);
        FirstAppend(front, e, RunTerminal(t), IsTerminal());
      } else if e.RunTerminal? {
        FirstAppend(front, e, e, IsTerminal());
      }
    }
  }

  /** The projection ends as the first terminal of the events says, whatever follows; without one it is running. */
  lemma ProjectedEnding(es: seq<Event>)
    ensures EndingTold(es, ReduceStatus(es).ending)
  {
    EndingIsFirst(es);
  }

  // ----- What the events say of a frame's phases and outputs.

  predicate PhaseIn(es: seq<Event>, f: FrameId, i: nat, ordinal: nat, name: string) {
    ProgressMade(Phase(f, i, ordinal, name)) in es
  }

  ghost predicate HasPhase(es: seq<Event>, f: FrameId, i: nat) { exists ordinal, name :: PhaseIn(es, f, i, ordinal, name) }

  /** The name of the greatest ordinal among the phases of one iteration. */
  ghost predicate TopPhase(es: seq<Event>, f: FrameId, i: nat, name: string) {
    exists ordinal :: PhaseIn(es, f, i, ordinal, name) && forall n, other :: PhaseIn(es, f, i, n, other) ==> n <= ordinal
  }

  /** The phase of the latest committed cell that has one. */
  ghost predicate Shown(es: seq<Event>, f: FrameId, i: nat, name: string) {
    i in CellsIn(es, f) && TopPhase(es, f, i, name) && forall j <- CellsIn(es, f) | j > i :: !HasPhase(es, f, j)
  }

  ghost predicate PhaseTold(es: seq<Event>, f: FrameId, phase: Option<string>) {
    && (phase.Some? ==> exists i :: Shown(es, f, i, phase.value))
    && (phase.None? ==> forall i <- CellsIn(es, f) :: !HasPhase(es, f, i))
  }

  /** The output of the latest committed cell. */
  ghost predicate PreviewTold(es: seq<Event>, f: FrameId, preview: Option<string>) {
    && (preview.None? <==> CellsIn(es, f) == {})
    && (preview.Some? ==>
          exists c :: CellCommitted(c) in es && c.frameId == f && c.outputPreview == preview.value
                      && forall j <- CellsIn(es, f) :: j <= c.iteration)
  }

  ghost predicate EffectIn(es: seq<Event>, f: FrameId, i: nat, n: nat) {
    exists p :: ProgressMade(p) in es && p.frameId == f && p.iteration == i && p.ordinal == n
  }

  function PendingAt(effects: Effects, f: FrameId, i: nat): seq<PendingPhase> {
    if (f, i) in effects.pending then effects.pending[(f, i)] else []
  }

  /** The phases that wait for their cell are those of its iteration. */
  ghost predicate Waiting(es: seq<Event>, f: FrameId, i: nat, pending: seq<PendingPhase>) {
    forall n, name :: PendingPhase(n, name) in pending <==> PhaseIn(es, f, i, n, name)
  }

  ghost predicate FrameTold(es: seq<Event>, s: Status, f: FrameId) {
    && (f in s.frames <==> OpenedIn(es, f))
    && (f !in s.frames ==> CellsIn(es, f) == {})
    && (f in s.frames ==>
          s.frames[f].seenIterations == CellsIn(es, f) && PhaseTold(es, f, s.frames[f].phase)
          && PreviewTold(es, f, s.frames[f].lastOutputPreview))
  }

  ghost predicate TurnTold(es: seq<Event>, effects: Effects, f: FrameId, i: nat) {
    && ((f, i) in effects.committed <==> i in CellsIn(es, f))
    && (i !in CellsIn(es, f) ==> Waiting(es, f, i, PendingAt(effects, f, i)))
    && (forall n: nat :: (f, i, n) in effects.seen <==> EffectIn(es, f, i, n))
  }

  ghost predicate StatusTold(es: seq<Event>, s: Status) {
    && (forall f {:trigger FrameTold(es, s, f)} :: FrameTold(es, s, f))
    && (forall f, i: nat {:trigger TurnTold(es, s.effects, f, i)} :: TurnTold(es, s.effects, f, i))
  }

  lemma {:induction false} LastPhaseIsTop(pending: seq<PendingPhase>)
    requires pending != []
    ensures LastPhase(pending) in pending && forall p <- pending :: p.ordinal <= LastPhase(pending).ordinal
  {
    if |pending| > 1 {
      LastPhaseIsTop(pending[..|pending| - 1]);
      assert pending == pending[..|pending| - 1] + [pending[|pending| - 1]];
    }
  }

  // ----- Events that show nothing.

  predicate Silent(e: Event) { !e.FrameOpened? && !e.ProgressMade? && !e.CellCommitted? }

  lemma CellsAppend(es: seq<Event>, e: Event, f: FrameId)
    ensures CellsIn(es + [e], f) ==
            CellsIn(es, f) + (if e.CellCommitted? && e.cell.frameId == f then {e.cell.iteration} else {})
  {
  }

  lemma OpenedAppend(es: seq<Event>, e: Event, f: FrameId)
    ensures OpenedIn(es + [e], f) <==> OpenedIn(es, f) || (e.FrameOpened? && e.opening.frameId == f)
  {
    if OpenedIn(es, f) { var o :| FrameOpened(o) in es && o.frameId == f; assert FrameOpened(o) in es + [e]; }
    if e.FrameOpened? { assert FrameOpened(e.opening) in es + [e]; }
  }

  lemma SilentStatus(s: Status, e: Event)
    requires Silent(e)
    ensures var s' := StatusEvent(s, e);
            && s'.effects == s.effects && s'.frames.Keys == s.frames.Keys
            && forall f <- s.frames ::
                 && s'.frames[f].seenIterations == s.frames[f].seenIterations
                 && s'.frames[f].phase == s.frames[f].phase
                 && s'.frames[f].lastOutputPreview == s.frames[f].lastOutputPreview
  {
  }

  /** The same phases, effects and cells of one frame. */
  ghost predicate SaysSame(es: seq<Event>, es': seq<Event>, f: FrameId) {
    && CellsIn(es', f) == CellsIn(es, f)
    && (forall i, n, name :: PhaseIn(es', f, i, n, name) <==> PhaseIn(es, f, i, n, name))
    && (forall i, n :: EffectIn(es', f, i, n) <==> EffectIn(es, f, i, n))
  }

  lemma AppendSaysSame(es: seq<Event>, e: Event, f: FrameId)
    requires (e.ProgressMade? ==> e.progress.frameId != f || e in es)
    requires (e.CellCommitted? ==> e.cell.frameId != f || e in es)
    ensures SaysSame(es, es + [e], f)
  {
    CellsAppend(es, e, f);
    forall i, n ensures EffectIn(es + [e], f, i, n) <==> EffectIn(es, f, i, n) {
      if EffectIn(es, f, i, n) {
        var p :| ProgressMade(p) in es && p.frameId == f && p.iteration == i && p.ordinal == n;
        assert ProgressMade(p) in es + [e];
      }
    }
  }

  lemma PhaseSaysSame(es: seq<Event>, es': seq<Event>, f: FrameId, phase: Option<string>)
    requires SaysSame(es, es', f) && PhaseTold(es, f, phase)
    ensures PhaseTold(es', f, phase)
  {
    forall i ensures HasPhase(es', f, i) <==> HasPhase(es, f, i) {}
    if phase.Some? {
      var i :| Shown(es, f, i, phase.value);
      assert TopPhase(es', f, i, phase.value);
      assert Shown(es', f, i, phase.value);
    }
  }

  lemma PreviewSaysSame(es: seq<Event>, e: Event, f: FrameId, preview: Option<string>)
    requires CellsIn(es + [e], f) == CellsIn(es, f) && PreviewTold(es, f, preview)
    ensures PreviewTold(es + [e], f, preview)
  {
    if preview.Some? {
      var c :| CellCommitted(c) in es && c.frameId == f && c.outputPreview == preview.value
               && forall j <- CellsIn(es, f) :: j <= c.iteration;
      assert CellCommitted(c) in es + [e];
    }
  }

  /** A frame of which the event says nothing new keeps what it shows. */
  lemma OtherFrameKept(es: seq<Event>, s: Status, s': Status, e: Event, f: FrameId)
    requires FrameTold(es, s, f) && SaysSame(es, es + [e], f) && (OpenedIn(es + [e], f) <==> OpenedIn(es, f))
    requires f in s'.frames <==> f in s.frames
    requires f in s.frames ==>
               && s'.frames[f].seenIterations == s.frames[f].seenIterations
               && s'.frames[f].phase == s.frames[f].phase
               && s'.frames[f].lastOutputPreview == s.frames[f].lastOutputPreview
    ensures FrameTold(es + [e], s', f)
  {
    if f in s.frames {
      PhaseSaysSame(es, es + [e], f, s.frames[f].phase);
      PreviewSaysSame(es, e, f, s.frames[f].lastOutputPreview);
    }
  }

  lemma OtherTurnKept(es: seq<Event>, effects: Effects, effects': Effects, e: Event, f: FrameId, i: nat)
    requires TurnTold(es, effects, f, i) && SaysSame(es, es + [e], f)
    requires (f, i) in effects'.committed <==> (f, i) in effects.committed
    requires PendingAt(effects', f, i) == PendingAt(effects, f, i)
    requires forall n: nat :: (f, i, n) in effects'.seen <==> (f, i, n) in effects.seen
    ensures TurnTold(es + [e], effects', f, i)
  {
  }

  lemma SilentTold(es: seq<Event>, s: Status, e: Event)
    requires StatusTold(es, s) && Silent(e)
    ensures StatusTold(es + [e], StatusEvent(s, e))
  {
    var s' := StatusEvent(s, e);
    SilentStatus(s, e);
    forall f ensures FrameTold(es + [e], s', f) {
      assert FrameTold(es, s, f);
      AppendSaysSame(es, e, f);
      OpenedAppend(es, e, f);
      OtherFrameKept(es, s, s', e, f);
    }
    forall f, i: nat ensures TurnTold(es + [e], s'.effects, f, i) {
      assert TurnTold(es, s.effects, f, i);
      AppendSaysSame(es, e, f);
      OtherTurnKept(es, s.effects, s'.effects, e, f, i);
    }
  }

  // ----- Openings.

  lemma OpenedTold(es: seq<Event>, s: Status, o: Opened)
    requires StatusTold(es, s)
    ensures StatusTold(es + [FrameOpened(o)], StatusOpened(s, o))
  {
    var e, s' := FrameOpened(o), StatusOpened(s, o);
    forall f ensures FrameTold(es + [e], s', f) {
      assert FrameTold(es, s, f);
      AppendSaysSame(es, e, f);
      OpenedAppend(es, e, f);
      if f != o.frameId || f in s.frames { OtherFrameKept(es, s, s', e, f); }
    }
    forall f, i: nat ensures TurnTold(es + [e], s'.effects, f, i) {
      assert TurnTold(es, s.effects, f, i);
      AppendSaysSame(es, e, f);
      OtherTurnKept(es, s.effects, s'.effects, e, f, i);
    }
  }

  // ----- Progress.

  lemma ProgressFrame(es: seq<Event>, s: Status, p: Progress, f: FrameId)
    requires FrameTold(es, s, f) && p.iteration !in CellsIn(es, p.frameId)
    requires (p.frameId, p.iteration) !in s.effects.committed
    ensures FrameTold(es + [ProgressMade(p)], StatusProgress(s, p), f)
  {
    var e, s' := ProgressMade(p), StatusProgress(s, p);
    var es' := es + [e];
    OpenedAppend(es, e, f);
    CellsAppend(es, e, f);
    if f in s.frames {
      PreviewSaysSame(es, e, f, s.frames[f].lastOutputPreview);
      forall i: nat | i in CellsIn(es, f) ensures HasPhase(es', f, i) <==> HasPhase(es, f, i) {
        forall n: nat, name ensures PhaseIn(es', f, i, n, name) <==> PhaseIn(es, f, i, n, name) {}
      }
      if s.frames[f].phase.Some? {
        var i :| Shown(es, f, i, s.frames[f].phase.value);
        forall n: nat, name ensures PhaseIn(es', f, i, n, name) <==> PhaseIn(es, f, i, n, name) {}
        assert TopPhase(es', f, i, s.frames[f].phase.value);
        assert Shown(es', f, i, s.frames[f].phase.value);
      }
    }
  }

  lemma EffectAppend(es: seq<Event>, p: Progress, f: FrameId, i: nat, n: nat)
    ensures EffectIn(es + [ProgressMade(p)], f, i, n) <==>
              EffectIn(es, f, i, n) || (p.frameId == f && p.iteration == i && p.ordinal == n)
  {
    var es' := es + [ProgressMade(p)];
    assert ProgressMade(p) in es';
    if EffectIn(es, f, i, n) {
      var q :| ProgressMade(q) in es && q.frameId == f && q.iteration == i && q.ordinal == n;
      assert ProgressMade(q) in es';
    }
  }

  lemma WaitingAppend(es: seq<Event>, p: Progress, f: FrameId, i: nat, pending: seq<PendingPhase>)
    requires Waiting(es, f, i, pending)
    ensures var more := if p.Phase? && p.frameId == f && p.iteration == i then [PendingPhase(p.ordinal, p.name)] else [];
            Waiting(es + [ProgressMade(p)], f, i, pending + more)
  {
    var es' := es + [ProgressMade(p)];
    forall n: nat, name ensures PhaseIn(es', f, i, n, name) <==>
                             PhaseIn(es, f, i, n, name) || p == Phase(f, i, n, name) {}
  }

  lemma ProgressTurn(es: seq<Event>, s: Status, p: Progress, f: FrameId, i: nat)
    requires TurnTold(es, s.effects, f, i) && p.iteration !in CellsIn(es, p.frameId)
    requires (p.frameId, p.iteration) !in s.effects.committed
    requires (p.frameId, p.iteration, p.ordinal) in s.effects.seen ==> ProgressMade(p) in es
    ensures TurnTold(es + [ProgressMade(p)], StatusProgress(s, p).effects, f, i)
  {
    var e, s' := ProgressMade(p), StatusProgress(s, p);
    CellsAppend(es, e, f);
    forall n: nat ensures EffectIn(es + [e], f, i, n) <==>
                       EffectIn(es, f, i, n) || (p.frameId == f && p.iteration == i && p.ordinal == n) {
      EffectAppend(es, p, f, i, n);
    }
    if (p.frameId, p.iteration, p.ordinal) in s.effects.seen {
      AppendSaysSame(es, e, f);
      OtherTurnKept(es, s.effects, s'.effects, e, f, i);
      assert s'.effects == s.effects;
    } else if i !in CellsIn(es, f) {
      WaitingAppend(es, p, f, i, PendingAt(s.effects, f, i));
      assert PendingAt(s.effects, f, i) + [] == PendingAt(s.effects, f, i);
    }
  }

  lemma ProgressTold(es: seq<Event>, s: Status, p: Progress)
    requires StatusTold(es, s) && p.iteration !in CellsIn(es, p.frameId)
    requires forall q | ProgressMade(q) in es && q.frameId == p.frameId && q.iteration == p.iteration
                        && q.ordinal == p.ordinal :: q == p
    ensures StatusTold(es + [ProgressMade(p)], StatusProgress(s, p))
  {
    assert TurnTold(es, s.effects, p.frameId, p.iteration);
    forall f ensures FrameTold(es + [ProgressMade(p)], StatusProgress(s, p), f) {
      assert FrameTold(es, s, f);
      ProgressFrame(es, s, p, f);
    }
    forall f, i: nat ensures TurnTold(es + [ProgressMade(p)], StatusProgress(s, p).effects, f, i) {
      assert TurnTold(es, s.effects, f, i);
      ProgressTurn(es, s, p, f, i);
    }
  }

  // ----- Cells.

  /** The next cell of its frame is later than all before it, and shows its own phases if it has any. */
  lemma CellPhase(es: seq<Event>, s: Status, c: Cell)
    requires FrameTold(es, s, c.frameId) && TurnTold(es, s.effects, c.frameId, c.iteration)
    requires c.frameId in s.frames && c.iteration !in CellsIn(es, c.frameId)
    requires forall j <- CellsIn(es, c.frameId) :: j < c.iteration
    ensures PhaseTold(es + [CellCommitted(c)], c.frameId, StatusCell(s, c).frames[c.frameId].phase)
  {
    var f, i, es' := c.frameId, c.iteration, es + [CellCommitted(c)];
    var pending := PendingAt(s.effects, f, i);
    CellsAppend(es, CellCommitted(c), f);
    forall j: nat, n: nat, name ensures PhaseIn(es', f, j, n, name) <==> PhaseIn(es, f, j, n, name) {}
    forall j ensures HasPhase(es', f, j) <==> HasPhase(es, f, j) {}
    if pending != [] {
      LastPhaseIsTop(pending);
      var top := LastPhase(pending);
      assert PhaseIn(es, f, i, top.ordinal, top.name);
      forall n: nat, name | PhaseIn(es', f, i, n, name) ensures n <= top.ordinal { assert PendingPhase(n, name) in pending; }
      assert TopPhase(es', f, i, top.name);
      assert Shown(es', f, i, top.name);
    } else {
      forall n: nat, name ensures !PhaseIn(es, f, i, n, name) { assert PendingPhase(n, name) !in pending; }
      assert !HasPhase(es, f, i);
      var phase := s.frames[f].phase;
      if phase.Some? {
        var j :| Shown(es, f, j, phase.value);
        assert TopPhase(es', f, j, phase.value);
        assert Shown(es', f, j, phase.value);
      }
    }
  }

  lemma CellFrame(es: seq<Event>, s: Status, c: Cell, f: FrameId)
    requires FrameTold(es, s, f) && FrameTold(es, s, c.frameId) && TurnTold(es, s.effects, c.frameId, c.iteration)
    requires c.frameId in s.frames && c.iteration !in CellsIn(es, c.frameId)
    requires forall j <- CellsIn(es, c.frameId) :: j < c.iteration
    ensures FrameTold(es + [CellCommitted(c)], StatusCell(s, c), f)
  {
    var e, s' := CellCommitted(c), StatusCell(s, c);
    OpenedAppend(es, e, f);
    CellsAppend(es, e, f);
    if f == c.frameId {
      CellPhase(es, s, c);
      assert CellCommitted(c) in es + [e];
    } else {
      AppendSaysSame(es, e, f);
      OtherFrameKept(es, s, s', e, f);
    }
  }

  lemma CellTurn(es: seq<Event>, s: Status, c: Cell, f: FrameId, i: nat)
    requires TurnTold(es, s.effects, f, i) && c.frameId in s.frames
    requires c.iteration !in s.frames[c.frameId].seenIterations
    ensures TurnTold(es + [CellCommitted(c)], StatusCell(s, c).effects, f, i)
  {
    var e, s' := CellCommitted(c), StatusCell(s, c);
    var es' := es + [e];
    CellsAppend(es, e, f);
    forall n: nat ensures EffectIn(es', f, i, n) <==> EffectIn(es, f, i, n) {
      if EffectIn(es, f, i, n) {
        var p :| ProgressMade(p) in es && p.frameId == f && p.iteration == i && p.ordinal == n;
        assert ProgressMade(p) in es';
      }
    }
    forall n: nat, name ensures PhaseIn(es', f, i, n, name) <==> PhaseIn(es, f, i, n, name) {}
  }

  lemma CellTold(es: seq<Event>, s: Status, c: Cell)
    requires StatusTold(es, s) && OpenedIn(es, c.frameId)
    requires CellCommitted(c) in es || (c.iteration !in CellsIn(es, c.frameId)
                                        && forall j <- CellsIn(es, c.frameId) :: j < c.iteration)
    ensures StatusTold(es + [CellCommitted(c)], StatusCell(s, c))
  {
    var e, s' := CellCommitted(c), StatusCell(s, c);
    assert FrameTold(es, s, c.frameId) && TurnTold(es, s.effects, c.frameId, c.iteration);
    forall f ensures FrameTold(es + [e], s', f) {
      assert FrameTold(es, s, f);
      if e in es {
        AppendSaysSame(es, e, f);
        OpenedAppend(es, e, f);
        OtherFrameKept(es, s, s', e, f);
      } else {
        CellFrame(es, s, c, f);
      }
    }
    forall f, i: nat ensures TurnTold(es + [e], s'.effects, f, i) {
      assert TurnTold(es, s.effects, f, i);
      if e in es {
        AppendSaysSame(es, e, f);
        OtherTurnKept(es, s.effects, s'.effects, e, f, i);
      } else {
        CellTurn(es, s, c, f, i);
      }
    }
  }

  // ----- Journals.

  /** The cells of a frame are numbered from one without gaps. */
  lemma CellsAreNumbered(m: R.Manifest, es: seq<Event>, f: FrameId)
    requires m.objective.Some? && R.Fold(m, es).Ok?
    ensures forall i :: i in CellsIn(es, f) <==> 1 <= i <= |CellsIn(es, f)|
  {
    JournalContents.FoldTells(m, es);
    var s := R.Fold(m, es).value;
    JournalLanguage.CellsRead(es, s.frames, f);
    if f in s.frames { assert CrashCut.FrameContent(es, f, s.frames[f]); }
  }

  lemma EventTold(m: R.Manifest, es: seq<Event>, s: Status, e: Event)
    requires m.objective.Some? && StatusTold(es, s) && Admitted(m, es, e)
    requires e.Frame().Some? ==>
               forall i :: i in CellsIn(es, e.Frame().value) <==> 1 <= i <= |CellsIn(es, e.Frame().value)|
    ensures StatusTold(es + [e], StatusEvent(s, e))
  {
    match e {
      case FrameOpened(o) => OpenedTold(es, s, o);
      case ProgressMade(p) => ProgressTold(es, s, p);
      case CellCommitted(c) => CellTold(es, s, c);
      case _ => SilentTold(es, s, e);
    }
  }

  lemma NothingTold()
    ensures StatusTold([], ReduceStatus([]))
  {
    forall f ensures FrameTold([], EMPTY_STATUS, f) {}
    forall f, i: nat ensures TurnTold([], EMPTY_STATUS.effects, f, i) {}
  }

  lemma {:induction false} FoldTold(m: R.Manifest, es: seq<Event>)
    requires m.objective.Some? && R.Fold(m, es).Ok?
    ensures StatusTold(es, ReduceStatus(es))
  {
    if es == [] {
      NothingTold();
    } else {
      var front, e := es[..|es| - 1], es[|es| - 1];
      assert es == front + [e];
      FoldTold(m, front);
      JournalVerdict.LastVerdict(m, front, e);
      if e.Frame().Some? { CellsAreNumbered(m, front, e.Frame().value); }
      EventTold(m, front, ReduceStatus(front), e);
    }
  }

  /**
   * In the projection of a journal that folds, every opened frame shows the phase with the greatest ordinal of its latest
   * committed cell that has phases, and the output of its latest committed cell.
   */
  lemma ProjectedFrame(m: R.Manifest, es: seq<Event>, f: FrameId)
    requires m.objective.Some? && R.Fold(m, es).Ok?
    ensures f in ReduceStatus(es).frames <==> OpenedIn(es, f)
    ensures f in ReduceStatus(es).frames ==>
              && PhaseTold(es, f, ReduceStatus(es).frames[f].phase)
              && PreviewTold(es, f, ReduceStatus(es).frames[f].lastOutputPreview)
  {
    FoldTold(m, es);
    assert FrameTold(es, ReduceStatus(es), f);
  }

  // ----- Openings, keys and calls.

  function OpeningOf(f: FrameId): Event -> bool { (e: Event) => e.FrameOpened? && e.opening.frameId == f }

  function BindingOf(k: StatusKey): Event -> bool { (e: Event) => e.KeyBound? && StatusKeyOf(e.binding) == k }

  /** A frame is shown as it was first opened. */
  ghost predicate OpeningTold(es: seq<Event>, s: Status, f: FrameId) {
    && (f in s.frames <==> Any(es, OpeningOf(f)))
    && (f in s.frames ==>
          First(es, FrameOpened(Opened(f, s.frames[f].parent, s.frames[f].depth, s.frames[f].objective)), OpeningOf(f)))
  }

  lemma OpeningKept(s: Status, e: Event, f: FrameId)
    requires !OpeningOf(f)(e) || f in s.frames
    ensures var s' := StatusEvent(s, e);
            && (f in s'.frames <==> f in s.frames)
            && (f in s.frames ==>
                  && s'.frames[f].parent == s.frames[f].parent && s'.frames[f].depth == s.frames[f].depth
                  && s'.frames[f].objective == s.frames[f].objective)
  {
  }

  /** Of any events, every frame is projected as its first opening says. */
  lemma {:induction false} ProjectedOpening(es: seq<Event>, f: FrameId)
    ensures OpeningTold(es, ReduceStatus(es), f)
  {
    if es != [] {
      var front, e := es[..|es| - 1], es[|es| - 1];
      assert es == front + [e];
      ProjectedOpening(front, f);
      AnyAppend(front, e, OpeningOf(f));
      var s := ReduceStatus(front);
      if f in s.frames {
        OpeningKept(s, e, f);
        FirstAppend(front, e, FrameOpened(Opened(f, s.frames[f].parent, s.frames[f].depth, s.frames[f].objective)), OpeningOf(f));
      } else if OpeningOf(f)(e) {
        FirstAppend(front, e, e, OpeningOf(f));
      } else {
        OpeningKept(s, e, f);
      }
    }
  }

  lemma KeysStep(s: Status, e: Event)
    ensures StatusEvent(s, e).keyBindings ==
            if e.KeyBound? && StatusKeyOf(e.binding) !in s.keyBindings
            then s.keyBindings[StatusKeyOf(e.binding) := e.binding] else s.keyBindings
  {
  }

  /** Of any events, every key is projected as it was first bound. */
  lemma {:induction false} ProjectedKey(es: seq<Event>, k: StatusKey)
    ensures var keys := ReduceStatus(es).keyBindings;
            && (k in keys <==> Any(es, BindingOf(k)))
            && (k in keys ==> First(es, KeyBound(keys[k]), BindingOf(k)))
  {
    if es != [] {
      var front, e := es[..|es| - 1], es[|es| - 1];
      assert es == front + [e];
      ProjectedKey(front, k);
      KeysStep(ReduceStatus(front), e);
      AnyAppend(front, e, BindingOf(k));
      var keys := ReduceStatus(front).keyBindings;
      FirstAppend(front, e, if k in keys then KeyBound(keys[k]) else e, BindingOf(k));
    }
  }

  /** The calls whose first commitment belongs to the frame. */
  ghost function CallsFirstIn(es: seq<Event>, f: FrameId): set<CallId> {
    set e <- es | e.CallCommitted? && e.call.frameId == f && First(es, e, CallOf(e.call.callId)) :: e.call.callId
  }

  lemma CallsAppend(es: seq<Event>, e: Event, f: FrameId)
    ensures CallsFirstIn(es + [e], f) ==
            CallsFirstIn(es, f) + (if e.CallCommitted? && e.call.frameId == f && !Any(es, CallOf(e.call.callId))
                                   then {e.call.callId} else {})
    ensures e.CallCommitted? && !Any(es, CallOf(e.call.callId)) ==> e.call.callId !in CallsFirstIn(es, f)
  {
    var all := es + [e];
    forall c | c in CallsFirstIn(es, f) ensures c in CallsFirstIn(all, f) {
      var x :| x in es && x.CallCommitted? && x.call.frameId == f && First(es, x, CallOf(c)) && x.call.callId == c;
      FirstAppend(es, e, x, CallOf(c));
      assert x in all;
    }
    if e.CallCommitted? && e.call.frameId == f && !Any(es, CallOf(e.call.callId)) {
      FirstAppend(es, e, e, CallOf(e.call.callId));
      assert e in all;
    }
    forall c | c in CallsFirstIn(all, f)
      ensures c in CallsFirstIn(es, f)
              || (e.CallCommitted? && e.call.frameId == f && !Any(es, CallOf(c)) && c == e.call.callId)
    {
      var x :| x in all && x.CallCommitted? && x.call.frameId == f && First(all, x, CallOf(c)) && x.call.callId == c;
      FirstOnly(es, e, x, CallOf(c));
    }
  }

  lemma CallsStep(s: Status, e: Event, f: FrameId)
    requires e.CallCommitted? ==> e.call.frameId in s.frames
    ensures var s' := StatusEvent(s, e);
            && s'.committedCalls == s.committedCalls + (if e.CallCommitted? then {e.call.callId} else {})
            && (f in s.frames ==>
                  f in s'.frames && s'.frames[f].calls == s.frames[f].calls +
                    (if e.CallCommitted? && e.call.frameId == f && e.call.callId !in s.committedCalls then 1 else 0))
            && (f !in s.frames && f in s'.frames ==> s'.frames[f].calls == 0)
  {
  }

  ghost predicate CallsTold(es: seq<Event>, s: Status, f: FrameId) {
    && (forall c {:trigger CallOf(c)} :: c in s.committedCalls <==> Any(es, CallOf(c)))
    && (if f in s.frames then s.frames[f].calls == |CallsFirstIn(es, f)| else CallsFirstIn(es, f) == {})
  }

  lemma CallsToldAfter(es: seq<Event>, s: Status, e: Event, f: FrameId)
    requires CallsTold(es, s, f) && (e.CallCommitted? ==> e.call.frameId in s.frames)
    ensures CallsTold(es + [e], StatusEvent(s, e), f)
  {
    CallsStep(s, e, f);
    CallsAppend(es, e, f);
    forall c ensures c in StatusEvent(s, e).committedCalls <==> Any(es + [e], CallOf(c)) {
      AnyAppend(es, e, CallOf(c));
      assert c in s.committedCalls <==> Any(es, CallOf(c));
    }
    if e.CallCommitted? { assert e.call.callId in s.committedCalls <==> Any(es, CallOf(e.call.callId)); }
  }

  lemma CallFrameKnown(m: R.Manifest, es: seq<Event>, e: Event)
    requires m.objective.Some? && R.Fold(m, es + [e]).Ok? && e.CallCommitted?
    ensures e.call.frameId in ReduceStatus(es).frames
  {
    R.LastStep(m, es, e);
    JournalVerdict.LastVerdict(m, es, e);
    ProjectedFrame(m, es, e.call.frameId);
  }

  /** In the projection of a journal that folds, a frame shows how many calls were first committed in it. */
  lemma {:induction false} ProjectedCalls(m: R.Manifest, es: seq<Event>, f: FrameId)
    requires m.objective.Some? && R.Fold(m, es).Ok?
    ensures CallsTold(es, ReduceStatus(es), f)
  {
    if es != [] {
      var front, e := es[..|es| - 1], es[|es| - 1];
      assert es == front + [e];
      ProjectedCalls(m, front, f);
      if e.CallCommitted? { CallFrameKnown(m, front, e); }
      CallsToldAfter(front, ReduceStatus(front), e, f);
    }
  }
}
