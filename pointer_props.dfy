/** Properties of the Pointer over whole runs: frames, controller buttons and grabs in any
    order. An exception in an engine callback is reported by the engine and the game goes
    on, so a handler that throws leaves the pointer as it was and the run continues. */
module PointerProperties {
  import opened Util
  import opened PointerSpec

  /** What the engine delivers to the pointer. */
  datatype Op =
    | Frame(hit: RayHit)
    | ButtonDown(button: string, hit: RayHit)
    | ButtonUp(button: string, hit: RayHit)
    | Grab
    | Drop

  function Step(cfg: Config, s: PState, op: Op): PState {
    match op
    case Frame(hit) => StateAfter(s, Process(cfg, s, hit))
    case ButtonDown(b, hit) => StateAfter(s, ButtonPressed(cfg, s, b, hit))
    case ButtonUp(b, hit) => StateAfter(s, ButtonReleased(cfg, s, b, hit))
    case Grab => Grabbed(cfg, s)
    case Drop => Dropped(cfg, s)
  }

  function Run(cfg: Config, s: PState, ops: seq<Op>): PState
    decreases |ops|
  {
    if ops == [] then s else Run(cfg, Step(cfg, s, ops[0]), ops[1..])
  }

  /** A fresh pointer: nothing hovered and nothing called yet. */
  function Initial(disabled: bool, visible: bool, targetZ: real): PState {
    PState(disabled, visible, None, targetZ, [])
  }

  /** The PointerEntered and PointerExited calls of a log, in order. */
  function HoverLog(events: seq<PEvent>): (h: seq<PEvent>)
    ensures |h| <= |events|
    ensures forall i :: 0 <= i < |h| ==> h[i].Entered? || h[i].Exited?
  {
    if events == [] then []
    else
      var e := events[|events| - 1];
      HoverLog(events[..|events| - 1]) + if e.Entered? || e.Exited? then [e] else []
  }

  /** Every enter and exit call of the log is kept in HoverLog, and nothing else. */
  lemma {:induction false} HoverLogMembers(events: seq<PEvent>)
    ensures forall e :: e in HoverLog(events) <==> e in events && (e.Entered? || e.Exited?)
    decreases |events|
  {
    if events != [] {
      var init := events[..|events| - 1];
      HoverLogMembers(init);
      assert events == init + [events[|events| - 1]];
    }
  }

  lemma {:induction false} HoverLogAppend(a: seq<PEvent>, b: seq<PEvent>)
    ensures HoverLog(a + b) == HoverLog(a) + HoverLog(b)
    decreases |b|
  {
    if b == [] {
      assert a + b == a;
    } else {
      var b' := b[..|b| - 1];
      assert (a + b)[..|a + b| - 1] == a + b';
      HoverLogAppend(a, b');
    }
  }

  /** Enter and exit calls alternate, starting with an enter; each exit goes to the target
      of the enter before it; open is the target of a trailing enter, if any. */
  ghost predicate Alternating(h: seq<PEvent>, open: Option<Node>)
    decreases |h|
  {
    if h == [] then open.None?
    else
      var e := h[|h| - 1];
      match e
      case Entered(x) => open == Some(x) && Alternating(h[..|h| - 1], None)
      case Exited(x) => open.None? && Alternating(h[..|h| - 1], Some(x))
      case _ => false
  }

  /** The invariant: the enter and exit calls alternate, and _prevInteractable is the one
      entered and not yet exited. */
  ghost predicate HoverConsistent(s: PState) {
    Alternating(HoverLog(s.events), s.prev)
  }

  lemma InitialIsHoverConsistent(disabled: bool, visible: bool, targetZ: real)
    ensures HoverConsistent(Initial(disabled, visible, targetZ))
  {
  }

  /** Read off the alternation: enters at even positions, exits at odd ones, each exit to
      the target of the enter just before it, and a pending enter exactly when _prevInteractable
      is set. */
  lemma {:induction false} AlternatingShape(h: seq<PEvent>, open: Option<Node>)
    requires Alternating(h, open)
    ensures forall i :: 0 <= i < |h| ==> (h[i].Entered? <==> i % 2 == 0) && (h[i].Exited? <==> i % 2 == 1)
    ensures forall i :: 0 < i < |h| && h[i].Exited? ==> h[i - 1] == Entered(h[i].target)
    ensures open.Some? <==> |h| % 2 == 1
    ensures open.Some? ==> h[|h| - 1] == Entered(open.value)
    decreases |h|
  {
    if h != [] {
      var h' := h[..|h| - 1];
      assert forall i :: 0 <= i < |h'| ==> h[i] == h'[i];
      match h[|h| - 1]
      case Entered(x) => AlternatingShape(h', None);
      case Exited(x) => AlternatingShape(h', Some(x));
      case _ => assert false;
    }
  }

  /** Adding calls that are neither enters nor exits keeps the invariant. */
  lemma AppendNonHover(s: PState, evs: seq<PEvent>)
    requires HoverConsistent(s)
    requires forall i :: 0 <= i < |evs| ==> !evs[i].Entered? && !evs[i].Exited?
    ensures HoverConsistent(s.(events := s.events + evs))
  {
    HoverLogAppend(s.events, evs);
    NonHoverHasNoHoverLog(evs);
    assert HoverLog(s.events) + [] == HoverLog(s.events);
  }

  lemma {:induction false} NonHoverHasNoHoverLog(evs: seq<PEvent>)
    requires forall i :: 0 <= i < |evs| ==> !evs[i].Entered? && !evs[i].Exited?
    ensures HoverLog(evs) == []
    decreases |evs|
  {
    if evs != [] {
      NonHoverHasNoHoverLog(evs[..|evs| - 1]);
    }
  }

  /** Pointer enter keeps the invariant: an enter is logged only while nothing is hovered. */
  lemma EnterKeepsHover(s: PState, hit: RayHit)
    requires HoverConsistent(s) && Interactable(hit).Returned?
    ensures HoverConsistent(HandleEnter(s, hit))
  {
    var t := Interactable(hit).value;
    if s.prev.None? && t.Some? {
      HoverLogAppend(s.events, [Entered(t.value)]);
    }
  }

  /** Pointer exit keeps the invariant: the exit goes to the hovered interactable. */
  lemma ExitKeepsHover(s: PState, hit: RayHit)
    requires HoverConsistent(s)
    ensures HoverConsistent(HandleExit(s, hit))
  {
    if hit.collider.None? && s.prev.Some? {
      HoverLogAppend(s.events, [Exited(s.prev.value)]);
    }
  }

  /** One frame keeps the invariant: the Move call, then ManageCurve, enter and exit. */
  lemma FrameKeepsHover(cfg: Config, s: PState, hit: RayHit)
    requires HoverConsistent(s)
    ensures HoverConsistent(StateAfter(s, Process(cfg, s, hit)))
  {
    if !s.disabled && Interactable(hit).Returned? {
      var s1 := TrySendInput(s, Move, hit).value;
      AppendNonHover(s, Dispatch(Move, hit).value);
      var s2 := ManageCurve(cfg, s1, hit).value;
      assert s2.events == s1.events && s2.prev == s1.prev;
      EnterKeepsHover(s2, hit);
      ExitKeepsHover(HandleEnter(s2, hit), hit);
    }
  }

  /** Every step keeps the invariant. */
  lemma StepKeepsHover(cfg: Config, s: PState, op: Op)
    requires HoverConsistent(s)
    ensures HoverConsistent(Step(cfg, s, op))
  {
    match op
    case Frame(hit) => FrameKeepsHover(cfg, s, hit);
    case ButtonDown(b, hit) =>
      var r := ButtonPressed(cfg, s, b, hit);
      if r.Returned? && b == cfg.pressAction {
        AppendNonHover(s, Dispatch(Press, hit).value);
      }
    case ButtonUp(b, hit) =>
      var r := ButtonReleased(cfg, s, b, hit);
      if r.Returned? && b == cfg.pressAction {
        AppendNonHover(s, Dispatch(Release, hit).value);
      }
    case Grab =>
    case Drop =>
  }

  lemma {:induction false} RunKeepsHover(cfg: Config, s: PState, ops: seq<Op>)
    requires HoverConsistent(s)
    ensures HoverConsistent(Run(cfg, s, ops))
    decreases |ops|
  {
    if ops != [] {
      StepKeepsHover(cfg, s, ops[0]);
      RunKeepsHover(cfg, Step(cfg, s, ops[0]), ops[1..]);
    }
  }

  /** From a fresh pointer, PointerEntered and PointerExited always alternate, every exit
      goes to the interactable entered just before, and _prevInteractable is set exactly
      when the last of them was an enter, to its target. */
  lemma HoverCallsAlternate(cfg: Config, disabled: bool, visible: bool, targetZ: real, ops: seq<Op>)
    ensures var s := Run(cfg, Initial(disabled, visible, targetZ), ops);
      var h := HoverLog(s.events);
      (forall i :: 0 <= i < |h| ==> (h[i].Entered? <==> i % 2 == 0)) &&
      (forall i :: 0 < i < |h| && h[i].Exited? ==> h[i - 1] == Entered(h[i].target)) &&
      (s.prev.Some? <==> |h| % 2 == 1) &&
      (s.prev.Some? ==> h[|h| - 1] == Entered(s.prev.value))
  {
    var s := Run(cfg, Initial(disabled, visible, targetZ), ops);
    RunKeepsHover(cfg, Initial(disabled, visible, targetZ), ops);
    AlternatingShape(HoverLog(s.events), s.prev);
  }

  /** With disableWhenGrabbing, a grabbed pointer ignores every frame until it is dropped:
      no calls, no change to what is hovered, and it stays hidden. */
  lemma {:induction false} GrabbedPointerIgnoresFrames(cfg: Config, s: PState, ops: seq<Op>)
    requires cfg.disableWhenGrabbing
    requires forall i :: 0 <= i < |ops| ==> ops[i].Frame?
    ensures Run(cfg, Grabbed(cfg, s), ops) == Grabbed(cfg, s)
    ensures !Run(cfg, Grabbed(cfg, s), ops).visible
    decreases |ops|
  {
    if ops != [] {
      GrabbedPointerIgnoresFrames(cfg, s, ops[1..]);
    }
  }

  /** Dropping re-enables the pointer but does not show it; the next frame's ManageCurve
      decides visibility. */
  lemma DropAfterGrabStaysHidden(cfg: Config, s: PState, hit: RayHit)
    requires cfg.disableWhenGrabbing
    ensures var d := Dropped(cfg, Grabbed(cfg, s));
      !d.disabled && !d.visible &&
      (Process(cfg, d, hit).Returned? ==> (Process(cfg, d, hit).value.visible <==> Interactable(hit).value.Some?))
  {
  }

  /** The release handler never looks at the release action: a pointer configured with any
      other release action behaves the same. */
  lemma ReleaseActionIsIgnored(cfg: Config, s: PState, button: string, hit: RayHit, other: string)
    ensures ButtonReleased(cfg.(releaseAction := other), s, button, hit) == ButtonReleased(cfg, s, button, hit)
    ensures button == cfg.releaseAction && button != cfg.pressAction ==> ButtonReleased(cfg, s, button, hit) == Returned(s)
  {
  }

  /** The button handlers do not consult Disabled: a disabled pointer still presses and
      releases the interactable it points at. */
  lemma ButtonsIgnoreDisabled(cfg: Config, s: PState, button: string, hit: RayHit)
    requires button == cfg.pressAction && Interactable(hit).Returned? && Interactable(hit).value.Some?
    ensures var t := Interactable(hit).value.value;
      ButtonPressed(cfg, s.(disabled := true), button, hit) ==
        Returned(s.(disabled := true, events := s.events + [Pressed(t, hit.point)])) &&
      ButtonReleased(cfg, s.(disabled := true), button, hit) ==
        Returned(s.(disabled := true, events := s.events + [Released(t, hit.point)]))
  {
  }
}
