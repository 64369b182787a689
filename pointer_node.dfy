/** The Pointer ray (addons/nxr/scripts/ui/Pointer.cs) as an object whose fields its
    per-frame processing and its signal handlers update in place. The ray cast of the
    current physics frame is passed to each handler. Each method is proved to move State()
    as the matching function of PointerSpec does; a handler that throws reports it in its
    Completion and has changed nothing. */
module PointerNode {
  import opened Util
  import opened PointerSpec

  class Pointer {
    /** The exported settings. */
    const cfg: Config

    var disabled: bool
    var visible: bool
    var prevInteractable: Option<Node>
    /** TargetPosition.Z */
    var targetZ: real
    /** The calls made on interactables so far. */
    var events: seq<PEvent>

    ghost function State(): PState
      reads this
    {
      PState(disabled, visible, prevInteractable, targetZ, events)
    }

    constructor (cfg: Config, disabled: bool, visible: bool, targetZ: real)
      ensures this.cfg == cfg
      ensures State() == PState(disabled, visible, None, targetZ, [])
    {
      this.cfg := cfg;
      this.disabled := disabled;
      this.visible := visible;
      prevInteractable := None;
      this.targetZ := targetZ;
      events := [];
    }

    /** _Process: the Move dispatch, the visibility branch of ManageCurve, then pointer
        enter and pointer exit. */
    method Process(hit: RayHit) returns (c: Completion)
      modifies this
      ensures var r := PointerSpec.Process(cfg, old(State()), hit);
        c == CompletionOf(r) && State() == StateAfter(old(State()), r)
    {
      if disabled {
        return Completed;
      }
      c := TrySendInput(Move, hit);
      if c == NullReferenceThrown {
        return;
      }
      c := ManageCurve(hit);
      if c == NullReferenceThrown {
        return;
      }
      if prevInteractable.None? {
        var found := Interactable(hit);
        if found.Returned? && found.value.Some? {
          prevInteractable := found.value;
          events := events + [Entered(prevInteractable.value)];
        }
      }
      if hit.collider.None? && prevInteractable.Some? {
        events := events + [Exited(prevInteractable.value)];
        prevInteractable := None;
      }
    }

    /** OnButtonPressed */
    method OnButtonPressed(button: string, hit: RayHit) returns (c: Completion)
      modifies this
      ensures var r := ButtonPressed(cfg, old(State()), button, hit);
        c == CompletionOf(r) && State() == StateAfter(old(State()), r)
    {
      if button != cfg.pressAction {
        return Completed;
      }
      c := TrySendInput(Press, hit);
    }

    /** OnButtonReleased */
    method OnButtonReleased(button: string, hit: RayHit) returns (c: Completion)
      modifies this
      ensures var r := ButtonReleased(cfg, old(State()), button, hit);
        c == CompletionOf(r) && State() == StateAfter(old(State()), r)
    {
      if button != cfg.pressAction {
        return Completed;
      }
      c := TrySendInput(Release, hit);
    }

    /** TrySendInput */
    method TrySendInput(kind: InputKind, hit: RayHit) returns (c: Completion)
      modifies this
      ensures var r := PointerSpec.TrySendInput(old(State()), kind, hit);
        c == CompletionOf(r) && State() == StateAfter(old(State()), r)
    {
      var found := Interactable(hit);
      if found.NullReference? {
        return NullReferenceThrown;
      }
      if found.value.None? {
        return Completed;
      }
      var interactable := found.value.value;
      c := Completed;
      match kind
      case Press => events := events + [Pressed(interactable, hit.point)];
      case Release => events := events + [Released(interactable, hit.point)];
      case Move => events := events + [Moved(interactable, hit.point)];
    }

    /** The visibility branch of ManageCurve. */
    method ManageCurve(hit: RayHit) returns (c: Completion)
      modifies this
      ensures var r := PointerSpec.ManageCurve(cfg, old(State()), hit);
        c == CompletionOf(r) && State() == StateAfter(old(State()), r)
    {
      var found := Interactable(hit);
      if found.NullReference? {
        return NullReferenceThrown;
      }
      if found.value.Some? {
        targetZ := -(hit.distance + 0.05);
        visible := true;
      } else {
        targetZ := -cfg.defaultDistance;
        visible := false;
      }
      c := Completed;
    }

    /** OnGrabbed */
    method OnGrabbed()
      modifies this
      ensures State() == Grabbed(cfg, old(State()))
    {
      if cfg.disableWhenGrabbing {
        disabled := true;
        visible := false;
      }
    }

    /** OnDropped */
    method OnDropped()
      modifies this
      ensures State() == Dropped(cfg, old(State()))
    {
      if cfg.disableWhenGrabbing {
        disabled := false;
      }
    }
  }
}
