/** The Viewport2DIn3D node (addons/nxr/scripts/ui/Viewport2DIn3D.cs) as an object whose
    fields its setters, UpdateRender, Update and _Process update in place. Each method is
    proved to move State() exactly as the matching function of ViewportSpec does, and to
    keep the invariant ViewportSpec.Valid. */
module ViewportNode {
  import opened Util
  import opened ViewportSpec

  class Viewport2DIn3D {
    /** Engine.IsEditorHint() and the collision shape's presence. */
    const env: Env

    var subScene: Option<nat>
    var screen: Option<Vec2>
    var isReady: bool
    var updateMode: UpdateMode
    var timeSinceUpdate: real
    var screenSize: Vec2
    var dirty: Dirty
    var screenMaterial: Option<nat>
    /** SubViewport.RenderTargetUpdateMode */
    var renderTarget: TargetMode
    var subSceneInstance: Option<Child>
    /** The SubViewport's children and the instances queued for freeing. */
    var children: seq<Child>
    var freed: set<nat>
    var nextId: nat
    var effects: seq<Effect>

    ghost function State(): VState
      reads this
    {
      VState(Props(subScene, screen, isReady, updateMode, timeSinceUpdate, screenSize), dirty,
             screenMaterial, renderTarget, Tree(subSceneInstance, children, freed), nextId, effects)
    }

    ghost predicate Valid()
      reads this
    {
      ViewportSpec.Valid(State())
    }

    constructor (env: Env, screen: Option<Vec2>, children: seq<Child>, target: TargetMode, nextId: nat)
      requires TreeValid(Tree(None, children, {}), nextId)
      ensures Valid() && this.env == env
      ensures State() == Initial(screen, children, target, nextId)
    {
      this.env := env;
      subScene := None;
      this.screen := screen;
      isReady := false;
      updateMode := Throttled;
      timeSinceUpdate := 0.0;
      screenSize := Vec2(0.0, 0.0);
      dirty := DirtyAll;
      screenMaterial := None;
      renderTarget := target;
      subSceneInstance := None;
      this.children := children;
      freed := {};
      this.nextId := nextId;
      effects := [];
    }

    /** The SubScene setter. */
    method SetSubScene(value: Option<nat>)
      requires Valid()
      modifies this
      ensures Valid() && State() == ViewportSpec.SetSubScene(env, old(State()), value)
    {
      subScene := value;
      dirty := dirty | DirtySubScene;
      if !isReady {
        return;
      }
      UpdateRender();
    }

    /** The ViewportUpdateMode setter; before _Ready its render pass throws. */
    method SetViewportUpdateMode(value: UpdateMode) returns (c: Completion)
      requires Valid()
      modifies this
      ensures var r := ViewportSpec.SetViewportUpdateMode(env, old(State()), value);
        Valid() && State() == r.state && c == r.completion
    {
      ghost var s := State();
      dirty := dirty | DirtyUpdate;
      updateMode := value;
      ghost var t := State();
      assert t == s.(props := s.props.(updateMode := value), dirty := s.dirty | DirtyUpdate);
      if isReady {
        UpdateRender();
        c := Completed;
      } else {
        c := DetachedRender();
      }
    }

    /** UpdateRender while the SubViewport reference is null: the blocks run until the
        first dereference of it, which throws. */
    method DetachedRender() returns (c: Completion)
      requires Valid()
      modifies this
      ensures var r := DetachedPass(env, old(State()));
        Valid() && State() == r.state && c == r.completion
    {
      RenderMaterial();
      if HasFlag(dirty, DirtySubScene) {
        dirty := dirty & !DirtySubScene;
        return NullReferenceThrown;
      }
      if HasFlag(dirty, DirtyAlbedo) {
        dirty := dirty & !DirtyAlbedo;
        return NullReferenceThrown;
      }
      RenderSurface();
      if env.isEditor && HasFlag(dirty, DirtyRedraw) {
        dirty := dirty & !DirtyRedraw;
        return NullReferenceThrown;
      }
      RenderRedraw();
      if HasFlag(dirty, DirtyUpdate) {
        dirty := dirty & !DirtyUpdate;
        return NullReferenceThrown;
      }
      c := Completed;
    }

    /** The ReapplyRedraw setter; the value written is ignored. */
    method SetReapplyRedraw(value: bool)
      requires Valid()
      modifies this
      ensures Valid() && State() == Reapply(old(State()), DirtyRedraw)
    {
      dirty := dirty | DirtyRedraw;
    }

    /** The ReapplyMaterial setter; the value written is ignored. */
    method SetReapplyMaterial(value: bool)
      requires Valid()
      modifies this
      ensures Valid() && State() == Reapply(old(State()), DirtyMaterial)
    {
      dirty := dirty | DirtyMaterial;
    }

    /** The ReapplySurface setter; the value written is ignored. */
    method SetReapplySurface(value: bool)
      requires Valid()
      modifies this
      ensures Valid() && State() == Reapply(old(State()), DirtySurface)
    {
      dirty := dirty | DirtySurface;
    }

    /** The ReapplyAlbedo setter; the value written is ignored. */
    method SetReapplyAlbedo(value: bool)
      requires Valid()
      modifies this
      ensures Valid() && State() == Reapply(old(State()), DirtyAlbedo)
    {
      dirty := dirty | DirtyAlbedo;
    }

    /** The ReapplySubscene setter; the value written is ignored. */
    method SetReapplySubscene(value: bool)
      requires Valid()
      modifies this
      ensures Valid() && State() == Reapply(old(State()), DirtySubScene)
    {
      dirty := dirty | DirtySubScene;
    }

    /** _Ready, without the node lookups. */
    method Ready()
      requires Valid()
      modifies this
      ensures Valid() && State() == ViewportSpec.Ready(env, old(State()))
    {
      isReady := true;
      if |children| > 0 && children[0].isControl {
        subSceneInstance := Some(children[0]);
      }
      assert State() == Adopt(old(State()));
      Update();
    }

    /** The timer and mode branch of _Process. */
    method Process(delta: real)
      requires Valid()
      modifies this
      ensures Valid() && State() == ViewportSpec.Process(env, old(State()), delta)
    {
      if screen.None? {
        return;
      }
      CheckScreenProperties();
      AdvanceTimer(delta);
    }

    /** The timers of _Process: the editor's one-second Update, and Throttled's redraw. */
    method AdvanceTimer(delta: real)
      requires Valid()
      modifies this
      ensures Valid() && State() == Tick(env, old(State()), delta)
    {
      if env.isEditor {
        EditorTimer(delta);
      } else if updateMode == Throttled {
        var frameTime := ThrottleFrameTime;
        timeSinceUpdate := timeSinceUpdate + delta;
        if timeSinceUpdate > frameTime {
          timeSinceUpdate := 0.0;
          renderTarget := UpdateOnce;
        }
      }
    }

    /** The editor's timer: once a second has accumulated, raise Size and run Update. */
    method EditorTimer(delta: real)
      requires Valid() && env.isEditor
      modifies this
      ensures Valid() && State() == EditorTick(env, old(State()), delta)
    {
      timeSinceUpdate := timeSinceUpdate + delta;
      if timeSinceUpdate >= 1.0 {
        RestartTimer();
      }
    }

    /** The editor timer's second is up: restart it, raise Size and run Update. */
    method RestartTimer()
      requires Valid()
      modifies this
      ensures Valid()
      ensures State() == ViewportSpec.Update(env, old(State()).(props := old(State()).props.(timeSinceUpdate := 0.0),
                                                                dirty := old(State()).dirty | DirtySize))
    {
      ghost var s := State().(props := State().props.(timeSinceUpdate := 0.0));
      timeSinceUpdate := 0.0;
      dirty := dirty | DirtySize;
      assert State() == Reapply(s, DirtySize);
      Update();
    }

    /** Update: a render pass, then the Size handling. */
    method Update()
      requires Valid()
      modifies this
      ensures Valid() && State() == ViewportSpec.Update(env, old(State()))
    {
      UpdateRender();
      if HasFlag(dirty, DirtySize) {
        dirty := dirty & !DirtyAlbedo;
        dirty := dirty | DirtyAlbedo | DirtyMaterial;
        if screen.Some? {
          screenSize := screen.value;
        }
        if !env.hasCollisionShape {
          return;
        }
        effects := effects + [ResizeCollision(screenSize)];
      }
    }

    /** UpdateRender: the six flag blocks in order, with the early return after the
        SubScene block. */
    method UpdateRender()
      requires Valid()
      modifies this
      ensures Valid() && State() == ViewportSpec.UpdateRender(env, old(State()))
    {
      RenderMaterial();
      var stop := RenderSubScene();
      if stop {
        return;
      }
      RenderAlbedo();
      RenderSurface();
      RenderRedraw();
      RenderUpdate();
    }

    /** The Material block: a new screen material, then Albedo and Surface raised. */
    method RenderMaterial()
      requires Valid()
      modifies this
      ensures Valid() && State() == MaterialStep(old(State()))
    {
      if HasFlag(dirty, DirtyMaterial) {
        dirty := dirty & !DirtyMaterial;
        screenMaterial := Some(nextId);
        effects := effects + [NewMaterial(nextId)];
        nextId := nextId + 1;
        dirty := dirty | DirtyAlbedo | DirtySurface;
      }
    }

    /** The SubScene block; stop says UpdateRender returns early here. */
    method RenderSubScene() returns (stop: bool)
      modifies this
      ensures State() == SubSceneStep(old(State()))
      ensures stop == TakesEarlyReturn(old(State()))
    {
      if HasFlag(dirty, DirtySubScene) {
        ghost var s := State();
        dirty := dirty & !DirtySubScene;
        assert State() == s.(dirty := s.dirty & !DirtySubScene);
        stop := AdoptOrReplaceInstance();
      } else {
        stop := false;
      }
    }

    /** Take a Control first child of the SubViewport as the instance and report the early
        return, or replace the instance. */
    method AdoptOrReplaceInstance() returns (stop: bool)
      modifies this
      ensures State() == AdoptOrReplace(old(State()))
      ensures stop == FirstChildIsControl(old(children))
    {
      if |children| > 0 && children[0].isControl {
        subSceneInstance := Some(children[0]);
        return true;
      }
      ReleaseInstance();
      InstantiateSubScene();
      dirty := dirty | DirtyRedraw;
      stop := false;
    }

    /** Remove the current instance from the SubViewport and queue it for freeing, unless
        it has already been freed. */
    method ReleaseInstance()
      modifies this
      ensures State() == FreeInstance(old(State()))
    {
      if subSceneInstance.Some? && subSceneInstance.value.id !in freed {
        var id := subSceneInstance.value.id;
        children := WithoutChild(children, id);
        freed := freed + {id};
        effects := effects + [RemoveChild(id), QueueFree(id)];
      }
    }

    /** Instantiate the scene, if there is one, and add it to the SubViewport. */
    method InstantiateSubScene()
      modifies this
      ensures State() == Instantiate(old(State()))
    {
      if subScene.Some? {
        var inst := Child(nextId, true);
        nextId := nextId + 1;
        subSceneInstance := Some(inst);
        children := children + [inst];
        effects := effects + [AddInstance(subScene.value, inst.id)];
      }
    }

    /** The Albedo block: the viewport texture becomes the material's albedo. */
    method RenderAlbedo()
      requires screenMaterial.Some?
      modifies this
      ensures State() == AlbedoStep(old(State()))
    {
      if HasFlag(dirty, DirtyAlbedo) {
        dirty := dirty & !DirtyAlbedo;
        effects := effects + [SetAlbedoTexture(screenMaterial.value)];
      }
    }

    /** The Surface block: the material overrides the screen's surface, if there is a screen. */
    method RenderSurface()
      requires screenMaterial.Some?
      modifies this
      ensures State() == SurfaceStep(old(State()))
    {
      ghost var s := State();
      if HasFlag(dirty, DirtySurface) {
        dirty := dirty & !DirtySurface;
        ghost var c := State();
        assert c == s.(dirty := s.dirty & !DirtySurface);
        if screen.Some? {
          effects := effects + [SetSurfaceOverride(screenMaterial.value)];
          assert State() == c.(effects := c.effects + [SetSurfaceOverride(c.material.value)]);
        }
      } else {
        assert State() == s;
      }
    }

    /** The Redraw block: in the editor, one more frame is rendered. */
    method RenderRedraw()
      modifies this
      ensures State() == RedrawStep(env, old(State()))
    {
      ghost var s := State();
      if HasFlag(dirty, DirtyRedraw) {
        dirty := dirty & !DirtyRedraw;
        if env.isEditor {
          renderTarget := UpdateOnce;
          assert State() == s.(dirty := s.dirty & !DirtyRedraw, target := UpdateOnce);
        } else {
          assert State() == s.(dirty := s.dirty & !DirtyRedraw);
        }
      } else {
        assert State() == s;
      }
    }

    /** The Update block: the update mode becomes the SubViewport's target mode. */
    method RenderUpdate()
      modifies this
      ensures State() == UpdateStep(env, old(State()))
    {
      if HasFlag(dirty, DirtyUpdate) {
        dirty := dirty & !DirtyUpdate;
        renderTarget := TargetFor(env.isEditor, updateMode);
      }
    }

    /** CheckScreenProperties: a changed screen size raises Size and runs Update. */
    method CheckScreenProperties()
      requires Valid()
      modifies this
      ensures Valid() && State() == ViewportSpec.CheckScreenProperties(env, old(State()))
    {
      if screen.Some? && screen.value != screenSize {
        dirty := dirty | DirtySize;
        Update();
      }
    }

    /** The Screen auto-property setter. */
    method SetScreen(value: Option<Vec2>)
      requires Valid()
      modifies this
      ensures Valid() && State() == ViewportSpec.SetScreen(old(State()), value)
    {
      screen := value;
    }
  }
}
