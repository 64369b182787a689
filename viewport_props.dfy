/** Properties of Viewport2DIn3D over whole runs: any sequence of property sets,
    _Ready calls and frames, starting from the freshly constructed node. */
module ViewportProperties {
  import opened Util
  import opened ViewportSpec

  /** The five Reapply* inspector toggles. */
  datatype ReapplyFlag = ReapplyRedraw | ReapplyMaterial | ReapplySurface | ReapplyAlbedo | ReapplySubscene

  /** The one flag each toggle raises. */
  function FlagOf(k: ReapplyFlag): (f: Dirty)
    ensures IsFlag(f) && f != DirtySize && f != DirtyUpdate
  {
    match k
    case ReapplyRedraw => DirtyRedraw
    case ReapplyMaterial => DirtyMaterial
    case ReapplySurface => DirtySurface
    case ReapplyAlbedo => DirtyAlbedo
    case ReapplySubscene => DirtySubScene
  }

  /** Everything the engine or the user can do to the node. The engine delivers frames
      only to a node whose _Ready has run; a setter that throws leaves the fields it had
      assigned, and the caller goes on. */
  datatype Op =
    | SetSubSceneOp(scene: Option<nat>)
    | SetUpdateModeOp(mode: UpdateMode)
    | ReapplyOp(flag: ReapplyFlag)
    | SetScreenOp(screen: Option<Vec2>)
    | ReadyOp
    | ProcessOp(delta: real)

  function Step(env: Env, s: VState, op: Op): (r: VState)
    requires Valid(s)
    ensures Valid(r)
    ensures HasFlag(s.dirty, DirtySize) ==> HasFlag(r.dirty, DirtySize)
  {
    match op
    case SetSubSceneOp(scene) => SetSubScene(env, s, scene)
    case SetUpdateModeOp(mode) => SetViewportUpdateMode(env, s, mode).state
    case ReapplyOp(k) => Reapply(s, FlagOf(k))
    case SetScreenOp(screen) => SetScreen(s, screen)
    case ReadyOp => Ready(env, s)
    case ProcessOp(delta) => if s.props.isReady then Process(env, s, delta) else s
  }

  /** The state after a run; every state on the way keeps the invariant, so the screen
      material is never used while it is still null. */
  function Run(env: Env, s: VState, ops: seq<Op>): (r: VState)
    requires Valid(s)
    ensures Valid(r)
    decreases |ops|
  {
    if ops == [] then s else Run(env, Step(env, s, ops[0]), ops[1..])
  }

  /** Once set, Size stays set: nothing ever clears it. */
  lemma {:induction false} SizeStaysSet(env: Env, s: VState, ops: seq<Op>)
    requires Valid(s) && HasFlag(s.dirty, DirtySize)
    ensures HasFlag(Run(env, s, ops).dirty, DirtySize)
    decreases |ops|
  {
    if ops != [] {
      SizeStaysSet(env, Step(env, s, ops[0]), ops[1..]);
    }
  }

  /** The node starts with Size set, so Size is pending in every reachable state. */
  lemma SizeAlwaysPending(env: Env, screen: Option<Vec2>, children: seq<Child>, target: TargetMode,
                          nextId: nat, ops: seq<Op>)
    requires TreeValid(Tree(None, children, {}), nextId)
    ensures HasFlag(Run(env, Initial(screen, children, target, nextId), ops).dirty, DirtySize)
  {
    SizeStaysSet(env, Initial(screen, children, target, nextId), ops);
  }

  /** Consequently every Update of a reachable node leaves Material pending, and the next
      render pass builds a new screen material. */
  lemma EveryUpdateRebuildsMaterial(env: Env, screen: Option<Vec2>, children: seq<Child>,
                                    target: TargetMode, nextId: nat, ops: seq<Op>)
    requires TreeValid(Tree(None, children, {}), nextId)
    ensures var u := Update(env, Run(env, Initial(screen, children, target, nextId), ops));
      HasFlag(u.dirty, DirtyMaterial) && UpdateRender(env, u).material == Some(u.nextId)
  {
    SizeAlwaysPending(env, screen, children, target, nextId, ops);
  }

  /** On a ready node whose SubViewport is empty, setting a scene instantiates it as the
      only child, a Control, which becomes the instance. */
  lemma FirstSubSceneIsInstantiated(env: Env, s: VState, a: nat)
    requires Valid(s) && s.props.isReady && s.tree.children == []
    ensures var t1 := SetSubScene(env, s, Some(a));
      t1.tree.instance.Some? && t1.tree.instance.value.isControl &&
      t1.tree.children == [t1.tree.instance.value] && AddInstance(a, t1.tree.instance.value.id) in t1.effects
  {
    var t := s.(props := s.props.(subScene := Some(a)), dirty := s.dirty | DirtySubScene);
    var m := MaterialStep(t);
    var sub := SubSceneStep(m);
    assert sub == ReplaceSubScene(m.(dirty := m.dirty & !DirtySubScene));
    assert |sub.tree.children| == 1;
    assert SetSubScene(env, s, Some(a)) == FullPass(env, t);
  }

  /** Setting a second scene afterwards takes the early return: the first instance stays
      and the second scene is never instantiated. */
  lemma SecondSubSceneIsIgnored(env: Env, s: VState, a: nat, b: nat)
    requires Valid(s) && s.props.isReady && s.tree.children == []
    ensures var t1 := SetSubScene(env, s, Some(a));
      var t2 := SetSubScene(env, t1, Some(b));
      t1.tree.instance.Some? && AddInstance(a, t1.tree.instance.value.id) in t1.effects &&
      t2.tree == t1.tree && t2.props.subScene == Some(b)
  {
    FirstSubSceneIsInstantiated(env, s, a);
    var t1 := SetSubScene(env, s, Some(a));
    assert FirstChildIsControl(t1.tree.children) && t1.tree.instance == Some(t1.tree.children[0]);
  }

  /** A scene and an update mode both set while the node is loaded, before _Ready: the
      mode's setter throws in its render pass after clearing SubScene, so _Ready never
      instantiates the scene. Without the mode, _Ready does. */
  lemma ModeSetBeforeReadyDropsSubScene(env: Env, screen: Option<Vec2>, children: seq<Child>,
                                        target: TargetMode, nextId: nat, a: nat, mode: UpdateMode)
    requires TreeValid(Tree(None, children, {}), nextId) && !FirstChildIsControl(children)
    ensures var s1 := SetSubScene(env, Initial(screen, children, target, nextId), Some(a));
      var e := SetViewportUpdateMode(env, s1, mode);
      var lost := Ready(env, e.state);
      var kept := Ready(env, s1);
      e.completion == NullReferenceThrown &&
      lost.tree == Tree(None, children, {}) && lost.props.subScene == Some(a) &&
      kept.tree.instance.Some? && AddInstance(a, kept.tree.instance.value.id) in kept.effects
  {
    var s1 := SetSubScene(env, Initial(screen, children, target, nextId), Some(a));
    var e := SetViewportUpdateMode(env, s1, mode);
    assert !HasFlag(e.state.dirty, DirtySubScene) && e.state.tree == s1.tree;
    assert Adopt(e.state).tree == s1.tree;
  }
}
