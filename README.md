# NXR: viewport reconciliation, pointer hover and dispatch, node lookup

This is a Dafny model of three pieces of decision logic from the NXR Godot XR toolkit (C#). Each piece is proved against its own specification.

- **Viewport2DIn3D** shows a 2D UI scene on a mesh in 3D.
  - The node keeps a seven-bit `Dirty` mask. Property setters OR bits into it.
  - `UpdateRender` handles the bits in a fixed order: Material, SubScene, Albedo, Surface, Redraw, Update. It clears each bit it handles and may raise later ones. It returns early when the SubScene bit is pending and the SubViewport's first child is a Control.
  - `Update` adds the Size handling. `_Process` re-checks the screen size and runs the editor and Throttled timers.
  - Engine work is recorded, in call order, as an effect log: materials, scene instances, textures, surface overrides and collision resizing. The render target's update mode is a field.
- **Pointer** is the controller's ray.
  - Each frame it sends `Moved` to the interactable it hits and shows or hides itself. It sends `PointerEntered` when it first hits an interactable, and `PointerExited` when it hits nothing.
  - Controller buttons send `Pressed`/`Released`. Grabbing and dropping disable and re-enable it.
  - The calls it makes on interactables are recorded as an event log.
- **Util** holds the type tests and the parent-then-owner lookup that find the interactable behind a collider.

Layout:

- `util.dfy` (module `Util`): the scene-node values and the three lookups.
  - A C# call that dereferences null becomes `Outcome.NullReference`.
- `viewport_spec.dfy` (`ViewportSpec`): the node's state as a value, with one function per operation and per block of `UpdateRender`.
  - The `Valid` invariant: only the seven flags are ever set, the screen material exists unless its creation is pending, and node ids in the SubViewport are distinct and fresh.
- `viewport_props.dfy` (`ViewportProperties`): properties over any sequence of setter calls, `_Ready` calls and frames.
- `viewport_node.dfy` (`ViewportNode`): the class `Viewport2DIn3D`.
  - Its fields are updated in place.
  - Each method is proved to change `State()` exactly as the matching `ViewportSpec` function does. The public operations are also proved to keep `Valid`.
- `pointer_spec.dfy` (`PointerSpec`): the pointer's state as a value.
  - One frame's ray cast is an input, `RayHit`: the collider, the collision point, and the distance to it.
  - A Pointer handler that throws returns `NullReference`, and has changed nothing by then. A Viewport2DIn3D pass with no SubViewport returns its state at the throw together with the thrown completion (`DetachedPass`).
- `pointer_props.dfy` (`PointerProperties`): the hover invariant over any sequence of frames, button presses and grabs.
- `pointer_node.dfy` (`PointerNode`): the class `Pointer`.
  - Each method is proved to change `State()` as the matching `PointerSpec` function does.
  - Its `Completion` says whether it threw.

Notes on the code as written:

- `float frameTime = 1 / 30` is an integer division, so the Throttled threshold is 0. This is modelled as written (`ViewportSpec.ThrottleFrameTime`). At run time, Throttled therefore asks for a redraw on every frame with a positive `delta`.
- Once the SubViewport's first child is a Control, every later SubScene pass takes the early return. So a second scene is never instantiated, and a pending Update bit is not applied in that pass.
- Exported properties are assigned while the scene loads, before `_Ready`, when `SubViewport` is still null. The `ViewportUpdateMode` setter renders even then. At run time its pass clears Material and SubScene and then throws at the null `SubViewport`. When `ViewportUpdateMode` is assigned after `SubScene` in that load, and the SubViewport has no Control as its first child, the scene is therefore never instantiated by `_Ready` (`ViewportProperties.ModeSetBeforeReadyDropsSubScene`).
- `OnButtonReleased` compares the button with `_pressAction`; `_releaseAction` is never read. The button handlers do not check `Disabled`.
- A collider that belongs to another interactable, or to none, does not end the hover. Only a frame with no collider at all sends `PointerExited`.

## Model

| member | source | states |
|---|---|---|
| Util.NodeIs | addons/nxr/scripts/util/Util.cs:10-15 | false for a null node or a null type; otherwise exactly whether the node's runtime type is assignable to the type |
| Util.GetParentOrOwnerOfType | addons/nxr/scripts/util/Util.cs:17-28 | null for a null node or type; a non-null result is the parent or the owner and is assignable to the type; a matching parent wins even when the owner matches too; past a non-null parent that does not match, a non-null owner is returned exactly when it matches, else null; it throws exactly when it dereferences a null parent, or a null owner after a non-matching parent |
| Util.GetNodeFromParentOrOwnerType | addons/nxr/scripts/util/Util.cs:30-40 | throws exactly when the node is null; a parent that passes NodeIs is returned; a null or non-matching parent falls through to the owner, which is returned exactly when it passes NodeIs, else null; on a non-null node it agrees with GetParentOrOwnerOfType wherever that one does not throw |
| Util.LookupsAgreeOnCompleteNodes | addons/nxr/scripts/util/Util.cs:17-40 | with node, type, parent and owner all non-null, the two lookups return the same node |
| ViewportSpec.Initial | addons/nxr/scripts/ui/Viewport2DIn3D.cs:107-127 | the initial mask is the OR of the seven flags, so every flag is pending; the node is not ready, is Throttled, and keeps the invariant |
| ViewportSpec.TargetFor | addons/nxr/scripts/ui/Viewport2DIn3D.cs:273-284 | the render target is set to Once or Always, and to Always exactly when not in the editor and the mode is Always (editor, Once and Throttled all give Once) |
| ViewportSpec.WithoutChild | addons/nxr/scripts/ui/Viewport2DIn3D.cs:235 | after RemoveChild no child has that id, every remaining child was a child before, every child with another id is kept, distinct ids stay distinct, and with no child of that id nothing is removed |
| ViewportSpec.WithoutChildKeepsOrder | addons/nxr/scripts/ui/Viewport2DIn3D.cs:235 | among children with distinct ids, removing the child at index k leaves exactly the children before k followed by those after it, in order |
| ViewportSpec.MaterialStep | addons/nxr/scripts/ui/Viewport2DIn3D.cs:209-221 | with Material pending: Material is cleared, Albedo and Surface are raised, and a fresh material is created and logged; otherwise nothing changes; properties, target and tree are untouched |
| ViewportSpec.ReleasedTree | addons/nxr/scripts/ui/Viewport2DIn3D.cs:233-237 | a still-valid instance is marked freed and removed: no remaining child has its id, every other child stays, and among distinct children the rest keep their order (the child at its index is cut out); the instance reference is kept; otherwise the tree is unchanged |
| ViewportSpec.ReleasedTreeValid | addons/nxr/scripts/ui/Viewport2DIn3D.cs:233-237 | releasing the instance keeps node ids distinct, fresh and not freed |
| ViewportSpec.FreeInstance | addons/nxr/scripts/ui/Viewport2DIn3D.cs:233-237 | with no instance, or one already queued for freeing, nothing changes; otherwise the tree becomes ReleasedTree and exactly RemoveChild and QueueFree of that instance are appended to the log; in a valid tree that instance is a child; properties, mask, material, target and ids are untouched |
| ViewportSpec.Instantiate | addons/nxr/scripts/ui/Viewport2DIn3D.cs:239-243 | with a scene set, a new Control instance becomes the instance and the last child, and AddInstance is logged; with no scene nothing changes |
| ViewportSpec.ReplacedTree | addons/nxr/scripts/ui/Viewport2DIn3D.cs:233-245 | the released tree, then, with a scene, a new Control with the next id as the instance and the last child; with no scene the instance reference stays as it was even when it was just freed; the invariant on ids is kept |
| ViewportSpec.ReplaceEffects | addons/nxr/scripts/ui/Viewport2DIn3D.cs:233-245 | a still-valid instance logs RemoveChild and QueueFree; a set scene logs AddInstance with the new id last; with neither nothing is logged |
| ViewportSpec.ReplaceSubScene | addons/nxr/scripts/ui/Viewport2DIn3D.cs:233-245 | Redraw is raised; the tree becomes ReplacedTree and exactly ReplaceEffects is appended to the log; one id is used when a scene is set; properties, material and target are untouched |
| ViewportSpec.SubSceneStep | addons/nxr/scripts/ui/Viewport2DIn3D.cs:223-246 | with SubScene not pending nothing changes; with it pending it is cleared; with a Control first child that child becomes the instance and tree, ids and log are otherwise untouched; otherwise Redraw is raised, the tree is ReplacedTree, the log grows by exactly ReplaceEffects and one id is used for a scene; the invariant is kept |
| ViewportSpec.AdoptOrReplace | addons/nxr/scripts/ui/Viewport2DIn3D.cs:227-245 | a Control first child becomes the instance and nothing else changes; otherwise Redraw is raised, the tree is ReplacedTree, the log grows by exactly ReplaceEffects and one id is used for a scene; the invariant is kept |
| ViewportSpec.AlbedoStep | addons/nxr/scripts/ui/Viewport2DIn3D.cs:248-253 | Albedo is cleared, and when it was pending the texture assignment to the current material is logged |
| ViewportSpec.SurfaceStep | addons/nxr/scripts/ui/Viewport2DIn3D.cs:255-260 | Surface is cleared, and the surface override is logged when Surface was pending and a screen exists |
| ViewportSpec.RedrawStep | addons/nxr/scripts/ui/Viewport2DIn3D.cs:262-267 | Redraw is cleared; the target becomes Once when Redraw was pending in the editor |
| ViewportSpec.UpdateStep | addons/nxr/scripts/ui/Viewport2DIn3D.cs:269-285 | Update is cleared; when it was pending the target becomes TargetFor of the mode |
| ViewportSpec.EarlyPass | addons/nxr/scripts/ui/Viewport2DIn3D.cs:202-231 | at the early return Material and SubScene are clear, the other bits keep their values plus Albedo and Surface when Material was just handled, and the Control first child is the instance; the log gains only the new material and only that takes an id |
| ViewportSpec.HeadPass | addons/nxr/scripts/ui/Viewport2DIn3D.cs:209-246 | after the Material and SubScene blocks without the early return: both are clear, Albedo and Surface are pending if they were or Material was, Redraw if it was or SubScene was, Update as it was; the new material, tree, ids and log of the two blocks |
| ViewportSpec.TailPass | addons/nxr/scripts/ui/Viewport2DIn3D.cs:248-285 | the Albedo, Surface, Redraw and Update blocks clear their four bits, log the texture and the surface override for the pending ones, and set the target by the Update bit, else by Redraw in the editor |
| ViewportSpec.FullPassLog | addons/nxr/scripts/ui/Viewport2DIn3D.cs:202-286 | the two halves of the pass log exactly FullPassEffects, so a pending scene logs AddInstance with the id after the material |
| ViewportSpec.FullPass | addons/nxr/scripts/ui/Viewport2DIn3D.cs:202-286 | a pass to the end clears every bit but Size, raised ones included; the tree is ReplacedTree when SubScene was pending and untouched otherwise; the target is FullPassTarget (the mode for a pending Update, else Once in the editor for a pending or raised Redraw, else unchanged); the log grows by exactly FullPassEffects (material, replace branch, texture, surface override, in that order) |
| ViewportSpec.UpdateRender | addons/nxr/scripts/ui/Viewport2DIn3D.cs:202-286 | keeps the invariant and leaves a material; never touches Size or the properties; without the early return only Size can remain, the tree is ReplacedTree for a pending SubScene, the target is FullPassTarget and the log grows by exactly FullPassEffects; at the early return the exact mask, the Control first child as instance, the target kept and only the material logged; a material is created exactly when Material was pending; the tree is untouched without SubScene |
| ViewportSpec.Update | addons/nxr/scripts/ui/Viewport2DIn3D.cs:181-197 | Size is neither set nor cleared; with Size set the mask is the pass's plus Albedo and Material, the recorded size becomes the screen's, and the collision shape, if any, is resized to it after the pass's effects; tree, target, ids and material are the pass's; without Size it is exactly UpdateRender |
| ViewportSpec.CheckScreenProperties | addons/nxr/scripts/ui/Viewport2DIn3D.cs:292-300 | afterwards the recorded size is the screen's size; an unchanged size or no screen changes nothing; a changed size is exactly Update with Size raised, so it runs a render pass and resizes the collision shape, if any, to the new size; Size is never cleared |
| ViewportSpec.Process | addons/nxr/scripts/ui/Viewport2DIn3D.cs:147-176 | no screen changes nothing; with a screen the recorded size is the screen's afterwards; in the editor, a full second after the screen check restarts the timer and is exactly Update with Size raised, else the timer accumulates; at run time Throttled redraws once on every frame whose timer is positive; any other mode only checks the screen; with a screen the frame is exactly the screen check (with its Update on a changed size) followed by the timers |
| ViewportSpec.Tick | addons/nxr/scripts/ui/Viewport2DIn3D.cs:153-175 | in the editor a full second restarts the timer and is exactly Update with Size raised; otherwise the editor timer only accumulates; at run time Throttled resets the timer and asks for one redraw once the timer passes the threshold 0; any other mode changes nothing |
| ViewportSpec.EditorTick | addons/nxr/scripts/ui/Viewport2DIn3D.cs:155-162 | once a second has accumulated the result is Update of the state with the timer at 0 and Size raised, so Size, Albedo and Material are pending; before that only the timer grows |
| ViewportSpec.RuntimeTick | addons/nxr/scripts/ui/Viewport2DIn3D.cs:164-175 | at run time Throttled resets the timer and asks for one frame once the timer passes the threshold 0, and otherwise only accumulates; other modes change nothing; only the timer and the target ever change, and the invariant is kept |
| ViewportSpec.SetSubScene | addons/nxr/scripts/ui/Viewport2DIn3D.cs:21-29 | stores the scene; before ready it only raises SubScene; once ready it is exactly UpdateRender with SubScene raised, so SubScene is clear afterwards, a Control first child is kept instead of the new scene, and otherwise the new scene is instantiated |
| ViewportSpec.SetViewportUpdateMode | addons/nxr/scripts/ui/Viewport2DIn3D.cs:46-53 | stores the mode; it throws exactly before ready; once ready it completes as UpdateRender with Update raised, applying the mode with Update cleared except behind the early return, where Update stays pending and the target is unchanged; before ready it is DetachedPass with Update raised: tree and target untouched, Material and SubScene cleared |
| ViewportSpec.DetachedPass | addons/nxr/scripts/ui/Viewport2DIn3D.cs:202-286 | with a null SubViewport the pass throws exactly when a pending block dereferences it (SubScene, Albedo, Material via Albedo, Redraw in the editor, Update); the mask it leaves has the blocks before the throwing one run and the throwing block's bit cleared; Material and SubScene are clear afterwards; tree, target and properties are untouched; without a throw it equals the Surface and Redraw blocks; only the Material block takes an id; the log gains the new material when Material was pending, then the surface override only when the pass gets past Albedo with Surface pending and a screen |
| ViewportSpec.Reapply | addons/nxr/scripts/ui/Viewport2DIn3D.cs:63-91 | ORs in exactly its one flag and changes nothing else |
| ViewportSpec.Ready | addons/nxr/scripts/ui/Viewport2DIn3D.cs:131-144 | the node is ready and has a material; a Control first child of the SubViewport becomes the instance; the Size bit is unchanged, and with Size set Albedo and Material are pending; a scene pending with no Control first child is instantiated; ready is exactly the adoption followed by one Update |
| ViewportSpec.Adopt | addons/nxr/scripts/ui/Viewport2DIn3D.cs:133-141 | the node is marked ready and a Control first child becomes the instance; the mask, material, target, id counter and log are untouched |
| ViewportSpec.SetScreen | addons/nxr/scripts/ui/Viewport2DIn3D.cs:36 | only the screen changes, and the invariant is kept |
| ViewportProperties.FlagOf | addons/nxr/scripts/ui/Viewport2DIn3D.cs:63-91 | each Reapply toggle raises one declared flag, never Size or Update |
| ViewportProperties.Step | addons/nxr/scripts/ui/Viewport2DIn3D.cs:21-176 | every setter, _Ready and frame keeps the invariant and never clears Size |
| ViewportProperties.Run | addons/nxr/scripts/ui/Viewport2DIn3D.cs:248-260 | every reachable state keeps the invariant, so the screen material is never used while it is null |
| ViewportProperties.SizeStaysSet | addons/nxr/scripts/ui/Viewport2DIn3D.cs:181-197 | once Size is set it stays set over any run |
| ViewportProperties.SizeAlwaysPending | addons/nxr/scripts/ui/Viewport2DIn3D.cs:123 | from the initial mask, Size is pending in every reachable state |
| ViewportProperties.EveryUpdateRebuildsMaterial | addons/nxr/scripts/ui/Viewport2DIn3D.cs:185-188 | every Update of a reachable node leaves Material pending, so the next pass builds a new material |
| ViewportProperties.FirstSubSceneIsInstantiated | addons/nxr/scripts/ui/Viewport2DIn3D.cs:239-243 | on a ready node with an empty SubViewport, setting a scene makes its instance the only child and the instance |
| ViewportProperties.SecondSubSceneIsIgnored | addons/nxr/scripts/ui/Viewport2DIn3D.cs:227-231 | setting a second scene afterwards keeps the first instance and the tree unchanged |
| ViewportProperties.ModeSetBeforeReadyDropsSubScene | addons/nxr/scripts/ui/Viewport2DIn3D.cs:21-144 | a scene and then a mode set before _Ready: the mode setter throws, and _Ready leaves the SubViewport's tree as it was with the scene never instantiated; without the mode, _Ready instantiates it |
| ViewportNode.Viewport2DIn3D.constructor | addons/nxr/scripts/ui/Viewport2DIn3D.cs:120-127 | the fresh object's state is Initial and it keeps the invariant |
| ViewportNode.Viewport2DIn3D.SetSubScene | addons/nxr/scripts/ui/Viewport2DIn3D.cs:21-29 | the fields change as ViewportSpec.SetSubScene says |
| ViewportNode.Viewport2DIn3D.SetViewportUpdateMode | addons/nxr/scripts/ui/Viewport2DIn3D.cs:46-53 | the fields change as ViewportSpec.SetViewportUpdateMode says |
| ViewportNode.Viewport2DIn3D.DetachedRender | addons/nxr/scripts/ui/Viewport2DIn3D.cs:202-286 | the fields change as DetachedPass says, and the completion says whether it threw |
| ViewportNode.Viewport2DIn3D.SetReapplyRedraw | addons/nxr/scripts/ui/Viewport2DIn3D.cs:63-67 | only Redraw is ORed in |
| ViewportNode.Viewport2DIn3D.SetReapplyMaterial | addons/nxr/scripts/ui/Viewport2DIn3D.cs:69-73 | only Material is ORed in |
| ViewportNode.Viewport2DIn3D.SetReapplySurface | addons/nxr/scripts/ui/Viewport2DIn3D.cs:75-79 | only Surface is ORed in |
| ViewportNode.Viewport2DIn3D.SetReapplyAlbedo | addons/nxr/scripts/ui/Viewport2DIn3D.cs:81-85 | only Albedo is ORed in |
| ViewportNode.Viewport2DIn3D.SetReapplySubscene | addons/nxr/scripts/ui/Viewport2DIn3D.cs:87-91 | only SubScene is ORed in |
| ViewportNode.Viewport2DIn3D.Ready | addons/nxr/scripts/ui/Viewport2DIn3D.cs:131-144 | the fields change as ViewportSpec.Ready says |
| ViewportNode.Viewport2DIn3D.Process | addons/nxr/scripts/ui/Viewport2DIn3D.cs:147-176 | the fields change as ViewportSpec.Process says |
| ViewportNode.Viewport2DIn3D.AdvanceTimer | addons/nxr/scripts/ui/Viewport2DIn3D.cs:153-175 | the fields change as Tick says |
| ViewportNode.Viewport2DIn3D.EditorTimer | addons/nxr/scripts/ui/Viewport2DIn3D.cs:155-162 | the fields change as EditorTick says |
| ViewportNode.Viewport2DIn3D.RestartTimer | addons/nxr/scripts/ui/Viewport2DIn3D.cs:156-160 | the fields change as ViewportSpec.Update says for the state with the timer at 0 and Size raised |
| ViewportNode.Viewport2DIn3D.Update | addons/nxr/scripts/ui/Viewport2DIn3D.cs:181-197 | the fields change as ViewportSpec.Update says |
| ViewportNode.Viewport2DIn3D.UpdateRender | addons/nxr/scripts/ui/Viewport2DIn3D.cs:202-286 | the fields change as ViewportSpec.UpdateRender says, early return included |
| ViewportNode.Viewport2DIn3D.RenderMaterial | addons/nxr/scripts/ui/Viewport2DIn3D.cs:209-221 | the fields change as MaterialStep says |
| ViewportNode.Viewport2DIn3D.RenderSubScene | addons/nxr/scripts/ui/Viewport2DIn3D.cs:223-246 | the fields change as SubSceneStep says; the result reports the early return exactly when it is taken |
| ViewportNode.Viewport2DIn3D.AdoptOrReplaceInstance | addons/nxr/scripts/ui/Viewport2DIn3D.cs:227-245 | adopts a Control first child and reports the early return, or replaces the instance and raises Redraw |
| ViewportNode.Viewport2DIn3D.ReleaseInstance | addons/nxr/scripts/ui/Viewport2DIn3D.cs:233-237 | the fields change as FreeInstance says |
| ViewportNode.Viewport2DIn3D.InstantiateSubScene | addons/nxr/scripts/ui/Viewport2DIn3D.cs:239-243 | the fields change as Instantiate says |
| ViewportNode.Viewport2DIn3D.RenderAlbedo | addons/nxr/scripts/ui/Viewport2DIn3D.cs:248-253 | the fields change as AlbedoStep says |
| ViewportNode.Viewport2DIn3D.RenderSurface | addons/nxr/scripts/ui/Viewport2DIn3D.cs:255-260 | the fields change as SurfaceStep says |
| ViewportNode.Viewport2DIn3D.RenderRedraw | addons/nxr/scripts/ui/Viewport2DIn3D.cs:262-267 | the fields change as RedrawStep says |
| ViewportNode.Viewport2DIn3D.RenderUpdate | addons/nxr/scripts/ui/Viewport2DIn3D.cs:269-285 | the fields change as UpdateStep says |
| ViewportNode.Viewport2DIn3D.CheckScreenProperties | addons/nxr/scripts/ui/Viewport2DIn3D.cs:292-300 | the fields change as ViewportSpec.CheckScreenProperties says |
| ViewportNode.Viewport2DIn3D.SetScreen | addons/nxr/scripts/ui/Viewport2DIn3D.cs:36 | only the screen changes, and the invariant is kept |
| PointerSpec.Interactable | addons/nxr/scripts/ui/Pointer.cs:119-125 | no collider gives no interactable; a found interactable implements IPointerInteractable and is the collider's parent or owner; a parent that implements it is returned; past a non-null parent that does not, a non-null owner is returned exactly when it implements it; it throws exactly when the lookup reaches a null link |
| PointerSpec.InputEvent | addons/nxr/scripts/ui/Pointer.cs:104-115 | the call made has the kind of the input, goes to the interactable, and carries the collision point |
| PointerSpec.Dispatch | addons/nxr/scripts/ui/Pointer.cs:98-116 | throws exactly when the lookup throws; makes no call without an interactable, otherwise exactly one, of the input's kind, to that interactable |
| PointerSpec.TrySendInput | addons/nxr/scripts/ui/Pointer.cs:98-116 | throws exactly when the lookup throws; otherwise only the dispatched call is appended to the log |
| PointerSpec.ManageCurve | addons/nxr/scripts/ui/Pointer.cs:141-154 | afterwards Visible holds exactly when an interactable is hit; the ray ends 0.05 past the hit or at the default distance; nothing else changes |
| PointerSpec.HandleEnter | addons/nxr/scripts/ui/Pointer.cs:67-72 | with nothing hovered and an interactable hit, it becomes the hovered one and receives PointerEntered; otherwise nothing changes |
| PointerSpec.HandleExit | addons/nxr/scripts/ui/Pointer.cs:74-78 | without a collider, the hovered interactable receives PointerExited and is forgotten; otherwise nothing changes |
| PointerSpec.Process | addons/nxr/scripts/ui/Pointer.cs:59-79 | disabled does nothing; throws exactly when enabled and the lookup throws; the first hit gives Moved then PointerEntered; no collider exits the hovered one; a collider while hovering keeps the hovered one (A to B gives no enter or exit); visible iff an interactable is hit; when enabled, the pointer's end sits 0.05 past an interactable hit, else at the default distance |
| PointerSpec.ButtonPressed | addons/nxr/scripts/ui/Pointer.cs:82-87 | any other button changes nothing; the press action sends at most one Pressed, and throws exactly when the lookup does |
| PointerSpec.ButtonReleased | addons/nxr/scripts/ui/Pointer.cs:90-95 | compared with the press action: any other button changes nothing; the press action sends at most one Released |
| PointerSpec.Grabbed | addons/nxr/scripts/ui/Pointer.cs:158-165 | with disableWhenGrabbing the pointer is disabled and hidden; without it nothing changes; hover and log untouched |
| PointerSpec.Dropped | addons/nxr/scripts/ui/Pointer.cs:168-174 | with disableWhenGrabbing the pointer is enabled and Visible is left as it was; without it nothing changes |
| PointerProperties.HoverLog | addons/nxr/scripts/ui/Pointer.cs:67-78 | holds only enter and exit calls and is no longer than the log |
| PointerProperties.HoverLogMembers | addons/nxr/scripts/ui/Pointer.cs:67-78 | a call is in HoverLog exactly when it is in the log and is a PointerEntered or PointerExited call |
| PointerProperties.HoverLogAppend | addons/nxr/scripts/ui/Pointer.cs:67-78 | the enter/exit subsequence of a concatenation is the concatenation of the subsequences |
| PointerProperties.InitialIsHoverConsistent | addons/nxr/scripts/ui/Pointer.cs:39 | a fresh pointer, with nothing hovered and nothing called, keeps the hover invariant |
| PointerProperties.AlternatingShape | addons/nxr/scripts/ui/Pointer.cs:67-78 | under the invariant, enters are at even positions and exits at odd ones; every exit goes to the target of the enter before it; an interactable is hovered exactly when the last call was an enter, to it |
| PointerProperties.AppendNonHover | addons/nxr/scripts/ui/Pointer.cs:98-116 | Pressed, Released and Moved calls keep the hover invariant |
| PointerProperties.NonHoverHasNoHoverLog | addons/nxr/scripts/ui/Pointer.cs:98-116 | a log of only Pressed, Released and Moved calls has no enter or exit calls |
| PointerProperties.FrameKeepsHover | addons/nxr/scripts/ui/Pointer.cs:59-79 | one frame keeps the hover invariant |
| PointerProperties.EnterKeepsHover | addons/nxr/scripts/ui/Pointer.cs:67-72 | pointer enter keeps the hover invariant |
| PointerProperties.ExitKeepsHover | addons/nxr/scripts/ui/Pointer.cs:74-78 | pointer exit keeps the hover invariant |
| PointerProperties.StepKeepsHover | addons/nxr/scripts/ui/Pointer.cs:59-174 | every frame, button and grab handler keeps the hover invariant |
| PointerProperties.RunKeepsHover | addons/nxr/scripts/ui/Pointer.cs:59-174 | any run keeps the hover invariant |
| PointerProperties.HoverCallsAlternate | addons/nxr/scripts/ui/Pointer.cs:67-78 | from a fresh pointer, PointerEntered and PointerExited alternate, each exit goes to the interactable entered just before, and _prevInteractable is that interactable exactly while it is not exited |
| PointerProperties.GrabbedPointerIgnoresFrames | addons/nxr/scripts/ui/Pointer.cs:158-165 | with disableWhenGrabbing, a grabbed pointer stays unchanged and hidden over any number of frames |
| PointerProperties.DropAfterGrabStaysHidden | addons/nxr/scripts/ui/Pointer.cs:168-174 | dropping re-enables without showing; the next frame shows the pointer exactly when it hits an interactable |
| PointerProperties.ReleaseActionIsIgnored | addons/nxr/scripts/ui/Pointer.cs:90-95 | the release handler behaves the same for any release action, and the release action's own button does nothing unless it is also the press action |
| PointerProperties.ButtonsIgnoreDisabled | addons/nxr/scripts/ui/Pointer.cs:82-95 | a disabled pointer still sends Pressed and Released to the interactable it points at |
| PointerNode.Pointer.constructor | addons/nxr/scripts/ui/Pointer.cs:22-39 | a fresh pointer hovers nothing and has made no calls |
| PointerNode.Pointer.Process | addons/nxr/scripts/ui/Pointer.cs:59-79 | the fields change as PointerSpec.Process says, and the completion says whether it threw |
| PointerNode.Pointer.OnButtonPressed | addons/nxr/scripts/ui/Pointer.cs:82-87 | the fields change as PointerSpec.ButtonPressed says |
| PointerNode.Pointer.OnButtonReleased | addons/nxr/scripts/ui/Pointer.cs:90-95 | the fields change as PointerSpec.ButtonReleased says |
| PointerNode.Pointer.TrySendInput | addons/nxr/scripts/ui/Pointer.cs:98-116 | the fields change as PointerSpec.TrySendInput says |
| PointerNode.Pointer.ManageCurve | addons/nxr/scripts/ui/Pointer.cs:141-154 | the fields change as PointerSpec.ManageCurve says |
| PointerNode.Pointer.OnGrabbed | addons/nxr/scripts/ui/Pointer.cs:158-165 | the fields change as PointerSpec.Grabbed says |
| PointerNode.Pointer.OnDropped | addons/nxr/scripts/ui/Pointer.cs:168-174 | the fields change as PointerSpec.Dropped says |

## Left out

- The engine is not modelled. Godot's scene tree, rendering, physics ray casts, signals and the lifecycle order of `_Ready` and `_Process` are inputs, fields or recorded effects.
  - The ray cast of the current physics frame is passed to every pointer handler.
  - `Engine.IsEditorHint()` and the presence of a collision shape are the `Env` value.
- Floating point: `double` timers, `float` distances and `Vector2`/`Vector3` are modelled as `real`, without rounding. The pointer's distance to the collision point is an input.
- `SubViewport` and `CollisionObject` are assumed to have been found.
  - Before `_Ready` `SubViewport` is null. The `ViewportUpdateMode` setter's pass is modelled up to the dereference that throws (`ViewportSpec.DetachedPass`).
  - The editor-only re-lookup of `SubViewport` at the start of `UpdateRender` is left out too.
- `Screen.Mesh` is assumed to be a `PlaneMesh`, and the collision shape a `BoxShape3D`. `Instantiate<Control>` is assumed to succeed. Otherwise the `as` casts give null and the code throws.
- ViewportSpec.WithoutChild: its own contract states membership and distinctness only; the order of the remaining children is proved separately (`ViewportSpec.WithoutChildKeepsOrder`) and stated in `ViewportSpec.ReleasedTree`'s contract.
- `IsInstanceValid` is modelled as "not queued for free". The deferred freeing by `QueueFree` is not modelled.
- Material properties (culling, shading) and `SubViewport.GetTexture()` are abstract effects.
- ViewportSpec.Process: the timer uses `real` `delta`. Throttled's threshold is the integer-division value 0 from the code, so the "30 updates per second" in its comment is not modelled.
- `GetVPLocalPoint`, and the `Pressed`/`Released`/`Moved`/`PointerEntered`/`PointerExited` bodies of `Viewport2DIn3D`: float coordinate mapping and `PushInput` into the engine. The pointer records the call instead.
- `GetCollisionShape`, `GetSubsceneInstance` and `CurrentPointer`: plain accessors.
- ManageCurve's curve block: the `BezierCurve3D` lookup, `InverseLerp`, the velocity offset and the curve points. This is floating-point geometry that writes into the engine's `Curve3D` (`addons/nxr/scripts/util/BezierCurve3D.cs` is not part of this model).
  - The block is assumed not to throw. With a curve child and no controller, `_controller.GetLocalVelocity()` would throw.
- `Pointer._Ready`'s signal wiring. The handlers are called directly.
- `Util.Recenter` (an XR server call) and `Util.BasisSlerped` (quaternion math).
- The `IPointerInteractable` interface has no logic. It supplies only the event alphabet and the type name used by the lookup.
- Exceptions: a Pointer handler that throws is modelled as returning `NullReference` before it changes any state; a Viewport2DIn3D render pass keeps the changes made before the throw and reports the throw as its completion. The engine's handling of the exception is not modelled; the run simply continues.
