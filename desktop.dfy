/**
 * The desktop of script_bundle_fixed.js, script_fixed.js and test/script_music_v3.js as
 * the object it is: a registry of open windows, the stacking and id counters, the
 * taskbar with its highlighted buttons, the per-window app state that closing a window
 * must stop, the pointer gestures that move and resize windows, and localStorage.
 * Browser measurements, the clock and setInterval handles are inputs.
 */
module WindowManager {
  import opened Text
  import opened Geometry
  import opened Windows
  import opened DesktopRules
  import Scores
  import Unlock

  class Desktop {
    const rev: Revision
    var zIndex: int                    // the stacking counter
    var winSeq: nat                    // the id counter
    var cascadeSeq: nat                // the cascade counter
    var windows: Registry              // open windows by id
    var taskbar: seq<Id>               // taskbar buttons, left to right
    var highlighted: set<Id>           // buttons with the `active` class
    var tmIntervals: map<Id, int>      // task manager -> its interval handle
    var photosRuntime: set<Id>         // open photo apps
    var games: map<Id, int>            // open game -> its `best`
    var running: set<Id>               // games whose round is on
    var unlocks: map<Id, Panel>        // unlock dialog -> file and lock
    var drags: map<Id, Gesture>
    var resizes: map<Id, Gesture>
    var store: Scores.Store            // localStorage
    ghost var trace: seq<Effect>

    ghost predicate Valid()
      reads this`zIndex, this`winSeq, this`windows, this`taskbar, this`highlighted,
            this`tmIntervals, this`photosRuntime, this`games
    {
      Consistent(zIndex, winSeq, windows, taskbar, highlighted, tmIntervals, photosRuntime, games)
      && (rev == V3 ==> games == map[])
    }

    constructor (rev: Revision, store: Scores.Store)
      ensures Valid() && this.rev == rev && this.store == store
      ensures zIndex == 10 && winSeq == 0 && cascadeSeq == 0
      ensures windows == map[] && taskbar == [] && trace == []
    {
      this.rev := rev;
      zIndex := 10;
      winSeq := 0;
      cascadeSeq := 0;
      windows := map[];
      taskbar := [];
      highlighted := {};
      tmIntervals := map[];
      photosRuntime := {};
      games := map[];
      running := {};
      unlocks := map[];
      drags := map[];
      resizes := map[];
      this.store := store;
      trace := [];
    }

    /** bringToFront: the window takes the next z value; then each button of a
        registered window is set, only the window's own being highlighted (when shown). */
    method BringToFront(id: Id)
      requires id in windows
      modifies this`zIndex, this`windows, this`highlighted
      ensures zIndex == old(zIndex) + 1
      ensures windows == Raise(old(windows), id, zIndex)
      ensures highlighted == Fronted(old(highlighted), windows, taskbar, id)
    {
      zIndex := zIndex + 1;
      windows := windows[id := windows[id].(z := zIndex)];
      var todo := windows.Keys;
      while todo != {}
        modifies this`highlighted
        invariant todo <= windows.Keys
        invariant forall k :: k in highlighted <==>
                    if k in windows && k !in todo && k in taskbar then k == id && !windows[id].minimized
                    else k in old(highlighted)
        decreases todo
      {
        var k :| k in todo;
        if k in taskbar {
          if k == id && !windows[k].minimized {
            highlighted := highlighted + {k};
          } else {
            highlighted := highlighted - {k};
          }
        }
        todo := todo - {k};
      }
    }

    /** updateTaskbarActive: each button of a registered window is highlighted exactly
        when its window is shown and carries the top z. */
    method UpdateTaskbarActive()
      modifies this`highlighted
      ensures highlighted == Refreshed(old(highlighted), windows, taskbar, zIndex)
    {
      var todo := windows.Keys;
      while todo != {}
        invariant todo <= windows.Keys
        invariant forall k :: k in highlighted <==>
                    if k in windows && k !in todo && k in taskbar then k in ActiveIds(windows, zIndex)
                    else k in old(highlighted)
        decreases todo
      {
        var k :| k in todo;
        if k in taskbar {
          var w := windows[k];
          if !w.minimized && w.z == zIndex {
            highlighted := highlighted + {k};
          } else {
            highlighted := highlighted - {k};
          }
        }
        todo := todo - {k};
      }
    }

    /** bringToFront on a desktop whose stack is well formed and where every window has
        its button: the window ends strictly above all others, and its button alone is
        highlighted unless it is minimized. */
    method Focus(id: Id)
      requires Stacked(zIndex, winSeq, windows) && OneButtonEach(taskbar, windows.Keys)
      requires highlighted <= windows.Keys && id in windows
      modifies this`windows, this`zIndex, this`highlighted
      ensures Stacked(zIndex, winSeq, windows) && windows.Keys == old(windows).Keys
      ensures zIndex == old(zIndex) + 1 && windows == Raise(old(windows), id, zIndex)
      ensures forall k :: k in windows && k != id ==> windows[k].z < windows[id].z
      ensures highlighted == ActiveIds(windows, zIndex)
      ensures highlighted == (if windows[id].minimized then {} else {id})
    {
      ghost var ws0, z0, h0 := windows, zIndex, highlighted;
      BringToFront(id);
      FrontFacts(z0, winSeq, ws0, taskbar, h0, id, zIndex, windows, highlighted);
    }

    /** addTaskbarItem: a button for a registered window, then the highlight refresh. */
    method AddTaskbarItem(id: Id)
      modifies this`taskbar, this`highlighted
      ensures id in windows ==> taskbar == old(taskbar) + [id]
                                && highlighted == Refreshed(old(highlighted), windows, taskbar, zIndex)
      ensures id !in windows ==> taskbar == old(taskbar) && highlighted == old(highlighted)
    {
      if id !in windows {
        return;
      }
      taskbar := taskbar + [id];
      UpdateTaskbarActive();
    }

    /** The state a window's app keeps from the moment it is bound: the task manager's
        ticker, the photo viewer, the game with its best score, the unlock dialog; and
        the store as the binding leaves it. */
    method BindApp(id: Id, kind: Kind, opts: Opts, env: Env)
      requires RuntimesOk(windows.Keys, tmIntervals, photosRuntime, games)
      modifies this`tmIntervals, this`photosRuntime, this`games, this`unlocks, this`store
      ensures RuntimesOk(windows.Keys + {id}, tmIntervals, photosRuntime, games)
      ensures Bound(rev, kind, id, opts, env, old(tmIntervals), old(photosRuntime), old(games), old(unlocks),
                    old(store), tmIntervals, photosRuntime, games, unlocks, store)
    {
      if kind == Photos {
        photosRuntime := photosRuntime + {id};
      } else if kind == TaskManager {
        tmIntervals := tmIntervals[id := env.interval];
      } else if kind == Game && rev != V3 {
        games := games[id := Scores.GetBestScore(store).value];
      } else if kind == UnlockDialog {
        unlocks := unlocks[id := Panel(opts.fileName, 0)];
      }
      store := StoreAfterBind(rev, kind, store);
    }

    /** windows.set for the id just handed out, with its gestures idle. */
    method Register(id: Id, w: Win)
      modifies this`windows, this`drags, this`resizes
      ensures windows == old(windows)[id := w]
      ensures drags == old(drags)[id := Idle] && resizes == old(resizes)[id := Idle]
    {
      windows := windows[id := w];
      drags := drags[id := Idle];
      resizes := resizes[id := Idle];
    }

    /** createWindow: the next id, the header for the type, the app's state, the initial
        geometry, then bringToFront and a taskbar button. */
    method CreateWindow(kind: Kind, opts: Opts, env: Env) returns (id: Id)
      requires Valid()
      modifies this`winSeq, this`cascadeSeq, this`tmIntervals, this`photosRuntime, this`games,
               this`unlocks, this`store, this`windows, this`drags, this`resizes, this`zIndex,
               this`highlighted, this`taskbar
      ensures Valid()
      ensures winSeq == old(winSeq) + 1 && id == winSeq && id !in old(windows)
      ensures id in windows && windows - {id} == old(windows)
      ensures Opened(windows[id], rev, kind, opts, env, old(cascadeSeq) + 1)
      ensures cascadeSeq == (if rev == V3 then old(cascadeSeq) else old(cascadeSeq) + 1)
      ensures zIndex == old(zIndex) + 1 && windows[id].z == zIndex
      ensures taskbar == old(taskbar) + [id] && highlighted == {id}
      ensures Bound(rev, kind, id, opts, env, old(tmIntervals), old(photosRuntime), old(games), old(unlocks),
                    old(store), tmIntervals, photosRuntime, games, unlocks, store)
      ensures drags == old(drags)[id := Idle] && resizes == old(resizes)[id := Idle]
    {
      var w;
      id, w := Prepare(kind, opts, env);
      Show(id, w);
      AddThenRemove(old(windows), id, w.(z := zIndex));
      OpenedAnyZ(w, zIndex, rev, kind, opts, env, old(cascadeSeq) + 1);
    }

    /** The first half of createWindow: the next id and cascade slot, the app's state,
        and the window as built before it is shown. */
    method Prepare(kind: Kind, opts: Opts, env: Env) returns (id: Id, w: Win)
      requires RuntimesOk(windows.Keys, tmIntervals, photosRuntime, games)
      requires rev == V3 ==> games == map[]
      modifies this`winSeq, this`cascadeSeq, this`tmIntervals, this`photosRuntime, this`games,
               this`unlocks, this`store
      ensures winSeq == old(winSeq) + 1 && id == winSeq
      ensures Opened(w, rev, kind, opts, env, old(cascadeSeq) + 1) && !w.minimized
      ensures cascadeSeq == (if rev == V3 then old(cascadeSeq) else old(cascadeSeq) + 1)
      ensures RuntimesOk(windows.Keys + {id}, tmIntervals, photosRuntime, games)
      ensures rev == V3 ==> games == map[]
      ensures Bound(rev, kind, id, opts, env, old(tmIntervals), old(photosRuntime), old(games), old(unlocks),
                    old(store), tmIntervals, photosRuntime, games, unlocks, store)
    {
      id, w := NextSlot(kind, opts, env);
      BindApp(id, kind, opts, env);
    }

    /** The next id and cascade slot, and the window createWindow builds for them. */
    method NextSlot(kind: Kind, opts: Opts, env: Env) returns (id: Id, w: Win)
      modifies this`winSeq, this`cascadeSeq
      ensures winSeq == old(winSeq) + 1 && id == winSeq
      ensures Opened(w, rev, kind, opts, env, old(cascadeSeq) + 1) && !w.minimized
      ensures cascadeSeq == (if rev == V3 then old(cascadeSeq) else old(cascadeSeq) + 1)
    {
      winSeq := winSeq + 1;
      id := winSeq;
      w := NewWindow(rev, kind, opts, env, cascadeSeq + 1);
      if rev != V3 {
        cascadeSeq := cascadeSeq + 1;
      }
    }

    /** The second half of createWindow: the new window is registered, brought to front
        and given a taskbar button. */
    method Show(id: Id, w: Win)
      requires winSeq >= 1 && id == winSeq && !w.minimized
      requires Stacked(zIndex, winSeq - 1, windows) && OneButtonEach(taskbar, windows.Keys)
      requires highlighted == ActiveIds(windows, zIndex)
      requires RuntimesOk(windows.Keys + {id}, tmIntervals, photosRuntime, games)
      modifies this`windows, this`drags, this`resizes, this`zIndex, this`highlighted, this`taskbar
      ensures Consistent(zIndex, winSeq, windows, taskbar, highlighted, tmIntervals, photosRuntime, games)
      ensures id !in old(windows) && windows == old(windows)[id := w.(z := zIndex)]
      ensures zIndex == old(zIndex) + 1 && taskbar == old(taskbar) + [id] && highlighted == {id}
      ensures drags == old(drags)[id := Idle] && resizes == old(resizes)[id := Idle]
    {
      ghost var ws0, z0, tb0, h0 := windows, zIndex, taskbar, highlighted;
      Register(id, w);
      BringToFront(id);
      ghost var h1 := highlighted;
      AddTaskbarItem(id);
      CreateFacts(z0, winSeq - 1, ws0, tb0, h0, id, w, zIndex, windows, taskbar, h1, highlighted,
                  tmIntervals, photosRuntime, games);
    }

    /** A click on a taskbar button: nothing for a closed window; a minimized window is
        restored and brought to front; any other is minimized exactly as by its own
        minimize button. */
    method TaskbarClick(id: Id)
      requires Valid()
      modifies this`windows, this`zIndex, this`highlighted
      ensures Valid()
      ensures Stack(windows, zIndex) == Click(old(Stack(windows, zIndex)), id)
    {
      if id !in windows {
        return;
      }
      if windows[id].minimized {
        Restore(id);
      } else {
        Minimize(id);
      }
    }

    /** The restoring click: the minimized class goes, bringToFront, then the refresh. */
    method Restore(id: Id)
      requires Valid() && id in windows && windows[id].minimized
      modifies this`windows, this`zIndex, this`highlighted
      ensures Valid()
      ensures Stack(windows, zIndex) == Click(old(Stack(windows, zIndex)), id)
      ensures highlighted == {id}
    {
      ghost var ws0, z0, h0 := windows, zIndex, highlighted;
      windows := windows[id := windows[id].(minimized := false)];
      BringToFront(id);
      ghost var h1 := highlighted;
      UpdateTaskbarActive();
      RestoreFacts(z0, winSeq, ws0, taskbar, h0, tmIntervals, photosRuntime, games, id,
                   zIndex, windows, h1, highlighted);
    }

    /** The minimize button: the window is hidden, z untouched, then the refresh. */
    method Minimize(id: Id)
      requires Valid()
      modifies this`windows, this`highlighted
      ensures Valid()
      ensures id in old(windows) ==> windows == old(windows)[id := old(windows)[id].(minimized := true)]
      ensures id !in old(windows) ==> windows == old(windows)
      ensures id in old(windows) && id in old(highlighted) ==> highlighted == {}
    {
      if id !in windows {
        return;
      }
      if id in highlighted {
        MinimizeFrontClearsHighlight(windows, id, zIndex);
      }
      var w := windows[id].(minimized := true);
      ReshapeFacts(zIndex, winSeq, windows, id, w);
      windows := windows[id := w];
      ghost var h0 := highlighted;
      UpdateTaskbarActive();
      RefreshedAll(h0, windows, taskbar, zIndex);
    }

    /** The maximize button: toggles the state and always brings the window to front. */
    method ToggleMaximize(id: Id)
      requires Valid()
      modifies this`windows, this`zIndex, this`highlighted
      ensures Valid()
      ensures id in old(windows) ==>
                zIndex == old(zIndex) + 1
                && windows == Raise(old(windows)[id := old(windows)[id].(maximized := !old(windows)[id].maximized)],
                                    id, zIndex)
      ensures id !in old(windows) ==> windows == old(windows) && zIndex == old(zIndex)
    {
      if id !in windows {
        return;
      }
      var w := windows[id].(maximized := !windows[id].maximized);
      ReshapeFacts(zIndex, winSeq, windows, id, w);
      windows := windows[id := w];
      Focus(id);
    }

    /** stopTaskManagerFor: clear a non-zero interval handle, forget the entry. */
    method StopTaskManagerFor(id: Id)
      modifies this`tmIntervals, this`trace
      ensures tmIntervals == old(tmIntervals) - {id}
      ensures trace == old(trace) + (if id in old(tmIntervals) && old(tmIntervals)[id] != 0
                                      then [IntervalCleared(old(tmIntervals)[id])] else [])
    {
      if id in tmIntervals {
        var h := tmIntervals[id];
        if h != 0 {
          trace := trace + [IntervalCleared(h)];
        }
      }
      tmIntervals := tmIntervals - {id};
    }

    /** stopPhotosFor: forget the photo viewer's state. */
    method StopPhotosFor(id: Id)
      modifies this`photosRuntime
      ensures photosRuntime == old(photosRuntime) - {id}
    {
      photosRuntime := photosRuntime - {id};
    }

    /** stopGameFor: stop a game's loop (`running = false`) and listeners, forget the entry. */
    method StopGameFor(id: Id)
      modifies this`games, this`running, this`trace
      ensures games == old(games) - {id} && running == old(running) - {id}
      ensures trace == old(trace) + (if id in old(games) then [GameStopped(id)] else [])
    {
      if id in games {
        trace := trace + [GameStopped(id)];
      }
      games := games - {id};
      running := running - {id};
    }

    /** removeTaskbarItem: the button goes, and its highlight with it. */
    method RemoveTaskbarItem(id: Id)
      modifies this`taskbar, this`highlighted, this`trace
      ensures taskbar == Erase(old(taskbar), id) && highlighted == old(highlighted) - {id}
      ensures trace == old(trace) + [ButtonRemoved(id)]
    {
      taskbar := Erase(taskbar, id);
      highlighted := highlighted - {id};
      trace := trace + [ButtonRemoved(id)];
    }

    /** cleanupWindow: the stop hooks first, then the element, the registry entry and
        the taskbar button go, and the highlight is refreshed. Harmless for a closed id. */
    method CleanupWindow(id: Id)
      requires Valid()
      modifies this`tmIntervals, this`photosRuntime, this`games, this`running, this`trace,
               this`windows, this`taskbar, this`highlighted
      ensures Valid()
      ensures trace == old(trace) + CleanupEffects(id, old(tmIntervals), old(games))
      ensures windows == old(windows) - {id} && taskbar == Erase(old(taskbar), id)
      ensures tmIntervals == old(tmIntervals) - {id} && photosRuntime == old(photosRuntime) - {id}
      ensures games == old(games) - {id}
      ensures running == (if rev == V3 then old(running) else old(running) - {id})
    {
      StopApps(id);
      Dismantle(id);
      CleanupTrace(old(trace), id, old(tmIntervals), old(games));
    }

    /** The stop hooks of cleanupWindow; test/script_music_v3.js has no game to stop. */
    method StopApps(id: Id)
      requires rev == V3 ==> games == map[]
      requires RuntimesOk(windows.Keys, tmIntervals, photosRuntime, games)
      modifies this`tmIntervals, this`photosRuntime, this`games, this`running, this`trace
      ensures tmIntervals == old(tmIntervals) - {id} && photosRuntime == old(photosRuntime) - {id}
      ensures games == old(games) - {id} && (rev == V3 ==> games == map[])
      ensures running == (if rev == V3 then old(running) else old(running) - {id})
      ensures RuntimesOk(windows.Keys - {id}, tmIntervals, photosRuntime, games)
      ensures trace == old(trace) + StopEffects(id, old(tmIntervals), old(games))
    {
      StopTaskManagerFor(id);
      StopPhotosFor(id);
      if rev != V3 {
        StopGameFor(id);
      } else {
        assert games == map[] == games - {id};
      }
    }

    /** The rest of cleanupWindow: element, registry entry and button go, then the refresh. */
    method Dismantle(id: Id)
      requires Stacked(zIndex, winSeq, windows) && OneButtonEach(taskbar, windows.Keys)
      requires highlighted == ActiveIds(windows, zIndex)
      requires RuntimesOk(windows.Keys - {id}, tmIntervals, photosRuntime, games)
      modifies this`windows, this`taskbar, this`highlighted, this`trace
      ensures Consistent(zIndex, winSeq, windows, taskbar, highlighted, tmIntervals, photosRuntime, games)
      ensures windows == old(windows) - {id} && taskbar == Erase(old(taskbar), id)
      ensures trace == old(trace) + [ElementRemoved(id), Unregistered(id), ButtonRemoved(id)]
    {
      ghost var ws0, tb0, h0 := windows, taskbar, highlighted;
      trace := trace + [ElementRemoved(id)];
      windows := windows - {id};
      trace := trace + [Unregistered(id)];
      RemoveTaskbarItem(id);
      UpdateTaskbarActive();
      CleanupFacts(zIndex, winSeq, ws0, tb0, h0, id, highlighted, tmIntervals, photosRuntime, games);
    }

    /** The task manager's "End" button for the window targetId. */
    method EndTask(targetId: Id)
      requires Valid()
      modifies this`tmIntervals, this`photosRuntime, this`games, this`running, this`trace,
               this`windows, this`taskbar, this`highlighted
      ensures Valid()
      ensures targetId in old(windows) ==>
                windows == old(windows) - {targetId} && taskbar == Erase(old(taskbar), targetId)
                && tmIntervals == old(tmIntervals) - {targetId} && photosRuntime == old(photosRuntime) - {targetId}
                && games == old(games) - {targetId}
                && running == (if rev == V3 then old(running) else old(running) - {targetId})
                && trace == old(trace) + CleanupEffects(targetId, old(tmIntervals), old(games))
      ensures targetId !in old(windows) ==>
                windows == old(windows) && taskbar == old(taskbar) && highlighted == old(highlighted)
                && tmIntervals == old(tmIntervals) && photosRuntime == old(photosRuntime)
                && games == old(games) && running == old(running) && trace == old(trace)
    {
      if targetId in windows {
        CleanupWindow(targetId);
      }
    }

    // -------------------------------------------------------------------------
    // Dragging by the header

    /** pointerdown on the header: ignored on a button; otherwise the start is captured
        from the window's rendered rectangle and the window comes to front. */
    method DragDown(id: Id, onButton: bool, clientX: int, clientY: int, rect: Pos)
      requires Valid()
      modifies this`drags, this`windows, this`zIndex, this`highlighted
      ensures Valid()
      ensures onButton || id !in old(windows) ==>
                drags == old(drags) && windows == old(windows) && zIndex == old(zIndex)
      ensures !onButton && id in old(windows) ==>
                drags == old(drags)[id := Active(clientX, clientY, rect.x, rect.y)]
                && zIndex == old(zIndex) + 1 && windows == Raise(old(windows), id, zIndex)
    {
      if onButton || id !in windows {
        return;
      }
      drags := drags[id := Active(clientX, clientY, rect.x, rect.y)];
      Focus(id);
    }

    /** pointermove on the header: while a drag is on and the window is not maximized,
        its position is recomputed from the captured start. */
    method DragMove(id: Id, clientX: int, clientY: int, vw: int, vh: int,
                    taskbarVar: string, offset: Size)
      requires Valid()
      modifies this`windows
      ensures Valid()
      ensures if id in old(windows) && id in drags && drags[id].Active? && !old(windows)[id].maximized
              then windows == old(windows)[id := DragStep(old(windows)[id], drags[id], clientX, clientY,
                                                           vw, vh, TaskbarHeight(taskbarVar), offset)]
              else windows == old(windows)
    {
      if id !in windows || id !in drags || drags[id].Idle? {
        return;
      }
      if windows[id].maximized {
        return;
      }
      var w := DragStep(windows[id], drags[id], clientX, clientY, vw, vh, TaskbarHeight(taskbarVar), offset);
      ReshapeFacts(zIndex, winSeq, windows, id, w);
      windows := windows[id := w];
    }

    /** pointerup on the header ends the drag (there is no pointercancel handler). */
    method DragUp(id: Id)
      modifies this`drags
      ensures drags == if id in old(drags) then old(drags)[id := Idle] else old(drags)
    {
      if id in drags {
        drags := drags[id := Idle];
      }
    }

    // -------------------------------------------------------------------------
    // Resizing by the corner handle

    /** pointerdown on the handle: the start size is captured and the window comes to front. */
    method ResizeDown(id: Id, clientX: int, clientY: int, offset: Size)
      requires Valid()
      modifies this`resizes, this`windows, this`zIndex, this`highlighted
      ensures Valid()
      ensures id !in old(windows) ==> resizes == old(resizes) && windows == old(windows)
      ensures id in old(windows) ==>
                resizes == old(resizes)[id := Active(clientX, clientY, offset.w, offset.h)]
                && zIndex == old(zIndex) + 1 && windows == Raise(old(windows), id, zIndex)
    {
      if id !in windows {
        return;
      }
      resizes := resizes[id := Active(clientX, clientY, offset.w, offset.h)];
      Focus(id);
    }

    /** pointermove on the handle: while resizing and not maximized, the size is recomputed
        from the captured start and the window's current top-left corner. */
    method ResizeMove(id: Id, clientX: int, clientY: int, vw: int, vh: int,
                      taskbarVar: string, at: Pos)
      requires Valid()
      modifies this`windows
      ensures Valid()
      ensures if id in old(windows) && id in resizes && resizes[id].Active? && !old(windows)[id].maximized
              then windows == old(windows)[id := ResizeStep(old(windows)[id], resizes[id], clientX, clientY,
                                                             vw, vh, TaskbarHeight(taskbarVar), at)]
              else windows == old(windows)
    {
      if id !in windows || id !in resizes || resizes[id].Idle? {
        return;
      }
      if windows[id].maximized {
        return;
      }
      var w := ResizeStep(windows[id], resizes[id], clientX, clientY, vw, vh, TaskbarHeight(taskbarVar), at);
      ReshapeFacts(zIndex, winSeq, windows, id, w);
      windows := windows[id := w];
    }

    /** pointerup on the handle ends the resize. */
    method ResizeUp(id: Id)
      modifies this`resizes
      ensures resizes == if id in old(resizes) then old(resizes)[id := Idle] else old(resizes)
    {
      if id in resizes {
        resizes := resizes[id := Idle];
      }
    }

    // -------------------------------------------------------------------------
    // The unlock dialog (bindUnlock)

    /** The unlock button: the press is judged with the dialog's own lock; the right code
        opens the file (an image viewer, or in test/script_music_v3.js a text viewer) and
        closes the dialog. Any other outcome changes only the dialog's lock. */
    method SubmitUnlock(id: Id, now: int, input: string, env: Env) returns (outcome: Unlock.Outcome)
      requires Valid()
      modifies this`winSeq, this`cascadeSeq, this`tmIntervals, this`photosRuntime, this`games,
               this`running, this`unlocks, this`windows, this`drags, this`resizes,
               this`zIndex, this`highlighted, this`taskbar, this`trace
      ensures Valid()
      ensures id !in old(windows) || id !in old(unlocks) ==>
                outcome == Unlock.Ignored && unlocks == old(unlocks)
      ensures id in old(windows) && id in old(unlocks) ==>
                var step := Unlock.Attempt(now, old(unlocks)[id].lockUntil, input, Secret(rev));
                outcome == step.outcome && unlocks == old(unlocks)[id := old(unlocks)[id].(lockUntil := step.lockUntil)]
      ensures outcome != Unlock.Granted ==>
                zIndex == old(zIndex) && winSeq == old(winSeq) && cascadeSeq == old(cascadeSeq)
                && windows == old(windows) && taskbar == old(taskbar) && highlighted == old(highlighted)
                && drags == old(drags) && resizes == old(resizes) && trace == old(trace)
                && tmIntervals == old(tmIntervals) && photosRuntime == old(photosRuntime)
                && games == old(games) && running == old(running)
      ensures outcome == Unlock.Granted ==>
                var title := OrElse(old(unlocks)[id].fileName, UNLOCK_TITLE_FALLBACK);
                winSeq == old(winSeq) + 1 && winSeq in windows
                && windows.Keys == old(windows).Keys - {id} + {winSeq} && windows - {winSeq} == old(windows) - {id}
                && windows[winSeq].kind == GrantedKind(rev) && windows[winSeq].body == GrantedBody(rev)
                && windows[winSeq].title == title
                && zIndex == old(zIndex) + 1 && windows[winSeq].z == zIndex
                && cascadeSeq == (if rev == V3 then old(cascadeSeq) else old(cascadeSeq) + 1)
                && taskbar == Erase(old(taskbar), id) + [winSeq] && highlighted == {winSeq}
                && drags == old(drags)[winSeq := Idle] && resizes == old(resizes)[winSeq := Idle]
                && tmIntervals == old(tmIntervals) - {id} && photosRuntime == old(photosRuntime) - {id}
                && games == old(games) - {id}
                && running == (if rev == V3 then old(running) else old(running) - {id})
                && trace == old(trace) + CleanupEffects(id, old(tmIntervals), old(games))
    {
      if id !in windows || id !in unlocks {
        return Unlock.Ignored;
      }
      var panel := unlocks[id];
      var step := Unlock.Attempt(now, panel.lockUntil, input, Secret(rev));
      unlocks := unlocks[id := panel.(lockUntil := step.lockUntil)];
      outcome := step.outcome;
      if outcome == Unlock.Granted {
        Grant(id, OrElse(panel.fileName, UNLOCK_TITLE_FALLBACK), GrantedBody(rev), env);
      }
    }

    /** The right code: the file opens in a new viewer, then the dialog closes. The
        viewer's button ends last on the taskbar and is the highlighted one. */
    method Grant(id: Id, title: string, body: string, env: Env)
      requires Valid() && id in windows && title != ""
      modifies this`winSeq, this`cascadeSeq, this`tmIntervals, this`photosRuntime, this`games,
               this`running, this`windows, this`drags, this`resizes,
               this`zIndex, this`highlighted, this`taskbar, this`trace
      ensures Valid()
      ensures winSeq == old(winSeq) + 1 && winSeq in windows
      ensures windows.Keys == old(windows).Keys - {id} + {winSeq} && windows - {winSeq} == old(windows) - {id}
      ensures windows[winSeq].kind == GrantedKind(rev)
      ensures windows[winSeq].title == title && windows[winSeq].body == body
      ensures zIndex == old(zIndex) + 1 && windows[winSeq].z == zIndex
      ensures cascadeSeq == (if rev == V3 then old(cascadeSeq) else old(cascadeSeq) + 1)
      ensures taskbar == Erase(old(taskbar), id) + [winSeq] && highlighted == {winSeq}
      ensures drags == old(drags)[winSeq := Idle] && resizes == old(resizes)[winSeq := Idle]
      ensures tmIntervals == old(tmIntervals) - {id} && photosRuntime == old(photosRuntime) - {id}
      ensures games == old(games) - {id}
      ensures running == (if rev == V3 then old(running) else old(running) - {id})
      ensures trace == old(trace) + CleanupEffects(id, old(tmIntervals), old(games))
    {
      assert id <= winSeq;
      var shown := OpenViewer(GrantedKind(rev), title, body, env);
      CloseDialog(id, shown, old(windows), old(taskbar), old(tmIntervals), old(photosRuntime),
                  old(games), old(running), old(trace));
      assert winSeq == shown;
    }

    /** cleanupWindow of the unlock dialog once the viewer n is open: the viewer keeps its
        window, its button stays last and stays the highlighted one. The ghost parameters
        name the desktop as it was before the viewer opened. */
    method CloseDialog(id: Id, ghost n: Id, ghost ws0: Registry, ghost tb0: seq<Id>,
                       ghost tm0: map<Id, int>, ghost ph0: set<Id>,
                       ghost g0: map<Id, int>, ghost run0: set<Id>, ghost tr0: seq<Effect>)
      requires Valid() && id in windows && n in windows && id != n
      requires windows - {n} == ws0 && taskbar == tb0 + [n] && highlighted == {n}
      requires tmIntervals == tm0 && photosRuntime == ph0 && games == g0 && running == run0 && trace == tr0
      modifies this`tmIntervals, this`photosRuntime, this`games, this`running, this`trace,
               this`windows, this`taskbar, this`highlighted
      ensures Valid() && n in windows && windows[n] == old(windows)[n]
      ensures windows.Keys == ws0.Keys - {id} + {n} && windows - {n} == ws0 - {id}
      ensures taskbar == Erase(tb0, id) + [n] && highlighted == {n}
      ensures tmIntervals == tm0 - {id} && photosRuntime == ph0 - {id} && games == g0 - {id}
      ensures running == (if rev == V3 then run0 else run0 - {id})
      ensures trace == tr0 + CleanupEffects(id, tm0, g0)
    {
      ghost var ws1 := windows;
      CleanupWindow(id);
      OpenThenClose(ws0, ws1, n, id);
      EraseAppend(tb0, n, id);
      RemoveKeepsOthers(ws1, id, zIndex);
    }

    /** createWindow for a viewer with a given title and content: binding a viewer leaves
        the app state and the store alone. */
    method OpenViewer(kind: Kind, title: string, body: string, env: Env) returns (id: Id)
      requires Valid() && title != ""
      requires kind == TextViewer || (kind == ImageViewer && rev != V3)
      modifies this`winSeq, this`cascadeSeq, this`windows, this`drags, this`resizes, this`zIndex,
               this`highlighted, this`taskbar
      ensures Valid()
      ensures winSeq == old(winSeq) + 1 && id == winSeq && id !in old(windows)
      ensures windows.Keys == old(windows).Keys + {id} && windows - {id} == old(windows)
      ensures windows[id].kind == kind && windows[id].title == title && windows[id].body == body
      ensures cascadeSeq == (if rev == V3 then old(cascadeSeq) else old(cascadeSeq) + 1)
      ensures zIndex == old(zIndex) + 1 && windows[id].z == zIndex
      ensures taskbar == old(taskbar) + [id] && highlighted == {id}
      ensures drags == old(drags)[id := Idle] && resizes == old(resizes)[id := Idle]
    {
      var w;
      id, w := NextSlot(kind, Opts(title, "", "", body), env);
      Show(id, w);
    }

    /** The cancel button closes the dialog as cleanupWindow does. */
    method CancelUnlock(id: Id)
      requires Valid()
      modifies this`tmIntervals, this`photosRuntime, this`games, this`running, this`trace,
               this`windows, this`taskbar, this`highlighted
      ensures Valid()
      ensures trace == old(trace) + CleanupEffects(id, old(tmIntervals), old(games))
      ensures windows == old(windows) - {id} && taskbar == Erase(old(taskbar), id)
      ensures tmIntervals == old(tmIntervals) - {id} && photosRuntime == old(photosRuntime) - {id}
      ensures games == old(games) - {id}
      ensures running == (if rev == V3 then old(running) else old(running) - {id})
    {
      CleanupWindow(id);
    }

    // -------------------------------------------------------------------------
    // Game over in a game window

    /** refreshOpenPhotosLibraries: every open photo app re-checks the clue. The first
        check may write the store; the later ones find it settled. */
    method RefreshOpenPhotosLibraries()
      modifies this`store
      ensures store == (if photosRuntime == {} then old(store) else Scores.IsClue2Unlocked(old(store)).store)
    {
      var todo := photosRuntime;
      while todo != {}
        invariant todo <= photosRuntime
        invariant store == (if todo == photosRuntime then old(store) else Scores.IsClue2Unlocked(old(store)).store)
        decreases todo
      {
        var k :| k in todo;
        if todo != photosRuntime {
          Scores.IsClue2UnlockedStoreSettles(old(store));
        }
        store := Scores.IsClue2Unlocked(store).store;
        todo := todo - {k};
      }
    }

    /** The start button: unless a round is already on, the game re-reads the stored best
        (which may initialise it) and its round starts. */
    method StartRound(id: Id)
      modifies this`games, this`running, this`store
      ensures id !in old(games) || id in old(running) ==>
                games == old(games) && running == old(running) && store == old(store)
      ensures id in old(games) && id !in old(running) ==>
                var b := Scores.GetBestScore(old(store));
                games == old(games)[id := b.value] && running == old(running) + {id} && store == b.store
    {
      if id !in games || id in running {
        return;
      }
      var b := Scores.GetBestScore(store);
      games := games[id := b.value];
      store := b.store;
      running := running + {id};
    }

    /** A collision ends the round: the score is judged against the best stored now (see
        Scores.RoundOver), the game and the store follow the revision's rule, and a newly
        shown clue opens in an image viewer, after the open photo apps of
        script_bundle_fixed.js have re-checked it. Without a round on, nothing happens. */
    method GameOver(id: Id, score: int, env: Env)
      requires Valid()
      modifies this`winSeq, this`cascadeSeq, this`games, this`running, this`store, this`windows,
               this`drags, this`resizes, this`zIndex, this`highlighted, this`taskbar
      ensures Valid()
      ensures id !in old(games) || id !in old(running) ==>
                zIndex == old(zIndex) && winSeq == old(winSeq) && cascadeSeq == old(cascadeSeq)
                && windows == old(windows) && taskbar == old(taskbar) && highlighted == old(highlighted)
                && drags == old(drags) && resizes == old(resizes)
                && games == old(games) && running == old(running) && store == old(store)
      ensures id in old(games) && id in old(running) ==>
                var r := Scores.RoundOver(rev == Bundle, score, old(store));
                games == old(games)[id := r.best] && running == old(running) - {id}
                && store == (if r.shown && rev == Bundle && old(photosRuntime) != {}
                             then Scores.IsClue2Unlocked(r.store).store else r.store)
                && (!r.shown ==> zIndex == old(zIndex) && winSeq == old(winSeq) && cascadeSeq == old(cascadeSeq)
                                 && windows == old(windows) && taskbar == old(taskbar)
                                 && highlighted == old(highlighted) && drags == old(drags) && resizes == old(resizes))
                && (r.shown ==>
                      winSeq == old(winSeq) + 1 && winSeq in windows
                      && windows.Keys == old(windows).Keys + {winSeq} && windows - {winSeq} == old(windows)
                      && windows[winSeq].kind == ImageViewer
                      && windows[winSeq].title == CLUE2_TITLE && windows[winSeq].body == CLUE2_SRC
                      && zIndex == old(zIndex) + 1 && windows[winSeq].z == zIndex
                      && cascadeSeq == old(cascadeSeq) + 1
                      && taskbar == old(taskbar) + [winSeq] && highlighted == {winSeq}
                      && drags == old(drags)[winSeq := Idle] && resizes == old(resizes)[winSeq := Idle])
    {
      if id !in games || id !in running {
        return;
      }
      var shown := EndRound(id, score);
      if shown {
        ShowClue2(CLUE2_TITLE, CLUE2_SRC, env);
      }
    }

    /** The round of game id ends: it stops running, its best and the store follow
        Scores.RoundOver, and whether the clue is newly shown is returned. */
    method EndRound(id: Id, score: int) returns (shown: bool)
      requires Valid() && id in games
      modifies this`games, this`running, this`store
      ensures Valid()
      ensures var r := Scores.RoundOver(rev == Bundle, score, old(store));
              games == old(games)[id := r.best] && running == old(running) - {id}
              && store == r.store && shown == r.shown
    {
      running := running - {id};
      var r := Scores.RoundOver(rev == Bundle, score, store);
      games := games[id := r.best];
      store := r.store;
      shown := r.shown;
    }

    /** The clue window of a new high score, after the open photo apps of
        script_bundle_fixed.js have re-checked the clue. */
    method ShowClue2(title: string, src: string, env: Env)
      requires Valid() && title != "" && rev != V3
      modifies this`winSeq, this`cascadeSeq, this`store, this`windows, this`drags, this`resizes,
               this`zIndex, this`highlighted, this`taskbar
      ensures Valid()
      ensures winSeq == old(winSeq) + 1 && winSeq in windows
      ensures windows.Keys == old(windows).Keys + {winSeq} && windows - {winSeq} == old(windows)
      ensures windows[winSeq].kind == ImageViewer && windows[winSeq].title == title && windows[winSeq].body == src
      ensures zIndex == old(zIndex) + 1 && windows[winSeq].z == zIndex && cascadeSeq == old(cascadeSeq) + 1
      ensures taskbar == old(taskbar) + [winSeq] && highlighted == {winSeq}
      ensures drags == old(drags)[winSeq := Idle] && resizes == old(resizes)[winSeq := Idle]
      ensures store == (if rev == Bundle && old(photosRuntime) != {} then Scores.IsClue2Unlocked(old(store)).store
                        else old(store))
    {
      if rev == Bundle {
        RefreshOpenPhotosLibraries();
      }
      var shown := OpenViewer(ImageViewer, title, src, env);
    }
  }
}
