/**
 * The rules the desktop of script_bundle_fixed.js, script_fixed.js and
 * test/script_music_v3.js keeps, stated on values: what a consistent desktop is, what
 * a new window looks like, what the highlight loops compute, what closing a window
 * leaves behind, and how a pointer gesture moves or resizes a window. The class in
 * module WindowManager is proved against them.
 */
module DesktopRules {
  import opened Wrappers
  import opened Text
  import opened Geometry
  import opened Windows
  import Scores
  import Unlock

  /** What createWindow's caller passes in `options` ("" when absent). */
  datatype Opts = Opts(title: string, fileName: string, variant: string, body: string)

  /** What the browser reports while a window is created. */
  datatype Env = Env(mobile: bool, vw: int, vh: int,
                     mobileStart: Pos,   // touch screen: round(4% of the width), and the top
                                         // edge round(8% of the height + 0.6 * stagger)
                     rendered: Size,     // the element's box once attached
                     noteMaxSide: int,   // floor(min(0.92 * innerWidth, innerHeight - 110))
                     interval: int)      // the handle setInterval returns to a task manager

  /** A pointer gesture captured at pointerdown. */
  datatype Gesture = Idle | Active(startX: int, startY: int, startA: int, startB: int)

  /** An unlock dialog: the file it opens and the time until which it is locked. */
  datatype Panel = Panel(fileName: string, lockUntil: int)

  /** Observable side effects, in the order they happen. */
  datatype Effect =
    | IntervalCleared(handle: int)
    | GameStopped(id: Id)
    | ElementRemoved(id: Id)
    | Unregistered(id: Id)
    | ButtonRemoved(id: Id)

  const UNLOCK_TITLE_FALLBACK := "geheim.enc"
  const UNLOCKED_IMAGE_SRC := "./assets/soeder.png"
  const SECRET_UNLOCK_IMAGE_SRC := "./assets/waechter_wach.png"
  const ACCESS_GRANTED := "Access granted."
  const CLUE2_TITLE := "Zusatz-Hinweis"
  const CLUE2_SRC := "./assets/loesung_teil2.png"

  /** What an unlocked file opens in: a text viewer saying so in test/script_music_v3.js,
      an image viewer with the revision's picture otherwise. */
  function GrantedKind(rev: Revision): Kind
  {
    if rev == V3 then TextViewer else ImageViewer
  }

  function GrantedBody(rev: Revision): string
  {
    if rev == V3 then ACCESS_GRANTED
    else if rev == Bundle then UNLOCKED_IMAGE_SRC
    else SECRET_UNLOCK_IMAGE_SRC
  }
  const DEFAULT_TASKBAR_VAR := "52"

  function Secret(rev: Revision): string
  {
    if rev == Bundle then Unlock.CODE_BUNDLE else Unlock.CODE_ADMIN
  }

  /** `parseInt(getPropertyValue('--taskbar-h') || '52', 10)`; None is NaN. */
  function TaskbarHeight(cssVar: string): Option<int>
  {
    ParseIntPrefix(if cssVar == "" then DEFAULT_TASKBAR_VAR else cssVar)
  }

  /** An unset variable reads as a 52px taskbar; "48px" reads as 48. */
  lemma TaskbarHeightReads(n: nat)
    ensures TaskbarHeight("") == Some(52)
    ensures TaskbarHeight(NatToString(n) + "px") == Some(n)
  {
    assert NatToString(52) == "52";
    ParseIntPrefixUnit(52, "");
    assert "52" + "" == "52";
    ParseIntPrefixUnit(n, "px");
    assert NatToString(n) + "px" != "";
  }

  /** The id of the i-th taskbar button. */
  function ButtonAt(s: seq<Id>, i: nat): Id
    requires i < |s|
  {
    s[i]
  }

  /** No id has two buttons. */
  predicate NoDup(s: seq<Id>)
  {
    forall i, j :: 0 <= i < j < |s| ==> ButtonAt(s, i) != ButtonAt(s, j)
  }

  /** The taskbar holds exactly one button per id of ids. */
  predicate OneButtonEach(taskbar: seq<Id>, ids: set<Id>)
  {
    NoDup(taskbar) && (forall k :: k in taskbar ==> k in ids) && (forall k :: k in ids ==> k in taskbar)
  }

  /** Appending an id not yet present keeps the entries distinct. */
  lemma AppendFreshKeepsNoDup(s: seq<Id>, id: Id)
    requires NoDup(s) && id !in s
    ensures NoDup(s + [id])
  {
    var t := s + [id];
    forall i, j | 0 <= i < j < |t|
      ensures ButtonAt(t, i) != ButtonAt(t, j)
    {
      if j == |s| {
        assert t[i] == s[i];
      } else {
        assert ButtonAt(s, i) != ButtonAt(s, j);
      }
    }
  }

  /** Without its first button, a taskbar keeps its entries distinct, none of them
      the first one's. */
  lemma TailNoDup(s: seq<Id>)
    requires s != [] && NoDup(s)
    ensures NoDup(s[1..]) && s[0] !in s[1..]
  {
    var t := s[1..];
    forall i, j | 0 <= i < j < |t|
      ensures ButtonAt(t, i) != ButtonAt(t, j)
    {
      assert ButtonAt(s, i + 1) != ButtonAt(s, j + 1);
    }
    forall j | 0 <= j < |t|
      ensures t[j] != s[0]
    {
      assert ButtonAt(s, 0) != ButtonAt(s, j + 1);
    }
  }

  /** Putting an id not yet present in front keeps the entries distinct. */
  lemma ConsNoDup(x: Id, t: seq<Id>)
    requires NoDup(t) && x !in t
    ensures NoDup([x] + t)
  {
    var s := [x] + t;
    forall i, j | 0 <= i < j < |s|
      ensures ButtonAt(s, i) != ButtonAt(s, j)
    {
      if i == 0 {
        assert s[j] == t[j - 1];
      } else {
        assert ButtonAt(t, i - 1) != ButtonAt(t, j - 1);
      }
    }
  }

  /** Where a new window starts: the cascade in script_bundle_fixed.js and script_fixed.js
      (n is the cascade counter after the increment); test/script_music_v3.js pins touch
      screens at 4vw / 8vh and leaves desktops to the stylesheet. */
  function InitialPlacement(rev: Revision, n: nat, env: Env): (r: (Len, Len))
    requires n >= 1
    ensures rev != V3 ==> r.0.Px? && r.1.Px? && PAD <= r.0.n && PAD <= r.1.n
  {
    if rev == V3 then
      if env.mobile then (Vw(4), Vh(8)) else (Unset, Unset)
    else
      var p := CascadePlacement(n, env.mobile, env.mobileStart, env.rendered, env.vw, env.vh);
      (Px(p.x), Px(p.y))
  }

  /** Initial inline size: 92vw x 70vh on touch screens, 720 x 560 for the game on a
      desktop, a square for an image shown as a note. */
  function InitialSize(rev: Revision, kind: Kind, opts: Opts, env: Env): (Len, Len)
  {
    if rev != V3 && kind == ImageViewer && opts.variant == "note" then
      if env.mobile then (Px(Max(220, env.noteMaxSide)), Px(Max(220, env.noteMaxSide)))
      else if rev == Fixed then (Px(600), Px(600))
      else (Px(300), Px(300))
    else if rev != V3 && kind == Game && !env.mobile then (Px(720), Px(560))
    else if env.mobile then (Vw(92), Vh(70))
    else (Unset, Unset)
  }

  /** What cleanupWindow does, in order: the stop hooks, then the element, the registry
      entry and the taskbar button. */
  function CleanupEffects(id: Id, tm: map<Id, int>, games: map<Id, int>): (e: seq<Effect>)
    ensures |e| >= 3 && e[|e| - 3..] == [ElementRemoved(id), Unregistered(id), ButtonRemoved(id)]
    ensures forall i :: 0 <= i < |e| - 3 ==> e[i].IntervalCleared? || e[i].GameStopped?
    ensures (id !in tm || tm[id] == 0) && id !in games ==> |e| == 3
  {
    StopEffects(id, tm, games) + [ElementRemoved(id), Unregistered(id), ButtonRemoved(id)]
  }

  /** What the stop hooks do: clear a task manager's non-zero interval, stop a game. */
  function StopEffects(id: Id, tm: map<Id, int>, games: map<Id, int>): seq<Effect>
  {
    (if id in tm && tm[id] != 0 then [IntervalCleared(tm[id])] else [])
    + (if id in games then [GameStopped(id)] else [])
  }

  /** The stop hooks' effects followed by the removals are CleanupEffects. */
  lemma CleanupTrace(t: seq<Effect>, id: Id, tm: map<Id, int>, games: map<Id, int>)
    ensures t + StopEffects(id, tm, games) + [ElementRemoved(id), Unregistered(id), ButtonRemoved(id)]
            == t + CleanupEffects(id, tm, games)
  {
  }

  /** The taskbar without the buttons of id (`btn.remove()`). */
  function Erase(s: seq<Id>, id: Id): (r: seq<Id>)
    ensures forall k :: k in r <==> k in s && k != id
    ensures NoDup(s) ==> NoDup(r)
    ensures id !in s ==> r == s
  {
    if s == [] then []
    else if s[0] == id then
      assert NoDup(s) ==> NoDup(s[1..]) by {
        if NoDup(s) { TailNoDup(s); }
      }
      Erase(s[1..], id)
    else
      var rest := Erase(s[1..], id);
      assert NoDup(s) ==> NoDup([s[0]] + rest) by {
        if NoDup(s) {
          TailNoDup(s);
          ConsNoDup(s[0], rest);
        }
      }
      [s[0]] + rest
  }

  /** A button appended after the others stays last when another one is removed. */
  lemma {:induction false} EraseAppend(s: seq<Id>, x: Id, id: Id)
    requires x != id
    ensures Erase(s + [x], id) == Erase(s, id) + [x]
  {
    if s != [] {
      assert (s + [x])[1..] == s[1..] + [x];
      EraseAppend(s[1..], x, id);
    }
  }

  /** The store after a window's app has been bound: the photo app of
      script_bundle_fixed.js checks the clue (which may erase a broken unlock) and the
      game reads its best score (which may initialise it). */
  function StoreAfterBind(rev: Revision, kind: Kind, st: Scores.Store): Scores.Store
  {
    if kind == Photos && rev == Bundle then Scores.IsClue2Unlocked(st).store
    else if kind == Game && rev != V3 then Scores.GetBestScore(st).store
    else st
  }

  /** The per-window app state of the desktop together with localStorage. */
  datatype Apps = Apps(tm: map<Id, int>, photos: set<Id>, games: map<Id, int>,
                       unlocks: map<Id, Panel>, store: Scores.Store)

  /** The app state after createWindow bound the app of a new window id: the task
      manager keeps its interval handle, the photo app is tracked, the game starts from
      the stored best score, the unlock dialog remembers its file unlocked, and the store
      is as the binding left it. */
  function AfterBind(rev: Revision, kind: Kind, id: Id, opts: Opts, env: Env, a: Apps): Apps
  {
    Apps(if kind == TaskManager then a.tm[id := env.interval] else a.tm,
         if kind == Photos then a.photos + {id} else a.photos,
         if kind == Game && rev != V3 then a.games[id := Scores.GetBestScore(a.store).value] else a.games,
         if kind == UnlockDialog then a.unlocks[id := Panel(opts.fileName, 0)] else a.unlocks,
         StoreAfterBind(rev, kind, a.store))
  }

  /** The app state moved from the first five maps to the last five by binding the app of
      window id. */
  predicate Bound(rev: Revision, kind: Kind, id: Id, opts: Opts, env: Env,
                  tm0: map<Id, int>, photos0: set<Id>, games0: map<Id, int>,
                  unlocks0: map<Id, Panel>, st0: Scores.Store,
                  tm: map<Id, int>, photos: set<Id>, games: map<Id, int>,
                  unlocks: map<Id, Panel>, st: Scores.Store)
  {
    Apps(tm, photos, games, unlocks, st) == AfterBind(rev, kind, id, opts, env, Apps(tm0, photos0, games0, unlocks0, st0))
  }

  /** What a viewer shows: the text of a text viewer, the image of an image viewer. */
  function BodyOf(rev: Revision, kind: Kind, opts: Opts): string
  {
    if kind == TextViewer || (kind == ImageViewer && rev != V3) then opts.body else ""
  }

  /** A drag step from the captured start: the new left always; the new top only when the
      taskbar height parses (`'NaNpx'` is not a valid length, so top keeps its value). */
  function DragStep(w: Win, g: Gesture, clientX: int, clientY: int, vw: int, vh: int,
                    taskbarH: Option<int>, offset: Size): (r: Win)
    requires g.Active?
    ensures r == w.(left := r.left, top := r.top) && r.left.Px?
    ensures taskbarH.Some? ==>
              r.top.Px? && Pos(r.left.n, r.top.n) == DragTarget(g.startA, g.startB, clientX - g.startX,
                                                                clientY - g.startY, vw, vh, taskbarH.value, offset)
    ensures taskbarH.None? ==> r.top == w.top
  {
    var dx, dy := clientX - g.startX, clientY - g.startY;
    var p := DragTarget(g.startA, g.startB, dx, dy, vw, vh, if taskbarH.Some? then taskbarH.value else 0, offset);
    if taskbarH.Some? then w.(left := Px(p.x), top := Px(p.y)) else w.(left := Px(p.x))
  }

  /** A resize step from the captured start, measured from the window's current corner. */
  function ResizeStep(w: Win, g: Gesture, clientX: int, clientY: int, vw: int, vh: int,
                      taskbarH: Option<int>, at: Pos): (r: Win)
    requires g.Active?
    ensures r == w.(width := r.width, height := r.height) && r.width.Px?
    ensures taskbarH.Some? ==>
              r.height.Px? && Size(r.width.n, r.height.n) == ResizeTarget(g.startA, g.startB, clientX - g.startX,
                                                                          clientY - g.startY, at, vw, vh, taskbarH.value)
    ensures taskbarH.None? ==> r.height == w.height
  {
    var dx, dy := clientX - g.startX, clientY - g.startY;
    var sz := ResizeTarget(g.startA, g.startB, dx, dy, at, vw, vh, if taskbarH.Some? then taskbarH.value else 0);
    if taskbarH.Some? then w.(width := Px(sz.w), height := Px(sz.h)) else w.(width := Px(sz.w))
  }

  // ---------------------------------------------------------------------------
  // A consistent desktop

  /** The stacking counter is at least every window's z, no two windows share a z
      value, and every registered id was handed out by the counter n. */
  predicate Stacked(z: int, n: nat, ws: Registry)
  {
    z >= 10 && Issued(ws, n) && DistinctZ(ws) && AllBelow(ws, z)
  }

  /** Only open windows have app state that closing them must stop. */
  predicate RuntimesOk(ids: set<Id>, tm: map<Id, int>, photos: set<Id>, games: map<Id, int>)
  {
    tm.Keys <= ids && photos <= ids && games.Keys <= ids
  }

  /** A consistent desktop: a well-formed stack, one button per window, app state only
      for open windows, and exactly the buttons of shown top windows highlighted. */
  predicate Consistent(z: int, n: nat, ws: Registry, tb: seq<Id>, h: set<Id>,
                       tm: map<Id, int>, photos: set<Id>, games: map<Id, int>)
  {
    Stacked(z, n, ws) && OneButtonEach(tb, ws.Keys) && RuntimesOk(ws.Keys, tm, photos, games)
    && h == ActiveIds(ws, z)
  }

  /** The highlight after bringToFront's loop: the buttons of registered windows are
      re-set (only id's, when it is shown), any other button keeps its state. */
  function Fronted(h0: set<Id>, ws: Registry, tb: seq<Id>, id: Id): set<Id>
  {
    (set k | k in h0 && (k !in ws || k !in tb))
    + (if id in ws && id in tb && !ws[id].minimized then {id} else {})
  }

  /** The highlight after updateTaskbarActive: the button of each registered window is
      highlighted exactly when its window is shown and on top; others keep their state. */
  function Refreshed(h0: set<Id>, ws: Registry, tb: seq<Id>, z: int): set<Id>
  {
    (set k | k in h0 && (k !in ws || k !in tb))
    + (set k | k in ws && k in tb && !ws[k].minimized && ws[k].z == z)
  }

  /** When every window has its button, the refresh highlights exactly the shown windows
      on top, whatever was highlighted before. */
  lemma RefreshedAll(h0: set<Id>, ws: Registry, tb: seq<Id>, z: int)
    requires h0 <= ws.Keys && forall k :: k in ws ==> k in tb
    ensures Refreshed(h0, ws, tb, z) == ActiveIds(ws, z)
  {
    assert (set k | k in h0 && (k !in ws || k !in tb)) == {};
  }

  /** bringToFront on a consistent stack: the stack stays well formed and the raised
      window's button alone is highlighted, unless it is minimized. */
  lemma FrontFacts(z0: int, n: nat, ws0: Registry, tb: seq<Id>, h0: set<Id>, id: Id,
                   z: int, ws: Registry, h: set<Id>)
    requires id in ws0 && Stacked(z0, n, ws0) && OneButtonEach(tb, ws0.Keys) && h0 <= ws0.Keys
    requires z == z0 + 1 && ws == Raise(ws0, id, z) && h == Fronted(h0, ws, tb, id)
    ensures Stacked(z, n, ws) && OneButtonEach(tb, ws.Keys)
    ensures forall k :: k in ws && k != id ==> ws[k].z < ws[id].z
    ensures h == ActiveIds(ws, z) == (if ws[id].minimized then {} else {id})
  {
    RaiseInStack(ws0, id, z0);
    assert (set k | k in h0 && (k !in ws || k !in tb)) == {};
  }

  /** Changing a window's geometry or state classes keeps the stack well formed. */
  lemma ReshapeFacts(z: int, n: nat, ws: Registry, id: Id, w: Win)
    requires Stacked(z, n, ws) && id in ws && w.z == ws[id].z
    ensures Stacked(z, n, ws[id := w]) && ws[id := w].Keys == ws.Keys
    ensures w.minimized == ws[id].minimized ==> ActiveIds(ws[id := w], z) == ActiveIds(ws, z)
  {
    ReshapeKeepsStack(ws, id, w, z);
  }

  /** createWindow on a consistent desktop: the new window, registered under the next
      counter value, brought to front and given a button, leaves a consistent desktop
      where its button alone is highlighted. */
  lemma CreateFacts(z0: int, n0: nat, ws0: Registry, tb0: seq<Id>, h0: set<Id>, id: Id, w: Win,
                    z: int, ws: Registry, tb: seq<Id>, h1: set<Id>, h: set<Id>,
                    tm: map<Id, int>, photos: set<Id>, games: map<Id, int>)
    requires Stacked(z0, n0, ws0) && OneButtonEach(tb0, ws0.Keys) && h0 == ActiveIds(ws0, z0)
    requires RuntimesOk(ws0.Keys + {id}, tm, photos, games)
    requires id == n0 + 1 && !w.minimized
    requires z == z0 + 1 && ws == Raise(ws0[id := w], id, z)
    requires h1 == Fronted(h0, ws, tb0, id)
    requires tb == tb0 + [id] && h == Refreshed(h1, ws, tb, z)
    ensures id !in ws0 && ws.Keys == ws0.Keys + {id} && ws[id] == w.(z := z)
    ensures Consistent(z, id, ws, tb, h, tm, photos, games) && h == {id}
  {
    var ws1 := ws0[id := w];
    assert ws1 - {id} == ws0;
    RaiseKeepsStack(ws1, id, z0);
    AppendFreshKeepsNoDup(tb0, id);
    assert h1 <= ws.Keys;
    RefreshedAll(h1, ws, tb, z);
  }

  /** The restoring taskbar click on a consistent desktop: the window, shown again and
      raised, is the only highlighted one, and the desktop stays consistent. */
  lemma RestoreFacts(z0: int, n: nat, ws0: Registry, tb: seq<Id>, h0: set<Id>,
                     tm: map<Id, int>, photos: set<Id>, games: map<Id, int>, id: Id,
                     z: int, ws: Registry, h1: set<Id>, h: set<Id>)
    requires Consistent(z0, n, ws0, tb, h0, tm, photos, games) && id in ws0 && ws0[id].minimized
    requires z == z0 + 1 && ws == Raise(ws0[id := ws0[id].(minimized := false)], id, z)
    requires h1 == Fronted(h0, ws, tb, id) && h == Refreshed(h1, ws, tb, z)
    ensures Consistent(z, n, ws, tb, h, tm, photos, games) && h == {id}
    ensures Stack(ws, z) == Click(Stack(ws0, z0), id)
  {
    var w := ws0[id := ws0[id].(minimized := false)];
    ReshapeFacts(z0, n, ws0, id, ws0[id].(minimized := false));
    FrontFacts(z0, n, w, tb, h0, id, z, ws, h1);
    RefreshedAll(h1, ws, tb, z);
  }

  /** cleanupWindow on a consistent desktop: without the window and its button, with
      the window's app state stopped and the highlight refreshed, the desktop is
      consistent again. */
  lemma CleanupFacts(z: int, n: nat, ws0: Registry, tb0: seq<Id>, h0: set<Id>, id: Id, h: set<Id>,
                     tm: map<Id, int>, photos: set<Id>, games: map<Id, int>)
    requires Stacked(z, n, ws0) && OneButtonEach(tb0, ws0.Keys) && h0 == ActiveIds(ws0, z)
    requires RuntimesOk(ws0.Keys - {id}, tm, photos, games)
    requires h == Refreshed(h0 - {id}, ws0 - {id}, Erase(tb0, id), z)
    ensures Consistent(z, n, ws0 - {id}, Erase(tb0, id), h, tm, photos, games)
  {
    RemoveKeepsOthers(ws0, id, z);
    RefreshedAll(h0 - {id}, ws0 - {id}, Erase(tb0, id), z);
  }

  /** The window createWindow builds, before bringToFront gives it a z value. */
  function NewWindow(rev: Revision, kind: Kind, opts: Opts, env: Env, n: nat): (w: Win)
    requires n >= 1
  {
    var header := Header(rev, kind, opts.title);
    var size := InitialSize(rev, kind, opts, env);
    var place := InitialPlacement(rev, n, env);
    Win(kind, header.0, header.1, 0, false, false, place.0, place.1, size.0, size.1,
        BodyOf(rev, kind, opts))
  }

  /** bringToFront's z value does not change how a window was opened. */
  lemma OpenedAnyZ(w: Win, z: int, rev: Revision, kind: Kind, opts: Opts, env: Env, n: nat)
    requires n >= 1 && Opened(w, rev, kind, opts, env, n)
    ensures Opened(w.(z := z), rev, kind, opts, env, n)
  {
  }

  /** A window as createWindow builds it: the header for its type, the viewer's content,
      shown and not maximized, with the initial size and the n-th cascade position. */
  predicate Opened(w: Win, rev: Revision, kind: Kind, opts: Opts, env: Env, n: nat)
    requires n >= 1
  {
    w.(z := 0) == NewWindow(rev, kind, opts, env, n)
  }
}
