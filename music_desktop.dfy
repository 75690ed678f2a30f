/**
 * The desktop of script_music.js. It keeps its state in one object: the stacking
 * counter `z`, the id counter `nextId`, the registry `winMap` of taskbar entries, and an
 * explicit `activeWinId` where the other revisions derive "active" from z equality.
 * A taskbar button is highlighted when its id is the active one and its window is
 * shown. One task-manager ticker and one unlock lock are shared by all windows.
 * Desktop windows start at a random position, which is an input here.
 */
module MusicDesk {
  import opened Wrappers
  import opened Text
  import opened Geometry
  import opened Windows
  import opened DesktopRules
  import Unlock

  /** The one encrypted file the unlock dialog knows. */
  const ENCRYPTED_FILE_ID := "case-01"
  const ENCRYPTED_FILE_NAME := "secret.png"
  const ENCRYPTED_FILE_SRC := "./assets/soeder.png"
  /** The options the unlocked file opens with. */
  const FILE_OPTS := MusicOpts("", ENCRYPTED_FILE_NAME, ENCRYPTED_FILE_SRC)

  /** Window origins are drawn from [40, max). */
  const RANDOM_ORIGIN := 40

  /** createWindow's options: the file of an unlock dialog, the title and source of an
      image viewer ("" when not given). */
  datatype MusicOpts = MusicOpts(fileId: string, title: string, src: string)

  /** What createWindow reads from the browser: the media query, the viewport, the
      position Math.random picked for a desktop window, and the ticker's interval handle. */
  datatype MusicEnv = MusicEnv(mobile: bool, vw: int, vh: int, place: Pos, interval: int)

  /** `Math.floor(40 + Math.random() * (max - 40))` with `max` at least 60 lies in [40, max). */
  predicate Rolled(env: MusicEnv)
  {
    RANDOM_ORIGIN <= env.place.x < Max(60, env.vw - 560)
    && RANDOM_ORIGIN <= env.place.y < Max(60, env.vh - 460)
  }

  /** The window types this revision knows; any other gets a plain window. */
  predicate MusicKnown(kind: Kind)
  {
    kind in {Notes, Explorer, Settings, Music, Photos, UnlockDialog, ImageViewer, TaskManager}
  }

  /** Title and Feather icon set by createWindow's switch. */
  function MusicHeader(kind: Kind, optTitle: string): (r: (string, string))
    ensures r.0 != "" && r.1 != ""
    ensures !MusicKnown(kind) ==> r == ("Window", "square")
    ensures kind == ImageViewer ==> r.0 == OrElse(optTitle, "Bild")
  {
    match kind
    case Notes => ("Notizen", "file-text")
    case Explorer => ("Explorer", "folder")
    case Settings => ("Settings", "settings")
    case Music => ("Music", "music")
    case Photos => ("Foto", "image")
    case UnlockDialog => ("Datei entsperren", "lock")
    case ImageViewer => (OrElse(optTitle, "Bild"), "image")
    case TaskManager => ("Task Manager", "cpu")
    case _ => ("Window", "square")
  }

  /** The window createWindow builds before bringToFront: a touch screen pins it at
      4vw / 10vh with 92vw x 70vh; a desktop window gets the random origin and the
      stylesheet's size. */
  function MusicNewWindow(kind: Kind, opts: MusicOpts, env: MusicEnv): (w: Win)
    ensures w.kind == kind && w.z == 0 && !w.minimized && !w.maximized
    ensures (w.title, w.icon) == MusicHeader(kind, opts.title)
    ensures env.mobile ==> w.left == Vw(4) && w.top == Vh(10) && w.width == Vw(92) && w.height == Vh(70)
    ensures !env.mobile && Rolled(env) ==>
              w.left.Px? && w.top.Px? && w.width == Unset && w.height == Unset
              && RANDOM_ORIGIN <= w.left.n < Max(60, env.vw - 560)
              && RANDOM_ORIGIN <= w.top.n < Max(60, env.vh - 460)
  {
    var header := MusicHeader(kind, opts.title);
    var body := if kind == ImageViewer then opts.src else "";
    if env.mobile then
      Win(kind, header.0, header.1, 0, false, false, Vw(4), Vh(10), Vw(92), Vh(70), body)
    else
      Win(kind, header.0, header.1, 0, false, false, Px(env.place.x), Px(env.place.y), Unset, Unset, body)
  }

  // ---------------------------------------------------------------------------
  // The highlight: `activeWinId === id && !minimized`

  /** The buttons that should be highlighted: that of the active window, when shown. */
  function Lit(ws: Registry, a: Option<Id>): set<Id>
  {
    set k | k in ws && a == Some(k) && !ws[k].minimized
  }

  /** At most one button is highlighted, and only that of the active window. */
  lemma LitIsActive(ws: Registry, a: Option<Id>)
    ensures Lit(ws, a) == (if a.Some? && a.value in ws && !ws[a.value].minimized then {a.value} else {})
    ensures |Lit(ws, a)| <= 1
  {
    if a.Some? && a.value in ws && !ws[a.value].minimized {
      assert a.value in Lit(ws, a);
    }
  }

  /** The highlight after refreshTaskbarActive: the button of each entry is set from the
      active id; a button without an entry keeps its state. */
  function Relit(h0: set<Id>, entries: set<Id>, ws: Registry, a: Option<Id>): set<Id>
  {
    (set k | k in h0 && k !in entries)
    + (set k | k in entries && k in ws && a == Some(k) && !ws[k].minimized)
  }

  /** With an entry for every window and no stray highlight, the refresh highlights
      exactly the shown active window. */
  lemma RelitAll(h0: set<Id>, entries: set<Id>, ws: Registry, a: Option<Id>)
    requires h0 <= entries && entries == ws.Keys
    ensures Relit(h0, entries, ws, a) == Lit(ws, a)
  {
    assert (set k | k in h0 && k !in entries) == {};
  }

  // ---------------------------------------------------------------------------
  // The taskbar click (script_music.js)

  /** The part of the desktop a click reads and writes. */
  datatype Front = Front(ws: Registry, top: int, active: Option<Id>)

  /** A click on a taskbar button: nothing for a closed window; a minimized window is
      restored and brought to front; the active window is minimized and nothing is
      active; any other window is brought to front. */
  function MusicClick(s: Front, id: Id): (r: Front)
    ensures id !in s.ws ==> r == s
    ensures id in s.ws ==> r.ws.Keys == s.ws.Keys
    ensures id in s.ws ==> (r.ws[id].minimized <==> !s.ws[id].minimized && s.active == Some(id))
    ensures id in s.ws && !r.ws[id].minimized ==>
              r.active == Some(id) && r.top == s.top + 1 && r.ws[id].z == r.top
    ensures id in s.ws && r.ws[id].minimized ==> r.active == None && r.top == s.top
  {
    if id !in s.ws then s
    else if s.ws[id].minimized then
      Front(Raise(s.ws[id := s.ws[id].(minimized := false)], id, s.top + 1), s.top + 1, Some(id))
    else if s.active == Some(id) then
      Front(s.ws[id := s.ws[id].(minimized := true)], s.top, None)
    else
      Front(Raise(s.ws, id, s.top + 1), s.top + 1, Some(id))
  }

  /** A well-formed stack: distinct z values at most the counter, and an active id that
      names an open window carrying the top value (only bringToFront sets it). */
  predicate FrontOk(s: Front)
  {
    DistinctZ(s.ws) && AllBelow(s.ws, s.top)
    && (s.active.Some? ==> s.active.value in s.ws && s.ws[s.active.value].z == s.top)
  }

  /** The active window is strictly above all others. */
  lemma ActiveOnTop(s: Front)
    requires FrontOk(s) && s.active.Some?
    ensures forall k :: k in s.ws && k != s.active.value ==> s.ws[k].z < s.top
  {
  }

  /** A click keeps the stack well formed; the clicked window's button ends highlighted
      exactly when the window ends shown. */
  lemma {:induction false} MusicClickKeepsStack(s: Front, id: Id)
    requires FrontOk(s)
    ensures var r := MusicClick(s, id);
            FrontOk(r)
            && Lit(r.ws, r.active) == (if id !in s.ws then Lit(s.ws, s.active)
                                       else if r.ws[id].minimized then {} else {id})
  {
    if id in s.ws {
      if s.ws[id].minimized {
        RestoreKeepsStack(s, id);
      } else if s.active == Some(id) {
        HideKeepsStack(s, id);
      } else {
        RaiseKeepsFront(s, id);
      }
    }
  }

  lemma RestoreKeepsStack(s: Front, id: Id)
    requires FrontOk(s) && id in s.ws && s.ws[id].minimized
    ensures var r := Front(Raise(s.ws[id := s.ws[id].(minimized := false)], id, s.top + 1), s.top + 1, Some(id));
            FrontOk(r) && Lit(r.ws, r.active) == {id}
  {
    var m := s.ws[id := s.ws[id].(minimized := false)];
    ReshapeKeepsStack(s.ws, id, m[id], s.top);
    RaiseInStack(m, id, s.top);
    LitIsActive(Raise(m, id, s.top + 1), Some(id));
  }

  lemma HideKeepsStack(s: Front, id: Id)
    requires FrontOk(s) && id in s.ws
    ensures var r := Front(s.ws[id := s.ws[id].(minimized := true)], s.top, None);
            FrontOk(r) && Lit(r.ws, r.active) == {}
  {
    ReshapeKeepsStack(s.ws, id, s.ws[id].(minimized := true), s.top);
  }

  lemma RaiseKeepsFront(s: Front, id: Id)
    requires FrontOk(s) && id in s.ws && !s.ws[id].minimized
    ensures var r := Front(Raise(s.ws, id, s.top + 1), s.top + 1, Some(id));
            FrontOk(r) && Lit(r.ws, r.active) == {id}
  {
    RaiseInStack(s.ws, id, s.top);
    LitIsActive(Raise(s.ws, id, s.top + 1), Some(id));
  }

  /** Two clicks on a button leave its window minimized, unless it was the shown active
      window, which the first click hides and the second brings back. */
  lemma {:induction false} MusicClickTwice(s: Front, id: Id)
    requires id in s.ws
    ensures var r := MusicClick(MusicClick(s, id), id);
            r.ws[id].minimized <==> s.ws[id].minimized || s.active != Some(id)
  {
    var r1 := MusicClick(s, id);
    assert id in r1.ws;
  }

  // ---------------------------------------------------------------------------
  // The task-manager ticker: one interval for all task-manager windows

  /** stopTaskManagerTicker: a set handle is cleared and forgotten. */
  function StoppedTicker(t: Option<int>): Option<int>
  {
    if t.Some? && t.value != 0 then None else t
  }

  function TickerEffects(t: Option<int>): seq<Effect>
  {
    if t.Some? && t.value != 0 then [IntervalCleared(t.value)] else []
  }

  /** Stopping the ticker is idempotent: a second stop clears nothing. */
  lemma StopTickerIdempotent(t: Option<int>)
    ensures StoppedTicker(StoppedTicker(t)) == StoppedTicker(t)
    ensures TickerEffects(StoppedTicker(t)) == []
  {
  }

  // ---------------------------------------------------------------------------
  // The drag start: `parseInt(windowElement.style.left || '0', 10)`

  /** parseInt reads the number of a length and drops its unit, "vw" and "vh" included. */
  lemma ParseLenText(l: Len)
    ensures ParseIntPrefix(OrElse(LenText(l), "0")) == Some(LenNumber(l))
  {
    match l
    case Unset =>
      assert OrElse(LenText(l), "0") == NatToString(0) + "";
      ParseIntPrefixUnit(0, "");
    case Px(n) => ParseSigned(n, "px");
    case Vw(n) => ParseSigned(n, "vw");
    case Vh(n) => ParseSigned(n, "vh");
  }

  /** `parseInt(style.left || '0', 10)` as the header handler runs it. */
  method StyleStart(l: Len) returns (n: int)
    ensures n == LenNumber(l)
  {
    var parsed := ParseIntPrefix(OrElse(LenText(l), "0"));
    ParseLenText(l);
    n := parsed.value;
  }

  /** `parseInt(String(n) + unit, 10) == n` for a unit that starts with a letter. */
  lemma ParseSigned(n: int, unit: string)
    requires unit != [] && !IsDigit(unit[0])
    ensures ParseIntPrefix(IntToString(n) + unit) == Some(n)
  {
    if n >= 0 {
      ParseIntPrefixUnit(n, unit);
    } else {
      ParseIntPrefixNegUnit(-n, unit);
    }
  }

  /** As written, a drag captures its start from the style text: a touch-screen window at
      4vw / 10vh starts from (4, 10) although it is rendered at (16, 80) in a 400 x 800
      viewport, so the first move, even by zero pixels, moves it to (4px, 10px). */
  lemma MobileDragStartsFromStyleText()
    ensures var w := MusicNewWindow(Notes, MusicOpts("", "", ""), MusicEnv(true, 400, 800, Pos(0, 0), 0));
            MusicDragTarget(LenNumber(w.left), LenNumber(w.top), 0, 0) == Pos(4, 10)
            && Rendered(w.left, 400, 800) == 16 && Rendered(w.top, 400, 800) == 80
  {
  }

  /** From the rendered position, a move by zero leaves a window where it is. */
  lemma RenderedStartStays(rect: Pos)
    requires rect.x >= 0 && rect.y >= 0
    ensures MusicDragTarget(rect.x, rect.y, 0, 0) == rect
  {
  }

  // ---------------------------------------------------------------------------
  // A consistent desktop

  /** The desktop's invariant on its values: the counters, a well-formed stack of
      windows issued by the id counter, one entry and one button per window, and no
      highlight without an entry. */
  predicate MusicOk(z: int, n: nat, ws: Registry, es: set<Id>, tb: seq<Id>, h: set<Id>, a: Option<Id>)
  {
    z >= 10 && n >= 1 && Issued(ws, n - 1) && FrontOk(Front(ws, z, a))
    && es == ws.Keys && OneButtonEach(tb, es) && h <= es
  }

  /** Raising a window twice is raising it to the second value. */
  lemma RaiseTwice(ws: Registry, id: Id, a: int, b: int)
    requires id in ws
    ensures Raise(Raise(ws, id, a), id, b) == Raise(ws, id, b)
  {
  }

  /** bringToFront on a consistent desktop: it stays consistent and the window's button
      alone is highlighted, unless it is minimized. */
  lemma FocusFacts(z0: int, n: nat, ws0: Registry, es: set<Id>, tb: seq<Id>, h0: set<Id>, a0: Option<Id>,
                   id: Id, h: set<Id>)
    requires MusicOk(z0, n, ws0, es, tb, h0, a0) && id in ws0
    requires h == Relit(h0, es, Raise(ws0, id, z0 + 1), Some(id))
    ensures MusicOk(z0 + 1, n, Raise(ws0, id, z0 + 1), es, tb, h, Some(id))
    ensures h == Lit(Raise(ws0, id, z0 + 1), Some(id)) == (if ws0[id].minimized then {} else {id})
  {
    var ws := Raise(ws0, id, z0 + 1);
    RaiseInStack(ws0, id, z0);
    RelitAll(h0, es, ws, Some(id));
    LitIsActive(ws, Some(id));
  }

  /** Changing a window's geometry or classes but not its z value keeps the desktop
      consistent; the highlight is unchanged unless the minimized state changed. */
  lemma MusicReshapeFacts(z: int, n: nat, ws: Registry, es: set<Id>, tb: seq<Id>, h: set<Id>, a: Option<Id>,
                     id: Id, w: Win)
    requires MusicOk(z, n, ws, es, tb, h, a) && id in ws && w.z == ws[id].z
    ensures MusicOk(z, n, ws[id := w], es, tb, h, a)
    ensures w.minimized == ws[id].minimized ==> Lit(ws[id := w], a) == Lit(ws, a)
  {
    ReshapeKeepsStack(ws, id, w, z);
  }

  /** The minimize button on a consistent desktop: nothing is active or highlighted. */
  lemma HideFacts(z: int, n: nat, ws: Registry, es: set<Id>, tb: seq<Id>, h: set<Id>, a: Option<Id>, id: Id)
    requires MusicOk(z, n, ws, es, tb, h, a) && id in ws
    ensures var m := ws[id := ws[id].(minimized := true)];
            Relit(h, es, m, None) == {} && MusicOk(z, n, m, es, tb, {}, None) && Lit(m, None) == {}
  {
    ReshapeKeepsStack(ws, id, ws[id].(minimized := true), z);
    RelitAll(h, es, ws[id := ws[id].(minimized := true)], None);
  }

  /** A taskbar click followed by the refresh keeps the desktop consistent. */
  lemma ClickFacts(z0: int, n: nat, ws0: Registry, es: set<Id>, tb: seq<Id>, h0: set<Id>, a0: Option<Id>,
                   id: Id, h: set<Id>)
    requires MusicOk(z0, n, ws0, es, tb, h0, a0) && id in ws0
    requires var r := MusicClick(Front(ws0, z0, a0), id);
             h == Relit(Relit(h0, es, r.ws, r.active), es, r.ws, r.active)
    ensures var r := MusicClick(Front(ws0, z0, a0), id);
            MusicOk(r.top, n, r.ws, es, tb, h, r.active) && h == Lit(r.ws, r.active)
  {
    var r := MusicClick(Front(ws0, z0, a0), id);
    MusicClickKeepsStack(Front(ws0, z0, a0), id);
    RelitAll(h0, es, r.ws, r.active);
    RelitAll(Relit(h0, es, r.ws, r.active), es, r.ws, r.active);
  }

  /** A new window, issued the next id and raised, keeps the stack well formed and is
      the active one on top. */
  lemma NewOnTop(z0: int, n0: nat, ws0: Registry, a0: Option<Id>, w: Win)
    requires n0 >= 1 && Issued(ws0, n0 - 1) && FrontOk(Front(ws0, z0, a0))
    ensures n0 !in ws0
    ensures var r := Raise(ws0[n0 := w], n0, z0 + 1);
            Issued(r, n0) && FrontOk(Front(r, z0 + 1, Some(n0)))
  {
    var ws1 := ws0[n0 := w];
    assert n0 !in ws0;
    assert ws1 - {n0} == ws0;
    RaiseKeepsStack(ws1, n0, z0);
  }

  /** The highlight once a new shown window is raised and active: only its button, when
      the refresh sees its entry; none, when it runs before the entry exists. */
  lemma NewLit(h0: set<Id>, es0: set<Id>, ws0: Registry, n0: Id, w: Win, top: int)
    requires h0 <= es0 && es0 == ws0.Keys && n0 !in ws0 && !w.minimized
    ensures Relit(h0, es0 + {n0}, Raise(ws0[n0 := w], n0, top), Some(n0)) == {n0}
    ensures Relit(h0, es0, Raise(ws0[n0 := w], n0, top), Some(n0)) == {}
    ensures Lit(Raise(ws0[n0 := w], n0, top), Some(n0)) == {n0}
  {
    var r := Raise(ws0[n0 := w], n0, top);
    assert r.Keys == es0 + {n0} && r[n0] == w.(z := top);
    RelitAll(h0, es0 + {n0}, r, Some(n0));
    LitIsActive(r, Some(n0));
    NoneLitOutside(h0, es0, r, n0);
  }

  /** With no stray highlight, a refresh over entries that exclude the active id lights nothing. */
  lemma NoneLitOutside(h0: set<Id>, es0: set<Id>, r: Registry, n0: Id)
    requires h0 <= es0 && n0 !in es0
    ensures Relit(h0, es0, r, Some(n0)) == {}
  {
    assert (set k | k in h0 && k !in es0) == {};
    assert forall k :: k in es0 ==> Some(n0) != Some(k);
  }

  /** createWindow with the entry registered before bringToFront: the new window's
      button alone is highlighted. */
  lemma MusicCreateFacts(z0: int, n0: nat, ws0: Registry, es0: set<Id>, tb0: seq<Id>, h0: set<Id>, a0: Option<Id>,
                         w: Win, z: int, ws: Registry, es: set<Id>, tb: seq<Id>, h: set<Id>)
    requires MusicOk(z0, n0, ws0, es0, tb0, h0, a0) && !w.minimized
    requires z == z0 + 1 && ws == Raise(ws0[n0 := w], n0, z) && es == es0 + {n0} && tb == tb0 + [n0]
    requires h == Relit(h0, es, ws, Some(n0))
    ensures n0 !in ws0
    ensures MusicOk(z, n0 + 1, ws, es, tb, h, Some(n0))
    ensures h == {n0} == Lit(ws, Some(n0))
  {
    NewOnTop(z0, n0, ws0, a0, w);
    NewLit(h0, es0, ws0, n0, w, z);
    AppendFreshKeepsNoDup(tb0, n0);
  }

  /** createWindow as written: the refresh inside bringToFront runs before the entry
      exists, so no button is highlighted although the new window is shown and active. */
  lemma MusicCreateAsWrittenFacts(z0: int, n0: nat, ws0: Registry, es0: set<Id>, tb0: seq<Id>, h0: set<Id>,
                                  a0: Option<Id>, w: Win, z: int, ws: Registry, es: set<Id>, tb: seq<Id>, h: set<Id>)
    requires MusicOk(z0, n0, ws0, es0, tb0, h0, a0) && !w.minimized
    requires z == z0 + 1 && ws == Raise(ws0[n0 := w], n0, z) && es == es0 + {n0} && tb == tb0 + [n0]
    requires h == Relit(h0, es0, ws, Some(n0))
    ensures n0 !in ws0
    ensures MusicOk(z, n0 + 1, ws, es, tb, h, Some(n0))
    ensures h == {} && Lit(ws, Some(n0)) == {n0}
  {
    NewOnTop(z0, n0, ws0, a0, w);
    NewLit(h0, es0, ws0, n0, w, z);
    AppendFreshKeepsNoDup(tb0, n0);
  }

  /** Closing window id (element, entry and button) keeps the desktop consistent. */
  lemma RemoveFacts(z: int, n: nat, ws: Registry, es: set<Id>, tb: seq<Id>, h: set<Id>, a: Option<Id>,
                    id: Id, h': set<Id>)
    requires MusicOk(z, n, ws, es, tb, h, a) && id in ws
    requires h' == Relit(h - {id}, es - {id}, ws - {id}, if a == Some(id) then None else a)
    ensures var a' := if a == Some(id) then None else a;
            MusicOk(z, n, ws - {id}, es - {id}, Erase(tb, id), h', a') && h' == Lit(ws - {id}, a')
  {
    var a' := if a == Some(id) then None else a;
    RemoveKeepsOthers(ws, id, z);
    RelitAll(h - {id}, es - {id}, ws - {id}, a');
  }

  // ---------------------------------------------------------------------------
  // The desktop object

  /** A winMap entry: the window's type and its taskbar label. */
  datatype Entry = Entry(kind: Kind, title: string)

  class MusicDesktop {
    var z: int                          // state.z
    var activeWinId: Option<Id>         // state.activeWinId
    var nextId: nat                     // state.nextId
    var elems: Registry                 // the window elements in the window container
    var winMap: map<Id, Entry>          // state.winMap
    var taskbar: seq<Id>                // taskbar buttons, left to right
    var active: set<Id>                 // buttons with the `active` class
    var tmInterval: Option<int>         // state.taskManagerInterval
    var lockedUntil: int                // the unlock dialogs' shared lock
    var unlockFiles: map<Id, string>    // unlock dialog -> its fileId
    var drags: map<Id, Gesture>         // per window: dragging, start point and origin
    ghost var trace: seq<Effect>

    /** Every invariant but the highlight. */
    ghost predicate Wellformed()
      reads this`z, this`nextId, this`elems, this`winMap, this`taskbar, this`active, this`activeWinId
    {
      MusicOk(z, nextId, elems, winMap.Keys, taskbar, active, activeWinId)
    }

    /** A consistent desktop: well formed, and the highlight is that of the active id. */
    ghost predicate Valid()
      reads this`z, this`nextId, this`elems, this`winMap, this`taskbar, this`active, this`activeWinId
    {
      MusicOk(z, nextId, elems, winMap.Keys, taskbar, active, activeWinId) && active == Lit(elems, activeWinId)
    }

    constructor ()
      ensures Valid() && z == 10 && nextId == 1 && elems == map[] && activeWinId == None
      ensures lockedUntil == 0 && tmInterval == None && trace == []
    {
      z := 10;
      activeWinId := None;
      nextId := 1;
      elems := map[];
      winMap := map[];
      taskbar := [];
      active := {};
      tmInterval := None;
      lockedUntil := 0;
      unlockFiles := map[];
      drags := map[];
      trace := [];
    }

    /** refreshTaskbarActive: each entry's button is highlighted exactly when its id is
        the active one and its window is shown. */
    method RefreshTaskbarActive()
      requires winMap.Keys <= elems.Keys
      modifies this`active
      ensures active == Relit(old(active), winMap.Keys, elems, activeWinId)
    {
      var todo := winMap.Keys;
      while todo != {}
        invariant todo <= winMap.Keys
        invariant forall k :: k in active <==>
                    if k in winMap && k !in todo then activeWinId == Some(k) && !elems[k].minimized
                    else k in old(active)
        decreases todo
      {
        var k :| k in todo;
        if activeWinId == Some(k) && !elems[k].minimized {
          active := active + {k};
        } else {
          active := active - {k};
        }
        todo := todo - {k};
      }
    }

    /** setActive: record the active id, then refresh the highlight. */
    method SetActive(a: Option<Id>)
      requires winMap.Keys <= elems.Keys
      modifies this`activeWinId, this`active
      ensures activeWinId == a
      ensures active == Relit(old(active), winMap.Keys, elems, a)
    {
      activeWinId := a;
      RefreshTaskbarActive();
    }

    /** bringToFront: the window takes the next z value and becomes the active one. */
    method BringToFront(id: Id)
      requires id in elems && winMap.Keys <= elems.Keys
      modifies this`z, this`elems, this`activeWinId, this`active
      ensures z == old(z) + 1 && elems == Raise(old(elems), id, z) && activeWinId == Some(id)
      ensures active == Relit(old(active), winMap.Keys, elems, Some(id))
    {
      z := z + 1;
      elems := elems[id := elems[id].(z := z)];
      SetActive(Some(id));
    }

    /** bringToFront on a consistent desktop: the window ends strictly above all others
        and its button alone is highlighted, unless it is minimized. */
    method Focus(id: Id)
      requires Wellformed() && id in elems
      modifies this`z, this`elems, this`activeWinId, this`active
      ensures Valid()
      ensures z == old(z) + 1 && elems == Raise(old(elems), id, z) && activeWinId == Some(id)
      ensures forall k :: k in elems && k != id ==> elems[k].z < elems[id].z
      ensures active == (if elems[id].minimized then {} else {id})
    {
      ghost var ws0, h0, a0 := elems, active, activeWinId;
      BringToFront(id);
      FocusFacts(z - 1, nextId, ws0, winMap.Keys, taskbar, h0, a0, id, active);
      ActiveOnTop(Front(elems, z, activeWinId));
    }

    /** stopTaskManagerTicker: a running ticker is cleared; otherwise nothing happens. */
    method StopTaskManagerTicker()
      modifies this`tmInterval, this`trace
      ensures tmInterval == StoppedTicker(old(tmInterval))
      ensures trace == old(trace) + TickerEffects(old(tmInterval))
    {
      if tmInterval.Some? && tmInterval.value != 0 {
        trace := trace + [IntervalCleared(tmInterval.value)];
        tmInterval := None;
      }
    }

    /** The start of createWindow: the next id, the app's binding (the task manager
        replaces the one ticker, the unlock dialog keeps its file id) and the element in
        the window container. */
    method Prepare(kind: Kind, opts: MusicOpts, env: MusicEnv) returns (id: Id)
      modifies this`nextId, this`tmInterval, this`trace, this`unlockFiles, this`elems, this`drags
      ensures id == old(nextId) && nextId == id + 1
      ensures elems == old(elems)[id := MusicNewWindow(kind, opts, env)]
      ensures drags == old(drags)[id := Idle]
      ensures kind == TaskManager ==>
                tmInterval == Some(env.interval) && trace == old(trace) + TickerEffects(old(tmInterval))
      ensures kind != TaskManager ==> tmInterval == old(tmInterval) && trace == old(trace)
      ensures unlockFiles == (if kind == UnlockDialog then old(unlockFiles)[id := opts.fileId]
                              else old(unlockFiles))
    {
      id := nextId;
      nextId := nextId + 1;
      if kind == TaskManager {
        StopTaskManagerTicker();
        tmInterval := Some(env.interval);
      } else if kind == UnlockDialog {
        unlockFiles := unlockFiles[id := opts.fileId];
      }
      elems := elems[id := MusicNewWindow(kind, opts, env)];
      drags := drags[id := Idle];
    }

    /** createWindow as written: bringToFront runs before the taskbar entry exists, so
        the refresh it triggers skips the new window; its button is not highlighted
        although the window is shown and active. */
    method CreateWindowAsWritten(kind: Kind, opts: MusicOpts, env: MusicEnv) returns (id: Id)
      requires Wellformed()
      modifies this`nextId, this`tmInterval, this`trace, this`unlockFiles, this`elems, this`drags,
               this`z, this`activeWinId, this`active, this`taskbar, this`winMap
      ensures Wellformed() && !Valid()
      ensures id == old(nextId) && nextId == id + 1 && id !in old(elems)
      ensures z == old(z) + 1 && elems == Raise(old(elems)[id := MusicNewWindow(kind, opts, env)], id, z)
      ensures winMap == old(winMap)[id := Entry(kind, MusicHeader(kind, opts.title).0)]
      ensures taskbar == old(taskbar) + [id]
      ensures activeWinId == Some(id) && !elems[id].minimized && active == {}
    {
      id := Prepare(kind, opts, env);
      ShowAsWritten(id, old(elems), MusicNewWindow(kind, opts, env), kind, MusicHeader(kind, opts.title).0);
    }

    /** The end of createWindow as written: bringToFront, then the button and the entry. */
    method ShowAsWritten(id: Id, ghost ws0: Registry, ghost w: Win, kind: Kind, title: string)
      requires nextId == id + 1 && elems == ws0[id := w] && !w.minimized
      requires MusicOk(z, id, ws0, winMap.Keys, taskbar, active, activeWinId)
      modifies this`z, this`activeWinId, this`active, this`taskbar, this`winMap, this`elems
      ensures Wellformed() && !Valid() && id !in ws0
      ensures z == old(z) + 1 && elems == Raise(old(elems), id, z)
      ensures winMap == old(winMap)[id := Entry(kind, title)] && taskbar == old(taskbar) + [id]
      ensures activeWinId == Some(id) && active == {}
    {
      ghost var z0, es0, tb0, h0, a0 := z, winMap.Keys, taskbar, active, activeWinId;
      BringToFront(id);
      AddTaskbarButton(id);
      winMap := winMap[id := Entry(kind, title)];
      MusicCreateAsWrittenFacts(z0, id, ws0, es0, tb0, h0, a0, w, z, elems, winMap.Keys, taskbar, active);
    }

    /** createWindow with the entry registered before bringToFront (the order of
        script_fixed.js): the new window is on top, active, and its button alone is
        highlighted. */
    method CreateWindow(kind: Kind, opts: MusicOpts, env: MusicEnv) returns (id: Id)
      requires Wellformed()
      modifies this`nextId, this`tmInterval, this`trace, this`unlockFiles, this`elems, this`drags,
               this`z, this`activeWinId, this`active, this`taskbar, this`winMap
      ensures Valid()
      ensures id == old(nextId) && nextId == id + 1 && id !in old(elems)
      ensures z == old(z) + 1 && elems == Raise(old(elems)[id := MusicNewWindow(kind, opts, env)], id, z)
      ensures winMap == old(winMap)[id := Entry(kind, MusicHeader(kind, opts.title).0)]
      ensures taskbar == old(taskbar) + [id]
      ensures activeWinId == Some(id) && active == {id}
      ensures drags == old(drags)[id := Idle]
      ensures unlockFiles == (if kind == UnlockDialog then old(unlockFiles)[id := opts.fileId]
                              else old(unlockFiles))
      ensures kind == TaskManager ==>
                tmInterval == Some(env.interval) && trace == old(trace) + TickerEffects(old(tmInterval))
      ensures kind != TaskManager ==> tmInterval == old(tmInterval) && trace == old(trace)
    {
      id := Prepare(kind, opts, env);
      Show(id, old(elems), MusicNewWindow(kind, opts, env), kind, MusicHeader(kind, opts.title).0);
    }

    /** The end of createWindow: the button and the entry, then bringToFront. */
    method Show(id: Id, ghost ws0: Registry, ghost w: Win, kind: Kind, title: string)
      requires nextId == id + 1 && elems == ws0[id := w] && !w.minimized
      requires MusicOk(z, id, ws0, winMap.Keys, taskbar, active, activeWinId)
      modifies this`z, this`activeWinId, this`active, this`taskbar, this`winMap, this`elems
      ensures Valid() && id !in ws0
      ensures z == old(z) + 1 && elems == Raise(old(elems), id, z)
      ensures winMap == old(winMap)[id := Entry(kind, title)] && taskbar == old(taskbar) + [id]
      ensures activeWinId == Some(id) && active == {id}
    {
      ghost var z0, es0, tb0, h0, a0 := z, winMap.Keys, taskbar, active, activeWinId;
      AddTaskbarButton(id);
      winMap := winMap[id := Entry(kind, title)];
      BringToFront(id);
      MusicCreateFacts(z0, id, ws0, es0, tb0, h0, a0, w, z, elems, winMap.Keys, taskbar, active);
    }

    /** addTaskbarButton: a button at the end of the taskbar. */
    method AddTaskbarButton(id: Id)
      modifies this`taskbar
      ensures taskbar == old(taskbar) + [id]
    {
      taskbar := taskbar + [id];
    }

    /** removeTaskbarButton: nothing for an unknown id; otherwise the button and the
        entry go, the active id is cleared if it was this one, and the highlight is
        refreshed. */
    method RemoveTaskbarButton(id: Id)
      requires winMap.Keys - {id} <= elems.Keys
      modifies this`taskbar, this`winMap, this`active, this`activeWinId, this`trace
      ensures id !in old(winMap) ==>
                taskbar == old(taskbar) && winMap == old(winMap) && active == old(active)
                && activeWinId == old(activeWinId) && trace == old(trace)
      ensures id in old(winMap) ==>
                taskbar == Erase(old(taskbar), id) && winMap == old(winMap) - {id}
                && activeWinId == (if old(activeWinId) == Some(id) then None else old(activeWinId))
                && active == Relit(old(active) - {id}, winMap.Keys, elems, activeWinId)
                && trace == old(trace) + [ButtonRemoved(id)]
    {
      if id !in winMap {
        return;
      }
      taskbar := Erase(taskbar, id);
      active := active - {id};
      trace := trace + [ButtonRemoved(id)];
      winMap := winMap - {id};
      if activeWinId == Some(id) {
        activeWinId := None;
      }
      RefreshTaskbarActive();
    }

    /** `windowElement.remove()` followed by removeTaskbarButton, for an open window. */
    method Dismiss(id: Id)
      requires Wellformed() && id in elems
      modifies this`elems, this`taskbar, this`winMap, this`active, this`activeWinId, this`trace
      ensures Valid()
      ensures elems == old(elems) - {id} && winMap == old(winMap) - {id}
      ensures taskbar == Erase(old(taskbar), id)
      ensures activeWinId == (if old(activeWinId) == Some(id) then None else old(activeWinId))
      ensures trace == old(trace) + [ElementRemoved(id), ButtonRemoved(id)]
    {
      ghost var ws0, es0, tb0, h0, a0 := elems, winMap.Keys, taskbar, active, activeWinId;
      elems := elems - {id};
      trace := trace + [ElementRemoved(id)];
      RemoveTaskbarButton(id);
      RemoveFacts(z, nextId, ws0, es0, tb0, h0, a0, id, active);
    }

    /** The close button: the element and the taskbar entry go first; closing a task
        manager then stops the one ticker. */
    method Close(id: Id)
      requires Wellformed() && id in elems
      modifies this`elems, this`taskbar, this`winMap, this`active, this`activeWinId, this`trace,
               this`tmInterval
      ensures Valid()
      ensures elems == old(elems) - {id} && winMap == old(winMap) - {id}
      ensures taskbar == Erase(old(taskbar), id)
      ensures activeWinId == (if old(activeWinId) == Some(id) then None else old(activeWinId))
      ensures trace == old(trace) + [ElementRemoved(id), ButtonRemoved(id)]
                       + (if old(elems)[id].kind == TaskManager then TickerEffects(old(tmInterval)) else [])
      ensures tmInterval == (if old(elems)[id].kind == TaskManager then StoppedTicker(old(tmInterval))
                             else old(tmInterval))
    {
      var kind := elems[id].kind;
      Dismiss(id);
      if kind == TaskManager {
        StopTaskManagerTicker();
      }
    }

    /** A click on a taskbar button, followed by the refresh. */
    method TaskbarClick(id: Id)
      requires Wellformed()
      modifies this`elems, this`z, this`activeWinId, this`active
      ensures Wellformed() && (id in old(winMap) || old(Valid()) ==> Valid())
      ensures Front(elems, z, activeWinId) == MusicClick(old(Front(elems, z, activeWinId)), id)
    {
      if id !in winMap {
        return;
      }
      ghost var z0, ws0, h0, a0 := z, elems, active, activeWinId;
      var w := elems[id];
      if w.minimized {
        elems := elems[id := w.(minimized := false)];
        BringToFront(id);
        assert Front(elems, z, activeWinId) == MusicClick(Front(ws0, z0, a0), id);
      } else if activeWinId == Some(id) {
        elems := elems[id := w.(minimized := true)];
        SetActive(None);
        assert Front(elems, z, activeWinId) == MusicClick(Front(ws0, z0, a0), id);
      } else {
        BringToFront(id);
        assert Front(elems, z, activeWinId) == MusicClick(Front(ws0, z0, a0), id);
      }
      RefreshTaskbarActive();
      ClickFacts(z0, nextId, ws0, winMap.Keys, taskbar, h0, a0, id, active);
    }

    /** The minimize button: the window is hidden, z untouched, and nothing is active. */
    method Minimize(id: Id)
      requires Wellformed() && id in elems
      modifies this`elems, this`activeWinId, this`active
      ensures Valid()
      ensures elems == old(elems)[id := old(elems)[id].(minimized := true)]
      ensures activeWinId == None && active == {}
    {
      HideFacts(z, nextId, elems, winMap.Keys, taskbar, active, activeWinId, id);
      elems := elems[id := elems[id].(minimized := true)];
      SetActive(None);
      RefreshTaskbarActive();
    }

    /** The maximize button: toggles the state and brings the window to front. */
    method ToggleMaximize(id: Id)
      requires Wellformed() && id in elems
      modifies this`elems, this`z, this`activeWinId, this`active
      ensures Valid()
      ensures z == old(z) + 1 && activeWinId == Some(id)
      ensures elems == Raise(old(elems)[id := old(elems)[id].(maximized := !old(elems)[id].maximized)], id, z)
    {
      var w := elems[id].(maximized := !elems[id].maximized);
      MusicReshapeFacts(z, nextId, elems, winMap.Keys, taskbar, active, activeWinId, id, w);
      elems := elems[id := w];
      Focus(id);
    }

    /** A press anywhere in the window brings it to front. */
    method PointerDown(id: Id)
      requires Wellformed() && id in elems
      modifies this`elems, this`z, this`activeWinId, this`active
      ensures Valid()
      ensures z == old(z) + 1 && elems == Raise(old(elems), id, z) && activeWinId == Some(id)
    {
      Focus(id);
    }

    // -------------------------------------------------------------------------
    // Dragging by the header

    /** pointerdown on the header as written: unless the press is on a button or the
        window is maximized, the drag starts from the numbers parsed out of
        `style.left` / `style.top` and the window comes to front; then the window's own
        pointerdown listener brings it to front once more. */
    method HeaderDownAsWritten(id: Id, onButton: bool, clientX: int, clientY: int)
      requires Wellformed() && id in elems
      modifies this`drags, this`elems, this`z, this`activeWinId, this`active
      ensures Valid() && activeWinId == Some(id)
      ensures var starts := !onButton && !old(elems)[id].maximized;
              z == old(z) + (if starts then 2 else 1) && elems == Raise(old(elems), id, z)
              && drags == (if starts then old(drags)[id := Active(clientX, clientY, LenNumber(old(elems)[id].left),
                                                                   LenNumber(old(elems)[id].top))]
                           else old(drags))
    {
      if !onButton && !elems[id].maximized {
        var left := StyleStart(elems[id].left);
        var top := StyleStart(elems[id].top);
        drags := drags[id := Active(clientX, clientY, left, top)];
        Focus(id);
      }
      PointerDown(id);
      RaiseTwice(old(elems), id, z - 1, z);
    }

    /** pointerdown on the header, with the drag starting from the rendered position
        `rect` (as script_bundle_fixed.js reads it from getBoundingClientRect). */
    method HeaderDown(id: Id, onButton: bool, clientX: int, clientY: int, rect: Pos)
      requires Wellformed() && id in elems
      modifies this`drags, this`elems, this`z, this`activeWinId, this`active
      ensures Valid() && activeWinId == Some(id)
      ensures var starts := !onButton && !old(elems)[id].maximized;
              z == old(z) + (if starts then 2 else 1) && elems == Raise(old(elems), id, z)
              && drags == (if starts then old(drags)[id := Active(clientX, clientY, rect.x, rect.y)]
                           else old(drags))
    {
      if !onButton && !elems[id].maximized {
        drags := drags[id := Active(clientX, clientY, rect.x, rect.y)];
        Focus(id);
      }
      PointerDown(id);
      RaiseTwice(old(elems), id, z - 1, z);
    }

    /** pointermove on the header: while dragging, the window moves with the pointer,
        bounded only below by 0. */
    method DragMove(id: Id, clientX: int, clientY: int)
      requires Wellformed()
      modifies this`elems
      ensures Wellformed() && (old(Valid()) ==> Valid())
      ensures if id in elems && id in drags && drags[id].Active?
              then var g := drags[id];
                   var p := MusicDragTarget(g.startA, g.startB, clientX - g.startX, clientY - g.startY);
                   elems == old(elems)[id := old(elems)[id].(left := Px(p.x), top := Px(p.y))]
              else elems == old(elems)
    {
      if id !in elems || id !in drags || drags[id].Idle? {
        return;
      }
      var g := drags[id];
      var p := MusicDragTarget(g.startA, g.startB, clientX - g.startX, clientY - g.startY);
      var w := elems[id].(left := Px(p.x), top := Px(p.y));
      MusicReshapeFacts(z, nextId, elems, winMap.Keys, taskbar, active, activeWinId, id, w);
      elems := elems[id := w];
    }

    /** pointerup or pointercancel on the header ends a drag. */
    method DragEnd(id: Id)
      modifies this`drags
      ensures drags == if id in old(drags) && old(drags)[id].Active? then old(drags)[id := Idle] else old(drags)
    {
      if id in drags && drags[id].Active? {
        drags := drags[id := Idle];
      }
    }

    // -------------------------------------------------------------------------
    // The unlock dialog (bindUnlockUI)

    /** The unlock button of dialog id: judged with the shared lock; the right code opens
        the file in an image viewer and closes the dialog. */
    method SubmitUnlock(id: Id, now: int, input: string, env: MusicEnv) returns (outcome: Unlock.Outcome)
      requires Wellformed() && id in elems && id in unlockFiles
      modifies this`nextId, this`tmInterval, this`trace, this`unlockFiles, this`elems, this`drags,
               this`z, this`activeWinId, this`active, this`taskbar, this`winMap, this`lockedUntil
      ensures Wellformed() && (outcome == Unlock.Granted || old(Valid()) ==> Valid())
      ensures var step := Unlock.AttemptWithFile(now, old(lockedUntil), input,
                                                 old(unlockFiles)[id] == ENCRYPTED_FILE_ID, Unlock.CODE_ADMIN);
              outcome == step.outcome && lockedUntil == step.lockUntil
      ensures outcome != Unlock.Granted ==>
                elems == old(elems) && nextId == old(nextId) && z == old(z) && winMap == old(winMap)
                && taskbar == old(taskbar) && active == old(active) && activeWinId == old(activeWinId)
                && drags == old(drags) && unlockFiles == old(unlockFiles) && tmInterval == old(tmInterval)
                && trace == old(trace)
      ensures outcome == Unlock.Granted ==>
                var shown := old(nextId);
                nextId == shown + 1 && z == old(z) + 1
                && elems == Raise(old(elems)[shown := MusicNewWindow(ImageViewer, FILE_OPTS, env)], shown, z) - {id}
                && elems[shown].kind == ImageViewer && elems[shown].title == ENCRYPTED_FILE_NAME
                && elems[shown].body == ENCRYPTED_FILE_SRC
                && winMap == old(winMap)[shown := Entry(ImageViewer, ENCRYPTED_FILE_NAME)] - {id}
                && taskbar == Erase(old(taskbar), id) + [shown]
                && activeWinId == Some(shown) && active == {shown} && drags == old(drags)[shown := Idle]
                && unlockFiles == old(unlockFiles) && tmInterval == old(tmInterval)
                && trace == old(trace) + [ElementRemoved(id), ButtonRemoved(id)]
    {
      var step := Unlock.AttemptWithFile(now, lockedUntil, input, unlockFiles[id] == ENCRYPTED_FILE_ID,
                                         Unlock.CODE_ADMIN);
      lockedUntil := step.lockUntil;
      outcome := step.outcome;
      if outcome == Unlock.Granted {
        Unlocked(id, env);
      }
    }

    /** The right code: the file opens in a new image viewer, then the dialog closes. The
        viewer's button ends last on the taskbar and is the lit one. */
    method Unlocked(id: Id, env: MusicEnv)
      requires Wellformed() && id in elems
      modifies this`nextId, this`tmInterval, this`trace, this`unlockFiles, this`elems, this`drags,
               this`z, this`activeWinId, this`active, this`taskbar, this`winMap
      ensures Valid()
      ensures var shown := old(nextId);
              nextId == shown + 1 && z == old(z) + 1
              && elems == Raise(old(elems)[shown := MusicNewWindow(ImageViewer, FILE_OPTS, env)], shown, z) - {id}
              && elems[shown].kind == ImageViewer && elems[shown].title == ENCRYPTED_FILE_NAME
              && elems[shown].body == ENCRYPTED_FILE_SRC
              && winMap == old(winMap)[shown := Entry(ImageViewer, ENCRYPTED_FILE_NAME)] - {id}
              && taskbar == Erase(old(taskbar), id) + [shown]
              && activeWinId == Some(shown) && active == {shown} && drags == old(drags)[shown := Idle]
              && unlockFiles == old(unlockFiles) && tmInterval == old(tmInterval)
              && trace == old(trace) + [ElementRemoved(id), ButtonRemoved(id)]
    {
      var shown := OpenFile(env);
      Dismiss(id);
      EraseAppend(old(taskbar), shown, id);
    }

    /** The unlocked file in a new image viewer, opened by the corrected createWindow. */
    method OpenFile(env: MusicEnv) returns (shown: Id)
      requires Wellformed()
      modifies this`nextId, this`tmInterval, this`trace, this`unlockFiles, this`elems, this`drags,
               this`z, this`activeWinId, this`active, this`taskbar, this`winMap
      ensures Valid()
      ensures shown == old(nextId) && nextId == shown + 1 && shown !in old(elems)
      ensures z == old(z) + 1 && elems == Raise(old(elems)[shown := MusicNewWindow(ImageViewer, FILE_OPTS, env)], shown, z)
      ensures elems.Keys == old(elems).Keys + {shown} && elems - {shown} == old(elems)
      ensures elems[shown].kind == ImageViewer && elems[shown].title == ENCRYPTED_FILE_NAME
      ensures elems[shown].body == ENCRYPTED_FILE_SRC
      ensures winMap == old(winMap)[shown := Entry(ImageViewer, ENCRYPTED_FILE_NAME)]
      ensures taskbar == old(taskbar) + [shown] && activeWinId == Some(shown) && active == {shown}
      ensures drags == old(drags)[shown := Idle]
      ensures unlockFiles == old(unlockFiles) && tmInterval == old(tmInterval) && trace == old(trace)
    {
      shown := CreateWindow(ImageViewer, FILE_OPTS, env);
    }

    /** The cancel button closes the dialog. */
    method CancelUnlock(id: Id)
      requires Wellformed() && id in elems
      modifies this`elems, this`taskbar, this`winMap, this`active, this`activeWinId, this`trace
      ensures Valid() && elems == old(elems) - {id} && winMap == old(winMap) - {id}
      ensures taskbar == Erase(old(taskbar), id)
      ensures activeWinId == (if old(activeWinId) == Some(id) then None else old(activeWinId))
      ensures trace == old(trace) + [ElementRemoved(id), ButtonRemoved(id)]
    {
      Dismiss(id);
    }
  }
}
