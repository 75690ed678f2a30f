/**
 * The first desktop, script.js: windows cloned from a template, no taskbar and no
 * registry. The stacking order is not kept in a counter; bringToFront scans every
 * window for the highest z-index and puts the window one above it. A header drag
 * registers its move and stop listeners on the document, so every drag in progress
 * is a session that the next pointerup or pointercancel ends.
 *
 * A window is known by the number of windows created before it (its element's
 * identity); the document's windows are `order`, in document order.
 */
module LegacyDesk {
  import opened Wrappers
  import opened Geometry
  import opened Windows
  import DesktopRules

  /** A header from the template switch: its title and feather icon name. */
  datatype Header = Header(title: string, icon: string)

  /** createWindow's switch: notes, explorer and settings set a header; any other type
      keeps the template's. */
  function LegacyHeader(typ: string): (h: Option<Header>)
    ensures h.Some? <==> typ == "notes" || typ == "explorer" || typ == "settings"
    ensures h.Some? ==> h.value.title != [] && h.value.icon != []
  {
    if typ == "notes" then Some(Header("Notes", "file-text"))
    else if typ == "explorer" then Some(Header("File Explorer", "folder"))
    else if typ == "settings" then Some(Header("Settings", "settings"))
    else None
  }

  /** A window element: its header, inline z-index (0 when unset), inline geometry and
      its classes. */
  datatype LWin = LWin(header: Option<Header>, z: nat, left: Len, top: Len,
                       width: Len, height: Len, mobileWindow: bool,
                       minimized: bool, maximized: bool, dragging: bool)

  /** A drag in progress: the window and the pointer and style position captured at
      its start. */
  datatype Session = Session(id: Id, startX: int, startY: int, startLeft: int, startTop: int)

  /** The windows some session drags. */
  function Dragged(ss: seq<Session>): set<Id>
  {
    set i | 0 <= i < |ss| :: ss[i].id
  }

  lemma DraggedAppend(ss: seq<Session>, s: Session)
    ensures Dragged(ss + [s]) == Dragged(ss) + {s.id}
  {
    var t := ss + [s];
    assert t[|ss|] == s;
    forall k | k in Dragged(ss)
      ensures k in Dragged(t)
    {
      var i :| 0 <= i < |ss| && ss[i].id == k;
      assert t[i] == ss[i];
    }
  }

  // ---------------------------------------------------------------------------
  // bringToFront: `parseInt(win.style.zIndex) || 10` over all windows

  /** The z-index bringToFront reads from a window: an unset or zero z-index counts
      as 10. */
  function EffZ(w: LWin): nat
  {
    if w.z == 0 then 10 else w.z
  }

  /** Every window the scan visits is in the document. */
  predicate AllIn(ids: seq<Id>, ws: map<Id, LWin>)
  {
    forall i :: 0 <= i < |ids| ==> ids[i] in ws
  }

  /** The z-index the scan reads at its i-th window. */
  function ZAt(ids: seq<Id>, ws: map<Id, LWin>, i: nat): nat
    requires AllIn(ids, ws) && i < |ids|
  {
    EffZ(ws[ids[i]])
  }

  /** The highest z-index the scan meets over the windows ids, 0 for none. */
  function MaxEffZ(ids: seq<Id>, ws: map<Id, LWin>): (m: nat)
    requires AllIn(ids, ws)
    ensures forall i :: 0 <= i < |ids| ==> ZAt(ids, ws, i) <= m
    ensures ids == [] ==> m == 0
    decreases |ids|
  {
    if ids == [] then 0
    else
      var init := ids[..|ids| - 1];
      assert AllIn(init, ws) by {
        forall i | 0 <= i < |init|
          ensures init[i] in ws
        {
          assert init[i] == ids[i];
        }
      }
      assert forall i :: 0 <= i < |init| ==> ZAt(init, ws, i) == ZAt(ids, ws, i);
      Max(MaxEffZ(init, ws), ZAt(ids, ws, |ids| - 1))
  }

  /** The highest z-index is the one of a window the scan visits. */
  lemma {:induction false} MaxEffZAttained(ids: seq<Id>, ws: map<Id, LWin>)
    requires AllIn(ids, ws) && ids != []
    ensures exists i :: 0 <= i < |ids| && ZAt(ids, ws, i) == MaxEffZ(ids, ws)
    decreases |ids|
  {
    var init := ids[..|ids| - 1];
    var j := |ids| - 1;
    assert forall i :: 0 <= i < |init| ==> init[i] == ids[i];
    assert AllIn(init, ws);
    assert forall i :: 0 <= i < |init| ==> ZAt(init, ws, i) == ZAt(ids, ws, i);
    if init != [] && MaxEffZ(init, ws) > ZAt(ids, ws, j) {
      MaxEffZAttained(init, ws);
      var i :| 0 <= i < |init| && ZAt(init, ws, i) == MaxEffZ(init, ws);
      assert ZAt(ids, ws, i) == MaxEffZ(ids, ws);
    } else {
      assert ZAt(ids, ws, j) == MaxEffZ(ids, ws);
    }
  }

  /** The scan only looks at the z-index of the windows it visits. */
  lemma {:induction false} MaxEffZSame(ids: seq<Id>, ws: map<Id, LWin>, vs: map<Id, LWin>)
    requires AllIn(ids, ws) && AllIn(ids, vs)
    requires forall i :: 0 <= i < |ids| ==> ZAt(ids, ws, i) == ZAt(ids, vs, i)
    ensures MaxEffZ(ids, ws) == MaxEffZ(ids, vs)
    decreases |ids|
  {
    if ids != [] {
      var init := ids[..|ids| - 1];
      assert forall i :: 0 <= i < |init| ==> init[i] == ids[i];
      assert forall i :: 0 <= i < |init| ==> ZAt(init, ws, i) == ZAt(ids, ws, i) && ZAt(init, vs, i) == ZAt(ids, vs, i);
      MaxEffZSame(init, ws, vs);
    }
  }

  /** A window, at position j of the scan, given a z-index at least the scan's
      maximum is the new maximum. */
  lemma {:induction false} MaxAfterRaise(ids: seq<Id>, ws: map<Id, LWin>, vs: map<Id, LWin>, id: Id, j: nat)
    requires AllIn(ids, ws) && AllIn(ids, vs) && j < |ids| && ids[j] == id && id in vs
    requires forall i :: 0 <= i < |ids| && ids[i] != id ==> ZAt(ids, vs, i) == ZAt(ids, ws, i)
    requires vs[id].z >= MaxEffZ(ids, ws) && vs[id].z > 0
    ensures MaxEffZ(ids, vs) == vs[id].z
    decreases |ids|
  {
    var init := ids[..|ids| - 1];
    assert forall i :: 0 <= i < |init| ==> init[i] == ids[i];
    assert AllIn(init, ws) && AllIn(init, vs);
    assert forall i :: 0 <= i < |init| ==> ZAt(init, ws, i) == ZAt(ids, ws, i) && ZAt(init, vs, i) == ZAt(ids, vs, i);
    if j < |init| {
      MaxAfterRaise(init, ws, vs, id, j);
    } else {
      assert ZAt(ids, vs, j) == vs[id].z;
      forall i | 0 <= i < |init|
        ensures ZAt(init, vs, i) <= vs[id].z
      {
        if ids[i] != id {
          assert ZAt(ids, vs, i) == ZAt(ids, ws, i) <= MaxEffZ(ids, ws);
        }
      }
      if init != [] {
        MaxEffZAttained(init, vs);
      }
    }
  }

  // ---------------------------------------------------------------------------
  // Initial placement

  /** `Math.floor(40 + Math.random() * (max - 40))`, the random draw r taken as an
      integer: a value in [40, max). */
  function Spread(r: nat, max: int): (v: int)
    requires max > 40
    ensures 40 <= v < max
  {
    40 + r % (max - 40)
  }

  /** Every value in [40, max) is one of the spread. */
  lemma SpreadCovers(v: int, max: int)
    requires 40 <= v < max
    ensures Spread(v - 40, max) == v
  {
  }

  /** A window as createWindow builds it, before bringToFront: on a touch screen 92vw x
      70vh at 4vw / 10vh; otherwise at a random spot, left below max(60, W - 520) and
      top below max(60, H - 420), both from 40. */
  function FreshWindow(typ: string, mobile: bool, vw: int, vh: int, rx: nat, ry: nat): (w: LWin)
    ensures w.header == LegacyHeader(typ) && w.z == 0
    ensures !w.minimized && !w.maximized && !w.dragging && w.mobileWindow == mobile
    ensures mobile ==> w.left == Vw(4) && w.top == Vh(10) && w.width == Vw(92) && w.height == Vh(70)
    ensures !mobile ==> w.width == Unset && w.height == Unset && w.left.Px? && w.top.Px?
                        && 40 <= w.left.n < Max(60, vw - 520) && 40 <= w.top.n < Max(60, vh - 420)
  {
    if mobile then
      LWin(LegacyHeader(typ), 0, Vw(4), Vh(10), Vw(92), Vh(70), true, false, false, false)
    else
      LWin(LegacyHeader(typ), 0, Px(Spread(rx, Max(60, vw - 520))), Px(Spread(ry, Max(60, vh - 420))),
           Unset, Unset, false, false, false, false)
  }

  // ---------------------------------------------------------------------------
  // Pointer moves while dragging

  /** The window moved to p, in pixels. */
  function MoveTo(w: LWin, p: Pos): LWin
  {
    w.(left := Px(p.x), top := Px(p.y))
  }

  /** A window only moved, and now inside the viewport as far as it fits. */
  predicate Placed(w0: LWin, w: LWin, vw: int, vh: int, size: Size)
  {
    w == w0.(left := w.left, top := w.top) && w.left.Px? && w.top.Px?
    && 0 <= w.left.n <= Max(0, vw - size.w) && 0 <= w.top.n <= Max(0, vh - size.h)
  }

  /** One pointermove, as each session's moveWindow listener in turn applies it: a
      window still in the document moves to its start plus the pointer's travel,
      clamped into the viewport. */
  function Moved(ss: seq<Session>, ws: map<Id, LWin>, x: int, y: int, vw: int, vh: int,
                 size: Id -> Size): (r: map<Id, LWin>)
    ensures r.Keys == ws.Keys
    decreases |ss|
  {
    if ss == [] then ws
    else
      var init := ss[..|ss| - 1];
      var s := ss[|ss| - 1];
      var prev := Moved(init, ws, x, y, vw, vh, size);
      if s.id in prev then
        prev[s.id := MoveTo(prev[s.id], LegacyDragTarget(s.startLeft, s.startTop, x - s.startX,
                                                        y - s.startY, vw, vh, size(s.id)))]
      else prev
  }
  /** After a pointermove every window a session drags lies inside the viewport as far
      as it fits and has only moved; every other window is as it was. */
  lemma {:induction false} MovedPlaces(ss: seq<Session>, ws: map<Id, LWin>, x: int, y: int, vw: int, vh: int,
                                       size: Id -> Size, k: Id)
    requires k in ws
    ensures var r := Moved(ss, ws, x, y, vw, vh, size);
            if k in Dragged(ss) then Placed(ws[k], r[k], vw, vh, size(k)) else r[k] == ws[k]
    decreases |ss|
  {
    if ss != [] {
      var init := ss[..|ss| - 1];
      var s := ss[|ss| - 1];
      assert ss == init + [s];
      DraggedAppend(init, s);
      MovedPlaces(init, ws, x, y, vw, vh, size, k);
    }
  }


  // ---------------------------------------------------------------------------
  // The drag start as written: `parseFloat(windowElement.style.left) || 0`

  /** As written, a drag on a touch-screen window starts from the style's number: the
      window at 4vw / 10vh, rendered at (16, 80) in a 400 x 800 viewport, starts from
      (4, 10), so a first move by zero pixels moves it to (4px, 10px). */
  lemma MobileDragStartsFromStyleText()
    ensures var w := FreshWindow("notes", true, 400, 800, 0, 0);
            LegacyDragTarget(LenNumber(w.left), LenNumber(w.top), 0, 0, 400, 800, Size(368, 560)) == Pos(4, 10)
            && Rendered(w.left, 400, 800) == 16 && Rendered(w.top, 400, 800) == 80
  {
  }

  /** From the rendered position, a move by zero leaves a window where it is. */
  lemma RenderedStartStays(rect: Pos, vw: int, vh: int, size: Size)
    requires 0 <= rect.x <= vw - size.w && 0 <= rect.y <= vh - size.h
    ensures LegacyDragTarget(rect.x, rect.y, 0, 0, vw, vh, size) == rect
  {
  }


  // ---------------------------------------------------------------------------
  // The document's invariant, on values

  /** Whether window k carries the window-dragging class. */
  function DraggingOf(ws: map<Id, LWin>, k: Id): bool
    requires k in ws
  {
    ws[k].dragging
  }

  /** A window carries the window-dragging class exactly while a session drags it. */
  predicate DragMarked(ws: map<Id, LWin>, ss: seq<Session>)
  {
    forall k {:trigger DraggingOf(ws, k)} :: k in ws ==> (DraggingOf(ws, k) <==> k in Dragged(ss))
  }

  /** Each window once in the document, known by a number below n; sessions only for
      windows created so far; the window-dragging class where a session drags. */
  predicate LegacyOk(order: seq<Id>, ws: map<Id, LWin>, n: nat, ss: seq<Session>)
  {
    DesktopRules.OneButtonEach(order, ws.Keys)
    && (forall k :: k in ws ==> k < n)
    && (forall k :: k in Dragged(ss) ==> k < n)
    && DragMarked(ws, ss)
  }

  /** A new z-index keeps the invariant. */
  lemma RaiseOk(order: seq<Id>, ws: map<Id, LWin>, n: nat, ss: seq<Session>, id: Id, z: nat)
    requires LegacyOk(order, ws, n, ss) && id in ws
    ensures LegacyOk(order, ws[id := ws[id].(z := z)], n, ss)
  {
    var r := ws[id := ws[id].(z := z)];
    assert r.Keys == ws.Keys;
    forall k | k in r
      ensures DraggingOf(r, k) == DraggingOf(ws, k)
    {
    }
  }

  /** A drag that starts marks its window and adds its session. */
  lemma StartOk(order: seq<Id>, ws: map<Id, LWin>, n: nat, ss: seq<Session>, s: Session, z: nat)
    requires LegacyOk(order, ws, n, ss) && s.id in ws
    ensures LegacyOk(order, ws[s.id := ws[s.id].(z := z, dragging := true)], n, ss + [s])
  {
    var r := ws[s.id := ws[s.id].(z := z, dragging := true)];
    assert r.Keys == ws.Keys;
    DraggedAppend(ss, s);
    forall k | k in r
      ensures DraggingOf(r, k) <==> k in Dragged(ss + [s])
    {
      if k != s.id {
        assert DraggingOf(r, k) == DraggingOf(ws, k);
      }
    }
  }

  /** A created window is one the document has never held, and appending it keeps the
      invariant. */
  lemma CreateOk(order: seq<Id>, ws: map<Id, LWin>, n: nat, ss: seq<Session>, w: LWin)
    requires LegacyOk(order, ws, n, ss) && !w.dragging
    ensures n !in ws && n !in order
    ensures LegacyOk(order + [n], ws[n := w], n + 1, ss)
  {
    DesktopRules.AppendFreshKeepsNoDup(order, n);
    var r := ws[n := w];
    forall k | k in r
      ensures DraggingOf(r, k) <==> k in Dragged(ss)
    {
      if k != n {
        assert DraggingOf(r, k) == DraggingOf(ws, k);
      }
    }
  }

  /** A pointermove only moves windows. */
  lemma MovedOk(order: seq<Id>, ws: map<Id, LWin>, n: nat, ss: seq<Session>,
                x: int, y: int, vw: int, vh: int, size: Id -> Size)
    requires LegacyOk(order, ws, n, ss)
    ensures LegacyOk(order, Moved(ss, ws, x, y, vw, vh, size), n, ss)
  {
    var r := Moved(ss, ws, x, y, vw, vh, size);
    forall k | k in r
      ensures DraggingOf(r, k) == DraggingOf(ws, k)
    {
      MovedPlaces(ss, ws, x, y, vw, vh, size, k);
    }
  }

  /** With every session ended and every mark removed, the invariant holds again. */
  lemma StoppedOk(order: seq<Id>, ws: map<Id, LWin>, n: nat, ss: seq<Session>, r: map<Id, LWin>)
    requires LegacyOk(order, ws, n, ss)
    requires r.Keys == ws.Keys && forall k :: k in r ==> r[k] == ws[k].(dragging := false)
    ensures LegacyOk(order, r, n, [])
  {
    forall k | k in r
      ensures !DraggingOf(r, k)
    {
    }
  }

  /** A closed window leaves the document; its session may stay. */
  lemma CloseOk(order: seq<Id>, ws: map<Id, LWin>, n: nat, ss: seq<Session>, id: Id)
    requires LegacyOk(order, ws, n, ss)
    ensures LegacyOk(DesktopRules.Erase(order, id), ws - {id}, n, ss)
  {
    var r := ws - {id};
    forall k | k in r
      ensures DraggingOf(r, k) == DraggingOf(ws, k)
    {
    }
  }

  /** The scan visits only windows in the document. */
  lemma OkAllIn(order: seq<Id>, ws: map<Id, LWin>, n: nat, ss: seq<Session>)
    requires LegacyOk(order, ws, n, ss)
    ensures AllIn(order, ws)
  {
    forall i | 0 <= i < |order|
      ensures order[i] in ws
    {
      assert order[i] in order;
    }
  }

  /** Every window has its place in document order. */
  lemma PositionOf(order: seq<Id>, ws: map<Id, LWin>, n: nat, ss: seq<Session>, id: Id) returns (j: nat)
    requires LegacyOk(order, ws, n, ss) && id in ws
    ensures j < |order| && order[j] == id
  {
    assert id in order;
    j :| 0 <= j < |order| && order[j] == id;
  }

  /** Appending a window to the document: the scan meets it last. */
  lemma AppendMax(order: seq<Id>, ws: map<Id, LWin>, id: Id, w: LWin)
    requires AllIn(order, ws) && id !in ws
    ensures AllIn(order + [id], ws[id := w])
    ensures MaxEffZ(order + [id], ws[id := w]) == Max(MaxEffZ(order, ws), EffZ(w))
  {
    var t, r := order + [id], ws[id := w];
    assert forall i :: 0 <= i < |order| ==> t[i] == order[i] && order[i] != id;
    assert AllIn(t, r);
    assert forall i :: 0 <= i < |order| ==> ZAt(order, ws, i) == ZAt(order, r, i);
    MaxEffZSame(order, ws, r);
    assert t[..|t| - 1] == order;
    assert ZAt(t, r, |t| - 1) == EffZ(w);
  }

  /** One listener more: the session at i applied after those before it. */
  lemma MovedStep(ss: seq<Session>, i: nat, ws: map<Id, LWin>, x: int, y: int, vw: int, vh: int,
                  size: Id -> Size)
    requires i < |ss|
    ensures var prev := Moved(ss[..i], ws, x, y, vw, vh, size);
            var s := ss[i];
            Moved(ss[..i + 1], ws, x, y, vw, vh, size)
            == if s.id in prev
               then prev[s.id := MoveTo(prev[s.id], LegacyDragTarget(s.startLeft, s.startTop, x - s.startX,
                                                                   y - s.startY, vw, vh, size(s.id)))]
               else prev
  {
    assert ss[..i + 1][..i] == ss[..i];
  }

  /** Updating one entry twice keeps the second value. */
  lemma UpdateTwice(m: map<Id, LWin>, k: Id, a: LWin, b: LWin)
    ensures m[k := a][k := b] == m[k := b]
  {
  }

  /** A press on the header starts a drag: not with a mouse button other than the
      primary one, not on a header button, not on a maximized window. */
  predicate StartsDrag(w: LWin, onButton: bool, mouse: bool, button: int)
  {
    !(mouse && button != 0) && !onButton && !w.maximized
  }

  /** bringToFront on values: the window one above the highest z-index of all
      windows, itself included; no other window changes. */
  function Raised(order: seq<Id>, ws: map<Id, LWin>, id: Id): (r: map<Id, LWin>)
    requires id in ws && AllIn(order, ws)
    ensures r.Keys == ws.Keys
  {
    ws[id := ws[id].(z := MaxEffZ(order, ws) + 1)]
  }

  /** After bringToFront the window is above every other window of the document. */
  lemma RaisedOnTop(order: seq<Id>, ws: map<Id, LWin>, id: Id)
    requires id in ws && AllIn(order, ws)
    ensures AllIn(order, Raised(order, ws, id))
    ensures forall i :: 0 <= i < |order| && order[i] != id
                        ==> ZAt(order, Raised(order, ws, id), i) < EffZ(Raised(order, ws, id)[id])
  {
    var r := Raised(order, ws, id);
    assert AllIn(order, r);
    forall i | 0 <= i < |order| && order[i] != id
      ensures ZAt(order, r, i) < EffZ(r[id])
    {
      assert ZAt(order, r, i) == ZAt(order, ws, i) <= MaxEffZ(order, ws);
    }
  }

  /** Raising one window above the scan's maximum makes it the new maximum. */
  lemma RaisedMax(order: seq<Id>, ws: map<Id, LWin>, id: Id, j: nat, ws1: map<Id, LWin>, w: LWin)
    requires j < |order| && order[j] == id && id in ws && AllIn(order, ws)
    requires w.z == MaxEffZ(order, ws) + 1 && ws1 == ws[id := w]
    ensures AllIn(order, ws1) && MaxEffZ(order, ws1) == w.z
  {
    assert AllIn(order, ws1);
    forall i | 0 <= i < |order| && order[i] != id
      ensures ZAt(order, ws1, i) == ZAt(order, ws, i)
    {
    }
    MaxAfterRaise(order, ws, ws1, id, j);
  }

  /** A drag start raises the window to m + 1, its window listener one above that
      again: the window ends two above the highest z-index it met. */
  lemma RaiseTwice(ws: map<Id, LWin>, id: Id, w1: LWin, ws1: map<Id, LWin>, m: nat, m1: nat)
    requires id in ws && w1 == ws[id].(z := m + 1, dragging := true) && ws1 == ws[id := w1] && m1 == m + 1
    ensures ws1[id := ws1[id].(z := m1 + 1)] == ws[id := ws[id].(z := m + 2, dragging := true)]
  {
    var w2 := ws[id].(z := m + 2, dragging := true);
    assert w1.(z := m1 + 1) == w2;
    UpdateTwice(ws, id, w1, w2);
  }

  // ---------------------------------------------------------------------------
  // The desktop

  class LegacyDesktop {
    /** isMobile, fixed when the desktop starts. */
    const mobile: bool
    /** The .window elements in document order. */
    var order: seq<Id>
    var wins: map<Id, LWin>
    /** Windows created so far. */
    var created: nat
    /** The drags whose document listeners are still registered, in registration order. */
    var sessions: seq<Session>

    ghost predicate Valid()
      reads this
    {
      LegacyOk(order, wins, created, sessions)
    }

    constructor(mobile: bool)
      ensures Valid() && this.mobile == mobile
      ensures order == [] && wins == map[] && created == 0 && sessions == []
    {
      this.mobile := mobile;
      order := [];
      wins := map[];
      created := 0;
      sessions := [];
    }

    /** bringToFront: one above the highest z-index of all windows, itself included. */
    method BringToFront(id: Id)
      requires id in wins && AllIn(order, wins)
      modifies this`wins
      ensures wins == Raised(order, old(wins), id)
    {
      var highest := 0;
      var i := 0;
      while i < |order|
        invariant 0 <= i <= |order|
        invariant AllIn(order[..i], wins)
        invariant highest == MaxEffZ(order[..i], wins)
      {
        var z := EffZ(wins[order[i]]);
        if z > highest {
          highest := z;
        }
        ghost var t := order[..i + 1];
        assert t[..i] == order[..i] && t[i] == order[i];
        assert AllIn(t, wins);
        assert ZAt(t, wins, i) == z;
        i := i + 1;
      }
      assert order[..i] == order;
      ghost var ws0 := wins;
      assert highest == MaxEffZ(order, ws0);
      wins := wins[id := wins[id].(z := highest + 1)];
      assert wins == Raised(order, ws0, id);
    }

    /** A click on a desktop icon: a window from the template is appended to the
        document, then brought to front. It is the only window with an unset z-index
        during that scan, so it lands one above the others or at 11. */
    method CreateWindow(typ: string, vw: int, vh: int, rx: nat, ry: nat) returns (id: Id)
      requires Valid()
      modifies this`order, this`wins, this`created
      ensures Valid()
      ensures id == old(created) && created == old(created) + 1 && id !in old(wins)
      ensures order == old(order) + [id]
      ensures wins == old(wins)[id := FreshWindow(typ, mobile, vw, vh, rx, ry).(z := Max(MaxEffZ(old(order), old(wins)), 10) + 1)]
    {
      var w := FreshWindow(typ, mobile, vw, vh, rx, ry);
      ghost var ws0 := wins;
      id := Append(w);
      ghost var ws1 := wins;
      ghost var m := MaxEffZ(order, ws1);
      assert m == Max(MaxEffZ(old(order), ws0), 10);
      RaiseOk(order, ws1, created, sessions, id, m + 1);
      BringToFront(id);
      assert wins == ws1[id := w.(z := m + 1)];
      UpdateTwice(ws0, id, w, w.(z := m + 1));
    }

    /** windowContainer.appendChild: the new window is last in document order. */
    method Append(w: LWin) returns (id: Id)
      requires Valid() && !w.dragging
      modifies this`order, this`wins, this`created
      ensures Valid() && AllIn(order, wins)
      ensures id == old(created) && created == old(created) + 1 && id !in old(wins)
      ensures order == old(order) + [id] && wins == old(wins)[id := w]
      ensures MaxEffZ(order, wins) == Max(MaxEffZ(old(order), old(wins)), EffZ(w))
    {
      id := created;
      var order1, wins1 := order + [id], wins[id := w];
      CreateOk(order, wins, created, sessions, w);
      OkAllIn(order, wins, created, sessions);
      AppendMax(order, wins, id, w);
      assert LegacyOk(order1, wins1, id + 1, sessions) && AllIn(order1, wins1);
      order, wins, created := order1, wins1, id + 1;
    }

    /** pointerdown anywhere in a window brings it to front. */
    method PointerDown(id: Id)
      requires Valid() && id in wins
      modifies this`wins
      ensures Valid()
      ensures wins == Raised(order, old(wins), id)
    {
      OkAllIn(order, wins, created, sessions);
      RaiseOk(order, wins, created, sessions, id, MaxEffZ(order, wins) + 1);
      BringToFront(id);
    }

    /** startDrag: nothing for a press on a button or on a maximized window; otherwise
        bringToFront, the start captured, the window-dragging class, and a session. */
    method StartDrag(id: Id, onButton: bool, clientX: int, clientY: int, start: Pos)
      requires Valid() && id in wins
      modifies this`wins, this`sessions
      ensures Valid()
      ensures if onButton || old(wins)[id].maximized then wins == old(wins) && sessions == old(sessions)
              else wins == old(wins)[id := old(wins)[id].(z := MaxEffZ(order, old(wins)) + 1, dragging := true)]
                   && sessions == old(sessions) + [Session(id, clientX, clientY, start.x, start.y)]
    {
      if onButton || wins[id].maximized {
        return;
      }
      var s := Session(id, clientX, clientY, start.x, start.y);
      OkAllIn(order, wins, created, sessions);
      StartOk(order, wins, created, sessions, s, MaxEffZ(order, wins) + 1);
      ghost var ws0 := wins;
      BringToFront(id);
      var w := wins[id].(dragging := true);
      UpdateTwice(ws0, id, wins[id], w);
      wins := wins[id := w];
      sessions := sessions + [s];
    }

    /** pointerdown on the header: its own listener first (a non-primary mouse button
        is ignored), then the window's, which brings the window to front again. A drag
        that starts therefore raises the window twice. The start is the style's number,
        `parseFloat(style.left) || 0`. */
    method HeaderPointerDownAsWritten(id: Id, onButton: bool, mouse: bool, button: int,
                                      clientX: int, clientY: int)
      requires Valid() && id in wins
      modifies this`wins, this`sessions
      ensures Valid()
      ensures StartsDrag(old(wins)[id], onButton, mouse, button) ==>
                wins == old(wins)[id := old(wins)[id].(z := MaxEffZ(order, old(wins)) + 2, dragging := true)]
                && sessions == old(sessions) + [Session(id, clientX, clientY, LenNumber(old(wins)[id].left),
                                                        LenNumber(old(wins)[id].top))]
      ensures !StartsDrag(old(wins)[id], onButton, mouse, button) ==>
                wins == Raised(order, old(wins), id)
                && sessions == old(sessions)
    {
      var start := Pos(LenNumber(wins[id].left), LenNumber(wins[id].top));
      HeaderPointerDown(id, onButton, mouse, button, clientX, clientY, start);
    }

    /** pointerdown on the header with the drag starting from the rendered position
        `rect`. */
    method HeaderPointerDown(id: Id, onButton: bool, mouse: bool, button: int,
                             clientX: int, clientY: int, rect: Pos)
      requires Valid() && id in wins
      modifies this`wins, this`sessions
      ensures Valid()
      ensures StartsDrag(old(wins)[id], onButton, mouse, button) ==>
                wins == old(wins)[id := old(wins)[id].(z := MaxEffZ(order, old(wins)) + 2, dragging := true)]
                && sessions == old(sessions) + [Session(id, clientX, clientY, rect.x, rect.y)]
      ensures !StartsDrag(old(wins)[id], onButton, mouse, button) ==>
                wins == Raised(order, old(wins), id)
                && sessions == old(sessions)
    {
      if StartsDrag(wins[id], onButton, mouse, button) {
        DragFromHeader(id, clientX, clientY, rect);
      } else {
        PointerDown(id);
      }
    }

    /** The two listeners of a press that starts a drag: startDrag, then the window's
        bringToFront. */
    method DragFromHeader(id: Id, clientX: int, clientY: int, rect: Pos)
      requires Valid() && id in wins && !wins[id].maximized
      modifies this`wins, this`sessions
      ensures Valid()
      ensures wins == old(wins)[id := old(wins)[id].(z := MaxEffZ(order, old(wins)) + 2, dragging := true)]
      ensures sessions == old(sessions) + [Session(id, clientX, clientY, rect.x, rect.y)]
    {
      ghost var o, ws0 := order, wins;
      OkAllIn(order, wins, created, sessions);
      ghost var j := PositionOf(order, wins, created, sessions, id);
      StartDrag(id, false, clientX, clientY, rect);
      ghost var ws1 := wins;
      ghost var m := MaxEffZ(o, ws0);
      ghost var w1 := ws0[id].(z := m + 1, dragging := true);
      RaisedMax(o, ws0, id, j, ws1, w1);
      RaiseTwice(ws0, id, w1, ws1, m, MaxEffZ(o, ws1));
      PointerDown(id);
      assert order == o && wins == Raised(o, ws1, id);
    }

    /** pointermove on the document: every session's moveWindow in turn. */
    method PointerMove(clientX: int, clientY: int, vw: int, vh: int, size: Id -> Size)
      requires Valid()
      modifies this`wins
      ensures Valid()
      ensures wins == Moved(sessions, old(wins), clientX, clientY, vw, vh, size)
    {
      MovedOk(order, wins, created, sessions, clientX, clientY, vw, vh, size);
      var i := 0;
      while i < |sessions|
        invariant 0 <= i <= |sessions|
        invariant wins == Moved(sessions[..i], old(wins), clientX, clientY, vw, vh, size)
      {
        var s := sessions[i];
        MovedStep(sessions, i, old(wins), clientX, clientY, vw, vh, size);
        if s.id in wins {
          var p := LegacyDragTarget(s.startLeft, s.startTop, clientX - s.startX, clientY - s.startY,
                                    vw, vh, size(s.id));
          wins := wins[s.id := MoveTo(wins[s.id], p)];
        }
        i := i + 1;
      }
      assert sessions[..i] == sessions;
    }

    /** pointerup or pointercancel on the document: every session's stopMoving removes
        its three listeners and the window-dragging class, so no drag goes on. */
    method StopMoving()
      requires Valid()
      modifies this`wins, this`sessions
      ensures Valid() && sessions == []
      ensures wins.Keys == old(wins).Keys
      ensures forall k :: k in wins ==> wins[k] == old(wins)[k].(dragging := false)
    {
      ghost var ws0 := wins;
      var i := 0;
      while i < |sessions|
        invariant 0 <= i <= |sessions| && sessions == old(sessions)
        invariant wins.Keys == old(wins).Keys
        invariant forall k :: k in wins ==>
                    wins[k] == if k in Dragged(sessions[..i]) then old(wins)[k].(dragging := false) else old(wins)[k]
      {
        var s := sessions[i];
        if s.id in wins {
          wins := wins[s.id := wins[s.id].(dragging := false)];
        }
        DraggedAppend(sessions[..i], s);
        assert sessions[..i + 1] == sessions[..i] + [s];
        i := i + 1;
      }
      assert sessions[..i] == sessions;
      forall k | k in wins
        ensures wins[k] == old(wins)[k].(dragging := false)
      {
        if k !in Dragged(sessions) {
          assert !DraggingOf(ws0, k);
        }
      }
      StoppedOk(order, ws0, created, sessions, wins);
      sessions := [];
    }

    /** The minimize button adds the minimized class; script.js has no way back. */
    method Minimize(id: Id)
      requires Valid() && id in wins
      modifies this`wins
      ensures Valid()
      ensures wins == old(wins)[id := old(wins)[id].(minimized := true)]
    {
      wins := wins[id := wins[id].(minimized := true)];
      assert forall k :: k in wins ==> DraggingOf(wins, k) == DraggingOf(old(wins), k);
    }

    /** The maximize button toggles the maximized class. */
    method ToggleMaximize(id: Id)
      requires Valid() && id in wins
      modifies this`wins
      ensures Valid()
      ensures wins == old(wins)[id := old(wins)[id].(maximized := !old(wins)[id].maximized)]
    {
      wins := wins[id := wins[id].(maximized := !wins[id].maximized)];
      assert forall k :: k in wins ==> DraggingOf(wins, k) == DraggingOf(old(wins), k);
    }

    /** The close button removes the element; a drag of it stays registered until the
        next pointerup. */
    method Close(id: Id)
      requires Valid() && id in wins
      modifies this`order, this`wins
      ensures Valid()
      ensures id !in wins && wins == old(wins) - {id}
      ensures order == DesktopRules.Erase(old(order), id)
    {
      CloseOk(order, wins, created, sessions, id);
      order := DesktopRules.Erase(order, id);
      wins := wins - {id};
    }
  }
}
