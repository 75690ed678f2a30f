/**
 * Values the window manager keeps per window, and the pure rules it applies to them:
 * window ids, the z-order stack, which taskbar button is highlighted, the window
 * header chosen from the window type, and what a click on a taskbar button does.
 * The imperative desktops are proved against these rules.
 *
 * A window is known by the counter value k it was created with; its DOM id is the
 * text `w${k}` (WinId), and WinIdInjective shows that no two counter values share a
 * text, so keying the registry by k is keying it by the id.
 */
module Windows {
  import opened Text

  /** The three revisions that share this window manager. */
  datatype Revision =
    | Bundle  // script_bundle_fixed.js
    | Fixed   // script_fixed.js
    | V3      // test/script_music_v3.js: no cascade

  /** A CSS length as written to `style`: unset, or a number of px / vw / vh. */
  datatype Len = Unset | Px(n: int) | Vw(n: int) | Vh(n: int)

  /** The text `style.left` (or top, width, height) holds. */
  function LenText(l: Len): string
  {
    match l
    case Unset => ""
    case Px(n) => IntToString(n) + "px"
    case Vw(n) => IntToString(n) + "vw"
    case Vh(n) => IntToString(n) + "vh"
  }

  /** The number a CSS length is written with, whatever its unit. */
  function LenNumber(l: Len): int
  {
    match l
    case Unset => 0
    case Px(n) => n
    case Vw(n) => n
    case Vh(n) => n
  }

  /** The length in pixels as the browser renders it, for a viewport of vw x vh. */
  function Rendered(l: Len, vw: int, vh: int): int
  {
    match l
    case Unset => 0
    case Px(n) => n
    case Vw(n) => n * vw / 100
    case Vh(n) => n * vh / 100
  }

  /** The window types createWindow recognises by name; any other name is Other. */
  datatype Kind =
    | Explorer | Photos | Music | Settings | TaskManager | Notes
    | TextViewer | ImageViewer | Game | UnlockDialog | Other

  /** The `type` string a caller passes for each recognised type. */
  function KindName(k: Kind): string
  {
    match k
    case Explorer => "explorer"
    case Photos => "photos"
    case Music => "music"
    case Settings => "settings"
    case TaskManager => "taskmanager"
    case Notes => "notes"
    case TextViewer => "text-viewer"
    case ImageViewer => "image-viewer"
    case Game => "game"
    case UnlockDialog => "unlock"
    case Other => ""
  }

  /** createWindow's `if (type === ...)` chain: the type a name selects. */
  function ParseKind(name: string): (k: Kind)
    ensures k != Other ==> KindName(k) == name
  {
    if name == "explorer" then Explorer
    else if name == "photos" then Photos
    else if name == "music" then Music
    else if name == "settings" then Settings
    else if name == "taskmanager" then TaskManager
    else if name == "notes" then Notes
    else if name == "text-viewer" then TextViewer
    else if name == "image-viewer" then ImageViewer
    else if name == "game" then Game
    else if name == "unlock" then UnlockDialog
    else Other
  }

  /** Every recognised type is selected by its own name. */
  lemma ParseKindName(k: Kind)
    requires k != Other
    ensures ParseKind(KindName(k)) == k
  {
    var n := KindName(k);
    match k
    case Explorer =>
    case Photos => assert n != "explorer";
    case Music => assert n != "explorer" && n != "photos";
    case Settings => assert n[0] == 's';
    case TaskManager => assert n[0] == 't' && n[1] == 'a';
    case Notes => assert n[0] == 'n';
    case TextViewer => assert n[0] == 't' && n[1] == 'e';
    case ImageViewer => assert n[0] == 'i';
    case Game => assert n[0] == 'g';
    case UnlockDialog => assert n[0] == 'u';
    case Other =>
  }

  /** A window is known by the counter value that named it. */
  type Id = nat

  /** A window: its type, header, stacking value, state classes, inline geometry, and
      the text or image source a viewer shows. */
  datatype Win = Win(kind: Kind, title: string, icon: string, z: int,
                     minimized: bool, maximized: bool,
                     left: Len, top: Len, width: Len, height: Len, body: string)

  type Registry = map<Id, Win>

  // ---------------------------------------------------------------------------
  // Window ids: `w${++winSeq}`

  function WinId(k: nat): string
  {
    "w" + NatToString(k)
  }

  /** Different counter values give different ids. */
  lemma WinIdInjective(a: nat, b: nat)
    requires WinId(a) == WinId(b)
    ensures a == b
  {
    assert WinId(a)[1..] == NatToString(a);
    assert WinId(b)[1..] == NatToString(b);
    NatToStringInjective(a, b);
  }

  /** The next id's text differs from that of every id handed out before, so an id is
      never reused even after its window closed. */
  lemma NextIdFresh(n: nat, k: nat)
    requires 1 <= k <= n
    ensures WinId(n + 1) != WinId(k)
  {
    if WinId(n + 1) == WinId(k) {
      WinIdInjective(n + 1, k);
    }
  }

  // ---------------------------------------------------------------------------
  // Stacking: `zIndex` only grows; bringToFront gives the window the new value.

  /** Only counter values 1..n have been handed out. */
  predicate Issued(ws: Registry, n: nat)
  {
    forall k :: k in ws ==> 1 <= k <= n
  }

  /** The z value of window k. */
  function ZOf(ws: Registry, k: Id): int
    requires k in ws
  {
    ws[k].z
  }

  /** No two windows share a z value. */
  predicate DistinctZ(ws: Registry)
  {
    forall a, b :: a in ws && b in ws && a != b ==> ZOf(ws, a) != ZOf(ws, b)
  }

  predicate AllBelow(ws: Registry, top: int)
  {
    forall a :: a in ws ==> ws[a].z <= top
  }

  /** Ids whose taskbar button is highlighted: shown (not minimized) and on top. */
  function ActiveIds(ws: Registry, top: int): set<Id>
  {
    set a | a in ws && !ws[a].minimized && ws[a].z == top
  }

  /** With distinct z values, at most one taskbar button is highlighted. */
  lemma AtMostOneActive(ws: Registry, top: int)
    requires DistinctZ(ws)
    ensures |ActiveIds(ws, top)| <= 1
  {
    var act := ActiveIds(ws, top);
    if act != {} {
      var a :| a in act;
      forall b | b in act
        ensures b == a
      {
        assert ws[b].z == top == ws[a].z;
      }
      assert act == {a};
    }
  }

  /** bringToFront's effect on the registry: the window takes the new top value. */
  function Raise(ws: Registry, id: Id, top: int): (r: Registry)
    requires id in ws
    ensures r.Keys == ws.Keys
  {
    ws[id := ws[id].(z := top)]
  }

  /** Raising keeps the z values distinct and puts the raised window strictly above all
      others; its button becomes the only highlighted one unless it is minimized. */
  lemma RaiseKeepsStack(ws: Registry, id: Id, top: int)
    requires id in ws
    requires DistinctZ(ws - {id}) && AllBelow(ws - {id}, top)
    ensures var r := Raise(ws, id, top + 1);
            DistinctZ(r) && AllBelow(r, top + 1)
            && (forall a :: a in r && a != id ==> r[a].z < r[id].z)
            && ActiveIds(r, top + 1) == (if ws[id].minimized then {} else {id})
  {
    var r := Raise(ws, id, top + 1);
    forall a | a in r && a != id
      ensures r[a].z < r[id].z
    {
      assert a in ws - {id};
    }
    forall a, b | a in r && b in r && a != b
      ensures r[a].z != r[b].z
    {
      if a != id && b != id {
        assert a in ws - {id} && b in ws - {id};
      }
    }
  }

  /** RaiseKeepsStack for a window already in a well-formed stack. */
  lemma RaiseInStack(ws: Registry, id: Id, top: int)
    requires id in ws && DistinctZ(ws) && AllBelow(ws, top)
    ensures var r := Raise(ws, id, top + 1);
            DistinctZ(r) && AllBelow(r, top + 1)
            && (forall a :: a in r && a != id ==> r[a].z < r[id].z)
            && ActiveIds(r, top + 1) == (if ws[id].minimized then {} else {id})
  {
    RemoveKeepsOthers(ws, id, top);
    RaiseKeepsStack(ws, id, top);
  }

  /** Minimizing the highlighted window leaves no button highlighted. */
  lemma MinimizeFrontClearsHighlight(ws: Registry, id: Id, top: int)
    requires DistinctZ(ws) && id in ActiveIds(ws, top)
    ensures ActiveIds(ws[id := ws[id].(minimized := true)], top) == {}
  {
    var m := ws[id := ws[id].(minimized := true)];
    forall a | a in m && a != id
      ensures m[a].z != top
    {
      assert ws[a].z != ws[id].z;
    }
  }

  /** Registering a fresh id and taking it out again gives the registry back. */
  lemma AddThenRemove(ws: Registry, id: Id, w: Win)
    requires id !in ws
    ensures ws[id := w] - {id} == ws
  {
    assert forall k :: k in ws[id := w] - {id} <==> k in ws;
  }

  /** Closing a window takes its id out of the highlight and touches no other button. */
  lemma RemoveKeepsOthers(ws: Registry, id: Id, top: int)
    ensures ActiveIds(ws - {id}, top) == ActiveIds(ws, top) - {id}
    ensures DistinctZ(ws) ==> DistinctZ(ws - {id})
    ensures AllBelow(ws, top) ==> AllBelow(ws - {id}, top)
  {
  }

  /** Opening window n and then closing another window id leaves the old registry
      without id, besides n. */
  lemma OpenThenClose(ws0: Registry, ws1: Registry, n: Id, id: Id)
    requires ws1 - {n} == ws0 && id != n
    ensures (ws1 - {id}) - {n} == ws0 - {id}
  {
    assert forall k :: k in (ws1 - {id}) - {n} <==> k in ws0 - {id};
  }

  /** Changing anything of a window but its z value keeps the z values distinct and
      below the counter; the highlight stays as it was unless the minimized state changed. */
  lemma ReshapeKeepsStack(ws: Registry, id: Id, w: Win, top: int)
    requires id in ws && w.z == ws[id].z
    ensures DistinctZ(ws) ==> DistinctZ(ws[id := w])
    ensures AllBelow(ws, top) ==> AllBelow(ws[id := w], top)
    ensures w.minimized == ws[id].minimized ==> ActiveIds(ws[id := w], top) == ActiveIds(ws, top)
  {
    var r := ws[id := w];
    if DistinctZ(ws) {
      forall a, b | a in r && b in r && a != b
        ensures r[a].z != r[b].z
      {
        assert r[a].z == ws[a].z && r[b].z == ws[b].z;
      }
    }
  }

  // ---------------------------------------------------------------------------
  // Taskbar button click (script_bundle_fixed.js, script_fixed.js, test/script_music_v3.js)

  datatype Stack = Stack(ws: Registry, top: int)

  predicate StackOk(s: Stack)
  {
    DistinctZ(s.ws) && AllBelow(s.ws, s.top)
  }

  /** Unknown id: nothing. Minimized: restore and bring to front. Otherwise: minimize. */
  function Click(s: Stack, id: Id): (r: Stack)
    ensures r.ws.Keys == s.ws.Keys
    ensures id !in s.ws ==> r == s
    ensures id in s.ws ==> r.ws[id].minimized == !s.ws[id].minimized
  {
    if id !in s.ws then s
    else if s.ws[id].minimized then
      Stack(Raise(s.ws[id := s.ws[id].(minimized := false)], id, s.top + 1), s.top + 1)
    else Stack(s.ws[id := s.ws[id].(minimized := true)], s.top)
  }

  /** A click keeps the stack well formed; a restored window is the highlighted one and a
      minimized one is not highlighted. */
  lemma {:induction false} ClickKeepsStack(s: Stack, id: Id)
    requires StackOk(s)
    ensures StackOk(Click(s, id))
    ensures id in s.ws && s.ws[id].minimized ==> ActiveIds(Click(s, id).ws, Click(s, id).top) == {id}
    ensures id in s.ws && !s.ws[id].minimized ==> id !in ActiveIds(Click(s, id).ws, Click(s, id).top)
  {
    if id in s.ws && s.ws[id].minimized {
      var shown := s.ws[id := s.ws[id].(minimized := false)];
      assert shown - {id} == s.ws - {id};
      RaiseKeepsStack(shown, id, s.top);
    }
  }

  /** Clicking a shown window twice hides it and then shows it again on top. */
  lemma {:induction false} ClickTwiceShowsOnTop(s: Stack, id: Id)
    requires StackOk(s) && id in s.ws && !s.ws[id].minimized
    ensures var r := Click(Click(s, id), id);
            !r.ws[id].minimized && ActiveIds(r.ws, r.top) == {id} && r.top == s.top + 1
  {
    ClickKeepsStack(s, id);
    ClickKeepsStack(Click(s, id), id);
  }

  // ---------------------------------------------------------------------------
  // Window header per type

  /** The types each revision knows; test/script_music_v3.js has no notes, image viewer
      or game, and any unknown type gets a plain window. */
  predicate KnownKind(rev: Revision, kind: Kind)
  {
    kind != Other && (rev != V3 || kind !in {Notes, ImageViewer, Game})
  }

  /** `options.title || fallback`: an empty title counts as missing. */
  function OrElse(s: string, fallback: string): (r: string)
    ensures r != "" <== fallback != ""
    ensures s != "" ==> r == s
  {
    if s != "" then s else fallback
  }

  /** Title and Feather icon for a new window. */
  function Header(rev: Revision, kind: Kind, optTitle: string): (r: (string, string))
    ensures r.0 != "" && r.1 != ""
    ensures !KnownKind(rev, kind) ==> r == ("Window", "square")
    ensures kind == TextViewer && optTitle != "" ==> r.0 == optTitle
    ensures rev != V3 && kind == ImageViewer && optTitle != "" ==> r.0 == optTitle
  {
    if !KnownKind(rev, kind) then ("Window", "square")
    else
      match kind
      case Explorer => ("Explorer", "folder")
      case Photos => ("Fotos", "image")
      case Music => ("Musik", "music")
      case Settings => ("Settings", "settings")
      case TaskManager => ("Task Manager", "activity")
      case Notes => ("Notizen", if rev == Fixed then "edit-3" else "file-text")
      case TextViewer => (OrElse(optTitle, "Text"), "file-text")
      case ImageViewer => (OrElse(optTitle, "Bild"), "image")
      case Game => ("Spiel", "heart")
      case UnlockDialog => ("Datei entsperren", "lock")
      case Other => ("Window", "square")
  }
}
