/** The menu bar's event handler, reduced to what touches the canvases'
    history: which canvas window is active, and the undo and redo
    commands from the Edit menu and the keyboard. */
module MenuBar {
  import opened Wrappers
  import opened History

  /** Identifies one canvas window. */
  type WindowId = nat

  /** The open canvas windows, each with its canvas, and the active one. */
  datatype Workspace = Workspace(active: Option<WindowId>, canvases: map<WindowId, Canvas>)

  const CanvasWindowId := "#canvas_window"
  const UndoItemId := "menu_bar.#edit_menu_items.#undo"
  const RedoItemId := "menu_bar.#edit_menu_items.#redo"

  /** pygame's key code for `z` and its modifier masks. */
  const KeyZ := 122
  const KmodShift: bv16 := 0x0003
  const KmodCtrl: bv16 := 0x00C0

  /** The user-interface events the handler inspects. */
  datatype UiEvent =
    | WindowMovedToFront(objectId: string, element: WindowId)
    | WindowClose(objectId: string, element: WindowId)
    | ButtonStartPress(objectId: string)
    | KeyDown(key: int, mods: bv16)
    | OtherUiEvent

  /** The canvas of the active window, when there is one. */
  function ActiveCanvas(ws: Workspace): Option<Canvas> {
    if ws.active.Some? && ws.active.value in ws.canvases then Some(ws.canvases[ws.active.value]) else None
  }

  /** `_try_undo`: undo on the active canvas when there is one and its undo
      stack is not empty; otherwise nothing happens. */
  function TryUndo(ws: Workspace): (r: Workspace)
    ensures r.active == ws.active && r.canvases.Keys == ws.canvases.Keys
    ensures ActiveCanvas(ws).None? || |ActiveCanvas(ws).value.undoStack| == 0 ==> r == ws
    ensures ActiveCanvas(ws).Some? ==> ActiveCanvas(r) == Some(Undo(ActiveCanvas(ws).value))
    ensures forall w :: w in ws.canvases && Some(w) != ws.active ==> r.canvases[w] == ws.canvases[w]
  {
    match ActiveCanvas(ws)
    case None => ws
    case Some(c) =>
      if |c.undoStack| == 0 then ws
      else ws.(canvases := ws.canvases[ws.active.value := Undo(c)])
  }

  /** `_try_redo`: the mirror image of `TryUndo` on the redo stack. */
  function TryRedo(ws: Workspace): (r: Workspace)
    ensures r.active == ws.active && r.canvases.Keys == ws.canvases.Keys
    ensures ActiveCanvas(ws).None? || |ActiveCanvas(ws).value.redoStack| == 0 ==> r == ws
    ensures ActiveCanvas(ws).Some? ==> ActiveCanvas(r) == Some(Redo(ActiveCanvas(ws).value))
    ensures forall w :: w in ws.canvases && Some(w) != ws.active ==> r.canvases[w] == ws.canvases[w]
  {
    match ActiveCanvas(ws)
    case None => ws
    case Some(c) =>
      if |c.redoStack| == 0 then ws
      else ws.(canvases := ws.canvases[ws.active.value := Redo(c)])
  }

  predicate IsCanvasToFront(e: UiEvent) {
    e.WindowMovedToFront? && e.objectId == CanvasWindowId
  }

  predicate ClosesActive(ws: Workspace, e: UiEvent) {
    e.WindowClose? && e.objectId == CanvasWindowId && ws.active == Some(e.element)
  }

  /** Ctrl+Z without Shift. */
  predicate IsUndoKey(e: UiEvent) {
    e.KeyDown? && e.key == KeyZ && e.mods & KmodCtrl != 0 && e.mods & KmodShift == 0
  }

  /** Ctrl+Shift+Z. */
  predicate IsRedoKey(e: UiEvent) {
    e.KeyDown? && e.key == KeyZ && e.mods & KmodCtrl != 0 && e.mods & KmodShift != 0
  }

  /** The active-window bookkeeping at the top of `process_event`. */
  function TrackActive(ws: Workspace, e: UiEvent): (r: Workspace)
    ensures r.canvases == ws.canvases
    ensures IsCanvasToFront(e) ==> r.active == Some(e.element)
    ensures ClosesActive(ws, e) ==> r.active == None
    ensures !IsCanvasToFront(e) && !ClosesActive(ws, e) ==> r == ws
  {
    var ws1 := if IsCanvasToFront(e) then ws.(active := Some(e.element)) else ws;
    if e.WindowClose? && e.objectId == CanvasWindowId && ws1.active == Some(e.element)
    then ws1.(active := None) else ws1
  }

  /** The history part of `process_event`, in source order: track the
      active window, then the Edit menu's Undo and Redo items (which act
      only while a canvas is active), then Ctrl+Z and Ctrl+Shift+Z. */
  function ProcessEvent(ws: Workspace, e: UiEvent): (r: Workspace)
    ensures IsCanvasToFront(e) ==> r == ws.(active := Some(e.element))
    ensures ClosesActive(ws, e) ==> r == ws.(active := None)
    ensures r.active != ws.active ==> IsCanvasToFront(e) || ClosesActive(ws, e)
    ensures e == ButtonStartPress(UndoItemId) || IsUndoKey(e) ==> r == TryUndo(ws)
    ensures e == ButtonStartPress(RedoItemId) || IsRedoKey(e) ==> r == TryRedo(ws)
    ensures (&& !IsCanvasToFront(e) && !ClosesActive(ws, e)
             && e != ButtonStartPress(UndoItemId) && e != ButtonStartPress(RedoItemId)
             && !IsUndoKey(e) && !IsRedoKey(e)) ==> r == ws
    ensures r.canvases.Keys == ws.canvases.Keys
  {
    var ws1 := TrackActive(ws, e);
    var ws2 := if e == ButtonStartPress(UndoItemId) && ws1.active.Some? then TryUndo(ws1) else ws1;
    var ws3 := if e == ButtonStartPress(RedoItemId) && ws2.active.Some? then TryRedo(ws2) else ws2;
    if e.KeyDown? && e.key == KeyZ && e.mods & KmodCtrl != 0 then
      if e.mods & KmodShift != 0 then TryRedo(ws3) else TryUndo(ws3)
    else ws3
  }

  /** Every canvas's history is well formed. */
  predicate ValidWorkspace(ws: Workspace) {
    forall w :: w in ws.canvases ==> ValidCanvas(ws.canvases[w])
  }

  /** Handling an event keeps every canvas's history well formed. */
  lemma ProcessEventKeepsValid(ws: Workspace, e: UiEvent)
    requires ValidWorkspace(ws)
    ensures ValidWorkspace(ProcessEvent(ws, e))
  {
    var ws1 := TrackActive(ws, e);
    assert ValidWorkspace(ws1);
    TryKeepsValid(ws1);
    var ws2 := if e == ButtonStartPress(UndoItemId) && ws1.active.Some? then TryUndo(ws1) else ws1;
    TryKeepsValid(ws2);
    var ws3 := if e == ButtonStartPress(RedoItemId) && ws2.active.Some? then TryRedo(ws2) else ws2;
    TryKeepsValid(ws3);
  }

  lemma TryKeepsValid(ws: Workspace)
    requires ValidWorkspace(ws)
    ensures ValidWorkspace(TryUndo(ws)) && ValidWorkspace(TryRedo(ws))
  {
    if ActiveCanvas(ws).Some? {
      assert ValidCanvas(ActiveCanvas(ws).value);
    }
  }

  /** Ctrl+Z followed by Ctrl+Shift+Z on a canvas with something to undo
      gives back the workspace exactly. */
  lemma UndoKeyThenRedoKey(ws: Workspace, undo: UiEvent, redo: UiEvent)
    requires ValidWorkspace(ws) && IsUndoKey(undo) && IsRedoKey(redo)
    requires ActiveCanvas(ws).Some? && |ActiveCanvas(ws).value.undoStack| > 0
    ensures ProcessEvent(ProcessEvent(ws, undo), redo) == ws
  {
    var c := ActiveCanvas(ws).value;
    var ws1 := ProcessEvent(ws, undo);
    assert ws1 == TryUndo(ws);
    assert ActiveCanvas(ws1) == Some(Undo(c));
    UndoThenRedo(c);
    assert |Undo(c).redoStack| > 0;
    var ws2 := ProcessEvent(ws1, redo);
    assert ws2 == TryRedo(ws1);
    assert ws2.canvases == ws.canvases[ws.active.value := c];
    assert ws.canvases[ws.active.value := c] == ws.canvases;
  }

  /** Undo and redo only move records between a canvas's two stacks. */
  lemma HistorySizeConserved(ws: Workspace, e: UiEvent, w: WindowId)
    requires w in ws.canvases
    ensures |ProcessEvent(ws, e).canvases[w].undoStack| + |ProcessEvent(ws, e).canvases[w].redoStack|
         == |ws.canvases[w].undoStack| + |ws.canvases[w].redoStack|
  {
    var ws1 := TrackActive(ws, e);
    var ws2 := if e == ButtonStartPress(UndoItemId) && ws1.active.Some? then TryUndo(ws1) else ws1;
    var ws3 := if e == ButtonStartPress(RedoItemId) && ws2.active.Some? then TryRedo(ws2) else ws2;
    TrySizeConserved(ws1, w);
    TrySizeConserved(ws2, w);
    TrySizeConserved(ws3, w);
  }

  lemma TrySizeConserved(ws: Workspace, w: WindowId)
    requires w in ws.canvases
    ensures |TryUndo(ws).canvases[w].undoStack| + |TryUndo(ws).canvases[w].redoStack|
         == |ws.canvases[w].undoStack| + |ws.canvases[w].redoStack|
    ensures |TryRedo(ws).canvases[w].undoStack| + |TryRedo(ws).canvases[w].redoStack|
         == |ws.canvases[w].undoStack| + |ws.canvases[w].redoStack|
  {
  }
}
