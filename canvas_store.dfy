/**
 * The canvas editor's store: the elements and annotations on the canvas, a
 * linear history of snapshots with a cursor for undo and redo, and the id of
 * the design session. Elements and annotations are opaque to the store.
 */
module CanvasStore {
  import opened Wrappers

  /** What one history entry records. */
  datatype Snapshot<E, A> = Snapshot(elements: seq<E>, annotations: seq<A>)

  /** The store's state as a value; every action maps one state to the next. */
  datatype CanvasState<E, A> = CanvasState(
    elements: seq<E>,
    annotations: seq<A>,
    history: seq<Snapshot<E, A>>,
    historyIndex: int,
    sessionId: Option<string>)
  {
    /** The cursor is -1 exactly on an empty history (and then the canvas is
        empty) and otherwise points at a snapshot equal to the current canvas. */
    ghost predicate Inv() {
      && -1 <= historyIndex < |history|
      && (historyIndex == -1 <==> history == [])
      && (historyIndex == -1 ==> elements == [] && annotations == [])
      && (historyIndex >= 0 ==> history[historyIndex] == Snapshot(elements, annotations))
    }

    /** The history up to and including the cursor: a new action discards
        everything after it. */
    function Kept(): (h: seq<Snapshot<E, A>>)
      requires Inv()
      ensures |h| == historyIndex + 1
      ensures forall k :: 0 <= k < |h| ==> h[k] == history[k]
    {
      history[..historyIndex + 1]
    }

    /** Records a new canvas as the latest history entry. */
    function Record(newElements: seq<E>, newAnnotations: seq<A>): (r: CanvasState<E, A>)
      requires Inv()
      ensures r.Inv()
      ensures r.elements == newElements && r.annotations == newAnnotations
      ensures r.historyIndex == historyIndex + 1 == |r.history| - 1
      ensures r.history == Kept() + [Snapshot(newElements, newAnnotations)]
      ensures r.sessionId == sessionId
    {
      CanvasState(newElements, newAnnotations, Kept() + [Snapshot(newElements, newAnnotations)],
                  historyIndex + 1, sessionId)
    }

    function AddElement(element: E): (r: CanvasState<E, A>)
      requires Inv()
      ensures r.Inv()
      ensures r.elements == elements + [element] && r.annotations == annotations
      ensures r.history == Kept() + [Snapshot(r.elements, r.annotations)] && r.historyIndex == |r.history| - 1
    {
      Record(elements + [element], annotations)
    }

    function AddAnnotation(annotation: A): (r: CanvasState<E, A>)
      requires Inv()
      ensures r.Inv()
      ensures r.annotations == annotations + [annotation] && r.elements == elements
      ensures r.history == Kept() + [Snapshot(r.elements, r.annotations)] && r.historyIndex == |r.history| - 1
    {
      Record(elements, annotations + [annotation])
    }

    function ClearCanvas(): (r: CanvasState<E, A>)
      requires Inv()
      ensures r.Inv()
      ensures r.elements == [] && r.annotations == []
      ensures r.history == Kept() + [Snapshot(r.elements, r.annotations)] && r.historyIndex == |r.history| - 1
    {
      Record([], [])
    }

    /** Steps the cursor back and restores that snapshot; the first entry is
        as far back as it goes. */
    function Undo(): (r: CanvasState<E, A>)
      requires Inv()
      ensures r.Inv()
      ensures r.history == history && r.sessionId == sessionId
      ensures historyIndex <= 0 ==> r == this
      ensures historyIndex > 0 ==>
        r.historyIndex == historyIndex - 1 && Snapshot(r.elements, r.annotations) == history[historyIndex - 1]
    {
      if historyIndex <= 0 then this
      else
        var previous := history[historyIndex - 1];
        this.(elements := previous.elements, annotations := previous.annotations, historyIndex := historyIndex - 1)
    }

    /** Steps the cursor forward and restores that snapshot, unless it is at
        the latest entry. */
    function Redo(): (r: CanvasState<E, A>)
      requires Inv()
      ensures r.Inv()
      ensures r.history == history && r.sessionId == sessionId
      ensures historyIndex >= |history| - 1 ==> r == this
      ensures historyIndex < |history| - 1 ==>
        r.historyIndex == historyIndex + 1 && Snapshot(r.elements, r.annotations) == history[historyIndex + 1]
    {
      if historyIndex >= |history| - 1 then this
      else
        var next := history[historyIndex + 1];
        this.(elements := next.elements, annotations := next.annotations, historyIndex := historyIndex + 1)
    }

    function SetSessionId(id: string): (r: CanvasState<E, A>)
      ensures r.sessionId == Some(id)
      ensures r.(sessionId := sessionId) == this
    {
      this.(sessionId := Some(id))
    }
  }

  /** The store as created: nothing on the canvas, no history, no session. */
  function Initial<E, A>(): (s: CanvasState<E, A>)
    ensures s.Inv()
    ensures s.elements == [] && s.annotations == [] && s.history == []
    ensures s.historyIndex == -1 && s.sessionId == None
  {
    CanvasState([], [], [], -1, None)
  }

  // ---------------------------------------------------------------------------
  // Undo and redo are inverse steps

  /** A redo right after a successful undo gives back the state before it. */
  lemma RedoAfterUndo<E, A>(s: CanvasState<E, A>)
    requires s.Inv() && s.historyIndex > 0
    ensures s.Undo().Redo() == s
  {
  }

  /** An undo right after a successful redo gives back the state before it. */
  lemma UndoAfterRedo<E, A>(s: CanvasState<E, A>)
    requires s.Inv() && s.historyIndex < |s.history| - 1
    ensures s.Redo().Undo() == s
  {
  }

  /** Undo after an action restores the canvas as it was before the action,
      provided there was an earlier entry to return to. */
  lemma UndoRevertsAction<E, A>(s: CanvasState<E, A>, e: E)
    requires s.Inv() && s.historyIndex >= 0
    ensures s.AddElement(e).Undo().elements == s.elements
    ensures s.AddElement(e).Undo().annotations == s.annotations
  {
  }

  /** The first action cannot be undone: the history holds no entry for the
      empty canvas to return to. */
  lemma FirstActionIsNotUndoable<E, A>(e: E)
    ensures Initial<E, A>().AddElement(e).Undo() == Initial<E, A>().AddElement(e)
    ensures Initial<E, A>().AddElement(e).Undo().elements == [e]
  {
  }

  /** A new action discards every entry the cursor had stepped back over, so
      nothing is left to redo. */
  lemma ActionClearsRedo<E, A>(s: CanvasState<E, A>, e: E)
    requires s.Inv()
    ensures s.AddElement(e).Redo() == s.AddElement(e)
    ensures |s.AddElement(e).history| <= |s.history| + 1
  {
  }

  /** Undoing k times from the latest entry and then redoing k times returns to
      the latest canvas: the history is never lost by stepping through it. */
  lemma {:induction false} UndoRedoSteps<E, A>(s: CanvasState<E, A>, k: nat)
    requires s.Inv() && k <= s.historyIndex
    ensures UndoTimes(s, k).Inv() && UndoTimes(s, k).historyIndex == s.historyIndex - k
    ensures UndoTimes(s, k).history == s.history
    ensures RedoTimes(UndoTimes(s, k), k) == s
  {
    if k > 0 {
      UndoRedoSteps(s, k - 1);
      var t := UndoTimes(s, k - 1);
      assert UndoTimes(s, k) == t.Undo();
      RedoAfterUndo(t);
      assert RedoTimes(t.Undo(), k) == RedoTimes(t, k - 1);
    }
  }

  /** The state after k undos. */
  function UndoTimes<E, A>(s: CanvasState<E, A>, k: nat): (r: CanvasState<E, A>)
    requires s.Inv()
    ensures r.Inv() && r.history == s.history
  {
    if k == 0 then s else UndoTimes(s, k - 1).Undo()
  }

  /** The state after k redos. */
  function RedoTimes<E, A>(s: CanvasState<E, A>, k: nat): (r: CanvasState<E, A>)
    requires s.Inv()
    ensures r.Inv() && r.history == s.history
    decreases k
  {
    if k == 0 then s else RedoTimes(s.Redo(), k - 1)
  }

  // ---------------------------------------------------------------------------
  // The store

  /** The store object; each action replaces its fields with the next state. */
  class Canvas<E, A> {
    var elements: seq<E>
    var annotations: seq<A>
    var history: seq<Snapshot<E, A>>
    var historyIndex: int
    var sessionId: Option<string>

    function Model(): CanvasState<E, A>
      reads this
    {
      CanvasState(elements, annotations, history, historyIndex, sessionId)
    }

    ghost predicate Valid()
      reads this
    {
      Model().Inv()
    }

    constructor ()
      ensures Valid() && Model() == Initial()
    {
      elements, annotations, history, historyIndex, sessionId := [], [], [], -1, None;
    }

    method AddElement(element: E)
      requires Valid()
      modifies this
      ensures Valid() && Model() == old(Model()).AddElement(element)
    {
      var newElements := elements + [element];
      var newHistory := history[..historyIndex + 1] + [Snapshot(newElements, annotations)];
      elements, history, historyIndex := newElements, newHistory, historyIndex + 1;
    }

    method AddAnnotation(annotation: A)
      requires Valid()
      modifies this
      ensures Valid() && Model() == old(Model()).AddAnnotation(annotation)
    {
      var newAnnotations := annotations + [annotation];
      var newHistory := history[..historyIndex + 1] + [Snapshot(elements, newAnnotations)];
      annotations, history, historyIndex := newAnnotations, newHistory, historyIndex + 1;
    }

    method ClearCanvas()
      requires Valid()
      modifies this
      ensures Valid() && Model() == old(Model()).ClearCanvas()
    {
      var newHistory := history[..historyIndex + 1] + [Snapshot([], [])];
      elements, annotations, history, historyIndex := [], [], newHistory, historyIndex + 1;
    }

    method Undo()
      requires Valid()
      modifies this
      ensures Valid() && Model() == old(Model()).Undo()
    {
      if historyIndex <= 0 {
        return;
      }
      var newIndex := historyIndex - 1;
      var previous := history[newIndex];
      elements, annotations, historyIndex := previous.elements, previous.annotations, newIndex;
    }

    method Redo()
      requires Valid()
      modifies this
      ensures Valid() && Model() == old(Model()).Redo()
    {
      if historyIndex >= |history| - 1 {
        return;
      }
      var newIndex := historyIndex + 1;
      var next := history[newIndex];
      elements, annotations, historyIndex := next.elements, next.annotations, newIndex;
    }

    method SetSessionId(id: string)
      requires Valid()
      modifies this
      ensures Valid() && Model() == old(Model()).SetSessionId(id)
    {
      sessionId := Some(id);
    }
  }
}
