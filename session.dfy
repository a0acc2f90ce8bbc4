/** The canvas page's message handler: an `update` message carrying a diagram list
    reconciles the mounted editor, and the first such update that completes with at
    least one diagram also zooms to fit, once per session (the `initialLoadRef` flag). */
module Session {
  import opened Wrappers
  import opened Diagrams
  import opened Canvas
  import opened Reconciler
  import opened Pipeline

  /** The handler acts on a message of type `update` whose `diagrams` field is present
      (an empty array is truthy, so an empty list counts) once an editor is mounted. */
  predicate Accepted(message: Message, mounted: bool)
  {
    message.kind == UpdateKind && message.diagrams.Some? && mounted
  }

  /** Whether the handler's own `zoomToFit` fires after an update, and the flag after it. */
  datatype FlagStep = FlagStep(zoom: bool, flag: bool)

  /** The flag after an accepted update. When `updateDiagrams` rejects (an image failed
      to load) the rest of the handler is skipped and the flag is left as it was. */
  function AfterUpdate(flag: bool, completed: bool, count: nat): FlagStep
  {
    if completed && flag && count > 0 then FlagStep(true, false) else FlagStep(false, flag)
  }

  /** An accepted update as the flag sees it: whether the reconciliation completed and
      how many diagrams the message carried. */
  datatype Update = Update(completed: bool, count: nat)

  predicate Loads(u: Update)
  {
    u.completed && u.count > 0
  }

  /** For a session's accepted updates in arrival order, whether each one zoomed
      through the initial-load path, starting from the flag `flag`. */
  function Zooms(flag: bool, trace: seq<Update>): (zs: seq<bool>)
    ensures |zs| == |trace|
    decreases |trace|
  {
    if trace == [] then []
    else
      var s := AfterUpdate(flag, trace[0].completed, trace[0].count);
      [s.zoom] + Zooms(s.flag, trace[1..])
  }

  /** Once cleared, the flag never lets the initial-load zoom fire again. */
  lemma {:induction false} ClearedNeverZooms(trace: seq<Update>, i: nat)
    requires i < |trace|
    ensures !Zooms(false, trace)[i]
    decreases |trace|
  {
    if i > 0 {
      ClearedNeverZooms(trace[1..], i - 1);
    }
  }

  /** From the start of a session, the initial-load zoom fires at an update exactly when
      that update completed with at least one diagram and no earlier one did. */
  lemma {:induction false} InitialZoomAtFirstLoad(trace: seq<Update>, i: nat)
    requires i < |trace|
    ensures Zooms(true, trace)[i] <==> Loads(trace[i]) && forall j :: 0 <= j < i ==> !Loads(trace[j])
    decreases |trace|
  {
    if i > 0 {
      if Loads(trace[0]) {
        ClearedNeverZooms(trace[1..], i - 1);
      } else {
        InitialZoomAtFirstLoad(trace[1..], i - 1);
        assert forall j :: 0 < j < i ==> trace[1..][j - 1] == trace[j];
      }
    }
  }

  /** The initial-load zoom fires at most once per session. */
  lemma InitialZoomOnce(trace: seq<Update>, i: nat, j: nat)
    requires i < j < |trace|
    ensures !(Zooms(true, trace)[i] && Zooms(true, trace)[j])
  {
    InitialZoomAtFirstLoad(trace, i);
    InitialZoomAtFirstLoad(trace, j);
  }

  /** The lists the server sends carry distinct indices, which is what the reconciler's
      per-diagram guarantees ask of their input. */
  lemma ServerListsDistinct(markdownFile: Option<string>, readFile: Reader, render: Renderer)
    ensures var r := ProcessResult(markdownFile, readFile, render);
            r.Some? ==> DistinctIndices(r.value)
  {
    var r := ProcessResult(markdownFile, readFile, render);
    if r.Some? {
      var content := readFile(markdownFile.value).value;
      forall a, b | 0 <= a < b < |r.value|
        ensures r.value[a].index != r.value[b].index
      {
        RenderedIncreasing(Extractor.Blocks(content), render, a, b);
      }
    }
  }

  /** The `App` component's state: the mounted editor and the initial-load flag. */
  class App {
    var editor: Editor?
    var initialLoad: bool

    constructor()
      ensures editor == null && initialLoad
    {
      editor := null;
      initialLoad := true;
    }

    /** `handleMount`: keeps the editor tldraw hands over. */
    method Mount(e: Editor)
      modifies this
      ensures editor == e && initialLoad == old(initialLoad)
    {
      editor := e;
    }

    /** `ws.onmessage` for an already parsed message. Returns whether the message was
        acted on, whether `updateDiagrams` completed, whether its own `zoomToFit`
        fired, and whether the handler's initial-load `zoomToFit` fired. */
    method OnMessage(message: Message, dims: Dims) returns (accepted: bool, completed: bool, zoomed: bool, initialZoom: bool)
      modifies this, editor
      ensures editor == old(editor)
      ensures accepted <==> Accepted(message, old(editor) != null)
      ensures !accepted ==> !completed && !zoomed && !initialZoom && initialLoad == old(initialLoad)
      ensures !accepted && editor != null ==> editor.State() == old(editor.State())
      ensures accepted ==>
                && Outcome(editor.State(), completed, zoomed) == Reconcile(old(editor.State()), message.diagrams.value, dims)
                && FlagStep(initialZoom, initialLoad) == AfterUpdate(old(initialLoad), completed, |message.diagrams.value|)
    {
      accepted := message.kind == UpdateKind && message.diagrams.Some? && editor != null;
      if !accepted {
        return false, false, false, false;
      }
      var e := editor;
      var ds := message.diagrams.value;
      completed, zoomed := UpdateDiagrams(e, ds, dims);
      initialZoom := false;
      if !completed {
        // updateDiagrams rejected: the rest of the handler does not run
        return;
      }
      if initialLoad && |ds| > 0 {
        initialZoom := true;
        initialLoad := false;
      }
    }
  }
}
