/**
  One browser's whiteboard session: the tool mode (Draw, Erase or Select) and
  the brush it implies, and the `isRemoteUpdate` guard that keeps a snapshot
  applied from the server from being sent straight back. Every input is a pure
  step returning the new session and the `canvas-update` emits it causes.
 */
module Session {
  import opened Protocol

  const White: string := "#ffffff"
  const Black: string := "#000000"
  const PenWidth: nat := 5
  const EraserWidth: nat := 20

  /** The serialisation of a freshly created, empty canvas. */
  const BlankScene: JsValue := Object(0)

  /** The canvas' free-drawing brush. */
  datatype Brush = Brush(color: string, width: nat)

  /** The parts of the drawing canvas this logic touches: whether free drawing is
      on, the brush, and the content `toJSON` would serialise. */
  datatype Canvas = Canvas(drawingMode: bool, brush: Brush, content: JsValue)

  /** The session: the canvas once mounted, the React state, and the guard. */
  datatype Client = Client(
    canvas: Option<Canvas>,
    isDrawing: bool,
    isEraser: bool,
    brushColor: string,
    isRemoteUpdate: bool)

  /** A `socket.emit` from this client. */
  datatype Emit = Emit(event: string, payload: JsValue)

  /** The session after one input, with what it emitted. */
  datatype Reaction = Reaction(client: Client, emits: seq<Emit>)

  /** How the canvas' asynchronous `loadFromJSON` settled. `Threw` carries what
      the canvas content was left as. */
  datatype LoadOutcome = Loaded | Threw(partial: JsValue)

  datatype Mode = Draw | Erase | Select

  datatype Input =
    | MountCanvas
    | Tool(mode: Mode)
    | Color(color: string)
    | Edit(scene: JsValue)
    | Receive(data: JsValue, hooks: nat, outcome: LoadOutcome)

  /** The state of the first render, before the canvas exists. */
  const Unmounted: Client := Client(None, true, false, Black, false)

  // ---------------------------------------------------------------------------
  // Modes, brushes and the toolbar highlight

  /** The tool mode a pair of flags stands for; the pair (not drawing, eraser)
      stands for none. */
  function ModeOf(isDrawing: bool, isEraser: bool): (m: Option<Mode>)
    ensures m == None <==> !isDrawing && isEraser
  {
    if isEraser then (if isDrawing then Some(Erase) else None)
    else if isDrawing then Some(Draw) else Some(Select)
  }

  predicate InMode(s: Client, m: Mode) {
    ModeOf(s.isDrawing, s.isEraser) == Some(m)
  }

  /** The brush a mode calls for: white and wide for the eraser, the chosen
      colour and normal width otherwise. */
  function BrushFor(isEraser: bool, color: string): (b: Brush)
    ensures isEraser ==> b.color == White
    ensures !isEraser ==> b.color == color
    ensures b.width == EraserWidth <==> isEraser
    ensures !isEraser ==> b.width == PenWidth
  {
    if isEraser then Brush(White, EraserWidth) else Brush(color, PenWidth)
  }

  /** The canvas agrees with the React state: free drawing is on exactly when
      `isDrawing`, and the brush is the one the mode calls for. */
  predicate Synced(s: Client) {
    s.canvas.Some? ==>
      && s.canvas.value.drawingMode == s.isDrawing
      && s.canvas.value.brush == BrushFor(s.isEraser, s.brushColor)
  }

  /** The three toolbar highlight conditions. Each lights in its own mode; the
      Eraser and Move conditions also light for the pair that is no mode. */
  predicate DrawLit(s: Client)
    ensures DrawLit(s) <==> InMode(s, Draw)
  {
    s.isDrawing && !s.isEraser
  }

  predicate EraserLit(s: Client)
    ensures EraserLit(s) <==> InMode(s, Erase) || ModeOf(s.isDrawing, s.isEraser) == None
  {
    s.isEraser
  }

  predicate MoveLit(s: Client)
    ensures MoveLit(s) <==> InMode(s, Select) || ModeOf(s.isDrawing, s.isEraser) == None
  {
    !s.isDrawing
  }

  function Highlighted(s: Client): set<Mode> {
    (if DrawLit(s) then {Draw} else {})
    + (if EraserLit(s) then {Erase} else {})
    + (if MoveLit(s) then {Select} else {})
  }

  /** Exactly one button is highlighted, and it is the current mode's, exactly
      when the flags stand for a mode; the unreachable pair lights two. */
  lemma HighlightMatchesMode(s: Client, m: Mode)
    ensures InMode(s, m) <==> Highlighted(s) == {m}
    ensures ModeOf(s.isDrawing, s.isEraser) == None ==> Highlighted(s) == {Erase, Select}
  {
    if Highlighted(s) == {m} {
      assert m in Highlighted(s);
    }
  }

  // ---------------------------------------------------------------------------
  // Effects and toolbar actions

  /** The brush effect: React re-runs it after a render in which `brushColor`,
      `isEraser` or the canvas itself changed, and it then sets the brush from
      the mode. Nothing else changes. */
  function BrushEffect(prev: Client, next: Client): (r: Client)
    ensures r.(canvas := next.canvas) == next
    ensures r.canvas.None? <==> next.canvas.None?
    ensures r.canvas.Some? ==>
      r.canvas.value.(brush := next.canvas.value.brush) == next.canvas.value
    ensures r.canvas.Some? ==>
      if prev.canvas.None? || prev.brushColor != next.brushColor || prev.isEraser != next.isEraser
      then r.canvas.value.brush == BrushFor(next.isEraser, next.brushColor)
      else r.canvas.value.brush == next.canvas.value.brush
  {
    if next.canvas.Some?
       && (prev.canvas.None? || prev.brushColor != next.brushColor || prev.isEraser != next.isEraser)
    then next.(canvas := Some(next.canvas.value.(brush := BrushFor(next.isEraser, next.brushColor))))
    else next
  }

  /** `activateDraw`, `activateEraser`, `activateSelect`: with no canvas yet they
      do nothing; otherwise they set both flags and the canvas' drawing mode. */
  function Activate(s: Client, m: Mode): (r: Client)
    ensures s.canvas.None? ==> r == s
    ensures s.canvas.Some? ==>
      && InMode(r, m)
      && r.canvas.Some?
      && r.canvas.value.drawingMode == r.isDrawing
      && r.canvas.value.brush == s.canvas.value.brush
      && r.canvas.value.content == s.canvas.value.content
    ensures r.brushColor == s.brushColor && r.isRemoteUpdate == s.isRemoteUpdate
  {
    if s.canvas.None? then s
    else
      var c := s.canvas.value;
      match m
      case Draw => s.(isDrawing := true, isEraser := false, canvas := Some(c.(drawingMode := true)))
      case Erase => s.(isDrawing := true, isEraser := true, canvas := Some(c.(drawingMode := true)))
      case Select => s.(isDrawing := false, isEraser := false, canvas := Some(c.(drawingMode := false)))
  }

  /** A toolbar button press, followed by the render and the brush effect. */
  function Press(s: Client, m: Mode): (r: Client)
    ensures s.canvas.None? ==> r == s
    ensures s.canvas.Some? ==>
      && InMode(r, m)
      && r.canvas.Some?
      && r.canvas.value.drawingMode == r.isDrawing
      && r.canvas.value.content == s.canvas.value.content
    ensures r.brushColor == s.brushColor && r.isRemoteUpdate == s.isRemoteUpdate
    ensures Synced(s) ==> Synced(r)
  {
    BrushEffect(s, Activate(s, m))
  }

  /** Pressing the same button twice is the same as pressing it once. */
  lemma PressIdempotent(s: Client, m: Mode)
    ensures Press(Press(s, m), m) == Press(s, m)
  {
  }

  /** The colour picker: the colour is always taken; if the eraser was on, the
      pen comes back (`activateDraw`), and then the brush effect runs. */
  function PickColor(s: Client, color: string): (r: Client)
    ensures r.brushColor == color
    ensures s.isEraser && s.canvas.Some? ==> InMode(r, Draw)
    ensures !s.isEraser || s.canvas.None? ==>
      r.isDrawing == s.isDrawing && r.isEraser == s.isEraser
    ensures r.isRemoteUpdate == s.isRemoteUpdate
    ensures r.canvas.None? <==> s.canvas.None?
    ensures s.canvas.Some? ==> r.canvas.value.content == s.canvas.value.content
    ensures Synced(s) ==> Synced(r)
    ensures Synced(s) && r.canvas.Some? ==> r.canvas.value.brush == Brush(color, PenWidth)
  {
    var chosen := s.(brushColor := color);
    BrushEffect(s, if s.isEraser then Activate(chosen, Draw) else chosen)
  }

  /** Picking the same colour twice is the same as picking it once. */
  lemma PickColorIdempotent(s: Client, color: string)
    ensures PickColor(PickColor(s, color), color) == PickColor(s, color)
  {
  }

  /** The mount effect: creates the canvas in drawing mode with a pen of the
      current colour, then the brush effect runs because the canvas changed.
      A mounted session is left alone. */
  function Mount(s: Client): (r: Client)
    ensures r.canvas.Some?
    ensures s.canvas.Some? ==> r == s
    ensures s.canvas.None? ==>
      && r.canvas.value.drawingMode
      && r.canvas.value.content == BlankScene
      && r.canvas.value.brush == BrushFor(s.isEraser, s.brushColor)
      && r.(canvas := None) == s
  {
    if s.canvas.Some? then s
    else BrushEffect(s, s.(canvas := Some(Canvas(true, Brush(s.brushColor, PenWidth), BlankScene))))
  }

  // ---------------------------------------------------------------------------
  // Echo suppression

  /** The `path:created` / `object:modified` handler: it sends the canvas'
      serialisation unless a remote snapshot is being applied. */
  function Broadcast(s: Client): (e: seq<Emit>)
    ensures |e| <= 1
    ensures e != [] <==> s.canvas.Some? && !s.isRemoteUpdate
    ensures forall x :: x in e ==>
      s.canvas.Some? && x.event == CanvasUpdate && x.payload == s.canvas.value.content
  {
    if s.canvas.Some? && !s.isRemoteUpdate then [Emit(CanvasUpdate, s.canvas.value.content)] else []
  }

  /** A local edit: the user's stroke or move changes the canvas content, and the
      canvas fires its change event. */
  function LocalChange(s: Client, scene: JsValue): (r: Reaction)
    ensures r.emits == (if s.canvas.Some? && !s.isRemoteUpdate then [Emit(CanvasUpdate, scene)] else [])
    ensures r.client.(canvas := s.canvas) == s
    ensures s.canvas.Some? ==> r.client.canvas == Some(s.canvas.value.(content := scene))
    ensures s.canvas.None? ==> r.client == s
  {
    if s.canvas.None? then Reaction(s, [])
    else
      var edited := s.(canvas := Some(s.canvas.value.(content := scene)));
      Reaction(edited, Broadcast(edited))
  }

  /** What `hooks` change events fired on the canvas emit, all in state `s`. */
  function FireHooks(s: Client, hooks: nat): (e: seq<Emit>)
    ensures s.isRemoteUpdate ==> e == []
    ensures !s.isRemoteUpdate && s.canvas.Some? ==>
      |e| == hooks && forall x :: x in e ==> x == Emit(CanvasUpdate, s.canvas.value.content)
  {
    if hooks == 0 then [] else Broadcast(s) + FireHooks(s, hooks - 1)
  }

  /** `handleRemoteUpdate`: raise the guard, load the snapshot (during which the
      canvas may fire `hooks` change events), on success restore the drawing
      mode and brush from the React state, and lower the guard whatever the
      outcome. Before the canvas exists no listener is registered. */
  function HandleRemoteUpdate(s: Client, data: JsValue, hooks: nat, outcome: LoadOutcome): (r: Reaction)
    ensures r.emits == []
    ensures s.canvas.Some? ==> !r.client.isRemoteUpdate
    ensures s.canvas.None? ==> r.client == s
    ensures r.client.isDrawing == s.isDrawing && r.client.isEraser == s.isEraser
    ensures r.client.brushColor == s.brushColor
    ensures r.client.canvas.Some? <==> s.canvas.Some?
    ensures s.canvas.Some? && outcome.Loaded? ==>
      r.client.canvas.value.content == data && Synced(r.client)
    ensures s.canvas.Some? && outcome.Threw? ==>
      && r.client.canvas.value.content == outcome.partial
      && r.client.canvas.value.drawingMode == s.canvas.value.drawingMode
      && r.client.canvas.value.brush == s.canvas.value.brush
  {
    if s.canvas.None? then Reaction(s, [])
    else
      var busy := s.(isRemoteUpdate := true);
      var echoes := FireHooks(busy, hooks);
      var c := s.canvas.value;
      var settled :=
        match outcome
        case Loaded => c.(content := data, drawingMode := s.isDrawing,
                          brush := BrushFor(s.isEraser, s.brushColor))
        case Threw(partial) => c.(content := partial);
      Reaction(busy.(canvas := Some(settled), isRemoteUpdate := false), echoes)
  }

  // ---------------------------------------------------------------------------
  // Traces

  function React(s: Client, i: Input): Reaction {
    match i
    case MountCanvas => Reaction(Mount(s), [])
    case Tool(m) => Reaction(Press(s, m), [])
    case Color(color) => Reaction(PickColor(s, color), [])
    case Edit(scene) => LocalChange(s, scene)
    case Receive(data, hooks, outcome) => HandleRemoteUpdate(s, data, hooks, outcome)
  }

  /** What holds between inputs: the guard is down, the flags stand for a mode
      (Draw before the canvas exists), and the canvas agrees with them. */
  predicate Inv(s: Client) {
    && !s.isRemoteUpdate
    && ModeOf(s.isDrawing, s.isEraser).Some?
    && (s.canvas.None? ==> InMode(s, Draw))
    && Synced(s)
  }

  /** Between inputs the brush is a function of the mode: the 20-wide white
      eraser in Erase, the 5-wide pen of the chosen colour in Draw and Select. */
  lemma BrushFollowsMode(s: Client)
    requires Inv(s) && s.canvas.Some?
    ensures InMode(s, Erase) ==> s.canvas.value.brush == Brush(White, EraserWidth)
    ensures !InMode(s, Erase) ==> s.canvas.value.brush == Brush(s.brushColor, PenWidth)
  {
  }

  lemma InvUnmounted()
    ensures Inv(Unmounted)
  {
  }

  lemma InvStep(s: Client, i: Input)
    requires Inv(s)
    ensures Inv(React(s, i).client)
  {
    match i
    case MountCanvas =>
    case Tool(m) =>
    case Color(color) =>
    case Edit(scene) =>
    case Receive(data, hooks, outcome) =>
  }

  /** Runs a trace of inputs; `emits` is everything sent, in order. */
  function Run(s: Client, trace: seq<Input>): (r: Reaction)
    ensures Inv(s) ==> Inv(r.client)
    decreases |trace|
  {
    if trace == [] then Reaction(s, [])
    else
      var first := React(s, trace[0]);
      var rest := Run(first.client, trace[1..]);
      assert Inv(s) ==> Inv(first.client) by {
        if Inv(s) { InvStep(s, trace[0]); }
      }
      Reaction(rest.client, first.emits + rest.emits)
  }

  /** Only the three modes are reachable, each lights exactly its own button,
      and the canvas always agrees with the mode. */
  lemma Reachable(trace: seq<Input>)
    ensures var s := Run(Unmounted, trace).client;
      && ModeOf(s.isDrawing, s.isEraser).Some?
      && |Highlighted(s)| == 1
      && Synced(s)
      && !s.isRemoteUpdate
  {
    InvUnmounted();
    var s := Run(Unmounted, trace).client;
    HighlightMatchesMode(s, ModeOf(s.isDrawing, s.isEraser).value);
  }

  /** No echo loop: applying any number of remote snapshots, whether their loads
      succeed or fail, never makes this session emit. */
  lemma {:induction false} ReceivingNeverEmits(s: Client, trace: seq<Input>)
    requires forall j :: 0 <= j < |trace| ==> trace[j].Receive?
    ensures Run(s, trace).emits == []
    decreases |trace|
  {
    if trace != [] {
      var first := React(s, trace[0]);
      assert trace[0].Receive?;
      ReceivingNeverEmits(first.client, trace[1..]);
    }
  }
}
