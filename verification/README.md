# Collaborative whiteboard: snapshot relay and client session

A Dafny model of the synchronisation logic of a shared whiteboard, with proofs
of the behaviour it promises.

- The **server** keeps one in-memory slot, `whiteboardHistory`, which starts out `null`.
  - When a socket connects, the server replays the slot to that socket, but only if the slot's value is truthy.
  - Every `canvas-update` a socket sends overwrites the slot unconditionally (last writer wins).
  - The update is then re-emitted to every other socket.
- The **browser session** has three tool modes: Draw, Erase and Select.
  - The mode is encoded as the pair `(isDrawing, isEraser)`.
  - The brush is derived from the mode: white and 20 wide in Erase, the chosen colour and 5 wide otherwise.
  - The colour picker switches Erase back to Draw.
  - An `isRemoteUpdate` guard is raised while a snapshot from the server is being loaded. The canvas' change handler does not emit while it is up, so an applied snapshot is never sent back.

Every event is a pure function from an immutable state to a new state, together
with the messages the event sends. Traces of events are folded by `Run`.

Files:
- `protocol.dfy` (`Protocol`) holds the payload type and the event name. Payloads are a coarse JavaScript value, so the server's truthiness test can be stated. Snapshots are opaque `Object`s.
- `relay.dfy` (`Relay`) models the server's `connection` handler.
- `session.dfy` (`Session`) models the session. This covers the toolbar, the brush effect, the change handler and `handleRemoteUpdate`.
- `whiteboard.dfy` (`Whiteboard`) connects the session and the relay. With it, one local edit and one newcomer's join are followed end to end.

Three facts about the server code shape the model:
- Replay and rebroadcast share the event name `canvas-update` (backend/server.js:30, 39).
- Replay is gated on JavaScript truthiness (backend/server.js:29). A falsy payload such as `0`, `""` or `false` is stored, but it is never replayed.
- The server registers no disconnect handler (backend/server.js:25-41). Disconnection is socket.io's removal of the socket from the broadcast list.

Connections are kept as a duplicate-free sequence in connection order, as
socket.io keeps its sockets in an insertion-ordered map. A broadcast is
therefore a sequence of deliveries whose order is determined.

## Model

| member | source | states |
|---|---|---|
| Protocol.FalsyValues | backend/server.js:29 | A stored value is replayed exactly when it is not one of `undefined`, `null`, `false`, `0` or `""`. |
| Relay.OnConnect | backend/server.js:25-31 | Connecting leaves the slot unchanged and adds the newcomer to the broadcast list. It sends one message exactly when the slot is truthy. That message goes only to the newcomer, as `canvas-update`, with the stored value unchanged. |
| Relay.Broadcast | backend/server.js:39 | Every delivery carries the payload unchanged as `canvas-update` to a connected socket other than the sender. The sender and unconnected ids receive nothing. With distinct connections, each other socket receives exactly one copy. |
| Relay.OnUpdate | backend/server.js:34-40 | The slot becomes the received payload, with no merge or check. The connection list is unchanged. The sender's inbox is empty, and every other connected socket's inbox is exactly `[data]`. |
| Relay.OnDisconnect | backend/server.js:25-41 | A departing socket leaves the broadcast list. The slot is untouched, nothing is sent, and the connections stay distinct. |
| Relay.Remove | backend/server.js:25-41 | Removing a socket id keeps exactly the other ids, and the list stays duplicate-free. |
| Relay.Run | backend/server.js:23-41 | Any trace of connects, updates and disconnects keeps the connection list duplicate-free. |
| Relay.NoUpdateKeepsHistory | backend/server.js:25-31 | A trace with no updates leaves the slot as it was. Connecting and disconnecting never modify it. |
| Relay.LastWriterWins | backend/server.js:34-36 | After any trace, the slot holds the payload of the last update in the trace, whoever sent it. |
| Relay.ReplayAfterTrace | backend/server.js:29-36 | A socket connecting after a trace is sent exactly `[last update's payload]` when that payload is truthy. Otherwise it is sent nothing. |
| Relay.ReplayNothingBeforeFirstUpdate | backend/server.js:23-31 | A socket connecting before any update is sent nothing. |
| Relay.UpdatesArriveInOrder | backend/server.js:25-40 | Take a connected socket, and any trace in which it neither reconnects nor leaves, while others may come and go. The socket stays connected, and others joining or leaving send it nothing. It receives every other socket's update exactly once, in the order the server received them, and never its own. |
| Relay.DisconnectIsolation | backend/server.js:39 | After a socket leaves, an update's deliveries are the earlier deliveries minus that socket's copy. The remaining sockets are unaffected. |
| Session.ModeOf | frontend/src/App.tsx:16-17 | A flag pair stands for no mode exactly when it is (not drawing, eraser). |
| Session.BrushFor | frontend/src/App.tsx:56-64 | The brush derived from the eraser flag and the chosen colour is white and 20 wide in Erase. Otherwise it is the chosen colour and 5 wide. `handleRemoteUpdate` restores the same brush (lines 115-121). |
| Session.BrushFollowsMode | frontend/src/App.tsx:53-66 | Between inputs, a mounted canvas' brush is a function of the mode. It is the white 20-wide eraser in Erase and the 5-wide pen of the chosen colour in Draw and Select. |
| Session.DrawLit | frontend/src/App.tsx:183 | The Draw button is lit exactly when the session is in Draw. |
| Session.EraserLit | frontend/src/App.tsx:193 | The Eraser button is lit exactly in Erase and for the flag pair that stands for no mode. |
| Session.MoveLit | frontend/src/App.tsx:203 | The Move button is lit exactly in Select and for the flag pair that stands for no mode. |
| Session.HighlightMatchesMode | frontend/src/App.tsx:183-203 | Exactly the current mode's button is highlighted if and only if the flags stand for that mode. The unreachable pair would highlight both Eraser and Move. |
| Session.BrushEffect | frontend/src/App.tsx:53-66 | The effect reruns when the colour, the eraser flag or the canvas changed, and then the brush is the mode's brush. Otherwise the brush is kept. Nothing but the brush changes. |
| Session.Activate | frontend/src/App.tsx:70-89 | With no canvas, the action is a no-op. Otherwise each action reaches its own mode, drawing mode equals `isDrawing`, and the brush, content, colour and guard are untouched. |
| Session.Press | frontend/src/App.tsx:70-89 | After a toolbar press plus the brush effect, the session is in the pressed mode and drawing mode equals `isDrawing`. A press on an unmounted session is a no-op. Agreement between canvas and mode is preserved. |
| Session.PressIdempotent | frontend/src/App.tsx:70-89 | Pressing a toolbar button twice equals pressing it once. |
| Session.PickColor | frontend/src/App.tsx:169-172 | Picking a colour always sets `brushColor`, and an active eraser becomes Draw. Other modes keep their flags. Afterwards the brush is the pen of the chosen colour, 5 wide. |
| Session.PickColorIdempotent | frontend/src/App.tsx:169-172 | Picking the same colour twice equals picking it once. |
| Session.Mount | frontend/src/App.tsx:23-38 | Mounting creates a blank canvas in drawing mode with the mode's brush and changes nothing else. A mounted session is left alone. |
| Session.Broadcast | frontend/src/App.tsx:40-44 | The change handler emits if and only if the canvas exists and the guard is down. It emits at most once, a `canvas-update` carrying the canvas' serialisation. |
| Session.LocalChange | frontend/src/App.tsx:40-47 | A local edit replaces the canvas content. The edited scene is emitted exactly when the guard is down, and nothing else changes. |
| Session.FireHooks | frontend/src/App.tsx:40-47 | Change events fired while the guard is up emit nothing. With the guard down, each change event emits one copy of the content. |
| Session.HandleRemoteUpdate | frontend/src/App.tsx:106-130 | Applying a remote snapshot emits nothing, and the guard is down afterwards whether the load succeeded or threw. Mode flags and colour are unchanged. On success, the canvas shows the snapshot, drawing mode equals `isDrawing`, and the brush is the mode's brush. Without a canvas no listener exists. |
| Session.InvStep | frontend/src/App.tsx:53-130 | Every input preserves four facts: the guard is down between inputs, the flags stand for a mode, an unmounted session is in Draw, and the canvas agrees with the mode. |
| Session.InvUnmounted | frontend/src/App.tsx:16-20 | The first render satisfies the session invariant. |
| Session.Run | frontend/src/App.tsx:40-134 | Any trace of inputs preserves the session invariant. |
| Session.Reachable | frontend/src/App.tsx:70-89 | From the first render, every trace reaches only Draw, Erase or Select. Exactly one button is lit, the canvas agrees with the mode, and the guard is down. |
| Session.ReceivingNeverEmits | frontend/src/App.tsx:106-133 | Any sequence of remote snapshots, whether their loads succeed or fail, makes the session emit nothing. |
| Whiteboard.DeliverOne | frontend/src/App.tsx:106-133 | A delivery emits nothing and leaves every other session unchanged. A session with no canvas has no listener yet and is unchanged. A mounted session shows the payload if its load succeeds, with the canvas agreeing with the mode. If the load throws, it shows what the load left. Session invariants are preserved either way. |
| Whiteboard.Deliver | frontend/src/App.tsx:106-133 | Deliveries applied to their recipients' sessions emit nothing. Sessions with no delivery and sessions with no canvas are unchanged. Each mounted recipient shows the last payload addressed to it. Session invariants are preserved. |
| Whiteboard.RelayScene | backend/server.js:34-40 | One uploaded scene is stored by the server. When every recipient's load succeeds, every other connected session with a canvas shows it. The sender and sessions with no canvas are unchanged, and nothing is echoed. |
| Whiteboard.EditConverges | backend/server.js:34-40 | After a local edit on a mounted canvas, the server stores the scene. When every recipient's load succeeds, every connected mounted session shows it. Connected sessions not mounted yet are unchanged. Invariants still hold, and applying the edit caused no further emit. An edit on a session with no canvas changes nothing. |
| Whiteboard.Join | frontend/src/App.tsx:8-38 | The code connects at module load and mounts afterwards. Take the interleaving in which the replay arrives before the canvas is mounted. A session joining this way emits nothing and ends up connected with a blank canvas. The server's slot is unchanged. |
| Whiteboard.JoinLosesReplay | frontend/src/App.tsx:103-133 | When the slot holds a truthy scene other than the blank one, the server does send it to the newcomer, but after `Join` the newcomer does not show it. |
| Whiteboard.JoinShowsHistory | backend/server.js:25-31 | A session that mounts and subscribes before connecting shows the stored scene if it is truthy, and a blank canvas otherwise. Nobody else is affected, nothing is emitted, and consistent sessions stay consistent. |

## Findings

| source | as written | input that shows it | evidently intended | confidence | as-written member | corrected member |
|---|---|---|---|---|---|---|
| frontend/src/App.tsx:8 | The socket connects when the module loads. The `canvas-update` listener is only subscribed once the canvas is mounted (lines 103-133). A replay (backend/server.js:29-30) that arrives before that has no listener and is dropped. | The slot holds a truthy scene other than the blank canvas, and the newcomer's replay arrives before its canvas is mounted. The newcomer shows a blank canvas until the next update. | A newcomer shows the stored scene. | low: depends on timing; not executed | Whiteboard.JoinLosesReplay | Whiteboard.JoinShowsHistory |

## Left out

- The transport, CORS and server start-up (backend/server.js:1-20, 77-81) are left out. Sends are delivery records to abstract socket ids. Delivery failures are not modelled, because socket.io handles them.
- The `/generate-image` endpoint (backend/server.js:43-75) and `handleGenerateAI` (frontend/src/App.tsx:137-154) are left out. They make network calls, read an environment variable and use `Math.random`.
- `handleSave` (frontend/src/App.tsx:91-100) and all layout are left out, apart from the three highlight conditions. They are DOM work.
- The fabric.js rendering, serialisation and `renderAll` are left out.
  - The canvas is reduced to drawing mode, brush and opaque content.
  - `loadFromJSON` is a parameter that either succeeds or throws.
  - The `freeDrawingBrush` null checks (frontend/src/App.tsx:54, 114) always pass, because the mount effect installs a brush.
- React scheduling is simplified.
  - Setters are immediate.
  - The brush effect runs right after the render whose dependencies changed.
  - A remote apply is one atomic step.
  - Stale closures are not modelled.
  - Listener re-subscription (frontend/src/App.tsx:132-133) and canvas disposal (line 49) are not modelled.
- Overlapping remote applies are not modelled. A second snapshot can arrive while an earlier load is still pending, and the earlier `finally` would then lower the guard early. Likewise, a user edit during a pending load is not modelled.
- JavaScript numbers are integers here, so `NaN` (also falsy) is not a payload.
- Session.HandleRemoteUpdate: assumes a load, successful or not, changes only the canvas content, never its drawing mode or brush. This is why a failed load keeps the session consistent.
- Whiteboard.Deliver: models only successful loads at the recipients. Failed loads are covered per delivery by Whiteboard.DeliverOne and per session by Session.HandleRemoteUpdate.
- Whiteboard.EditConverges: promises convergence only when every recipient's load succeeds, because it is built on Whiteboard.Deliver. A recipient whose load throws keeps what the load left (Whiteboard.DeliverOne). A session that is connected but not mounted yet is not promised to show the edited scene either, because it has no listener. It shows the scene only after a later update.
- Whiteboard.RelayScene: promises that the other mounted sessions show the scene only when every recipient's load succeeds, for the same reason.
