# Aroma signaling core in Dafny

This project models the presence and call-signaling protocol of Aroma, a small
WebRTC video-call service with a Python (`aiohttp` + `python-socketio`) server
and a browser page.

- **Server roster and router** (`Signaling`). The server keeps an ordered
  roster `existingSockets` of connected socket ids. `connect` sends the
  newcomer the roster and announces it to everybody else. `disconnect`
  removes the id with `list.remove` and broadcasts `remove-user`. The
  `call-user`, `make-answer` and `reject-call` handlers each forward one event
  to the client named by its target, or to every client when that target is
  empty. Each handler is a pure step from a roster to a new roster plus
  the list of emitted `(message, target)` records. A handler that raises (a
  missing payload key, or `list.remove` of an absent id) is an `Err`. It
  changes nothing and emits nothing.
- **Frame transform dispatch** (`Frames`). `VideoTransformTrack.recv` pulls a
  frame from the one track it wraps. It applies the cartoon, edges or rotate
  pipeline, or passes the frame through for any other name. The pipelines are
  opaque functions handed in as a `Filters` record.
- **Browser page** (`Client`). The page keeps its list of shown users and two
  flags, `getCalled` and `isAlreadyCalling`. It also builds the JSON body that
  `callUser` posts. The results of `confirm()` and `createAnswer()` are inputs.
- **Both sides together** (`Presence`). A connected page's list equals the
  server roster without the page's own id. A call request from a client that
  emits `call-user` makes one round trip, caller → server → callee → server →
  caller.

Shared helpers are in `Results` (`Option`, `Result`) and `Seqs` (no-duplicates,
first index, remove-first, remove-all).

Behaviour worth noting:

- `disconnect` of an id that is not in the roster raises `ValueError`. It is
  not a silent no-op, and no `remove-user` is sent.
- There is no session registry and no relay of another peer's track. Each
  `VideoTransformTrack` wraps only its own inbound track.
- The server never emits `create-connection`. The page's handler for it is
  modelled, but only as an input event.
- The page itself never emits `call-user`. Its `callUser` POSTs to
  `/call-user` (public/scripts/index.js:86), which is routed to the HTTP
  `offer()` handler (src/server.py:204), and that handler's `call-made` emit
  is commented out (src/server.py:139-142). So with this page alone,
  `call-made`, `make-answer`, `reject-call` and `answer-made` are never
  exchanged, and the `getCalled`/`isAlreadyCalling` handlers never run. They
  are modelled as the code would behave if another client emitted
  `call-user`.
- The forwarding handlers pass `to=` to `sio.emit`, which sends to
  `to or room`. An empty target string is therefore falsy, and the event
  goes to every client rather than to one (`Signaling.Addressed`).

The page calls back on `answer-made` with `callUser(data.socket)`, so
`is_caller` and `mode` are `undefined`. `JSON.stringify` then leaves both keys
out of the body (`Client.CallBodies`). The server's `on_track` reads
`params["video_transform"]` (src/server.py:125), so that read would raise
`KeyError`. `on_track` is not part of this model.

## Model

| member | source | states |
|---|---|---|
| Signaling.OnConnect | src/server.py:175-185 | A new sid is sent exactly the roster as it was before the call. The sid is appended at the end. Every other client is sent exactly `[sid]`. The two emits come in that order. A sid already present changes nothing and emits nothing. No duplicates appear. |
| Signaling.OnDisconnect | src/server.py:187-192 | An absent sid raises `ValueError`. A present sid is removed at its first position, and the others keep their order. Every client, the leaving one included, is sent exactly `remove-user{socketId: sid}`. Without duplicates, the sid is gone afterwards. |
| Signaling.OnCallUser | src/server.py:155-160 | It raises `KeyError` on a missing `offer` (checked first) or a missing `to`. Otherwise every client that `to` addresses is sent exactly `call-made{offer, socket: sid}` and no other client is sent anything. A non-empty `to` addresses that client alone; an empty one addresses everybody. |
| Signaling.OnMakeAnswer | src/server.py:162-167 | It raises `KeyError` on a missing `answer` or a missing `to`. Otherwise every client that `to` addresses is sent exactly `answer-made{socket: sid, answer}`, with the same addressing as `call-user`. |
| Signaling.OnRejectCall | src/server.py:169-173 | It raises `KeyError` on a missing `from`. Otherwise every client that `from` addresses is sent exactly `call-rejected{socket: sid}`, with the same addressing as `call-user`. |
| Signaling.Step | src/server.py:155-192 | The forwarding handlers leave the roster unchanged and emit exactly one event. No handler introduces a duplicate. |
| Signaling.Apply | src/server.py:155-192 | A handler that completes yields exactly its roster and emissions. A handler that raises leaves the roster as it was and emits nothing. No duplicates appear. |
| Signaling.Run | src/server.py:175-192 | Starting without duplicates, any sequence of events keeps the roster free of duplicates. |
| Signaling.RosterFollowsConnections | src/server.py:175-192 | From the empty roster (line 21), after any sequence of events the roster has no duplicates. It holds exactly the ids that are connected according to a reference definition that does not use the roster. They are ordered by the event that connected them. |
| Seqs.RemoveFirst | src/server.py:189 | `list.remove` deletes the first occurrence and keeps the rest in order. Without the element, the list is unchanged. |
| Frames.Transform | src/server.py:41-93 | The names `cartoon`, `edges` and `rotate` give a new frame whose picture is the respective pipeline's output and whose `pts`/`time_base` are the input's. Any other name returns the input frame itself. |
| Frames.Recv | src/server.py:38-93 | A pull on an ended track fails with `TrackEnded`. Otherwise it consumes exactly one inbound frame, returns that frame run through the dispatch on the transform name (so with the inbound timing, and the frame itself for a non-pipeline name), and keeps the transform name. |
| Frames.Drain | src/server.py:33-93 | Pulling until the end yields one output frame per inbound frame, in order, each with the inbound timing. With a non-pipeline name the output is exactly the inbound frames. |
| Client.UpdateUserList | public/scripts/index.js:114-125 | Existing entries are kept as a prefix and are never reordered or removed. Every appended id comes from the input and was not shown before. Every input id ends up shown. No duplicates appear. |
| Client.AppendsInInputOrder | public/scripts/index.js:117-124 | The appended ids come in the order of their first occurrence in the input. |
| Client.AppendedBefore | public/scripts/index.js:117-124 | For any two appended positions, the earlier one holds the id that occurs first in the input. |
| Client.UpdateIdempotent | public/scripts/index.js:118-119 | Applying the same list twice shows what applying it once shows. |
| Client.UpdateKnown | public/scripts/index.js:118-119 | A list whose ids are all shown already changes nothing. |
| Client.UpdateFresh | public/scripts/index.js:117-123 | Distinct ids none of which is shown are appended exactly as given. |
| Client.OnRemoveUser | public/scripts/index.js:136-142 | A shown id is removed, and the others keep their order. An id that is not shown is a no-op. Without duplicates, the id is gone afterwards. |
| Client.OnCallMade | public/scripts/index.js:144-171 | With `getCalled` false (its initial value, line 3) there is no prompt. With it true the user is asked, and declining emits only `reject-call{from: caller}` and leaves the flag as it was. Otherwise `make-answer{answer, to: caller}` is emitted and `getCalled` becomes true exactly when the awaited answer was produced. If an await rejects, nothing is emitted after the prompt and the flag is unchanged. |
| Client.OnAnswerMade | public/scripts/index.js:173-183 | `callUser(data.socket)` is invoked exactly when the answer was applied and `isAlreadyCalling` was false, and the flag is then true. If applying the answer rejects, nothing happens and the flag is unchanged. |
| Client.Step | public/scripts/index.js:54-59 | A click calls `callUser(id, true, "rotate")`. `create-connection` calls `callUser(data.from, false, "edges")` (lines 133-135). Neither changes the state. No handler introduces a duplicate into the shown list. |
| Client.StepCounts | public/scripts/index.js:144-183 | One handler run prompts once exactly for a `call-made` while `getCalled` is set, and calls back once exactly for an applied `answer-made` while `isAlreadyCalling` is clear. `getCalled` becomes set exactly by an answered `call-made`, and `isAlreadyCalling` exactly by an applied `answer-made`. |
| Client.CallBackAtMostOnce | public/scripts/index.js:173-183 | Over any input sequence there is at most one call-back. There is exactly one when an applied `answer-made` arrives while `isAlreadyCalling` is false. The flag ends true exactly then. |
| Client.PromptsWhileCalled | public/scripts/index.js:144-171 | Once `getCalled` is true, every `call-made` prompts the user and the flag stays true. |
| Client.PromptsAfterFirstAnswer | public/scripts/index.js:144-171 | From `getCalled` false (its initial value, line 3), no `call-made` prompts until the first one whose answer was produced. That one sets the flag, and every later `call-made` prompts. With no answered call, there are no prompts and the flag stays false. |
| Client.RequestBody | public/scripts/index.js:86-95 | Read back key by key, the posted body has `to = socketId`, `from = socket.id`, and `sdp`/`type`/`offer` from the local description. `is_caller` and `video_transform` are present and equal to the arguments exactly when those were passed. |
| Client.CallBodies | public/scripts/index.js:173-183 | The `answer-made` call-back posts to the answerer with neither `is_caller` nor `video_transform`. A click posts `is_caller: true`, `"rotate"`. `create-connection` posts `is_caller: false`, `"edges"`. |
| Presence.MirrorStep | src/server.py:175-192 | While page `c` stays connected, every server step keeps `c`'s shown list equal to the roster without `c`. |
| Presence.MirrorFollowsRoster | src/server.py:175-192 | A page that connects and stays connected shows exactly the other connected ids, in roster order, once it has handled every `update-user-list` and `remove-user` it was sent. |
| Presence.CallRoundTrip | src/server.py:155-173 | A `call-user` from `a` to `b` reaches exactly the clients `b` addresses as `call-made{offer, socket: a}`. `b`'s page replies `reject-call` when asked and declined, `make-answer` with its answer when it produced one, and nothing when the awaits rejected. Each reply `b`'s page actually emits, fed back to the server, reaches exactly the clients `a` addresses, as `call-rejected{socket: b}` or `answer-made{socket: b, answer}`. |

## Left out

- The `offer()` HTTP handler and all of aiortc (`RTCPeerConnection`, SDP handling, `addTrack`, the `track` and `ended` events, the `pcs` list). These are foreign library calls with no visible semantics.
- The OpenCV pixel operations in the cartoon, edges and rotate branches, including the floating-point angle `frame.time * 45`. They are opaque functions of the input frame.
- Frames.Transform: `pts` and `time_base` are plain values. The case where `av` leaves them `None`, which makes `frame.time` `None` and the rotate branch raise, is not modelled.
- Frames.TransformTrack: the transform is a string. A non-string JSON value (`null`, a number) behaves like any unknown name in Python, which takes the passthrough branch, but it is not represented.
- Static file handlers, `on_shutdown`, and the `__main__` host/port setup. These are I/O and bootstrapping.
- Async interleaving, such as the `await` between the membership test and the append in `connect`. Each handler is one atomic step.
- Signaling.OnCallUser: `to` is a string. A JSON `null` arrives as `None`, and `to or room` then broadcasts the event to every client; neither `null` nor any other non-string `to` is represented.
- Signaling.OnMakeAnswer: `to` is a string. A `null` or non-string `to` is not represented, for the same reason as in `call-user`.
- Signaling.OnRejectCall: `from` is a string. A `null` or non-string `from` is not represented, for the same reason as in `call-user`.
- Signaling.OnConnect: the sid issued by the transport is taken to be non-empty, so `to=sid` is modelled as reaching that client alone.
- Client.OnCallMade: the awaited `setRemoteDescription`, `createAnswer` and `setLocalDescription` enter only as one outcome, the produced answer or none. Which of the three rejected, and the unhandled rejection it leaves behind, are not modelled.
- Signaling.Reaches: emits are modelled by addressing (`to`, `skip_sid`, broadcast) over all ids. Which sockets the transport actually holds open at that moment is not modelled.
- Client-side WebRTC and browser APIs: `createOffer`, the ICE-gathering wait, `fetch` and its response, `setRemoteDescription`, `getUserMedia`, the TURN configuration, `alert`, `unselectUsersFromList`, and the creation and styling of DOM elements. `confirm()` and `createAnswer()` enter as inputs.
- Client.UpdateUserList: ids are taken to be non-empty socket ids. In the DOM an element with `id=""` has no ID, so `getElementById("")` never matches; the page would append a new entry for `""` on every list and never find it again. The model treats `""` like any other id, so the no-duplicates promise, and `Client.UpdateKnown`, `Client.UpdateIdempotent` and `Client.AppendsInInputOrder`, do not describe the page for that id. The server never sends it, because the transport's sids are non-empty.
- Client.OnRemoveUser: for the same reason, `remove-user` with `socketId: ""` removes nothing in the page, while the model removes a shown `""`.
- Client.OnRemoveUser: `getElementById` could match a non-user element with the same id. The model's list holds only user entries.
- A session registry, relay of a peer's track, and a server-emitted `create-connection` do not exist in this code and are not modelled.
