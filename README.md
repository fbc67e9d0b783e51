# WebRTC signaling relay — a Dafny model

This project models the signaling relay in `server.js`. That Node.js socket.io
server pairs two browsers that present the same connection id. It passes the
first browser's session offer, the second browser's answer and both sides' ICE
candidates between them. For a `Patient` it also counts down a time budget once
the call has started.

The relay keeps two module-level lists, and the model keeps them as the fields
of `Server.Relay`:

- `offers`: one record per offer. Offers are values (`Records.Offer`), kept in
  a `seq`. A field write in place becomes a sequence update.
- `connectedSockets`: one record per connected socket. These are objects
  (`Directory.Connection`). A running interval keeps references to two of them
  and updates their time fields in place, even after `disconnect` has spliced
  them out of the list.

Each socket.io handler is a method of `Server.Relay`. Each method's contract
ties its effect to a pure function of the state it starts from. The lemmas
then prove what the relay promises about those functions.

| handler | method | specified by |
|---|---|---|
| `connection` | `Connect` | `Directory.ConnectedUserOffer`, `Signaling.ConnectReplies` |
| `newOffer` | `NewOffer` | `Records.Unanswered` |
| `newAnswer` | `NewAnswer` | `Signaling.Answer` |
| `sendIceCandidateToSignalingServer` | `SendIceCandidate` | `Signaling.RouteCandidate` |
| `sessionStarted` | `SessionStarted` | `Directory.ConnectedTo`, `AnsweringUser`, `CallingUser` |
| the interval callback | `Tick` / `UpdateUser` | `Timing.StepClock`, `Timing.UserAlerts` |
| `disconnect` | `Disconnect` | `Signaling.Teardown`, `Server.ClearedTimers` |

Everything the relay sends is appended to `log` as an `Emit`. The route of an
`Emit` is one of these:

- `Reply`: `socket.emit`.
- `ToRoom(room, sender)`: `socket.to(room).emit`. It reaches the room except
  the sending socket.
- `FromServer`: `io.to(room).emit`.
- `Broadcast`: `socket.broadcast.emit`.

Other parts of the model:

- `newAnswer` acknowledges through a callback. Its argument is the method's
  result, and `None` means the handler returned without calling it.
- The intervals that are still scheduled are the map `timers`, keyed by
  interval id. Ids are handed out from 1 upward, so every id is truthy.
- `clearInterval` removes an entry from `timers`.
- One run of an interval's callback is the method `Tick(id)`, which the
  environment calls.
- Every `find` is `Search.Find`, which takes the first match.
- Every splice-while-scanning loop has the effect of `Search.Without`, an
  order-preserving filter.

## Behaviour of the code kept as written

The model keeps these behaviours of the code, which a reader might not expect:

- Both the offer lookups and the peer lookups take the *first* match. A user
  with two offers is served from the older one, not the newest.
- `newAnswer` overwrites `answererUserName` and `answer` of an offer that was
  already answered. A later answerer therefore takes over the pair.
- `connection` replies only to the arriving socket, with `connected` and then
  `availableOffers`. The socket already waiting is not told about the pairing.
- `sessionStarted` always starts a new interval. A second call starts a second
  interval and overwrites `intervalId` in both records. The earlier interval
  keeps running, and `disconnect` cannot clear it any more
  (`Server.Relay.SessionStarted` keeps the old entry of `timers`).
- The interval is never stopped when the time runs out. Every later tick sends
  `sessionEnded` again (`Timing.KeepsEndingWhenOverdrawn`).
- The code tests `!user.remainingTime`. A remaining time of exactly 0 is
  therefore re-initialised from the budget, and the countdown starts over
  (`Timing.RestartsAfterExactZero`).
- The "limit approaching" band is `remaining <= 10` (milliseconds). It includes
  the expired case, so an expiring tick sends the notice twice before
  `sessionEnded`.
- `disconnect` clears the interval id stored in the departing socket's own
  records, and notifies nobody.
- Three dereferences fail on a missing value: `answeringUser.socketId`,
  `callingUser.intervalId` and `offer.offererUserName` in `connectedTo`. These
  are preconditions of `sessionStarted` (`Directory.CanStartSession`), since
  the code does not handle them.

## Model

| member | source | states |
|---|---|---|
| `Records.Unanswered` | server.js:167-174 | The pushed offer carries the offerer and description, empty candidate lists, and no answerer or answer. |
| `Search.Find` | server.js:297-299 | `find` returns the index of the first element passing the test, and nothing exactly when no element passes. |
| `Search.FindIsFirst` | server.js:297-299 | Any first matching index is the one `find` returns. |
| `Search.Without` | server.js:269-278 | Splicing out the matching elements leaves no matching element, adds nothing and does not lengthen the list. |
| `Search.SpliceStep` | server.js:268-279 | Splicing at the scan index (and not advancing it), or advancing past a kept element, keeps the loop invariant: the scanned prefix filtered, followed by the unscanned suffix. |
| `Search.WithoutKeeps` | server.js:269-278 | Every element that does not match survives the splicing loop. |
| `Search.WithoutIdempotent` | server.js:269-278 | Running the splicing loop a second time removes nothing more. |
| `Timing.Alerts` | server.js:126-151 | A tick sends something iff remaining time is at most 10. Then both participants get the limit notice, and at or below 0 both also get `sessionEnded`. Above 0, `sessionEnded` is never sent. |
| `Timing.ElapsedTime` | server.js:116 | After n ticks the connected time has grown by exactly n intervals, for every role. |
| `Timing.OtherRolesKeepRemaining` | server.js:118 | Ticks never change the remaining time of a non-Patient. |
| `Timing.Countdown` | server.js:119-120 | Starting from null, a Patient's remaining time after k ticks is budget − 1000·k while it has not reached 0 earlier. |
| `Timing.ExpiresOnTime` | server.js:119-148 | A Patient with budget b expires on tick ⌈b/1000⌉ and on no earlier tick. |
| `Timing.RestartsAfterExactZero` | server.js:119 | If the budget is a whole number of intervals, the remaining time hits exactly 0 and the next tick restarts it at budget − 1000. |
| `Timing.KeepsEndingWhenOverdrawn` | server.js:119-148 | Otherwise the remaining time is budget − 1000·m after every tick m from expiry on, and every such tick is expired. |
| `Directory.Connection.constructor` | server.js:77-85 | A new record has the socket's identity, no interval, connected time 0 and remaining time null. |
| `Directory.ConnectedUserOffer` | server.js:296-306 | Finds the earlier record with the same connection id (first one, none iff no record has it). Then finds the first offer that record's user made (none iff that user made none); with no earlier record, no offer. |
| `Directory.ConnectedTo` | server.js:287-294 | Returns the answerer of the first offer `u` made. If `u` made none, returns the offerer of the first offer `u` answered. |
| `Directory.FirstAnswered` | server.js:290 | For a user who made no offer but is involved in one, gives the index of the first offer that user answered. |
| `Directory.AnsweringUser` | server.js:98-100 | `answeringUser` is the first record whose user name is the caller's. |
| `Directory.CallingUser` | server.js:101-103 | `callingUser` is the first record named by `connectedTo`. |
| `Signaling.ConnectReplies` | server.js:88-164 | The arriving socket gets `connected` with its role and the counterpart's offer. `availableOffers` follows iff the offer list is non-empty, and nothing else is sent. |
| `Signaling.SecondArrivalAnswers` | server.js:74-75 | The first socket with a connection id is told to offer. The second is paired with the first's record and handed the offer that user made. |
| `Signaling.Answer` | server.js:181-209 | If the offerer has no record or no offer, nothing changes and no ack is sent. Otherwise the ack carries the first offer's queued candidates, only that offer's answer and answerer change, and `answerResponse` goes to the offerer's first record. |
| `Signaling.AnswererCandidate` | server.js:237-254 | An answerer's candidate never changes the offers. It is forwarded to the offerer of the first offer the sender answered, and dropped iff there is no such offer or that offerer has no record. |
| `Signaling.OffererCandidateDropped` | server.js:214-219 | An offerer's candidate for a user with no offer changes nothing and is sent nowhere. |
| `Signaling.OffererCandidate` | server.js:214-236 | An offerer's candidate is appended to the sender's first offer, which stays first. It is forwarded iff that offer's answerer name is truthy and has a record, and then to the first such record. |
| `Signaling.CandidateQueued` | server.js:216-220 | The candidate lands at the end of the sender's first offer, and that offer stays the first one. |
| `Signaling.StreamQueues` | server.js:216-220 | A stream of offerer candidates is queued on the first offer, all of them and in order. |
| `Signaling.StreamForwards` | server.js:221-235 | While that offer has no truthy answerer, nothing is sent. With a connected answerer, the answerer's first record receives exactly the streamed candidates, in order. |
| `Signaling.QueueThenStream` | server.js:202-231 | Candidates sent before the answer reach nobody and come back in the ack, with those already queued. Candidates sent after it are forwarded live. Ack followed by live forwards equals the offer's candidate list exactly. |
| `Signaling.DepartedOfRemainingIsEmpty` | server.js:261-281 | After the records of a socket are spliced out, none of them is left. |
| `Signaling.TeardownLeavesNoTrace` | server.js:261-281 | After `disconnect`, no record of the socket remains, and no offer made or answered by one of its users. |
| `Signaling.PrunedAvoids` | server.js:269-278 | No offer that survives pruning involves a pruned user name. |
| `Signaling.PruneKeepsUnrelated` | server.js:269-278 | Every offer that involves none of the departed users survives. |
| `Signaling.TeardownIdempotent` | server.js:258-284 | Disconnecting the same socket twice leaves the lists as one disconnect did. |
| `Server.Relay.constructor` | server.js:50-66 | The relay starts with no offers, no records, nothing sent and no interval. |
| `Server.Relay.Connect` | server.js:68-88 | `didIOffer` is true iff no record has the connection id. Exactly one new record is appended, the replies are those of `ConnectReplies`, and nothing else changes. |
| `Server.Relay.NewOffer` | server.js:166-179 | One unanswered offer is appended and broadcast to every other socket. Nothing else changes. |
| `Server.Relay.NewAnswer` | server.js:181-209 | The new offers, the ack and the sends are exactly those of `Answer`. The records and intervals are unchanged. |
| `Server.Relay.SendIceCandidate` | server.js:211-256 | The new offers and the sends are exactly those of `RouteCandidate`. The records and intervals are unchanged. |
| `Server.Relay.SessionStarted` | server.js:90-159 | A fresh interval id is scheduled over `answeringUser` and `callingUser` with the budget, the next id moves on by one, and earlier intervals stay scheduled. Both records store the new id and no other record changes. "Session started" goes to `answeringUser`'s room. |
| `Server.Relay.Tick` | server.js:110-155 | Each of the interval's two records advances by one `StepClock` (twice if they are the same record) and sends `UserAlerts`. The interval stays scheduled. |
| `Server.Relay.UpdateUser` | server.js:115-153 | One record gains an interval of connected time. For a Patient it loses an interval of remaining time, starting from the budget when that is falsy, and sends the threshold notices. |
| `Server.Relay.Disconnect` | server.js:258-284 | The lists become `Teardown` of the old lists, and the intervals recorded in the departing records are cleared. Nothing is sent. |
| `Server.SpliceSocket` | server.js:261-281 | The outer loop leaves the records minus the socket's, the offers pruned of each departing user in list order, and the intervals minus those cleared. |
| `Server.VisitRecord` | server.js:262-280 | One pass of the outer loop keeps its invariant, and hands back the user name to prune iff the record belongs to the socket. |
| `Server.SpliceOffersOf` | server.js:269-278 | The inner loop leaves exactly the offers not made or answered by the departing user, in their original order. |
| `Server.AdvanceDeparted` | server.js:267-278 | A departing record adds its user to the departed names, and the offers are then pruned of that user. A kept record changes neither. |
| `Server.AdvanceCleared` | server.js:266 | A departing record with an interval id removes that id from the scheduled intervals. Any other record removes nothing. |

## Left out

- The socket.io transport is not modelled: connecting, rooms and delivery. A message is recorded in `log` with its route, and delivery is left out.
- JWT authentication, the express/http server, CORS and dotenv are not modelled. The user name, role and connection id of a socket are parameters of `Connect`.
- `setInterval` timing is not modelled. Ticks are explicit `Tick(id)` calls. No handler interleaves with another or with a tick, because Node runs each one to completion.
- Console logging is not modelled.
- Server.Relay.SessionStarted: its precondition excludes the inputs on which the handler throws. The handler throws at `answeringUser.socketId` and at `connectedTo` (no offer involves the caller). When the peer is unnamed or has no record, it throws at `callingUser.intervalId` only after the interval is scheduled and the caller's `intervalId` is set. That partial effect, and the ticks of such an interval (which do nothing), are not modelled.
- Directory.ConnectedTo: requires that the user is involved in some offer, because the code dereferences an undefined offer otherwise.
- `timeToConnect` is an integer. A non-numeric budget is not modelled. The repository's own client (frontend/src/App.jsx:145) sends the object `{ userName, timeToConnect }` as the handler's argument. The tick then computes `object - 1000`, which is `NaN`. Neither the `<= 10` test nor the `<= 0` test is ever true, and `!NaN` re-initialises the value on every tick. With that client no notice and no `sessionEnded` is ever sent. The `Timing` lemmas (`Countdown` through `KeepsEndingWhenOverdrawn`) describe a client that sends a number.
- Integers are unbounded. JavaScript numbers are doubles, which is exact at these magnitudes.
- The payload fields the relay never reads are not modelled. These are the `connectionId` of a `newOffer` message and any field of the `newAnswer` object other than `offererUserName` and `answer`. Descriptions and candidates are opaque strings.
- User names are strings. A token without a user name is not modelled. Every user-name comparison in the code is a strict `===`, so an `undefined` name matches other `undefined` values and never `null`. An answerer's candidate with no matching offer compares each record's name with `undefined` (server.js:244-246). So instead of being dropped, it would go to the first record that has no user name. A fresh socket's `offerObj` could likewise be an offer pushed by a user with no name (server.js:301-303). The model's answerer lookup finds no record in that case, because every record has a name.
- The repository's client never puts a `connectionId` in its handshake query (frontend/src/App.jsx:33-35, 50, 102). So every socket after the first is paired with the first record. The model reproduces this when every connection id is the same value.
- `answererIceCandidates` is created empty and never written, so it stays empty.
- `frontend/src/App.jsx` is not part of this model.
