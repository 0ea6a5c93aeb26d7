# Magnify signalling reconciliation, modelled in Dafny

Magnify is a video-chat front end where peers in a room find each other through a canister
that only stores lists: the room's participants, the offers published in it, and the answers
published to those offers. There is no signalling server. Each client polls these lists and
decides for itself whom to engage. This project models that client-side logic in
`src/Magnify_assets/src/index.js`:

- **The reconciliation tick** (`checkForAdditions`). It answers every offer whose initiator is
  neither the client itself nor already tracked. It sends an offer to every participant who is
  neither the client nor tracked. The two parts are independent promise callbacks, so either can
  run first.
- **The `remotes` registry**. `setupPeerAndComplete` pushes a fresh record. It then runs the
  completion of `sendAnswer` or `sendOffer` in the same step, and that completion sets the
  record's `idHex`. So a record is visible to the next `remotes.some(...)` test at once. For
  `sendOffer` this rests on an assumption about how the id is converted (see "## Left out").
- **The ICE candidate buffer**. `onicecandidate` renames each non-null candidate to
  `{label, candidate}` and appends it. `addRemoteIceCandidates` renames the entries back and hands
  them to the peer connection in order.
- **The answer poll** of an initiator. Each firing applies every answer in the room and clears
  the interval once any answer was seen.
- **The initial pass** of `setupVideoPage`. It answers every offer in the room without any check.

Files and modules:

- `peer_link.dfy` (`PeerLink`): the peer connection, seen only as the log of requests made of it.
- `ice_buffer.dfy` (`IceBuffer`): the candidate buffer and its inverse.
- `messages.dfy` (`Messages`): offers, answers, participants and the calls a client makes.
- `admission.dfy` (`Admission`): the diff rule both tick callbacks use, and its properties.
- `remotes.dfy` (`Remotes`): the `Remote` record, its ICE handler and answer poll, and the
  `remotes.some` test.
- `reconciler.dfy` (`Reconciler`): the tick as a function of a snapshot, its properties, and the
  class `Client`. `Client` holds `callerId`, `remotes` and the log of `sendAnswer`/`sendOffer`
  calls.

Peer ids are opaque strings, the hex form of a principal. Canister results are inputs. The
canister writes made through `sendAnswer`/`sendOffer` are logged as calls.

Some behaviours of the code are worth stating explicitly:

- No duplicate-connection error exists. The only check is a linear scan of `remotes`
  (`remotes.some(...)`) before each `sendAnswer`/`sendOffer`.
- A poll applies every answer, whoever it answers: the recipient/initiator match at line 167 is
  commented out.
- Nothing makes the offers callback run before the participants callback. Under the
  participants-first order, a listed participant who is neither the caller nor tracked and who
  has a pending offer is sent an offer (`TickPeers`) and is not answered
  (`ParticipantsFirstOffersToParticipants`).
- The initial pass answers duplicates and the client's own offers.

## Model

| member | source | states |
|---|---|---|
| PeerLink.Link.constructor | src/Magnify_assets/src/index.js:250 | a new peer connection has received no request |
| PeerLink.Link.SetRemoteDescription | src/Magnify_assets/src/index.js:169 | `setRemoteDescription` issues exactly that request, after all earlier ones |
| PeerLink.Link.AddIceCandidate | src/Magnify_assets/src/index.js:318 | `addIceCandidate` issues exactly that request, after all earlier ones |
| IceBuffer.ToEntry | src/Magnify_assets/src/index.js:285-288 | the buffering rename `{label: sdpMLineIndex, candidate}` is undone by the receiving side's rename |
| IceBuffer.ToEntryInverse | src/Magnify_assets/src/index.js:314-317 | the receiving rename `FromEntry` (`{sdpMLineIndex: c.label, candidate: c.candidate}`) loses nothing: the buffering rename gives back the published entry |
| IceBuffer.OnEvent | src/Magnify_assets/src/index.js:282-290 | one `onicecandidate` event keeps the buffer as a prefix and adds one entry for a non-null candidate, none for a null one; the added entry renames back to the event's candidate |
| IceBuffer.Buffered | src/Magnify_assets/src/index.js:282-290 | the buffer after a run of events has at most one entry per event |
| IceBuffer.IceOps | src/Magnify_assets/src/index.js:312-320 | the requests `addRemoteIceCandidates` makes: one `addIceCandidate` per entry, at the entry's position, whose candidate renames back to that entry |
| IceBuffer.BufferedAppend | src/Magnify_assets/src/index.js:282-290 | the buffer is append-only: events after a prefix only extend that prefix's buffer |
| IceBuffer.BufferedIsCandidates | src/Magnify_assets/src/index.js:282-290 | the buffer has one entry per non-null event, in arrival order; null events are ignored |
| IceBuffer.DeliveredCandidates | src/Magnify_assets/src/index.js:282-320 | the peer that receives a buffer gets one `addIceCandidate` per non-null local event, in order, with the original fields |
| IceBuffer.AddRemoteIceCandidates | src/Magnify_assets/src/index.js:312-320 | one `addIceCandidate` per list entry, in list order, with `sdpMLineIndex` taken from `label` and the same candidate string |
| Admission.Admitted | src/Magnify_assets/src/index.js:227-231 | the guarded walk of a list that both callbacks use (lines 227-231 and 238-243): it acts on at most as many elements as are listed, and only on listed elements whose peer is neither the caller nor tracked |
| Admission.AdmittedGuard | src/Magnify_assets/src/index.js:227-230 | an element is acted on only if it is listed and, when its turn comes, its peer is not the caller and is not tracked (earlier actions count) |
| Admission.AdmittedFirst | src/Magnify_assets/src/index.js:227-231 | the walk goes through the list in order (`forEach` at 227, `for ... of` at 238): the elements acted on sit at strictly increasing positions, and each is the first element listed for its peer, not counting elements whose peer is the caller or already tracked. So of several offers from one initiator, the first listed is the one answered |
| Admission.AdmittedComplete | src/Magnify_assets/src/index.js:238-242 | every listed element whose peer is neither the caller nor tracked at the start has its peer acted on |
| Admission.AdmittedKeys | src/Magnify_assets/src/index.js:223-245 | the peers acted on are exactly the listed peers minus the caller minus the tracked ones (both directions) |
| Admission.AdmittedFresh | src/Magnify_assets/src/index.js:228-229 | the peers acted on form a sequence of allowed steps: each is not the caller and not tracked when acted on |
| Admission.FreshAppend | src/Magnify_assets/src/index.js:225-244 | two allowed step sequences in a row, the second judged against the first's registrations, form one allowed sequence |
| Admission.FreshDistinct | src/Magnify_assets/src/index.js:304-306 | after allowed steps, distinct tracked ids stay distinct |
| Admission.AdmittedNone | src/Magnify_assets/src/index.js:228-239 | when every listed peer is the caller or tracked, nothing is acted on |
| Remotes.Remote.constructor | src/Magnify_assets/src/index.js:249-259 | a new record has an empty id, an empty candidate buffer, no poll interval and a fresh peer connection with no requests |
| Remotes.Remote.OnIceCandidate | src/Magnify_assets/src/index.js:282-290 | a null event leaves the buffer as it is; a non-null event appends exactly one renamed entry; id and poll are unchanged |
| Remotes.Remote.PollAnswers | src/Magnify_assets/src/index.js:163-175 | while the interval is set, every answer's description and candidates are applied in list order; the interval stays set iff the list is empty; a cleared interval applies nothing |
| Remotes.PollAppliesEveryAnswer | src/Magnify_assets/src/index.js:166-173 | a poll sets exactly one remote description per listed answer, in list order, with no filtering by offer |
| Remotes.ApplyAnswer | src/Magnify_assets/src/index.js:168-170 | applying a parsed payload (lines 168-170 and 189-191) issues exactly the payload's description request and then its candidate requests, after all earlier requests |
| Remotes.ApplyOps | src/Magnify_assets/src/index.js:168-170 | applying one answer makes one request per candidate plus one, and sets exactly one remote description, the answer's |
| Remotes.AnswerOps | src/Magnify_assets/src/index.js:166-173 | the requests of one poll firing: at least one per answer, and none exactly when the answer list is empty |
| Remotes.Tracked | src/Magnify_assets/src/index.js:228 | `remotes.some(r => r.idHex === id)` holds iff `id` is among the records' ids |
| Reconciler.OffersPassCalls | src/Magnify_assets/src/index.js:225-232 | the offers callback makes at most one call per offer, each a `sendAnswer` of a listed offer whose initiator is neither the caller nor tracked |
| Reconciler.ParticipantsPassCalls | src/Magnify_assets/src/index.js:235-244 | the participants callback makes at most one call per participant, each a `sendOffer` to a listed participant, with its alias, who is neither the caller nor tracked |
| Reconciler.TickCalls | src/Magnify_assets/src/index.js:223-245 | `checkForAdditions` as a function of a snapshot, in either callback order: at most one call per listed offer or participant; every call targets a peer that is neither the caller nor tracked, answers a listed offer or offers to a listed participant |
| Reconciler.TickGuard | src/Magnify_assets/src/index.js:223-245 | every `sendAnswer`/`sendOffer` of a tick targets a peer that is not the caller and has no record at that moment, in either order of the callbacks |
| Reconciler.TickDistinct | src/Magnify_assets/src/index.js:223-245 | a tick adds at most one record per peer: distinct record ids stay distinct, in either order |
| Reconciler.TickPeers | src/Magnify_assets/src/index.js:223-245 | the peers a tick engages are exactly (offer initiators plus participants) minus the caller minus the tracked ids, in either order (both directions) |
| Reconciler.TickIdempotent | src/Magnify_assets/src/index.js:228-239 | a second tick on the same snapshot, in either order, makes no call and so adds no record |
| Reconciler.OffersFirstAnswersInitiators | src/Magnify_assets/src/index.js:225-243 | with the offers callback first, no offer is sent to a peer that has an offer in the snapshot |
| Reconciler.ParticipantsFirstOffersToParticipants | src/Magnify_assets/src/index.js:225-243 | with the participants callback first, no offer from a listed participant is answered |
| Reconciler.TwoPartyRoom | src/Magnify_assets/src/index.js:223-245 | when B is in the room with an offer to A, A answers B under one order and sends B an offer under the other, never both |
| Reconciler.InitialPassDuplicates | src/Magnify_assets/src/index.js:393-396 | the initial pass answers two offers of one peer twice, while a tick over the same offers answers once |
| Reconciler.TickIds | src/Magnify_assets/src/index.js:225-244 | the two callbacks' registrations compose into the tick's, and distinct ids stay distinct |
| Reconciler.Client.constructor | src/Magnify_assets/src/index.js:109-111 | the client starts with no records and no calls |
| Reconciler.Client.SetupPeer | src/Magnify_assets/src/index.js:248-306 | a fresh record with empty id, empty buffer and no poll is pushed at the end of `remotes`; nothing else changes |
| Reconciler.Client.SendAnswer | src/Magnify_assets/src/index.js:183-191 | exactly one record is appended; its id is the initiator; its connection got the offer's description and then its candidates; earlier records are kept |
| Reconciler.Client.SendOffer | src/Magnify_assets/src/index.js:141-163 | exactly one record is appended; its id is the recipient; its poll interval is set; earlier records are kept |
| Reconciler.Client.AnswerUnlessTracked | src/Magnify_assets/src/index.js:228-230 | the guarded step for one offer: `sendAnswer` is made, and the initiator registered, exactly when no record has the initiator's id and the initiator is not the caller; otherwise nothing changes. Any new record is fresh and holds what `sendAnswer` left, and earlier records keep what they held |
| Reconciler.Client.OfferUnlessTracked | src/Magnify_assets/src/index.js:239-242 | the guarded step for one participant: `sendOffer` with its alias is made, and the participant registered, exactly when no record has its id and it is not the caller; otherwise nothing changes. Any new record is fresh and holds what `sendOffer` left, and earlier records keep what they held |
| Reconciler.Client.OffersPass | src/Magnify_assets/src/index.js:225-232 | the offers callback calls `sendAnswer` for exactly the admitted offers, in order, and registers their initiators; each new record is fresh, has an empty candidate buffer and no poll, and its connection got its offer's description and then its candidates |
| Reconciler.Client.ParticipantsPass | src/Magnify_assets/src/index.js:235-244 | the participants callback calls `sendOffer` for exactly the admitted participants, in order, and registers them; each new record is fresh, has an empty candidate buffer, has its answer poll set and has received no connection request |
| Reconciler.Client.Tick | src/Magnify_assets/src/index.js:223-245 | a tick makes exactly the snapshot's tick calls and registers exactly their peers; distinct ids stay distinct; old records are neither removed nor modified; each new record is fresh, has an empty candidate buffer and matches its call: a `sendAnswer` record has no poll and its connection got the offer's description then its candidates, a `sendOffer` record has its poll set and no connection request |
| Reconciler.Client.AnswerAllOffers | src/Magnify_assets/src/index.js:393-396 | the initial pass calls `sendAnswer` for every offer in order and registers every initiator, with no check; each new record is fresh, has an empty candidate buffer and no poll, and its connection got its offer's description and then its candidates |

## Left out

- Identity (`newIdentity`, `readIdentity`, lines 13-33) and the agent and actor setup (lines 36-41) are not modelled. They are key management and browser storage. `callerId` is a constructor parameter.
- Canister calls are not modelled (`offers`, `participants`, `answers`, `offer`, `answer`). Their results are the parameters of the tick and the poll. A `sendAnswer`/`sendOffer` is logged as a call.
- The delayed publication of an offer or answer (`magnify.offer` / `magnify.answer` after the 2000 ms settle delay, lines 150-157 and 201-206) is not modelled. It is a timer plus a canister write. The `ice` it would send is the record's `iceCandidates` as it stands then. `DeliveredCandidates` covers that list as it reaches the other peer.
- WebRTC internals are not modelled: `createOffer`/`createAnswer`, `setLocalDescription`, tracks, `ontrack` and `getUserMedia`. A peer connection records only the `setRemoteDescription` and `addIceCandidate` requests the signalling code makes.
- Real time is not modelled: the 5 s tick interval, the 1 s poll interval and the settle delay. A tick is one atomic step, and so is one poll firing together with its response. A poll response that arrives after an earlier response already cleared the interval would, in the code, still apply its answers. The model does not include this.
- Interleaving is not modelled beyond "each callback runs to completion". The order of the two tick callbacks is the parameter `offersFirst`.
- JSON serialisation of payloads is not modelled. A payload is a value: a description plus a candidate list. `sdpMLineIndex` is an `int`, and its `null` case is not modelled.
- `participants[0]` is taken to be the participant list. When the canister returns an empty optional, the `for ... of` loop throws before any call is made. The model does not include this.
- Reconciler.Client.SendOffer: it assumes that `Principal.fromHex(String(recipient)).toHex()` (line 145) gives back the recipient's hex id. This is doubtful on the tick path. There `recipient` is `participant.principal`, a Principal object (line 241), and `String()` of a Principal gives its textual form, not its hex. If the assumption fails, the record's `idHex` differs from `participant.principal.toHex()` and the test at line 239 does not see it. The following rest on the assumption: the participants half of `TickGuard`, `TickDistinct`, `TickIdempotent` and `TickPeers`, and the claim that a record made by `sendOffer` is visible to the next `remotes.some(...)` test at once.
- The remote's label, video element and the participants lookup in `sendAnswer` (lines 194-196) are not modelled. They are UI. This also leaves out that the lookup fails when the initiator is not listed.
- The `waitForIceDelay` handles are not modelled. They are timer handles.
- `refreshRooms`, the welcome and video pages, and the invite button are not modelled. They are UI. The invite button also calls `sendOffer` without the duplicate check.
- Teardown of records is not modelled, because the code never removes a record.
- `src/magnify_assets/public/index.js` is not modelled. It is a demo of canister calls with no logic.
