# Verification model of the OBP wire, session and NBC layers

A Dafny model of the parts of the repository that several processes must agree on: the hash-linked
frame chains that the multiplex runtime keeps on one stream, the session log and its Merkle checkpoint,
the canonical JSON that is hashed and signed, the framing that carries it, the NBC graph store with its
bind capacities, the library Merkle commitment, and the hybrid logical clocks.

`dafny verify dfyconfig.toml` checks the whole project.

## How the model is built

- Code that computes a value is a function; the loops of the source are `method`s with invariants, each
  proved equal to a function; the objects of the source (`FrameDag`, the frame decoder, the HLC state,
  the in-memory store, the multiplex runtime with its chain states) are classes whose methods update
  fields in place and are proved to take the step of a pure state machine. The properties of whole runs
  are lemmas about those state machines, failed operations included.
- `Text` holds UTF-16 string order, trimming and decimals; `CanonicalJson` the printer and a reader of
  RFC 8259 texts; `Digests` SHA-256 as an unknown function; `MerkleTree` and `HashChain` the two
  structures built from it, over any hash; the other modules follow the source files they model.
- No theorem assumes that SHA-256 is injective. A theorem that needs it names the finite set of texts it
  hashes and asks that those do not collide (`CollisionFree`); the theorems about runs ask in addition
  that no accepted frame hashes to a genesis hash (`NoCollisions`, `Apart`). Hypotheses about a run are
  about its last state only, since what was hashed only grows.
- A runtime run is any list of events: inits, turns, ends of offers, terminations, destructions, inbound
  frames, inbound envelopes, envelope flushes, and operations the host makes on the store it shares with
  the runtime, in any order, with any clock and host answers. It starts over any store that operations can
  have reached, not only the empty one. `history`, `since`, `accepted` and `geneses` are bookkeeping the
  theorems speak about; no step looks at them.
- `Witnesses` shows that what the theorems about two replicas assume can be met, by every hash under which the
  few texts named there do not collide.

## Results, hardest first

1. **Agreement.** In any two runs, two open chains have the same tip exactly when they have the same
   genesis and accepted the same frames in the same order; then their ops and checkpoints are equal
   (`RunsAgree`). Chains that once differ never meet again while they stay open (`DivergedRunsStayApart`).
2. **The runtime invariant.** After every run the routing map has exactly one entry per open chain, from
   its tip; every log is its history's ops and the global ops tagged with it since it was registered;
   frames, ops and dedupe keys are equally many; the confirmed prefix lies within the log; the store's
   caps hold (`RunKeepsInv`). The store's binds are those it held at the start, those the host made by
   hand, and one for each binding turn of the log (`RunBinds`). Even an inbound TERMINATE, whose parent
   hash is not compared with the tip, extends the tip (`InboundFrameExact`). Over SHA-256, a frame that
   extends an open chain is taken for an echo exactly when the chain has accepted nothing yet and the same
   signature was accepted at its genesis before (`FreshFrameExact`). What the signer signs is what the
   verifier checks, and a signature covers the whole frame (`SignedIsValid`, `SignatureCovers`).
3. **Exchange.** Two chains at one tip are at one tip again after every frame that one side signs and the
   other can take (`SentFrameMeets`). The exact condition for accepting an envelope
   (`EnvelopeAcceptedExactly`), and for one a peer flushed: its whole log is a prefix of the receiver's
   (`FlushBetweenRuns`). While two replicas keep a session open and feed each other nothing but their own
   flushes, late, repeated or lost, the ops either has confirmed begin both logs (`BothConfirmCommon`).
   A replica that reads what another one's whole run sends, in any chunks, and takes every init and frame
   of it, ends with the same tip, history, log and checkpoint on every chain open on both sides
   (`Lockstep.ReaderAgrees`), and is in step with the sender's earlier states on the way (`ReaderInStep`).
   Two that take turns at that, in any number of exchanges, are in step after each (`ConversationInStep`).
   An init that is sent although registering it fails can break that, exactly when it names a session the
   sender has open at another tip (`InitInStep`).
   The root of the base checkpoint is never checked, and a negative base never passes.
4. **From bytes to steps.** Whatever bytes arrive in whatever chunks, and whatever the replica does around
   each payload, it takes exactly its own steps and those the payloads stand for, in order, up to the first
   payload or failed chunk that closes the channel, and all of them exactly when none does
   (`ReadLoop.LoopIsRun`): sixteen refusals in a row close it, junk and failed chunks included, and so does
   a termination when the host asked for that. The bytes of a list of messages, however cut, yield those
   messages (`MessagesYield`, `StreamIsRun`). The read loop itself, down to the decoder's growing buffer, is
   proved to do so in place (`RunReadLoop`, `Decoder`). Canonical JSON is unambiguous and reads back
   (`PrintUnambiguous`), orders members by the UTF-16 code units of their keys (`PrintInUnitOrder`), and no
   JSON text of a document is shorter than its canonical one (`PrintIsShortest`).
5. **The store.** Bind capacity per canonical port, over every run of every operation (`RunIsGood`);
   canonical ids never change (`CanonicalIdsNeverChange`); closed windows never reopen (`ClosedForever`).
   A turn stores exactly what its body declares, for the party whose key signed it, and changes nothing
   that was stored (`TurnStoresAsDeclared`, `TurnIsApplied`); a bind is let through exactly when both
   windows are open, the port is exposed and its canonical port has room (`AdmittedExactly`); a port
   exposed until turn n is open before it and closed from it on, whatever happens in between
   (`ExposedUntil`). Which turns succeed is characterised exactly (`TurnSucceedsExactly`). Refs are followed through the stored fields, white space aside (`ResolutionExact`).
6. **Commitments.** Library membership is complete and sound for proofs of any length, and equal roots
   mean equal sets; a session checkpoint determines the log.
7. **Clocks.** Timestamps respect causality; the physical part is the largest wall reading in the causal
   past and the logical part the longest chain at that reading, less one.

## Model

| member | source | states |
|---|---|---|
| Agreement.RunsAgree | packages/wire/src/frame/frame-multiplex-runtime.ts:364-425 | in any two runs, over any stores and with any host operations on them, open chains have equal tips exactly when they have the same genesis and accepted the same frames in the same order; in one session their ops and checkpoints are then equal |
| Agreement.DivergedRunsStayApart | packages/wire/src/frame/frame-multiplex-runtime.ts:541-601 | once two chains' histories differ at one position, their tips differ in every later pair of states in which both are still open |
| Agreement.EnvelopeAcceptedExactly | packages/wire/src/frame/frame-multiplex-runtime.ts:276-334 | an envelope is accepted exactly when sync is on, it is from someone else, the session is open, 0 <= base <= new <= log length, its ops are the local ones in between and its checkpoint is that of the local prefix; acceptance changes the confirmed prefix and the ack flag only, refusal nothing; one for a session that has ended is ignored |
| Agreement.FlushAcceptedExactly | packages/wire/src/frame/frame-multiplex-runtime.ts:242-262 | what a sender in any valid state flushed is accepted exactly when the parties differ and the sender's log is a prefix of the receiver's, which then has confirmed all of it |
| Agreement.FlushBetweenRuns | packages/wire/src/frame/frame-multiplex-runtime.ts:242-334 | the same between the states of any two runs |
| Exchange.SentFrameMeets | packages/wire/src/frame/frame-multiplex-runtime.ts:364-425 | from any two valid states with equal tips: when one side signs a turn or an end of offers and the other verifies it, has not seen it and its store takes it, both stand at the same tip again with the frame at the end of both histories |
| Exchange.ConfirmedIsCommon | packages/wire/src/frame/frame-multiplex-runtime.ts:242-334 | in every state while two replicas keep a session open and one is handed only the other's flushes for it, in any order, late, repeated or lost, the ops it has confirmed are the first ops of both logs |
| Exchange.BothConfirmCommon | packages/wire/src/frame/frame-multiplex-runtime.ts:242-334 | the same for both sides at once |
| Lockstep.ReaderAgrees | packages/wire/src/frame/frame-multiplex-runtime.ts:364-684 | two replicas over SHA-256 start afresh; one takes any steps that accept no foreign frame, the other reads all that these send, in any chunks, does nothing of its own that opens or signs, and takes every init and frame: every chain then open on both sides has the same genesis, tip, history, ops and checkpoint |
| Lockstep.ReaderInStep | packages/wire/src/frame/frame-multiplex-runtime.ts:364-684 | from any two valid states with equal tips on all common chains: wherever the reading stops, the receiver's tips are those of each sender state that had sent exactly what was read, on every chain open in both |
| Lockstep.ConversationInStep | packages/wire/src/frame/frame-multiplex-runtime.ts:364-684 | two replicas take turns, each sending any number of messages at a time and the other taking them all: after every exchange each chain open on both sides has one tip |
| Lockstep.InStepAt | packages/wire/src/frame/frame-multiplex-runtime.ts:364-615 | the same after every number of the sender's steps, terminations and destroyed chains included, with both sides' tips compared chain by chain |
| Lockstep.InitInStep | packages/wire/src/frame/frame-multiplex-runtime.ts:126-131 | an init goes out before it is registered: when the peer opens its chain, tips stay equal exactly unless the sender already had that session open at another tip |
| Lockstep.MovesMeet | packages/wire/src/frame/frame-multiplex-runtime.ts:237-240 | one frame that moves a tip on each side moves the same chain on both, or chains the other side does not have |
| Lockstep.AllSentOk | packages/wire/src/frame/frame-multiplex-runtime.ts:242-262 | everything a run sends, inits, frames and envelopes, is a message that the peer reads back as it was |
| Exchange.OpenLogGrows | packages/wire/src/frame/frame-multiplex-runtime.ts:392-394 | the log of a chain that stays open only grows |
| Witnesses.RunsMeet | packages/wire/src/frame/frame-multiplex-runtime.ts:405-425 | for every hash that does not hash the frame to the genesis, what the agreement theorem assumes is met by two replicas that open a chain, one of which ends its offers and the other receives the frame; both stand at the same tip |
| Witnesses.RunsDiverge | packages/wire/src/frame/frame-multiplex-runtime.ts:405-425 | what the divergence theorem assumes is met by two replicas that both end their offers at once |
| Witnesses.FlushGetsThrough | packages/wire/src/frame/frame-multiplex-runtime.ts:242-334 | what the envelope theorem assumes is met, and the envelope accepted, when one side flushes after the other received its frame |
| Witnesses.ConfirmsTogether | packages/wire/src/frame/frame-multiplex-runtime.ts:242-334 | what the theorems about confirmed ops assume is met, with both sides fed by each other and an envelope that takes the receiver from nothing confirmed to the whole log |
| Witnesses.FrameMeets | packages/wire/src/frame/frame-multiplex-runtime.ts:405-425 | what the theorem about one sent frame assumes is met by two replicas that have just opened a chain |
| Witnesses.ReaderKeepsUp | packages/wire/src/frame/frame-multiplex-runtime.ts:642-684 | what the theorem about reading a whole run assumes is met, in every chunking, by a replica that opens a chain and ends its offers and one that only reads; the reading goes through and the chain is open on both sides |
| Agreement.FlushSends | packages/wire/src/frame/frame-multiplex-runtime.ts:242-262 | a flushed envelope carries the ops after the confirmed prefix, the checkpoint of that prefix and that of the whole log |
| Agreement.ExtendsExactly | packages/wire/src/session/session-ops-extends.ts:48-68 | a claimed checkpoint extends a prefix of a log by the following ops exactly when it is the checkpoint of the longer prefix and its length is a safe integer |
| Agreement.AcceptedLengths | packages/wire/src/frame/frame-multiplex-runtime.ts:296-319 | an envelope that passes the length checks has a base that is not negative, so `slice` took exactly the base |
| Agreement.RunKeepsFrames | packages/wire/src/frame/frame-multiplex-runtime.ts:364-425 | every frame a run accepts, inbound or signed by itself, is a JSON document |
| Agreement.ReachedChain | packages/wire/src/frame/frame-multiplex-runtime.ts:51-83 | the runtime over SHA-256 and the default session sync satisfies the invariant after every run from any store in good order |
| Agreement.DeltaIsOwn | packages/wire/src/frame/frame-multiplex-runtime.ts:321-329 | comparing printed ops one by one decides whether the delta is the local ops |
| RuntimeSafety.RunKeepsInv | packages/wire/src/frame/frame-multiplex-runtime.ts:189-601 | after every run, over any store the host hands in and whatever it does to it meanwhile: one routing entry per open chain from its tip and no other; each log is its history's ops and the tagged global ops since registration; as many ops as accepted frames as dedupe keys, no key twice; 0 <= confirmed <= log length; store caps kept |
| RuntimeSafety.RunBinds | packages/wire/src/frame/frame-multiplex-runtime.ts:382-396 | after every run the store's binds are those it started with, those the host made by hand (none if it made none), and one per turn op of the global log that names a port; every port keeps a policy and a window unless the host exposes one with a bad limit |
| RuntimeSafety.StepBinds | packages/nbc/src/nbc-turn.ts:63-130 | every step of the runtime adds as many binds to the store as binding turns to the log, failed turns included |
| RuntimeSafety.HostBindsAtMost | packages/core/src/persistence/core/in-memory-strategy.ts:128-236 | an operation of the host never removes a bind and adds one only through bindPort or a binding extendOffer |
| RuntimeSafety.StepKeepsInv | packages/wire/src/frame/frame-multiplex-runtime.ts:189-601 | every single step keeps that invariant, whatever its outcome |
| RuntimeSafety.InboundFrameExact | packages/wire/src/frame/frame-multiplex-runtime.ts:541-615 | an inbound frame is ignored exactly when its key was seen; rejected, it changes no chain, log or bind; it is accepted exactly when it extends an open chain's tip, is signed, is of a known kind and, for a turn, the store takes it; then, TERMINATE included, it extends the tip of the one chain with that tip, adds one op and one key, and leaves all other chains alone |
| FreshFrames.KeySeenExactly | packages/wire/src/frame/frame-multiplex-session-helpers.ts:53-55 | a dedupe key was seen exactly when an accepted frame has the same text of parent hash, colon and signature, if those texts do not collide |
| FreshFrames.IgnoredExactly | packages/wire/src/frame/frame-multiplex-runtime.ts:541-546 | in every valid state an inbound frame is ignored exactly when a frame with that same text was accepted |
| FreshFrames.FreshFrameExact | packages/wire/src/frame/frame-multiplex-runtime.ts:541-546 | after every run, a frame that extends the tip of an open chain is ignored exactly when that chain has accepted nothing yet and its signature was accepted at the same genesis before; no genesis may hold a colon |
| FreshFrames.NewFrameIsNoEcho | packages/wire/src/frame/frame-multiplex-runtime.ts:541-546 | when a signature fits one text, a valid frame not accepted before that extends an open chain's tip is never ignored |
| FreshFrames.OwnFramesGoOut | packages/wire/src/frame/frame-multiplex-runtime.ts:364-425 | at a chain that has accepted anything, nothing of the replica's own is dropped as an echo: ends of offers and terminations go out, and a turn does exactly when the sender's check and the store take it |
| FreshFrames.RunKeepsPast | packages/wire/src/frame/frame-multiplex-runtime.ts:237-240 | over every run, no accepted frame has an open chain's tip as its parent unless that chain is empty, and every parent is a genesis or a tip that was led to |
| FreshFrames.SignedIsValid | packages/wire/src/frame/frame-dag.ts:37-53 | every frame a replica signs in any step is valid at every host whose verifier honours its signer |
| FreshFrames.RunKeepsValid | packages/wire/src/frame/frame-multiplex-runtime.ts:550-555 | a replica that honours its own signer has accepted valid frames alone |
| RuntimeSafety.EchoesIgnored | packages/wire/src/frame/frame-multiplex-runtime.ts:543-546 | a frame once sent or accepted changes nothing when it comes again, however much later |
| RuntimeSafety.RoutedAtTip | packages/wire/src/frame/frame-multiplex-runtime.ts:225-235 | a parent hash resolves to a chain exactly when it is that chain's tip |
| RuntimeSafety.NewTipIsNew | packages/wire/src/frame/frame-multiplex-runtime.ts:237-240 | the tip of a frame not accepted before is no open chain's tip, so moving a tip never overwrites another chain's entry |
| RuntimeSafety.AcceptKeepsRouting | packages/wire/src/frame/frame-multiplex-runtime.ts:237-240 | accepting a frame keeps routing exact |
| RuntimeSafety.AcceptKeepsChains | packages/wire/src/frame/frame-multiplex-runtime.ts:392-399 | accepting a frame at a chain's tip keeps every chain linked, logged, routed and counted |
| RuntimeSafety.TerminateKeepsChains | packages/wire/src/frame/frame-multiplex-runtime.ts:517-539 | an inbound termination records its frame and closes its chain without harm to the others |
| RuntimeSafety.DestroyKeepsChains | packages/wire/src/frame/frame-multiplex-runtime.ts:219-223 | removing every tip that routes to a session removes exactly its one entry |
| RuntimeSafety.RegisterKeepsInv | packages/wire/src/frame/frame-multiplex-runtime.ts:189-217 | registering a chain, or refusing to, keeps the invariant |
| RuntimeSafety.TurnKeepsInv | packages/wire/src/frame/frame-multiplex-runtime.ts:382-399 | a turn the store refuses keeps the invariant although it may leave offers and ports; one it takes does once accepted |
| RuntimeSteps.OpensExactly | packages/wire/src/frame/frame-multiplex-runtime.ts:189-217 | a chain opens exactly for two different keys, in either order, that fit the template and its pinned ids, when neither the session nor a tip at the genesis is open; the first such init becomes the template, which then fits that init alone |
| RuntimeSteps.EitherOrder | packages/wire/src/frame/frame-init-wire.ts:30-36 | the order in which an init names its parties makes no difference |
| RuntimeSteps.TurnIsApplied | packages/wire/src/frame/frame-multiplex-runtime.ts:557-567 | a taken turn was signed with the key of a party of the session, its offer is stored for that party, and the port it binds was open at the number of frames the chain had accepted; no other actor's turn is taken or stores anything; for such a party it is taken exactly when applying it succeeds |
| RuntimeSteps.ClockArrives | packages/wire/src/frame/frame-multiplex-runtime.ts:349-362 | of a sendable body the receiver reads the body itself, with the sender's clock exactly when it sets a moment or carried a clock, and with the observation it carried |
| RuntimeSteps.NoClockArrives | packages/wire/src/frame/frame-multiplex-runtime.ts:349-362 | without a clock the receiver reads the body as it was |
| RuntimeSteps.OpCarriesTurn | packages/wire/src/session/frame-to-session-op.ts:17-47 | the turn can be read back from its op in the log, which names the actor unless the body has a member of that name |
| RuntimeSteps.OtherOps | packages/wire/src/session/frame-to-session-op.ts:17-47 | the op of an end of offers names its actor, a termination is logged as it is |
| RuntimeSteps.TerminationReads | packages/wire/src/frame/frame-multiplex-runtime.ts:603-606 | reason and code of a termination are read as given |
| RuntimeSteps.FlushExactly | packages/wire/src/frame/frame-multiplex-runtime.ts:242-262 | an envelope is due exactly when sync is on, the session is open, and ops are unconfirmed or an acknowledgement is owed; it carries the ops after the confirmed prefix between the checkpoints of prefix and log |
| RuntimeSafety.TurnKeepsStore | packages/nbc/src/nbc-turn.ts:63-130 | an applied turn binds exactly when it is accepted and its op names a port to bind |
| RuntimeSafety.TurnOpBinds | packages/wire/src/session/frame-to-session-op.ts:17-47 | the logged op names a port to bind exactly when the parsed turn does |
| RuntimeSafety.EnvelopeKeepsInv | packages/wire/src/frame/frame-multiplex-runtime.ts:330-331 | an accepted envelope leaves the confirmed prefix within the log |
| RuntimeSafety.OpenChainGrows | packages/wire/src/frame/frame-multiplex-runtime.ts:194-217 | a chain that stays open through a stretch of a run keeps its init and only adds to its history |
| Runtime.MultiplexSessionRuntime.constructor | packages/wire/src/frame/frame-multiplex-runtime.ts:85-121 | a new runtime has no chains, ops, keys or tips, over whatever the client already holds |
| Runtime.MultiplexSessionRuntime.RegisterChain | packages/wire/src/frame/frame-multiplex-runtime.ts:189-217 | takes the Register step: template adopted or matched, duplicate session ids and genesis hashes refused, one new chain routed from its genesis |
| Runtime.MultiplexSessionRuntime.MatchTemplate | packages/wire/src/frame/frame-multiplex-runtime.ts:191-199 | the first init becomes the template, a later one passes exactly when it matches |
| Runtime.MultiplexSessionRuntime.ResolveChain | packages/wire/src/frame/frame-multiplex-runtime.ts:225-235 | finds the open chain the routing map names for a parent hash, or nothing |
| Runtime.MultiplexSessionRuntime.RecordFrame | packages/wire/src/frame/frame-multiplex-runtime.ts:392-394 | one dedupe key, one op in the chain's log, the same op in the global log, nothing else |
| Runtime.MultiplexSessionRuntime.AdvanceTip | packages/wire/src/frame/frame-multiplex-runtime.ts:237-240 | the chain's tip and its routing entry move together, other chains' tips stay |
| Runtime.MultiplexSessionRuntime.ApplyFrameTurn | packages/wire/src/frame/frame-multiplex-runtime.ts:382-391 | parses the body and applies it for the acting party at the length of the chain's log; changes the store only |
| Runtime.MultiplexSessionRuntime.EmitOutboundTurn | packages/wire/src/frame/frame-multiplex-runtime.ts:364-403 | takes the EmitTurn step, including the order validate, sign, dedupe, apply, record, advance |
| Runtime.MultiplexSessionRuntime.CommitOutbound | packages/wire/src/frame/frame-multiplex-runtime.ts:382-399 | a signed turn reaches the store first, and is recorded and committed exactly when the store takes it |
| RuntimeSafety.OutboundTurn | packages/wire/src/frame/frame-multiplex-runtime.ts:364-403 | a turn that goes out extends its chain's tip and is one op in each log; one that does not leaves every chain and log alone, and touches the store only when the store refused it |
| Runtime.MultiplexSessionRuntime.EmitOutboundEndOffers | packages/wire/src/frame/frame-multiplex-runtime.ts:405-425 | takes the EmitEndOffers step |
| Runtime.MultiplexSessionRuntime.SendTermination | packages/wire/src/frame/frame-multiplex-runtime.ts:455-485 | takes the EmitTerminate step |
| Runtime.MultiplexSessionRuntime.RemoveTipsForSession | packages/wire/src/frame/frame-multiplex-runtime.ts:219-223 | exactly the entries of other sessions stay |
| Runtime.MultiplexSessionRuntime.DestroyChain | packages/wire/src/frame/frame-multiplex-runtime.ts:517-539 | takes the Destroy step |
| Runtime.MultiplexSessionRuntime.TakeFrame | packages/wire/src/frame/frame-multiplex-runtime.ts:550-615 | a frame of a resolved chain is verified, applied if it is a turn, and accepted, in that order |
| Runtime.MultiplexSessionRuntime.HandleInboundFrame | packages/wire/src/frame/frame-multiplex-runtime.ts:541-615 | takes the HandleFrame step in each of its outcomes |
| Runtime.MultiplexSessionRuntime.VerifyInbound | packages/wire/src/frame/frame-multiplex-runtime.ts:550-555 | a termination passes on its signature alone, any other frame also needs the chain's tip as parent |
| Runtime.MultiplexSessionRuntime.AcceptInbound | packages/wire/src/frame/frame-multiplex-runtime.ts:574-614 | records the frame and moves the tip to the hash of its canonical text, or closes the chain |
| Runtime.MultiplexSessionRuntime.DeltaIsLocal | packages/wire/src/frame/frame-multiplex-runtime.ts:321-329 | decides whether every delta op prints like the local op at its place |
| Runtime.MultiplexSessionRuntime.HandleInboundSessionEnvelope | packages/wire/src/frame/frame-multiplex-runtime.ts:276-334 | takes the HandleEnvelope step in each of its outcomes |
| Runtime.MultiplexSessionRuntime.FlushSessionEnvelopeFor | packages/wire/src/frame/frame-multiplex-runtime.ts:242-262 | takes the Flush step: nothing to send and nothing owed sends nothing, otherwise clears the ack flag and sends |
| Runtime.MultiplexSessionRuntime.TouchStore | packages/core/src/persistence/core/in-memory-strategy.ts:88-316 | an operation of the host on the shared client changes the store of the runtime's state and nothing else |
| Runtime.MultiplexSessionRuntime.Perform | packages/wire/src/frame/frame-multiplex-runtime.ts:189-615 | every step of the state machine is taken by the method written for it, so every run of the objects is a run of the model |
| Runtime.MultiplexSessionRuntime.ProcessYield | packages/wire/src/frame/frame-multiplex-runtime.ts:617-640 | dispatches one decoded payload; raw payloads, malformed inits and frames before any init are refused |
| Runtime.MultiplexSessionRuntime.TakePart | packages/wire/src/frame/frame-multiplex-runtime.ts:664-682 | one payload moves the error counter, the closed flag and the state as the loop's model says |
| Runtime.MultiplexSessionRuntime.TakeParts | packages/wire/src/frame/frame-multiplex-runtime.ts:664-682 | the payloads of a chunk are taken in order up to the one that stops the loop |
| Runtime.MultiplexSessionRuntime.ReadOne | packages/wire/src/frame/frame-multiplex-runtime.ts:649-682 | one chunk is decoded in place; a failure is one error and empties the decoder |
| Runtime.MultiplexSessionRuntime.RunReadLoop | packages/wire/src/frame/frame-multiplex-runtime.ts:642-684 | the whole loop over decoder and runtime objects ends in the state that the model of the loop computes |
| ReadLoop.LoopIsRun | packages/wire/src/frame/frame-multiplex-runtime.ts:642-684 | for any bytes in any chunks, a clock reading of its own for each payload and any steps of the replica around them: the read loop takes exactly the replica's own steps and those the payloads stand for, in order, up to the first payload or failed chunk that closes the channel, and stops exactly when there is one |
| ReadLoop.MessagesYield | packages/wire/src/frame/frame-decoder.ts:95-110 | the bytes of messages within the size limit, in any chunking within the buffer cap, yield exactly those messages in order |
| ReadLoop.StreamIsRun | packages/wire/src/frame/frame-multiplex-runtime.ts:642-684 | so the loop takes the steps of the messages and the replica's own, in order, up to the first closing message |
| ReadLoop.StreakMeans | packages/wire/src/frame/frame-multiplex-runtime.ts:648-679 | the error counter reaches n exactly when the last n payloads or chunks were refused |
| ReadLoop.SixteenRefusals | packages/wire/src/frame/frame-multiplex-runtime.ts:642-679 | sixteen refusals in a row close the channel wherever they fall, whether of messages, of payloads that are none or of chunks that fail to decode |
| ReadLoop.ReadsYields | packages/wire/src/frame/frame-multiplex-runtime.ts:649-683 | reading any chunks is taking one by one what the stream yields, a failed chunk counting as one refusal |
| Wire.ProcessIsRun | packages/wire/src/frame/frame-multiplex-runtime.ts:617-640 | processing anything the decoder yields does to the state what the steps it stands for do, none for what is no message |
| Wire.MessageArrives | packages/wire/src/frame/frame-decoder.ts:81-93 | the text of an init, frame or envelope parses and is classified back to it |
| Wire.InitArrives | packages/wire/src/frame/frame-init-wire.ts:49-110 | an init written to the wire is read back as it was |
| Wire.OlderInitArrives | packages/wire/src/frame/frame-init-wire.ts:60-110 | an init that names its keys under the older name is read as the same init |
| Wire.EnvelopeArrives | packages/wire/src/frame/frame-decoder.ts:130-145 | an envelope written to the wire is read back as it was |
| Wire.NoChainNoStep | packages/wire/src/frame/frame-multiplex-runtime.ts:636-639 | while no chain is open every frame is refused, repeated ones too, and handling it would change nothing |
| Frames.FrameTexts | packages/wire/src/frame/frame-signing.ts:32-34 | two frames have the same canonical text exactly when they are the same frame |
| Frames.ReceiverTip | packages/wire/src/frame/frame-multiplex-runtime.ts:578-581 | the receiver parses the sender's frame and computes from its re-printed text the tip the sender committed |
| Frames.TipsApart | packages/wire/src/frame/frame-signing.ts:32-34 | frames whose texts do not collide have equal tips exactly when they are equal |
| Frames.SignedIsVerified | packages/wire/src/frame/frame-signing.ts:13-26 | a verifier that takes whatever the signer signs takes every frame signed at any tip, of any kind and body |
| Frames.SignatureCovers | packages/wire/src/frame/frame-signing.ts:13-26 | when a signature fits one text, two valid frames by one actor with the same signature are the same frame |
| Frames.FrameOpIsOp | packages/wire/src/session/frame-to-session-op.ts:17-47 | the op of a frame is a JSON document |
| Frames.FrameDag.constructor | packages/wire/src/frame/frame-dag.ts:15-17 | the first tip is the genesis hash |
| Frames.FrameDag.VerifyInboundChild | packages/wire/src/frame/frame-dag.ts:23-31 | a wrong parent is reported before a bad signature, and nothing else is |
| Frames.FrameDag.CommitTip | packages/wire/src/frame/frame-dag.ts:33-35 | sets the tip |
| Frames.FrameDag.SignOutboundAtTip | packages/wire/src/frame/frame-dag.ts:37-53 | signs the canonical text with an empty signature at the current tip, which stays |
| Frames.FrameDag.AppendInbound | packages/wire/src/frame/frame-dag.ts:55-58 | the tip moves to the frame's hash exactly when the frame fits and is signed, otherwise it stays |
| Frames.FrameDag.MintOutbound | packages/wire/src/frame/frame-dag.ts:60-68 | signs at the old tip and moves the tip to the new frame's hash |
| HashChain.EqualTipsEqualHistories | packages/wire/src/frame/frame-dag.ts:23-35 | linked histories with equal tips have the same genesis and the same items in the same order |
| HashChain.DivergedForever | packages/wire/src/frame/frame-dag.ts:23-35 | linked histories that differ at one position have different tips however they grow |
| HashChain.LinkedAppend | packages/wire/src/frame/frame-dag.ts:55-58 | appending an item that names the tip keeps the history linked |
| CanonicalJson.StableStringify | packages/wire/src/frame/canonical-json.ts:10-43 | prints the canonical text: every member once, in ascending order of the keys' UTF-16 code units whatever order the object holds them in, undefined as null |
| CanonicalJson.PrintInUnitOrder | packages/wire/src/frame/canonical-json.ts:20-31 | of two keys the one whose code units are a proper beginning of the other's, or smaller where they first differ, is printed first |
| ShortestText.PrintIsShortest | packages/wire/src/frame/canonical-json.ts:10-43 | no JSON text that reads as a document is shorter than its canonical text: no blanks, no needless escapes |
| ShortestText.ValueNoLonger | packages/wire/src/frame/canonical-json.ts:10-43 | printing what was read is never longer than what was read, duplicate keys and escapes included |
| CanonicalJson.StringifyItems | packages/wire/src/frame/canonical-json.ts:10-31 | the texts of the elements in order |
| CanonicalJson.StringifyMembers | packages/wire/src/frame/canonical-json.ts:10-31 | the texts of the members in key order |
| CanonicalJson.PrintUnambiguous | packages/wire/src/frame/canonical-json.ts:10-31 | two values print the same text exactly when they are the same document, undefined counting as null |
| CanonicalJson.ParsePrint | packages/wire/src/frame/canonical-json.ts:37-43 | reading a printed text by sections 2 to 7 of RFC 8259 gives the document back |
| CanonicalJson.PrintParsePrint | packages/wire/src/frame/frame-decoder.ts:81-87 | printing, parsing and printing again gives the same text |
| CanonicalJson.DocumentTexts | packages/wire/src/frame/canonical-json.ts:10-31 | on documents the printer is injective and reading undoes it |
| FrameDecoder.EncodeLengthPrefixed | packages/wire/src/frame/length-prefix.ts:8-13 | four big-endian length bytes, then the payload |
| FrameDecoder.PrefixIsBigEndian | packages/wire/src/frame/length-prefix.ts:8-13 | the four bytes are the length in base 256, the most significant first |
| FrameDecoder.Decoder.constructor | packages/wire/src/frame/frame-decoder.ts:15-25 | an empty buffer of the initial size |
| FrameDecoder.Decoder.Append | packages/wire/src/frame/frame-decoder.ts:42-64 | refuses and resets above the cap or on a length over the limit, otherwise the pending bytes grow by the chunk |
| FrameDecoder.Decoder.TryParseOne | packages/wire/src/frame/frame-decoder.ts:66-93 | takes the first complete frame off the pending bytes, or none, or resets on a length over the limit |
| FrameDecoder.Decoder.PushChunk | packages/wire/src/frame/frame-decoder.ts:95-110 | yields exactly the complete frames of pending bytes and chunk and keeps exactly the incomplete rest; a failure leaves the initial state |
| FrameDecoder.Decoder.Reset | packages/wire/src/frame/frame-decoder.ts:22-25 | back to the initial state |
| FrameDecoder.FramesAppend | packages/wire/src/frame/frame-decoder.ts:66-93 | what a stream contains can be found piece by piece |
| FrameDecoder.ChunkingIrrelevant | packages/wire/src/frame/frame-decoder.ts:42-110 | however a stream is cut, as long as no push passes the cap, the yields are the frames of the whole stream |
| FrameDecoder.DecodedExactlyWhen | packages/wire/src/frame/frame-decoder.ts:36-64 | the whole stream decodes exactly when no push passes the cap and no length is over the limit |
| FrameDecoder.SingleBytesFit | packages/wire/src/frame/frame-decoder.ts:42-64 | one byte at a time never passes the cap |
| FrameDecoder.DecodeEncoded | packages/wire/src/frame/frame-decoder.ts:95-110 | every list of payloads survives every chunking of its encoding within the cap |
| FrameDecoder.IncompleteIsShort | packages/wire/src/frame/frame-decoder.ts:7-7 | what stays pending between pushes is below the buffer cap |
| SessionMerkle.SessionOpLeafDigest | packages/wire/src/session/session-merkle.ts:27-31 | the digest of tag, NUL and canonical op text |
| SessionMerkle.MerkleRootHexFromLeafDigests | packages/wire/src/session/session-merkle.ts:47-70 | the digest of the tree's root with odd layers completed by their last digest, or of the empty-log text |
| SessionMerkle.CheckpointForSessionOps | packages/wire/src/session/session-merkle.ts:72-79 | the length and root of a log |
| SessionMerkle.SmallRoots | packages/wire/src/session/session-merkle.ts:47-70 | the roots of one and of two ops, spelled out down to the hashed texts |
| SessionMerkle.DomainsApart | packages/wire/src/session/session-merkle.ts:27-45 | leaf, inner and empty-log texts are never the same |
| SessionMerkle.CheckpointDeterminesLog | packages/wire/src/session/session-merkle.ts:47-79 | two logs of any lengths have the same checkpoint exactly when they are the same log |
| SessionMerkle.OpTexts | packages/wire/src/session/session-merkle.ts:27-31 | two ops print the same text exactly when they are the same op |
| SessionMerkle.VerifySessionEnvelope | packages/wire/src/session/session-verify.ts:26-65 | reports the first checkpoint that differs, its length before its root |
| SessionMerkle.VerdictExactly | packages/wire/src/session/session-verify.ts:26-65 | no error exactly when both checkpoints are the recomputed ones; which mismatch is reported with which values, for the base before the new checkpoint and the length before the root |
| SessionMerkle.EnvelopesAgree | packages/wire/src/session/session-verify.ts:26-65 | envelopes that verify on the same prefix have the same new checkpoint exactly when they carry the same ops |
| SessionMerkle.VerifySessionOpsExtends | packages/wire/src/session/session-ops-extends.ts:48-68 | length, root format, root and safe-integer checks in that order |
| SessionMerkle.RefusalsExactly | packages/wire/src/session/session-ops-extends.ts:48-68 | which refusal an extension meets: a wrong length before anything about the root, a malformed root before a wrong one, and the right checkpoint passes exactly within the safe integers |
| SessionMerkle.ParseOps | packages/wire/src/session/session-ops-extends.ts:26-37 | parses every delta op, or fails exactly on one that is no op |
| SessionMerkle.ParseOpJson | packages/wire/src/session/session-ops-extends.ts:26-37 | reading an op's JSON gives the op |
| LibraryMerkle.MembershipSound | packages/algebra/src/commitment/merkle-library.ts:126-151 | a proof of any length with any siblings that verifies against a library's commitment proves a member; the empty library admits none |
| LibraryMerkle.MembershipComplete | packages/algebra/src/commitment/merkle-library.ts:92-124 | the proof built for any member of any library verifies |
| LibraryMerkle.RootDeterminesLibrary | packages/algebra/src/commitment/merkle-library.ts:77-89 | two libraries have the same root exactly when they have the same atoms, whatever order or repeats |
| LibraryMerkle.ProofIsNotEmptyRoot | packages/algebra/src/commitment/merkle-library.ts:28-38 | nothing hashes up to the root of the empty library |
| LibraryMerkle.DomainsApart | packages/algebra/src/commitment/merkle-library.ts:28-38 | leaf, node and empty texts are never the same text |
| LibraryMerkle.SmallRoots | packages/algebra/src/commitment/merkle-library.ts:28-65 | the roots of one and of two atoms, spelled out down to the hashed texts |
| LibraryMerkle.BuildMerkleLayers | packages/algebra/src/commitment/merkle-library.ts:41-65 | the layers bottom-up, an odd last hash paired with itself; one layer with the empty root for no leaves |
| LibraryMerkle.SortedUnique | packages/algebra/src/commitment/merkle-library.ts:77-80 | the distinct atoms in UTF-16 order |
| LibraryMerkle.CommitLibrary | packages/algebra/src/commitment/merkle-library.ts:77-89 | the commitment to the set of the given atoms |
| LibraryMerkle.ProveMembership | packages/algebra/src/commitment/merkle-library.ts:92-124 | the proof for an atom exactly when it is a leaf |
| LibraryMerkle.SiblingPath | packages/algebra/src/commitment/merkle-library.ts:103-117 | the siblings found by halving the index, layer by layer |
| LibraryMerkle.HashUp | packages/algebra/src/commitment/merkle-library.ts:126-136 | hashes a leaf along a path |
| LibraryMerkle.VerifyMembershipInCommitment | packages/algebra/src/commitment/merkle-library.ts:138-151 | a proof passes exactly when its root is the commitment's and its path leads there |
| MerkleTree.PathReachesRoot | packages/algebra/src/commitment/merkle-library.ts:103-136 | from every position of every layer of any size the sibling path climbs to the root |
| MerkleTree.ClimbStartsAtLeaf | packages/algebra/src/commitment/merkle-library.ts:126-136 | a path that climbs into the tree started at one of its leaves, when no hashed pair is mistaken for another |
| MerkleTree.RootDeterminesLeaves | packages/wire/src/session/session-merkle.ts:47-70 | equally many leaves with the same root are the same leaves |
| MerkleTree.RootSplits | packages/algebra/src/commitment/merkle-library.ts:41-65 | the root over two halves of 2^k leaves is the node over their roots |
| MerkleTree.LastCountsTwice | packages/algebra/src/commitment/merkle-library.ts:41-65 | an odd last leaf counts twice: repeating it keeps the root |
| MerkleTree.PairUp | packages/wire/src/session/session-merkle.ts:54-66 | one pass over a layer, two hashes at a time |
| MerkleTree.BuildLayers | packages/algebra/src/commitment/merkle-library.ts:46-65 | the loop over the current layer ends with all layers in order |
| NbcStore.InMemoryStrategy.RegisterPartyNamed | packages/core/src/persistence/core/in-memory-strategy.ts:88-95 | keeps the first name of an id; an empty id gets the next counter id |
| NbcStore.InMemoryStrategy.Extend | packages/core/src/persistence/core/in-memory-strategy.ts:128-153 | stores the offer before the optional bind is checked, so that a failed bind leaves it |
| NbcStore.InMemoryStrategy.Expose | packages/core/src/persistence/core/in-memory-strategy.ts:155-201 | an existing port gets an edge only; unresolvable refs and bad policies change no port; a bad max_bindings leaves the port without policy, edge and window |
| NbcStore.InMemoryStrategy.BindTo | packages/core/src/persistence/core/in-memory-strategy.ts:203-236 | a duplicate, an admission failure (with timing) or a capacity failure (without) is refused, otherwise one bind is appended |
| NbcStore.InMemoryStrategy.CheckAdmission | packages/nbc/src/nbc-invariants.ts:118-182 | the admission decision in the order of its checks |
| NbcStore.InMemoryStrategy.CheckCapacity | packages/core/src/persistence/core/bind-capacity.ts:32-57 | the capacity decision for the canonical port |
| NbcStore.InMemoryStrategy.FindBind | packages/core/src/persistence/core/in-memory-strategy.ts:74-78 | whether the offer is bound to the port |
| NbcStore.InMemoryStrategy.ExpirePortNow | packages/core/src/persistence/core/in-memory-strategy.ts:288-296 | a stored port's window becomes the expired one |
| NbcStore.InMemoryStrategy.ExpireOfferNow | packages/core/src/persistence/core/in-memory-strategy.ts:298-316 | the offer's window and those of all stored ports on its edges become the expired one |
| NbcStore.NormalizeMaxBindings | packages/core/src/persistence/core/bind-capacity.ts:9-15 | whatever limit is accepted is at least one |
| StoreSafety.RunIsGood | packages/core/src/persistence/core/in-memory-strategy.ts:128-236 | after any operations, failed ones included: binds resolving to a canonical port never exceed its limit, every bind's target resolves to a stored port with a policy, no pair is bound twice, every stored port resolves |
| StoreSafety.ApplyKeepsGood | packages/core/src/persistence/core/in-memory-strategy.ts:128-316 | every single operation keeps that |
| StoreSafety.Execute | packages/core/src/persistence/core/in-memory-strategy.ts:88-316 | each operation of the model is what the strategy's method does to its fields |
| StoreSafety.AddBindKeepsGood | packages/core/src/persistence/core/bind-capacity.ts:32-57 | a bind the capacity check lets through keeps every limit |
| StoreSafety.AdmissionImpliesCapacity | packages/nbc/src/nbc-invariants.ts:157-182 | whatever the admission check lets through, the capacity check lets through |
| StoreSafety.GrowPorts | packages/core/src/persistence/core/in-memory-strategy.ts:155-194 | storing a resolvable port changes no canonical id and no tally |
| StoreSafety.CanonicalIdsNeverChange | packages/core/src/persistence/core/in-memory-strategy.ts:155-194 | no run of operations changes what a stored port resolves to |
| StoreSafety.NextIdIsFresh | packages/core/src/persistence/core/in-memory-strategy.ts:70-72 | the next counter id is no stored offer's |
| StoreSafety.RunIsLater | packages/core/src/persistence/core/in-memory-strategy.ts:128-316 | parties keep their names, offers their extenders, and stored ports, offers and capacity policies are never changed or removed; edges and binds are only appended, and a window is only ever replaced by the expired one |
| StoreSafety.PartyIsKnown | packages/core/src/persistence/core/in-memory-strategy.ts:88-95 | a registered party is known under its first name by its id, or by the next id of the counter when that is blank |
| StoreSafety.ClosedForever | packages/nbc/src/nbc-invariants.ts:67-80 | once a bind window is closed, no operations, later turn, later clock state or skew samples make the bind admissible again |
| StoreSafety.ManualExpiryCloses | packages/core/src/persistence/core/in-memory-strategy.ts:288-316 | expiring a port or an offer by hand closes it, and an offer's ports, for every positive clock |
| BindRules.AdmittedExactly | packages/nbc/src/nbc-invariants.ts:118-182 | a bind is admitted exactly when offer and port are stored with open windows, the port is on an edge, and its refs lead to a canonical port with fewer binds than its limit |
| BindRules.BindExactly | packages/core/src/persistence/core/in-memory-strategy.ts:203-236 | a bind is appended exactly when that pair is not bound and, with a timing, it is admissible, without one there is room; a refused one changes nothing |
| BindRules.CapacityExactly | packages/core/src/persistence/core/bind-capacity.ts:32-57 | capacity is granted exactly when fewer binds than the limit lead to the same canonical port |
| BindRules.ExpiredExactly | packages/nbc/src/nbc-invariants.ts:141-152 | which of offer and port is reported expired, the offer first |
| BindRules.OpenIsNotShut | packages/nbc/src/nbc-invariants.ts:66-80 | a window is open exactly when neither its last turn nor its last moment is reached; with a last moment and no clock it is shut |
| BindRules.ExtendExactly | packages/core/src/persistence/core/in-memory-strategy.ts:128-153 | an offer is stored with its kind, window and party under a fresh id whatever becomes of its bind, which is appended exactly when there is room |
| BindRules.ExposeExactly | packages/core/src/persistence/core/in-memory-strategy.ts:155-201 | a port is exposed exactly when its offer is stored and its id is stored already, or the host takes its policy, its limit is at least one or left out, and its ref is blank or names a stored port |
| BindRules.ExpiryTouchesNoOther | packages/core/src/persistence/core/in-memory-strategy.ts:288-316 | expiring changes the named port's window, or the named offer's and those of the stored ports on its edges, and nothing else |
| PortRefs.ResolveCanonicalPortId | packages/core/src/persistence/core/canonical-port-ref.ts:18-44 | the endless loop ends on every port map with the result of the walk |
| PortRefs.ResolutionExact | packages/nbc/src/nbc-ref.ts:20-46 | reports canonical, missing or cycle exactly when following the stored refs, white space around them aside, reaches a blank one, leaves the map, or never ends; the path lists the ports passed in order, once each |
| PortRefs.NewPortResolves | packages/core/src/persistence/core/in-memory-strategy.ts:168-181 | a new port resolves exactly when its ref is blank or names a port stored before |
| PortRefs.ResolveStable | packages/core/src/persistence/core/canonical-port-ref.ts:18-44 | storing more ports never changes what a resolvable port resolves to |
| PortRefs.CountBindsForCanonicalPort | packages/core/src/persistence/core/bind-capacity.ts:17-30 | counts the binds that resolve to the canonical port |
| PortRefs.TallyStable | packages/core/src/persistence/core/bind-capacity.ts:17-30 | storing more ports never changes a tally of resolvable binds |
| NbcTurn.ApplyNbcTurn | packages/nbc/src/nbc-turn.ts:63-130 | extend, expose every port, optionally bind, stopping at the first failure with what was stored so far |
| NbcTurn.TurnEffects | packages/nbc/src/nbc-turn.ts:63-130 | every turn adds one fresh offer; a successful one also one edge per listed port and one bind exactly when it names a port; a failing one no bind |
| TurnStores.TurnStoresAsDeclared | packages/nbc/src/nbc-turn.ts:66-97 | every turn leaves what was stored as it was and stores its offer with the body's kind and window for the acting party; a successful one stores each port listed for the first time with its declared ref, windows, limit, terminal mark and bind policy, and no other port |
| TurnStores.TurnBindsAsDeclared | packages/nbc/src/nbc-turn.ts:99-127 | the bind of a successful turn is its own offer's to the port it names, with what the host's validator makes of the payload under the policy in force, while both windows are open |
| TurnStores.TurnSucceedsExactly | packages/nbc/src/nbc-turn.ts:63-130 | a turn without a bind succeeds exactly when each of its ports is exposable once those before it are; one with a bind exactly when it would without and the policy in force lets the payload through, the bind is admissible and the pair unbound |
| TurnStores.ExposedUntil | packages/nbc/src/nbc-turn.ts:80-92 | a port exposed until turn n or moment m is open exactly before them, and from then on refused to every offer, whatever operations the store takes in between |
| TurnStores.CheckedPayloadIsTaken | packages/nbc/src/nbc-invariants.ts:213-237 | a bind payload that the sender's check let through is let through and normalised alike when the turn is applied, if every port of the turn has an id |
| NbcTurn.TurnsKeepComplete | packages/nbc/src/nbc-types.ts:163-167 | in every store reached by parsed turns every port has a policy and a window |
| NbcTurn.LocalBindPoliciesFromTurnPorts | packages/nbc/src/nbc-invariants.ts:185-195 | the last active policy declared for each port id |
| NbcTurn.ValidateOutboundNbcTurnBind | packages/nbc/src/nbc-invariants.ts:218-237 | the sender-side verdict on a turn's bind payload |
| NbcSession.GetBindablePortsForParty | packages/nbc/src/nbc-session.ts:28-64 | the ports on open edges of the party's offers with room left, in edge order |
| NbcSession.IsSessionAdvanceable | packages/nbc/src/nbc-session.ts:66-90 | whether some edge is open |
| NbcSession.NbcNaturalStop | packages/nbc/src/nbc-session.ts:92-99 | stops exactly when the turn exposed nothing and no edge is open |
| NbcSession.ListedExactly | packages/nbc/src/nbc-session.ts:28-64 | the listing holds, in edge order, the ports of exactly the edges whose offer the party extended, whose windows are open and whose canonical port has room |
| NbcSession.AdvanceableExactly | packages/nbc/src/nbc-session.ts:66-90 | a session can go on exactly while some edge has both ends stored and open |
| NbcSession.ListedIsAdmitted | packages/nbc/src/nbc-session.ts:28-64 | a listed port is admitted at the same timing for any stored binding offer whose own window is open |
| NbcSession.ListedIsAdmittedAfterTurns | packages/nbc/src/nbc-session.ts:28-64 | the same in every store reached by parsed turns |
| NbcSession.NaturalStopEmpties | packages/nbc/src/nbc-session.ts:92-99 | at a natural stop no party has anything left to bind |
| TurnCodec.BodyRoundTrip | packages/nbc/src/nbc-types.ts:190-256 | reading a written body gives it back exactly when its numbers are non-negative, its epochs below 10^21, its kinds and limits valid |
| TurnCodec.EpochRoundTrip | packages/nbc/src/nbc-types.ts:228-231 | a moment survives the wire exactly when it is non-negative and below 10^21, also above the safe-integer limit |
| TurnCodec.MomentKind | packages/nbc/src/nbc-types.ts:228-231 | a moment travels as a number exactly when it is a safe integer, as a string otherwise |
| TurnCodec.KindExactly | packages/nbc/src/nbc-types.ts:126-145 | a port's kind is its `kind`, or else its `type` unless that is a schema keyword, and never empty |
| TurnCodec.ParsedIsSendable | packages/nbc/src/nbc-types.ts:215-256 | whatever the parser lets through can be sent on, exactly when its moments are below 10^21 |
| TurnCodec.PortRoundTrip | packages/nbc/src/nbc-types.ts:147-188 | the same for one port |
| TurnCodec.ClockRoundTrip | packages/nbc/src/nbc-types.ts:82-113 | the same for the clock block |
| TurnCodec.ParsePort | packages/nbc/src/nbc-types.ts:147-188 | a parsed port has no limit or one of at least one |
| TurnCodec.SentBodyArrives | packages/nbc/src/nbc-types.ts:233-256 | the receiver reads from the canonical text the turn the sender wrote |
| Hlc.HlcState.Send | packages/nbc/src/nbc-hlc.ts:28-34 | the send rule |
| Hlc.HlcState.Recv | packages/nbc/src/nbc-hlc.ts:36-48 | the merge rule |
| Hlc.CausalityRespected | packages/nbc/src/nbc-hlc.ts:24-48 | in every run of any nodes with any wall clocks, an event causally before another has a smaller stamp |
| Hlc.PhysicalPartIsLargestWall | packages/nbc/src/nbc-hlc.ts:24-48 | the physical part is exactly the largest wall reading in the causal past |
| Hlc.LogicalPartIsLongestChain | packages/nbc/src/nbc-hlc.ts:24-48 | the logical part is exactly one less than the longest causal chain ending there with that physical part |
| Hlc.SkewIsMean | packages/nbc/src/nbc-hlc.ts:54-63 | the offset times the number of samples is the total received less the total sent |
| Hlc.EffectiveNowExactly | packages/nbc/src/nbc-hlc.ts:65-78 | no reading exactly with no samples, too few, or an offset beyond the limit either way; otherwise the latest of clock, wall and wall moved by the offset |
| Hlc.EstimateSkewMs | packages/nbc/src/nbc-hlc.ts:54-63 | the mean offset of the samples, or nothing |
| Text.SortStrings | packages/wire/src/frame/canonical-json.ts:20-22 | the same strings, each before those whose UTF-16 code units come later |
| Text.OrderOfUnits | packages/wire/src/frame/canonical-json.ts:20-22 | two different strings are in order exactly when the code units of the first are a proper beginning of the second's, or smaller where they first differ |
| Text.TrimIsCore | packages/core/src/persistence/core/canonical-port-ref.ts:38-38 | trimming removes exactly the white space around a string |
| Text.AscendingIsSorted | packages/wire/src/frame/canonical-json.ts:20-22 | a set has one ascending listing, so sorting does not depend on the order given |
| Text.DecimalRoundTrip | packages/nbc/src/nbc-types.ts:228-231 | reading the decimal text of a number gives the number |
| Digests.HexDigitsCount | packages/wire/src/frame/frame-signing.ts:32-34 | each byte is written as two digits, the higher half first |
| Digests.HexInjective | packages/wire/src/frame/frame-signing.ts:32-34 | different byte strings have different hexadecimal texts |

## Left out

- Promises, `AsyncLocalStorage`, timers and the write queue: each section run under `enqueueMux` is one
  atomic step, writes succeed, and neither an init nor an operation of the host on the store falls between
  the awaits of another section.
- The envelope flush requested inside a section is an event of its own that may happen at any time; so is
  the destruction that follows a local termination.
- A party id missing from the session sync and a log longer than 2^53 - 1 ops, which make the flush throw.
- Handlers and hooks: what they do are steps of the replica, and whether they threw, or the channel was
  closed from elsewhere (idle closing included), are answers from outside the read loop's model.
- Frames of two replicas that cross on the wire: the theorems of `Lockstep` let one side send at a time. What
  becomes of crossing frames is what `DivergedRunsStayApart` and `InboundFrameExact` say.
- Sequential chain plans and `ensureSignerInSession` on the opener's side.
- UTF-8: a text stands for its own bytes, and lone surrogates do not occur.
- JSON numbers: a number is its token. The printer's number formatting, number tokens in exponent form
  read as integers, and the fewest-digits rule of `String(n)` above 2^53 are not modelled (exponent
  notation from 10^21 on is). An envelope whose `seq` is not an integer token counts as refused.
- Payloads that are not JSON: one that does not parse counts as one refused payload; that `push` throws
  then, losing the other payloads of its chunk, is not modelled.
- `undefined` inside bodies handed in by a caller: bodies are documents, so `JSON.stringify` dropping such
  members is not modelled. The canonical printer itself covers `undefined`.
- Frames carry exactly the five fields of the protocol.
- SHA-256, Ed25519 and host validators are unknown functions; AJV and Standard Schema profiles are not
  part of this model.
- The genesis of a chain: that no accepted frame hashes to it is a hypothesis, as it is free text. So is,
  for the theorems about echoes at an open tip, that it holds no colon.
- Signatures: that a verifier takes what an honest signer signs, and that a signature fits one text, are
  hypotheses of the theorems that need them.
- The copy of the alias walk in `nbc-ref.ts` is the same loop and is modelled once.
- The persistence client between runtime and store, the read-only getters, `validateNbcBind` and its
  snapshot, and the `ttl` style fields of policies.
- The SQLite strategy, HTTP/2 and WebSocket transports, byte-stream queues and the MLS envelope.
- Interface algebra, party ordering helpers, host turn limits and scripts: easy facts.
- That `confirmedSeq` only grows and that envelope acknowledgements die out are not claimed: an older
  valid envelope lowers the former, and every accepted envelope asks for an acknowledgement.
- Offers and ports are not a function of accepted frames: rejected turns can leave some behind.
