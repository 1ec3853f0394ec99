# unavi core, modelled in Dafny

This project models the core of the unavi metaverse platform:

- **the host's room** (`World`). Players join and get a one-byte room-local id. They leave, chat, publish events and player data, and announce media producers that the other players consume.
- **the client's connection to a host** (`NetworkingInterface`). It joins a space, opens a WebSocket, broadcasts the player's location at 10 Hz, forwards host messages to the render thread, and reconnects up to ten times with growing waits after the socket closes.
- **the `editor/remove.proto` codec.** This covers RemoveNode and RemoveMesh over the Protocol Buffers wire format.
- **the zod validators of editor edit messages.** These are node edits and mesh edits.
- **the search-parameter parsing of the play page.**
- **the studio's move-entity action** on the scene tree.
- **the engine's table of remote players.**
- **two client ECS systems.** One sets the skybox image from the client store. The other copies the active scene's root name into the store.

There is one module per source file:

| module | file |
|---|---|
| `HostWorld` | `host_world.dfy` |
| `Networking` | `networking.dfy` |
| `ProtoWire` (the runtime's reader and writer) | `proto_wire.dfy` |
| `RemoveCodec` | `remove_codec.dfy` |
| `Zod` and `EditSchema` | `zod.dfy` and `edit_schema.dfy` |
| `PlayParams` | `play_params.dfy` |
| `StudioTree` | `studio_tree.dfy` |
| `PlayerModule` | `player_module.dfy` |
| `SkyboxSystem` | `skybox_system.dfy` |
| `RootNameSystem` | `root_name_system.dfy` |

`Wrappers` (`wrappers.dfy`) holds `Option`, `Result` and JavaScript truthiness of an optional string.

Objects whose fields the source updates in place are classes with `modifies` frames: `World`, `NetworkingInterface`, `PlayerModules`, the studio store, the client store, and the skybox's `Asset` and `Image` components. Everything the source asks of the outside world becomes an entry in an effect log. This covers publishing, sending, consuming, closing, timers, sockets, the scene and the render thread. Pure code becomes functions with lemmas. This covers the codec, the schemas, the parameter parsing and the tree edit.

## Model

| member | source | states |
|---|---|---|
| HostWorld.TopicsDistinct | apps/host/src/World.ts:26-28 | two worlds publish on the same topic exactly when their uris are equal |
| HostWorld.World.PlayerCount | apps/host/src/World.ts:30-32 | the player count is the number of keys in the map |
| HostWorld.FirstIdOf | apps/host/src/World.ts:34-38 | `playerId` finds nothing exactly when no entry holds the player; otherwise it returns the id of the first entry, in insertion order, that holds this very player |
| HostWorld.RemoveId | apps/host/src/World.ts:124 | `players.delete(id)` keeps exactly the entries with other ids |
| HostWorld.RemoveAbsent | apps/host/src/World.ts:124 | deleting an id no entry holds leaves the entries as they are |
| HostWorld.RemoveIdAppend | apps/host/src/World.ts:124 | deletion works entry by entry, so the remaining entries keep their insertion order |
| HostWorld.RemoveIdDeletes | apps/host/src/World.ts:124 | with distinct ids, deleting removes exactly the one entry holding the id, and the entries before and after it stay in order |
| HostWorld.InsertKeepsValid | apps/host/src/World.ts:64 | inserting an unused id from 0 to 255 keeps the ids distinct and in range |
| HostWorld.RemoveKeepsValid | apps/host/src/World.ts:124 | deleting a key keeps the ids distinct and in range |
| HostWorld.AllocateIdAsWritten | apps/host/src/World.ts:41-62 | the id loop as written: untried draws, a free draw is taken, and the loop gives up after the 256th draw even when that draw was free; an id it returns is free, and when it gives up at most one id is free |
| HostWorld.AsWrittenAllocation | apps/host/src/World.ts:47-61 | as written, a returned id is in range and free, and giving up leaves at most one id free |
| HostWorld.AsWrittenRejectsFreeId | apps/host/src/World.ts:54-61 | with ids 0 to 254 taken and the draws 0 to 255, the free id 255 is found on the last draw and the join is still refused |
| HostWorld.AsWrittenGivesUpNearlyFull | apps/host/src/World.ts:47-61 | as written, the loop gives up only when every id other than the last draw is taken |
| HostWorld.AllocateId | apps/host/src/World.ts:41-62 | the id loop as intended: it stops on the first free draw; a returned id is in range and free, and it gives up exactly when every id is taken |
| HostWorld.CorrectedAllocation | apps/host/src/World.ts:41-62 | the corrected loop returns a free id from 0 to 255, and gives up exactly when all 256 ids are taken |
| HostWorld.UntriedExists | apps/host/src/World.ts:50 | fewer than 256 tried ids always leave an untried one, so the re-sampling draw terminates |
| HostWorld.DrawsCover | apps/host/src/World.ts:43-57 | 256 distinct draws from 0 to 255 try every id |
| HostWorld.World.Join | apps/host/src/World.ts:40-102 | a refused join leaves the map alone and asks the player to leave; it is refused only when all ids are taken. Otherwise the player is appended under a fresh id and the log grows by PlayerJoined, the replay to the newcomer and the producer fan-out |
| HostWorld.World.Admit | apps/host/src/World.ts:64-99 | after a free id is found: insert, publish PlayerJoined, replay, and start the newcomer's producers |
| HostWorld.World.Introductions | apps/host/src/World.ts:76-95 | the `forEach` of `join` computes exactly the replay of the other entries |
| HostWorld.World.JoinEffects | apps/host/src/World.ts:66-99 | the effects of `join` after insertion are the join log of the new entries |
| HostWorld.ReplayNoticesOthers | apps/host/src/World.ts:76-89 | the newcomer receives exactly one PlayerJoined per other entry, in map order, carrying that entry's id |
| HostWorld.ReplayConsumes | apps/host/src/World.ts:90-94 | the newcomer is asked to consume the producer and the data producer of every other entry that has them, tagged with that entry's id |
| HostWorld.ReplayConsumesOnly | apps/host/src/World.ts:90-94 | every consume and data-consume request of the replay is addressed to the newcomer and comes from another entry's producer or data producer, tagged with that entry's id |
| HostWorld.NoticesOfIntroduce | apps/host/src/World.ts:80-88 | introducing one entry sends exactly one PlayerJoined, to the newcomer, with that entry's id |
| HostWorld.OthersCount | apps/host/src/World.ts:77-78 | the replay sends one notice per entry not held by the newcomer |
| HostWorld.OthersToNewcomer | apps/host/src/World.ts:85-88 | every replayed notice goes to the newcomer |
| HostWorld.OthersExcludeSelf | apps/host/src/World.ts:78 | with distinct ids, no replayed notice carries the newcomer's own id |
| HostWorld.OthersIdsFrom | apps/host/src/World.ts:80-83 | every replayed id is the id of another entry |
| HostWorld.Fanout | apps/host/src/World.ts:177-180 | the producer fan-out asks at most one consumption per entry |
| HostWorld.FanoutReachesOthers | apps/host/src/World.ts:172-192 | every other entry is asked to consume the new producer, with `consume` for a producer and `consumeData` for a data producer, tagged with the owner's id; every request goes to another entry, for that producer, and the owner never consumes its own |
| HostWorld.ClosesAsWritten | apps/host/src/World.ts:108-122 | as written, the leave loop looks in the leaving player's own consumer tables under its own id |
| HostWorld.LeaveAsWrittenKeepsConsumers | apps/host/src/World.ts:108-122 | with two players, the as-written loop closes nothing, although the other player holds a consumer of the leaver's producer that the intended loop closes |
| HostWorld.ClosesExactlyHeld | apps/host/src/World.ts:104-122 | as intended, leaving closes exactly the consumers that the other entries hold of the leaver's producers |
| HostWorld.ClosesNeverRemove | apps/host/src/World.ts:108-122 | the closing loop only closes consumers |
| HostWorld.World.Leave | apps/host/src/World.ts:104-136 | a player without an entry changes nothing. Otherwise the entry is deleted and the log grows by the closes, then PlayerLeft, then deregistration when no entry is left |
| HostWorld.World.Depart | apps/host/src/World.ts:108-135 | the part of `leave` after the id lookup: delete, publish, and deregister |
| HostWorld.World.ClosingEffects | apps/host/src/World.ts:108-122 | the `forEach` of `leave` computes exactly the intended closes |
| HostWorld.LeaveDeregistersIffEmpty | apps/host/src/World.ts:124-135 | PlayerLeft follows the closes, and the world deregisters exactly when no entry remains |
| HostWorld.World.SendEvent | apps/host/src/World.ts:138-146 | a member publishes one Event with its id; for anyone else nothing happens |
| HostWorld.World.Chat | apps/host/src/World.ts:148-158 | a member publishes one ChatMessage with its id; for anyone else nothing happens |
| HostWorld.World.SetPlayerData | apps/host/src/World.ts:160-170 | a member publishes one PlayerData update with its id; for anyone else nothing happens |
| HostWorld.World.SetProducer | apps/host/src/World.ts:172-181 | the log grows by the fan-out of the producer to every other entry, and the map is unchanged |
| HostWorld.World.SetDataProducer | apps/host/src/World.ts:183-192 | the log grows by the fan-out of the data producer to every other entry, and the map is unchanged |
| HostWorld.World.ProducerEffects | apps/host/src/World.ts:172-192 | a player without an entry gets nothing; otherwise there is one consume request per other entry |
| HostWorld.World.constructor | apps/host/src/World.ts:19-24 | a new world has no players and has logged nothing |
| Networking.ModelUrl | packages/engine/src/networking/NetworkingInterface.ts:60-65 | "Space not found" exactly without a publication; "Space model not found" exactly when the second medium or its url is missing; otherwise the non-empty url of the second medium |
| Networking.HostFor | packages/engine/src/networking/NetworkingInterface.ts:79-86 | the local host exactly in development, the default host otherwise, and never empty |
| Networking.LocationPayload | packages/engine/src/networking/NetworkingInterface.ts:114-125 | seven numbers: the buffer's first three components, or 0 where the buffer is shorter, then the identity rotation 0, 0, 0, 1 |
| Networking.RenderSubject | packages/engine/src/networking/NetworkingInterface.ts:132-152 | only player_joined, player_left and player_location are forwarded |
| Networking.RenderSubjectInjective | packages/engine/src/networking/NetworkingInterface.ts:132-152 | different host subjects are forwarded under different render subjects |
| Networking.JoinedMeans | packages/engine/src/networking/NetworkingInterface.ts:105-110 | a socket counts as joined exactly when its join message is in the log |
| Networking.JoinFirstMeans | packages/engine/src/networking/NetworkingInterface.ts:105-126 | every location message in the log follows the join of its space on the same socket |
| Networking.AppendOne | packages/engine/src/networking/NetworkingInterface.ts:105-126 | appending an effect that respects join-before-location keeps that invariant |
| Networking.DisconnectLog | packages/engine/src/networking/NetworkingInterface.ts:186-194 | `disconnect` sends no location message |
| Networking.Cleared | packages/engine/src/networking/NetworkingInterface.ts:158 | the interval is cleared exactly when one is set, and at most once |
| Networking.Reattempt | packages/engine/src/networking/NetworkingInterface.ts:166-178 | a failed attempt sends no location message |
| Networking.RetryCount | packages/engine/src/networking/NetworkingInterface.ts:163-164 | the reconnect loop makes between one and ten attempts |
| Networking.RetryWaitsStep | packages/engine/src/networking/NetworkingInterface.ts:164-178 | an attempt that fails adds exactly its own wait of 1000 ms times its number |
| Networking.ReattemptWaits | packages/engine/src/networking/NetworkingInterface.ts:164-178 | an attempt that reconnects waits exactly once, 1000 ms times its number |
| Networking.RetryWaitsStop | packages/engine/src/networking/NetworkingInterface.ts:167-171 | an attempt that finds the socket open is the last and waits once |
| Networking.Delays | packages/engine/src/networking/NetworkingInterface.ts:167 | attempt n waits 1000·n ms |
| Networking.RetryWaits | packages/engine/src/networking/NetworkingInterface.ts:163-179 | the waits of the loop are exactly 1000, 2000, … ms, one per attempt it makes |
| Networking.RetryStopsAtFirstOpen | packages/engine/src/networking/NetworkingInterface.ts:163-182 | the loop gives up exactly when none of the ten attempts finds the socket open, and otherwise stops at the first attempt that does |
| Networking.GiveUpAfterLastConnect | packages/engine/src/networking/NetworkingInterface.ts:178-182 | when it gives up, the last thing the loop did was connect the socket that `disconnect` then closes |
| Networking.RetryNoLocation | packages/engine/src/networking/NetworkingInterface.ts:163-179 | the loop sends no location message, and every socket it opens is new |
| Networking.NetworkingInterface.constructor | packages/engine/src/networking/NetworkingInterface.ts:27-45 | no socket, no space entity, no interval, no host, a count of zero, no position buffer |
| Networking.NetworkingInterface.JoinSpace | packages/engine/src/networking/NetworkingInterface.ts:47-92 | the count is reset; it fails exactly as `ModelUrl` does, and then the socket, host, space entity, handle counter and log are unchanged. Otherwise it adds the model entity, sets the host and connects a new socket for the space. The interval, the running timers and the position buffer are outside its frame |
| Networking.NetworkingInterface.EnterSpace | packages/engine/src/networking/NetworkingInterface.ts:68-91 | once the model url is known: the model entity is added to the scene, the host is set, and a new socket to it becomes the current one |
| Networking.NetworkingInterface.ConnectToHost | packages/engine/src/networking/NetworkingInterface.ts:94-99 | without a truthy host server, it fails and changes nothing; otherwise a new socket to the host becomes the current one |
| Networking.NetworkingInterface.OnOpen | packages/engine/src/networking/NetworkingInterface.ts:105-127 | the count resets; the join of the space is sent, then a 100 ms interval is started for that socket and joins the running timers; a timer left by an earlier open keeps running |
| Networking.NetworkingInterface.SendJoin | packages/engine/src/networking/NetworkingInterface.ts:110 | the join of the socket's space is sent on that socket, and the socket then counts as joined |
| Networking.NetworkingInterface.StartBroadcast | packages/engine/src/networking/NetworkingInterface.ts:113-126 | a new 100 ms interval is started and recorded for the socket, which has already joined |
| Networking.NetworkingInterface.Tick | packages/engine/src/networking/NetworkingInterface.ts:113-126 | nothing without a position buffer; otherwise one location message on the interval's socket |
| Networking.NetworkingInterface.OnMessage | packages/engine/src/networking/NetworkingInterface.ts:129-153 | the three known subjects are posted to the render thread with their payload; anything else is ignored |
| Networking.NetworkingInterface.OnClose | packages/engine/src/networking/NetworkingInterface.ts:155-183 | the interval is cleared and its timer leaves the running timers; without a host, or with a loop already running, nothing else happens. Otherwise the reconnect loop runs, and `disconnect` follows when it gives up |
| Networking.NetworkingInterface.RetryOrGiveUp | packages/engine/src/networking/NetworkingInterface.ts:162-182 | the reconnect loop runs as RetryFrom says; when it gives up, `disconnect` follows and the interval's timer stops, and otherwise the running timers are unchanged |
| Networking.NetworkingInterface.Reconnect | packages/engine/src/networking/NetworkingInterface.ts:163-179 | the loop's log, socket and count are those of `RetryFrom` |
| Networking.NetworkingInterface.Attempt | packages/engine/src/networking/NetworkingInterface.ts:164-178 | one attempt counts itself and waits; it stops if the socket is open, and otherwise closes the socket and connects anew |
| Networking.NetworkingInterface.TrackedAttempt | packages/engine/src/networking/NetworkingInterface.ts:164-178 | one attempt keeps the log and state on the path `RetryFrom` describes, and a stopping attempt ends in its final state |
| Networking.NetworkingInterface.Disconnect | packages/engine/src/networking/NetworkingInterface.ts:186-194 | the socket is closed and forgotten, the count is zero, the host is forgotten and the interval is cleared, so its timer leaves the running timers |
| Networking.NetworkingInterface.ClearBroadcast | packages/engine/src/networking/NetworkingInterface.ts:193 | clearInterval is logged exactly when an interval is set, that timer leaves the running timers and every other timer keeps running |
| Networking.NetworkingInterface.LeaveSpace | packages/engine/src/networking/NetworkingInterface.ts:196-204 | it disconnects, which stops the interval's timer, then removes and forgets the space entity when there is one |
| Networking.NetworkingInterface.SetPlayerPositionBuffer | packages/engine/src/networking/NetworkingInterface.ts:206-208 | the buffer is the given one |
| ProtoWire.EncodeVarint | packages/protocol/src/generated/editor/remove.ts:68 | a varint is never empty |
| ProtoWire.VarintBytes | packages/protocol/src/generated/editor/remove.ts:68 | the continuation bit is set on every byte of a varint but the last |
| ProtoWire.ReadVarint | packages/protocol/src/generated/editor/remove.ts:49 | a read varint ends inside the buffer, after its start; the only failure is running out of bytes |
| ProtoWire.ReadTag | packages/protocol/src/generated/editor/remove.ts:49 | a tag read has a field number of at least 1 and a wire type of at most 5 |
| ProtoWire.ReadBytes | packages/protocol/src/generated/editor/remove.ts:52 | the payload is exactly the bytes just before the new position |
| ProtoWire.Skip | packages/protocol/src/generated/editor/remove.ts:58 | skipping moves forward within the buffer, and only for a wire type that can be skipped |
| ProtoWire.SkipGroup | packages/protocol/src/generated/editor/remove.ts:58 | skipping a group moves forward within the buffer |
| ProtoWire.VarintRoundTrip | packages/protocol/src/generated/editor/remove.ts:49-52 | an encoded varint reads back as the same number, wherever it sits, and the read stops after it |
| ProtoWire.TagRoundTrip | packages/protocol/src/generated/editor/remove.ts:49 | a written tag reads back as the same field number and wire type |
| ProtoWire.BytesRoundTrip | packages/protocol/src/generated/editor/remove.ts:52 | a length-delimited payload reads back as the same bytes |
| ProtoWire.SkipVarintValue | packages/protocol/src/generated/editor/remove.ts:58 | skipping a varint value moves past exactly its encoding |
| RemoveCodec.Create | packages/protocol/src/generated/editor/remove.ts:39-45 | target is the empty string unless the partial value defines it |
| RemoveCodec.InternalBinaryWrite | packages/protocol/src/generated/editor/remove.ts:65-73 | nothing is written for an empty target; otherwise the output starts with the tag of field 1, length-delimited |
| RemoveCodec.InternalBinaryRead | packages/protocol/src/generated/editor/remove.ts:46-64 | the loop reads exactly what `ReadFrom` says, starting from the target or a fresh message |
| RemoveCodec.ReadTargetRecord | packages/protocol/src/generated/editor/remove.ts:51-53 | a field-1 record replaces the target, and the read goes on after it |
| RemoveCodec.RoundTrip | packages/protocol/src/generated/editor/remove.ts:46-73 | decoding an encoding gives the message back, with nothing passed to the unknown-field handler |
| RemoveCodec.MergeIntoTarget | packages/protocol/src/generated/editor/remove.ts:47 | reading into a target keeps it for an empty encoding and replaces it otherwise |
| RemoveCodec.LastWins | packages/protocol/src/generated/editor/remove.ts:48-53 | when field 1 appears twice, the last value wins |
| RemoveCodec.ReadUnknownRecord | packages/protocol/src/generated/editor/remove.ts:54-60 | another field is skipped; it is dropped under `false` and passed to the handler otherwise |
| RemoveCodec.ReadUnknownThrows | packages/protocol/src/generated/editor/remove.ts:55-57 | under "throw", another field ends the read with an error naming the field, the wire type and the type name |
| RemoveCodec.UnknownVarintField | packages/protocol/src/generated/editor/remove.ts:54-60 | a lone unknown varint field gives an error, an empty message, or an empty message plus one handled record, depending on the option |
| Zod.Partial | packages/protocol/src/xyz.unavi.editor/edit.ts:25-29 | `.partial()` makes every field of the shape optional and keeps its keys |
| EditSchema.ColliderAccepts | packages/protocol/src/xyz.unavi.editor/edit.ts:7-24 | the collider schema accepts exactly the objects whose height, mesh, radius and size are absent or typed, size has three numbers, and type is null or a collider type |
| EditSchema.NodeDataAccepts | packages/protocol/src/xyz.unavi.editor/edit.ts:6-42 | the node data schema accepts exactly the hand-written node data: a string target, and every other field absent or well-typed |
| EditSchema.MeshDataAccepts | packages/protocol/src/xyz.unavi.editor/edit.ts:49-63 | the mesh data schema accepts exactly the hand-written mesh data |
| EditSchema.EditNodeAccepts | packages/protocol/src/xyz.unavi.editor/edit.ts:5-45 | a node edit is exactly node data with the node edit id and the client target |
| EditSchema.EditMeshAccepts | packages/protocol/src/xyz.unavi.editor/edit.ts:48-66 | a mesh edit is exactly mesh data with the mesh edit id and the client target |
| EditSchema.EditKindsDisjoint | packages/protocol/src/xyz.unavi.editor/edit.ts:43-64 | no value is both a node edit and a mesh edit |
| EditSchema.ParseEditMessage | packages/protocol/src/xyz.unavi.editor/edit.ts:69 | the union parses exactly the values it accepts |
| EditSchema.EditMessageAccepts | packages/protocol/src/xyz.unavi.editor/edit.ts:69 | an edit message is exactly a node edit or a mesh edit, and the union's order does not decide which |
| EditSchema.ColliderSound | packages/protocol/src/xyz.unavi.editor/edit.ts:7-24 | everything the collider schema accepts is a collider by hand |
| EditSchema.ColliderComplete | packages/protocol/src/xyz.unavi.editor/edit.ts:7-24 | every collider by hand is accepted |
| EditSchema.NodeDataSound | packages/protocol/src/xyz.unavi.editor/edit.ts:6-42 | everything the node data schema accepts is node data by hand |
| EditSchema.NodeDataComplete | packages/protocol/src/xyz.unavi.editor/edit.ts:6-42 | all node data by hand is accepted |
| EditSchema.MeshDataSound | packages/protocol/src/xyz.unavi.editor/edit.ts:49-63 | everything the mesh data schema accepts is mesh data by hand |
| EditSchema.MeshDataComplete | packages/protocol/src/xyz.unavi.editor/edit.ts:49-63 | all mesh data by hand is accepted |
| EditSchema.ColliderSize | packages/protocol/src/xyz.unavi.editor/edit.ts:12 | `size` is absent or three numbers |
| EditSchema.ColliderType | packages/protocol/src/xyz.unavi.editor/edit.ts:13-22 | `type` is null or one of the six collider types, and never absent |
| EditSchema.NodeDataExtras | packages/protocol/src/xyz.unavi.editor/edit.ts:25-30 | `extras` is absent, or an object whose `locked` is absent or a boolean |
| EditSchema.NodeDataRotation | packages/protocol/src/xyz.unavi.editor/edit.ts:38 | `rotation` is absent, null or four numbers |
| EditSchema.NodeDataTarget | packages/protocol/src/xyz.unavi.editor/edit.ts:40 | `target` is a string |
| PlayParams.SafeParse | apps/client/app/play/page.tsx:55-58 | parsing succeeds exactly when the union accepts, and keeps only the key `id` or only the key `uri` |
| PlayParams.ParsedShape | apps/client/app/play/page.tsx:44-47 | parsed parameters hold a string under `id`, or else under `uri` |
| PlayParams.IdFormAccepts | apps/client/app/play/page.tsx:51-53 | the id form accepts exactly a string `id` of the world id length |
| PlayParams.UriFormAccepts | apps/client/app/play/page.tsx:49 | the uri form accepts exactly a string `uri` starting with "https://" |
| PlayParams.RequestedById | apps/client/app/play/page.tsx:33-47 | the page asks for world id x exactly when `id` is x with the world id length, whatever `uri` holds |
| PlayParams.RequestedByUri | apps/client/app/play/page.tsx:33-47 | the page asks for uri u exactly when there is no valid id and `uri` is u with "https://" in front |
| PlayParams.RequestedNothing | apps/client/app/play/page.tsx:33-34 | "not found" exactly when neither a valid id nor a valid uri is given |
| StudioTree.FilterOutContents | apps/client/src/studio/actions/MoveEntityAction.ts:12 | the filter drops every occurrence of the entity and keeps every other id as often as it occurred |
| StudioTree.FilterOutAppend | apps/client/src/studio/actions/MoveEntityAction.ts:12 | the filter keeps the order |
| StudioTree.SpliceStart | apps/client/src/studio/actions/MoveEntityAction.ts:22 | a splice index is clamped to the list, and a negative one counts from the end |
| StudioTree.InsertAt | apps/client/src/studio/actions/MoveEntityAction.ts:21-22 | a push inserts at the end |
| StudioTree.InsertContents | apps/client/src/studio/actions/MoveEntityAction.ts:19-23 | insertion adds exactly one entity id, at the computed position; the old children keep their order around it |
| StudioTree.SpliceContents | apps/client/src/studio/actions/MoveEntityAction.ts:19-23 | splicing at any position adds exactly one id there, and removing it gives back the old children |
| StudioTree.MoveOutcome | apps/client/src/studio/actions/MoveEntityAction.ts:5-23 | the keys never change; each lookup throws exactly when its entry is missing, after the changes made before it |
| StudioTree.MoveLeavesOthers | apps/client/src/studio/actions/MoveEntityAction.ts:5-23 | entries other than the entity and its old and new parents are unchanged |
| StudioTree.MoveRemovesFromOldParent | apps/client/src/studio/actions/MoveEntityAction.ts:10-13 | the old parent loses every occurrence of the entity and keeps its other children in order |
| StudioTree.MoveInsertsIntoNewParent | apps/client/src/studio/actions/MoveEntityAction.ts:16-23 | the new parent gains the entity exactly once more, at the computed position |
| StudioTree.MoveWithinParentKeepsOne | apps/client/src/studio/actions/MoveEntityAction.ts:10-23 | moving within the same parent leaves exactly one occurrence there |
| StudioTree.MoveToRootAddsNowhere | apps/client/src/studio/actions/MoveEntityAction.ts:19 | without a new parent, no entry gains the entity |
| StudioTree.Studio.MoveEntity | apps/client/src/studio/actions/MoveEntityAction.ts:5-33 | the store's tree and the error are those of `Move`; the engine is told only after a move that did not throw |
| PlayerModule.PlayerModules.GetPlayer | packages/engine/src/player/PlayerModule.ts:19-21 | a player is returned exactly when one is stored under the id, and it carries that id |
| PlayerModule.PlayerModules.AddPlayer | packages/engine/src/player/PlayerModule.ts:13-17 | a new player with the id is stored under it, replacing any earlier one; other ids keep their players |
| PlayerModule.PlayerModules.RemovePlayer | packages/engine/src/player/PlayerModule.ts:23-25 | the id has no player afterwards; other ids keep theirs; an absent id changes nothing |
| SkyboxSystem.ExtensionIsLastPart | packages/engine/src/client/systems/setSkybox.ts:21 | the extension is a dot-free suffix: either the whole uri, or preceded by a "." |
| SkyboxSystem.ExtensionIs | packages/engine/src/client/systems/setSkybox.ts:21 | the extension is a dot-free e exactly when the uri is e or ends in "." followed by e |
| SkyboxSystem.LastPartUnique | packages/engine/src/client/systems/setSkybox.ts:21 | a uri has only one dot-free suffix that is all of it or follows a "." |
| SkyboxSystem.LastPartIs | packages/engine/src/client/systems/setSkybox.ts:21 | a dot-free e is that suffix exactly when the uri is e or ends in "." followed by e |
| SkyboxSystem.JpgExtension | packages/engine/src/client/systems/setSkybox.ts:21-24 | the extension is "jpg" exactly when the uri is "jpg" or ends in ".jpg" |
| SkyboxSystem.JpegExtension | packages/engine/src/client/systems/setSkybox.ts:21-25 | the extension is "jpeg" exactly when the uri is "jpeg" or ends in ".jpeg" |
| SkyboxSystem.MimeTypeOfName | packages/engine/src/client/systems/setSkybox.ts:21-34 | "image/jpeg" exactly for uris ending in ".jpg" or ".jpeg" (or equal to "jpg" or "jpeg"); "" for all others |
| SkyboxSystem.Shown | packages/engine/src/client/systems/setSkybox.ts:15-34 | an image takes the stored uri; it is flipped with the uri's MIME type unless it already had that uri |
| SkyboxSystem.AfterIdempotent | packages/engine/src/client/systems/setSkybox.ts:11-36 | running the system twice with the same stored uri is the same as running it once |
| SkyboxSystem.AfterOneMore | packages/engine/src/client/systems/setSkybox.ts:11-13 | one more skybox shows the image once more exactly when it names the image |
| SkyboxSystem.ShowRow | packages/engine/src/client/systems/setSkybox.ts:13-34 | one row is shown when the skybox names it, and is untouched otherwise |
| SkyboxSystem.ShowNamed | packages/engine/src/client/systems/setSkybox.ts:12-35 | one skybox shows every image row it names, and no other |
| SkyboxSystem.SetSkybox | packages/engine/src/client/systems/setSkybox.ts:7-37 | every image named by some skybox ends with the stored uri, flipped and with its MIME type, unless it already had that uri; every other image is untouched |
| RootNameSystem.NameWritesOf | packages/engine/src/client/systems/setRootName.ts:14-18 | the names written for a root are exactly its entities' names, and the last is that of its last entity in the query |
| RootNameSystem.WritesEmpty | packages/engine/src/client/systems/setRootName.ts:11-19 | nothing is written exactly when no active scene has a named root |
| RootNameSystem.WritesOfActiveScene | packages/engine/src/client/systems/setRootName.ts:11-12 | with distinct scene entities, only the active scene's root names are written |
| RootNameSystem.RootNameIsLastName | packages/engine/src/client/systems/setRootName.ts:6-20 | the store ends with the name of the last entity that is the active scene's root, and keeps its old name when there is none |
| RootNameSystem.SetRootName | packages/engine/src/client/systems/setRootName.ts:6-20 | the store's root name is the last name written, or unchanged when there was none |

## Left out

- I/O and the outside world are effect logs or inputs, never executed. This covers the message bus, mediasoup, the Lens query, WebSockets, timers, the scene, the render thread and console output.
- Async interleavings in `onclose` are not modelled. The model does not capture an `onopen` that resets the count while the loop waits.
- JSON encoding of messages is left out; messages are datatypes.
- The UTF-8 text codec of the protobuf runtime is left out: strings are held as their bytes. `writeUnknownFields` on write is also left out.
- ProtoWire.ReadVarint: varints are unbounded naturals. The runtime's 32-bit truncation and its 10-byte limit are not modelled.
- HostWorld.AllocateId: the inner re-sampling loop is one nondeterministic choice of an untried id. This does not model `Math.random`'s distribution.
- HostWorld.World.Join: `Player` (apps/host/src/Player.ts) is not part of this model. A player is its data, its producers and its consumer tables. What `consume`, `send` and `leave` do inside a player is left out.
- HostWorld.World.Join: the model proves the corrected id loop; the as-written loop is kept beside it. See Findings.
- HostWorld.World.Leave: the model closes consumers with the corrected closing loop; the as-written loop is kept beside it as ClosesAsWritten. See Findings.
- Networking.NetworkingInterface.OnClose: what each wait observes is the input `ready`. The model does not capture the socket's readiness changing on its own.
- Networking.LocationPayload: the position buffer is a sequence of reals. It is not a Float32Array, so float rounding is left out.
- Networking.HostFor: the space's own host is always null in the source, so the `wss://` branch for it is unreachable and left out.
- Networking: `Math.min(1000 * count)` has one argument and is 1000·count.
- PlayParams: WORLD_ID_LENGTH comes from a module that is not part of this model, so it is the parameter `idLength`. String lengths count characters, not UTF-16 code units.
- PlayParams: fetching the world, its metadata and rendering `App` are left out. The model ends at the requested world or "not found".
- EditSchema: the ColliderType and RigidBodyType enumerations are not part of this model. Their values are taken to be the lower-case member names.
- Zod.Accepts: only whether parsing succeeds is modelled, not the parsed output. Numbers are reals, so NaN and infinities are left out.
- StudioTree.SpliceStart: a splice index is an integer. NaN and fractional indices are left out.
- StudioTree.Studio.MoveEntity: tree entries are values, so the store's mutation of shared entry objects is modelled as map updates. `updateTree` and the store's `setState` notifications to the UI are left out.
- PlayerModule.PlayerModules.AddPlayer: `Player` (packages/engine/src/player/Player.ts) is not part of this model. A player here only remembers its id.
- SkyboxSystem.SetSkybox: it requires that rows have distinct components, since the ECS query yields each entity once. The stored uri is read once because nothing changes it during the system.
- RootNameSystem.SetRootName: the store's other fields and subscriber notifications are left out.

## Findings

| source | as written | input that shows it | evidently intended | confidence | as-written member | corrected member |
|---|---|---|---|---|---|---|
| apps/host/src/World.ts:47-61 | the draw count is checked after a free id was accepted, so the 256th draw gives up even when it found a free id | ids 0 to 254 taken, draws 0, 1, …, 255: the draw 255 is free, yet the player is told to leave | give up only when every id is taken | high, not executed | HostWorld.AsWrittenRejectsFreeId | HostWorld.CorrectedAllocation |
| apps/host/src/World.ts:108-122 | the leave loop closes `player.consumers.get(this).get(playerId)`: the leaver's own consumer of its own id, once per other player | players a (leaving, id 0) and b (id 1), where b holds a consumer of a's producer: nothing is closed, and b's consumer of a stays open | each other player closes its consumer and data consumer of the leaver's producers | medium, not executed | HostWorld.LeaveAsWrittenKeepsConsumers | HostWorld.ClosesExactlyHeld |
