# A small MMO: its message protocol and its rasterisers

This project models two parts of the repository and proves properties of them.

**The message protocol.** A connection (`ConnectionSpec`, `Connection`) is one end of a byte stream
with its completion handlers: an out-queue with one write in flight, a header/body read cycle into a
scratch message, and a challenge-response handshake.  `Links` joins two ends and proves that
messages are delivered in order and that nothing passes the handshake unasked.  `Messages` and
`Wire` are the values inside the messages.  The server's bookkeeping (`ServerSpec`, `GameServer`)
keeps connections, an ID counter, a player roster and IDs waiting to be announced as removed; the
client (`ClientSpec`, `GameClient`) is driven by messages.  `GameSystem` composes the server with
any number of clients that run the client's code, over message logs, and `NetworkedGame` puts a
`Links` connection under each of them and shows that nothing changes for the game.
`ClientWorlds` says what a client knows, by scanning the messages it has handled; `ServerAftermath`
who is left in the roster; `Closings` when a socket is open; and `Liveness` that a connection never
gets stuck.  `Rounds` shows that a frame of the client and a round of the server's loop are rows of
steps of `GameSystem`.  `ServerWitnesses` has runs that lead to states the program's documentation
does not expect.
`ThreadSafeQueues` is the queue between the threads of a program, with their wake-ups.

**The engine's integer drawing and its resource pack.** `Lines`, `Circles`, `FilledTriangles` and
`Sprites` are the drawing loops, each proved to draw exactly the pixels of a description that does
not mention the loop.  `ResourcePacks` writes and reads a file with a back-patched, scrambled
index.  `Views` is the client's panning and zooming over exact reals.

Objects whose methods update their fields are classes; each method is proved against a function of
the old state in the module beside it (`GameServers` against `ServerSpec`, `Connections` against
`ConnectionSpec`, `GameClients` against `ClientSpec`, `TransformedViews` against `Views`,
`ResourcePacks` against `PackFormat`), and the theorems are about these functions.  A connection's
buffers are arrays that fill and empty while an operation is in flight, and the value it is seen as
is computed from them.  The queue's methods are the steps of its thread model; server and client
keep their incoming messages in one.  The drawing methods are proved against sequences of points;
`DrawTargets.Engine` keeps the pixel array equal to the picture those points make.

How the model reads the program:

- Each completion handler, each handled message and each client frame is one step.  The environment
  decides when bytes move, how the stream is cut, and which operation fails.
- Whether a socket is open is sampled once for each handled message.
- The order in which a hash map is iterated is a parameter; nothing depends on it.
- The bytes of several writes go out in the order in which the writes were issued.  The program
  relies on this where it queues the first message, and so starts a second `async_write`, while that
  of the handshake is still under way.
- `ReadHeader` leaves the body of the previous message in place when a message has none, so the
  model delivers it with that body attached (`Framing.Sticky`).  `Framing.DeliveredUnchangedExactly`
  says exactly when this shows, and `Wire` that it never misleads the game as long as every peer
  runs the game's own client.  Another peer can have the server relay such a message, whose header
  then tells of no body although one follows it: `Framing.DeliveredWellFormedExactly` says exactly
  when a delivered message is of this kind, and `Wire.BrokenRelay` is an example.
- A message built by pushes has a true size field below 4 GiB (`Messages.PushAllSize`); one that the server
  relays has it if its sender runs the game's own client (`Wire.HonestRelay`), and then relaying it
  is encoding it again, which is how `NetworkedGame` describes it.  The theorems about links need no
  such condition: they reach up to the first message posted whose size field is false.
- `MessageClient` resets its own pointer before it erases, so it removes null entries and not the
  dead client, contrary to its comment; the model follows the code.
- `m_vGarbageIDs` is pushed to during the loop that iterates over it if a registered client is found
  dead.  In C++ this is undefined when the vector has to move its elements; a run may then go on in
  any way (the steps `Reallocate` and `ServerReallocates`), and the theorems about runs hold of the
  states before that (`Defined`).  Where it need not move them the loop goes over those present at
  its start, and all are cleared.  `ServerRuns.PushedExactly` says
  exactly when it is pushed to, and `ServerWitnesses.PushIsReachable` that this can happen.
- IDs wrap with the 32-bit counter.  The theorems about runs hold up to 2^32 - 10000 accepts;
  `ServerRuns.IdsDistinctExactly` says exactly how long IDs stay distinct.

## Model

| member | source | states |
|---|---|---|
| GameSystem.ClientsAreSafe | MMO_Game/src/MMO_Client.cpp:54-74 | in every state of every run of the server with any number of clients, as long as the garbage vector has not moved while it was iterated: each client's object map is keyed by the IDs of its entries; a client that no longer waits plays under the ID the server gave its own connection and has that object; a waiting client has sent no update; every update sent is of the sender's own object |
| GameSystem.NeverTold | MMO_Game/src/MMO_Server.cpp:29-55 | no connection's message log ever holds a removal of that connection's own ID, whichever sockets have closed, under the same condition |
| GameSystem.RegisteredClientPlays | MMO_Game/src/MMO_Client.cpp:257-287 | a registered client that has handled everything posted to it has left the waiting state, under the same condition |
| GameSystem.RunKeeps | MMO_Game/src/MMO_Server.cpp:44-94 | the joint invariant of server, message logs, clients and incoming queue holds in every state reached without the garbage vector having moved while it was iterated |
| GameSystem.NextKeeps | MMO_Game/src/MMO_Client.cpp:257-304 | every step of the composed system (accept, validation, close, client message, client frame, server message) keeps that invariant, unless the vector moves |
| GameSystem.ReceiveKeeps | MMO_Game/src/MMO_Client.cpp:257-304 | handling one more message of a well-formed log keeps what is known of a client |
| GameSystem.TickKeeps | MMO_Game/src/MMO_Client.cpp:63-74 | a frame keeps what is known of a client: the waiting gate lets no update through |
| GameSystem.HandleKeepsLog | MMO_Game/src/MMO_Server.cpp:44-94 | handling a message extends every log, and an ID assignment is always followed there by the entry of the assigned player |
| GameSystem.DefinedUnlessPushed | MMO_Game/src/MMO_Server.cpp:46-55 | that condition holds of every run in which no message is handled in a state in which the vector is pushed to |
| ClientWorlds.ClientsSee | MMO_Game/src/MMO_Client.cpp:257-304 | in every state of every run a client's map has exactly the players whom the last message that names them did not remove; its ID is its own exactly from its assignment on, and it has stopped waiting exactly if its own entry was added after that |
| ClientWorlds.EntryIsLatest | MMO_Game/src/MMO_Client.cpp:148-170 | what it holds of a player is what the last message that names it said, but for the last local movement since that message was handled |
| ClientWorlds.SendsExactly | MMO_Game/src/MMO_Client.cpp:54-80 | each step has a client send exactly this: one registration of its player for an acceptance handled while connected, one update of its own object for a frame in the game while connected, and otherwise nothing |
| ClientWorlds.ReceiveSees | MMO_Game/src/MMO_Client.cpp:257-304 | handling a message keeps what the client knows equal to what the messages tell |
| Rounds.FrameIsSteps | MMO_Game/src/MMO_Client.cpp:54-72 | a frame is one step of receiving for each queued message, in order and only while connected, and then one step of the client's own part |
| Rounds.UpdateIsSteps | MMO_Game/include/olcPGEX_Network/server_interface.h:228-241 | a round of the server's loop is one step of handling for each message taken from the queue, in order |
| NetworkedGame.ClientsSee | MMO_Game/src/MMO_Client.cpp:257-304 | over real connections too a client knows exactly what the messages tell that it has handled |
| NetworkedGame.AcceptedExactly | MMO_Game/src/MMO_Server.cpp:20-27 | a client is sent its acceptance exactly if its connection has been validated, and the server finds it connected exactly if its end's socket is open |
| NetworkedGame.RunRefines | MMO_Game/include/olcPGEX_Network/server_interface.h:126-241 | every state of every run of the game over real connections, with the server, its clients and for each of them two ends of a byte link, is without the bytes a state that the system of message logs reaches, as long as the garbage vector has not moved while it was iterated |
| NetworkedGame.NextRefines | MMO_Game/src/MMO_Client.cpp:54-80 | each step of it but that one, down to single bytes moving, shows there as one step or none |
| NetworkedGame.HandledIsNext | MMO_Game/src/MMO_Client.cpp:54-61 | the message a client takes from its connection next, decoded, is the one its log holds next |
| NetworkedGame.QueuedIsNext | MMO_Game/include/olcPGEX_Network/connection.h:381-393 | the message the server's end hands over next, decoded, is the next one that client sent |
| NetworkedGame.ClientsAreSafe | MMO_Game/src/MMO_Client.cpp:54-74 | so over real connections too every client is safe and never told of its own removal, under the same condition |
| NetworkedGame.HandOverPossible | MMO_Game/include/olcPGEX_Network/connection.h:173-186 | a client that has sent a message has its handshake written, so its connection can take the message over, under the same condition |
| ServerRuns.RunIsSafe | MMO_Game/include/olcPGEX_Network/server_interface.h:126-225 | in every state of every run with fewer than 2^32 - 10000 accepts, as long as the garbage vector has not moved while it was iterated: IDs are distinct and below the counter; the container has no null entry and no duplicate; every roster key is its entry's ID and belongs to a connection in the container; garbage IDs are distinct, unregistered and of closed connections |
| ServerRuns.RunKeeps | MMO_Game/include/olcPGEX_Network/server_interface.h:126-225 | the server's invariant holds in every such state, however accepts, closures and messages interleave |
| ServerRuns.NextKeeps | MMO_Game/include/olcPGEX_Network/server_interface.h:126-225 | each step of the server keeps the invariant, unless the vector moves |
| ServerRuns.IdsDistinctExactly | MMO_Game/include/olcPGEX_Network/server_interface.h:280 | in every run, whatever else happens in it, IDs are distinct exactly as long as no more than 2^32 connections were accepted |
| ServerRuns.PushedExactly | MMO_Game/src/MMO_Server.cpp:46-55 | the garbage vector is pushed to while it is being iterated exactly if it is not empty and a registered client is dead |
| ServerRuns.DefinedUnlessPushed | MMO_Game/src/MMO_Server.cpp:46-55 | the vector does not move in a run in which no message is handled in a state in which it is pushed to |
| ServerWitnesses.PushIsReachable | MMO_Game/src/MMO_Server.cpp:46-55 | such a state can be reached: two players close, the second after the first has been found dead |
| ServerWitnesses.StaleBodyIsReachable | MMO_Game/src/MMO_Server.cpp:20-27 | a client can be sent a message with a body before its bodyless acceptance, which then arrives with that body attached |
| ServerAftermath.RosterExactly | MMO_Game/src/MMO_Server.cpp:44-94 | after a message the roster has the registrant, if alive, with what it sent, and of the others exactly those in it before that no broadcast has found dead, unchanged |
| ServerAftermath.GarbageExactly | MMO_Game/src/MMO_Server.cpp:29-55 | and the IDs to be announced as removed are those of a dead registrant and of the registered clients found dead, unless there was something to announce before |
| ServerAftermath.LeavesUnannounced | MMO_Game/src/MMO_Server.cpp:46-55 | so a player found dead while others are announced as removed leaves the roster without anybody being told |
| ServerSafety.OnMessageKeeps | MMO_Game/src/MMO_Server.cpp:44-94 | handling any message keeps the invariant even if its sender was dropped long ago; only the sender can enter the roster, and after registering it is there exactly if it is alive |
| ServerSafety.OnMessagePosts | MMO_Game/src/MMO_Server.cpp:44-94 | handling a message posts to each open connection all pending removals and then the reply, and nothing to a closed one |
| ServerSafety.RegistrationAnnounced | MMO_Game/src/MMO_Server.cpp:58-82 | a live registrant is sent its ID, its own entry, then one entry per roster member; every other live connection gets exactly the new entry; a dead registrant ends up absent from the roster |
| ServerSafety.RosterLoopKeepsRoster | MMO_Game/src/MMO_Server.cpp:75-80 | the roster is not modified while the loop over it runs |
| ServerSafety.FlushPosts | MMO_Game/src/MMO_Server.cpp:46-55 | the flush tells every open connection of every garbage ID in order, and a closed one of none |
| ServerSafety.FlushKeeps | MMO_Game/src/MMO_Server.cpp:46-55 | the flush keeps the invariant, empties the garbage and leaves in the roster only live players if it ran at all |
| ServerSafety.MessageAllKeeps | MMO_Game/include/olcPGEX_Network/server_interface.h:197-225 | a broadcast keeps the invariant and leaves exactly the open connections in the container |
| ServerSafety.SendRosterDead | MMO_Game/src/MMO_Server.cpp:75-80 | for a dead registrant the roster loop changes nothing |
| ServerSafety.SendRosterLive | MMO_Game/src/MMO_Server.cpp:75-80 | for a live registrant it posts one entry per player and changes nothing else |
| ServerSafety.MessageClientDead | MMO_Game/include/olcPGEX_Network/server_interface.h:187-192 | messaging a dead client removes only null entries, so the container stays as it is |
| ServerEffects.MessageAllEffect | MMO_Game/include/olcPGEX_Network/server_interface.h:197-225 | a broadcast reaches every open connection but the ignored one once; exactly closed connections leave the container; the registered ones among them leave the roster and their IDs are queued for removal, each once |
| ServerEffects.DroppedDistinct | MMO_Game/src/MMO_Server.cpp:29-42 | one broadcast queues no ID twice |
| ServerEffects.VisitFirstContainer | MMO_Game/include/olcPGEX_Network/server_interface.h:203-217 | after n entries exactly those of closed connections are null |
| ServerEffects.WithoutNullsInOrder | MMO_Game/include/olcPGEX_Network/server_interface.h:222-224 | every entry is kept once if it is not null, in its place between what is kept of the entries before and after it |
| GameServers.GameServer.OnAccept | MMO_Game/include/olcPGEX_Network/server_interface.h:131-153 | the accept handler adds an open connection with the next ID to the container |
| GameServers.GameServer.OnClientDisconnect | MMO_Game/src/MMO_Server.cpp:29-42 | a registered client leaves the roster and its ID is queued; an unregistered or null one changes nothing |
| GameServers.GameServer.EraseNulls | MMO_Game/include/olcPGEX_Network/server_interface.h:222-224 | the erase leaves the container without its null entries |
| GameServers.GameServer.MessageClient | MMO_Game/include/olcPGEX_Network/server_interface.h:174-194 | refines the specification of sending to one client, live, dead or null |
| GameServers.GameServer.VisitEntry | MMO_Game/include/olcPGEX_Network/server_interface.h:203-217 | refines one iteration of the broadcast loop |
| GameServers.GameServer.MessageAllClients | MMO_Game/include/olcPGEX_Network/server_interface.h:197-225 | the loop over the container refines the broadcast, whether or not the erase is needed |
| GameServers.GameServer.FlushGarbage | MMO_Game/src/MMO_Server.cpp:46-55 | the loop over the garbage refines the flush, as long as the vector does not move |
| GameServers.GameServer.SendRoster | MMO_Game/src/MMO_Server.cpp:75-80 | the loop over the hash map visits each key once, in some order, and refines the roster loop in that order |
| GameServers.GameServer.OnMessage | MMO_Game/src/MMO_Server.cpp:44-94 | the handler refines the specification of handling a message |
| GameServers.GameServer.Update | MMO_Game/include/olcPGEX_Network/server_interface.h:228-241 | queued messages are popped and handled in order, at most the given number, and the queue's invariant is kept |
| GameServers.GameServer.AddToIncomingMessageQueue | MMO_Game/include/olcPGEX_Network/connection.h:381-389 | a message handed over is queued behind the others and a sleeping consumer is notified |
| GameClients.GameClient.UpdateClientState | MMO_Game/src/MMO_Client.cpp:257-304 | the handler refines the client's reaction to a message |
| GameClients.GameClient.Own | MMO_Game/src/MMO_Client.cpp:141-144 | reading the own object inserts a default entry if there is none |
| GameClients.GameClient.Move | MMO_Game/src/MMO_Client.cpp:148-170 | local movement changes what objects carry, not their keys or IDs |
| GameClients.GameClient.SendPlayerDescription | MMO_Game/src/MMO_Client.cpp:141-146 | sends an update of the own object while connected |
| GameClients.GameClient.OnUserUpdate | MMO_Game/src/MMO_Client.cpp:54-80 | a frame drains the incoming queue while connected, and then only a client that no longer waits moves and sends; the queue's invariant is kept |
| Links.DeliveryInOrder | MMO_Game/include/olcPGEX_Network/connection.h:173-318 | in every state of every run, however the streams are cut and whatever fails, each end has delivered a prefix of the messages posted at the other, up to the first one posted whose size field is false: none lost, repeated, reordered or merged, bodies compared where there is one |
| Links.QuiescentDelivery | MMO_Game/include/olcPGEX_Network/connection.h:189-318 | once a writer is idle, its channel empty and the reader between messages, everything posted has been delivered, exactly if no size field posted was false |
| Links.NothingBeforeTheAnswer | MMO_Game/include/olcPGEX_Network/connection.h:342-378 | for any bytes a peer may send, the server delivers no message and validates nobody unless the first eight bytes are the scrambled challenge |
| Links.HonestPeerAccepted | MMO_Game/include/olcPGEX_Network/connection.h:342-378 | a peer following the client path is accepted, and its first header is awaited right after the eight bytes |
| Links.OneWriteAlways | MMO_Game/include/olcPGEX_Network/connection.h:173-232 | in every state of every run a message write is in flight exactly while the out-queue is not empty, unless one has failed; then the socket is closed |
| Links.FrontStaysInFlight | MMO_Game/include/olcPGEX_Network/connection.h:173-260 | in every run the front of the queue stays the same from the start of its write to the end of it, whatever is posted meanwhile |
| Links.FailedForever | MMO_Game/include/olcPGEX_Network/connection.h:220-258 | in the rest of a run after a failed write the socket stays closed and no further byte is written |
| Closings.OpenExactly | MMO_Game/include/olcPGEX_Network/connection.h:173-378 | in every state of every run the socket of an end is open exactly if it has not been closed, no operation of that end has completed with an error, and as a server it has not looked at eight bytes other than the answer; a read that has stopped has closed it |
| Closings.ClosedForGood | MMO_Game/include/olcPGEX_Network/connection.h:220-378 | after any of these the socket is closed for the rest of the run |
| Closings.EndOpenExactly | MMO_Game/include/olcPGEX_Network/connection.h:173-378 | the same of a server's end with any peer |
| Closings.WrongAnswerCloses | MMO_Game/include/olcPGEX_Network/connection.h:345-363 | if the first eight bytes of any peer are not the answer, then once looked at they leave the socket closed and nothing validated or delivered |
| Closings.RightAnswerOpens | MMO_Game/include/olcPGEX_Network/connection.h:345-357 | looking at eight bytes leads to validation and to awaiting a header exactly if they are the answer |
| Closings.AlwaysReading | MMO_Game/include/olcPGEX_Network/connection.h:263-393 | while its socket is open an end is reading, but for a client that is writing its answer |
| Liveness.NeverStuck | MMO_Game/include/olcPGEX_Network/connection.h:173-393 | in every state of every run with both sockets open and all size fields true, some byte can move or some operation complete without error, or every message posted has been delivered in both directions |
| Liveness.NoHalfFrame | MMO_Game/include/olcPGEX_Network/connection.h:263-318 | with everything written read, no header or body is left half read |
| Links.RunKeeps | MMO_Game/include/olcPGEX_Network/connection.h:173-378 | the invariant of both ends and their channels holds in every reachable state |
| Links.Delivers | MMO_Game/include/olcPGEX_Network/connection.h:263-318 | what a reader has delivered of the posted messages before the first false size field is a prefix of them, as the scratch message shows it |
| Links.DeliversAll | MMO_Game/include/olcPGEX_Network/connection.h:263-318 | with everything read it is all of what was posted, exactly if all size fields were true |
| ConnectionSafety.NextKeeps | MMO_Game/include/olcPGEX_Network/connection.h:173-393 | every step of one end keeps its invariant with any peer and any network |
| ConnectionSafety.WrotePrefix | MMO_Game/include/olcPGEX_Network/connection.h:173-260 | nothing is ever written but the handshake value and, in order, the frames of the posted messages |
| ConnectionSafety.DeliverOk | MMO_Game/include/olcPGEX_Network/connection.h:381-393 | handing over the scratch message extends what was delivered by one good frame, stale body included |
| ConnectionSafety.HeaderDoneKeeps | MMO_Game/include/olcPGEX_Network/connection.h:273-293 | a complete header leads to the body read or to delivery, and keeps the reading invariant |
| ConnectionSafety.BodyDoneKeeps | MMO_Game/include/olcPGEX_Network/connection.h:306-316 | a complete body leads to delivery and keeps it |
| ConnectionSafety.ValidationDoneKeeps | MMO_Game/include/olcPGEX_Network/connection.h:345-377 | the validation handler keeps it on both ends |
| ConnectionSafety.SendKeeps | MMO_Game/include/olcPGEX_Network/connection.h:173-186 | posting any message keeps the writing invariant |
| ConnectionSafety.PopKeeps | MMO_Game/include/olcPGEX_Network/connection.h:207-219 | finishing a message goes on with the next header and keeps it |
| Connections.Connection.ForServer | MMO_Game/include/olcPGEX_Network/connection.h:98-106 | a server's end has its challenge on the way and awaits the scrambled answer |
| Connections.Connection.ForClient | MMO_Game/include/olcPGEX_Network/connection.h:107-111 | a client's end awaits the challenge |
| Connections.Connection.Send | MMO_Game/include/olcPGEX_Network/connection.h:173-186 | queues the message and starts writing only if the queue was empty |
| Connections.Connection.PopAndGoOn | MMO_Game/include/olcPGEX_Network/connection.h:207-219 | drops the front message and starts the next header if there is one |
| Connections.Connection.OnHeaderWritten | MMO_Game/include/olcPGEX_Network/connection.h:197-231 | goes on to the body, to the next message, or fails and closes |
| Connections.Connection.OnBodyWritten | MMO_Game/include/olcPGEX_Network/connection.h:243-259 | goes on to the next message, or fails and closes |
| Connections.Connection.OnHandshakeWritten | MMO_Game/include/olcPGEX_Network/connection.h:331-339 | a client then awaits a header; a failure closes |
| Connections.Connection.OnValidationRead | MMO_Game/include/olcPGEX_Network/connection.h:345-377 | a server compares and validates or closes; a client answers |
| Connections.Connection.OnHeaderRead | MMO_Game/include/olcPGEX_Network/connection.h:273-294 | resizes the body or delivers with the old body attached; a failure closes |
| Connections.Connection.ReadBody | MMO_Game/include/olcPGEX_Network/connection.h:278-281 | makes room for the body after the header, keeping what fits of the old one, and reads into it |
| Connections.Connection.OnBodyRead | MMO_Game/include/olcPGEX_Network/connection.h:306-317 | delivers what the buffers hold; a failure closes |
| Connections.Connection.WriteSome | MMO_Game/include/olcPGEX_Network/connection.h:190-260 | bytes leave from where the write in flight has come to |
| Connections.Connection.ReadSome | MMO_Game/include/olcPGEX_Network/connection.h:263-318 | bytes that arrive are put into the buffer behind those already there |
| Connections.Connection.Answer | MMO_Game/include/olcPGEX_Network/connection.h:367-370 | the client's answer is on its way, and nothing is read meanwhile |
| Connections.Connection.AddToIncomingMessageQueue | MMO_Game/include/olcPGEX_Network/connection.h:381-393 | hands over the scratch message and awaits the next header |
| Handshake.CollidesExactly | MMO_Game/include/olcPGEX_Network/connection.h:321-325 | two challenges have the same answer exactly if they agree modulo 2^56 |
| Handshake.ImageExactly | MMO_Game/include/olcPGEX_Network/connection.h:321-325 | the answers are exactly the 64-bit values with top byte 0xC0 |
| Handshake.DifferencesAdd | MMO_Game/include/olcPGEX_Network/connection.h:321-325 | what a change of the challenge changes in the answer does not depend on the challenge, nor on the top byte of the change |
| Handshake.HalvesSwapped | MMO_Game/include/olcPGEX_Network/connection.h:321-325 | a change in either half of one of the seven low bytes shows in the other half of that byte |
| Handshake.Answers | MMO_Game/include/olcPGEX_Network/connection.h:321-325 | the answers to two challenges |
| Framing.PrefixUnique | MMO_Game/include/olcPGEX_Network/connection.h:189-318 | framing is unambiguous: frames at the head of a stream are its first messages, as far as the size fields in the stream are true |
| Framing.StripSticky | MMO_Game/include/olcPGEX_Network/connection.h:277-286 | identifiers, sizes and all bodies that exist survive the scratch message that is never cleared |
| Framing.DeliveredUnchangedExactly | MMO_Game/include/olcPGEX_Network/connection.h:277-286 | messages arrive with unchanged bodies exactly if no bodyless one follows one with a body |
| Framing.DeliveredWellFormedExactly | MMO_Game/include/olcPGEX_Network/connection.h:277-286 | a delivered message has a true size field exactly if it has a body or no body came before it |
| Framing.ParseHeader | MMO_Game/include/olcPGEX_Network/message.h:75-79 | a header read back gives the identifier and size written |
| Framing.FramesConcat | MMO_Game/include/olcPGEX_Network/connection.h:189-260 | frames of a concatenation are the frames one after the other |
| Messages.PushPullRoundTrip | MMO_Game/include/olcPGEX_Network/message.h:107-153 | any row of pushes followed by pulls in reverse order returns the values and restores the message |
| Messages.PullUndoesPush | MMO_Game/include/olcPGEX_Network/message.h:107-153 | a pull yields the value pushed last and undoes its push |
| Messages.PushAllSize | MMO_Game/include/olcPGEX_Network/message.h:107-129 | after any pushes the size field is the body length modulo 2^32, and equal to it exactly below 2^32 |
| Messages.PushAllBody | MMO_Game/include/olcPGEX_Network/message.h:107-129 | after any pushes the body has the values in the order pushed, behind what was there before |
| Messages.Message.Push | MMO_Game/include/olcPGEX_Network/message.h:109-129 | appends the value and rewrites the size |
| Messages.Message.Pull | MMO_Game/include/olcPGEX_Network/message.h:133-153 | takes the last bytes off and rewrites the size |
| Wire.ClientReadsServer | MMO_Game/src/MMO_Client.cpp:257-304 | in every state of every run a client decodes from its deliveries the typed messages the server sent, in order, stale bodies notwithstanding |
| Wire.ServerReadsClient | MMO_Game/src/MMO_Server.cpp:57-93 | and the server those the client sent |
| Wire.RelayIsEncoding | MMO_Game/src/MMO_Server.cpp:88-92 | a client's update and the server's relayed update have the same bytes |
| Wire.HonestRelay | MMO_Game/src/MMO_Server.cpp:88-92 | what the server relays of an update from the game's own client is, byte for byte, what it would have encoded |
| Wire.BrokenRelay | MMO_Game/src/MMO_Server.cpp:88-92 | another peer can have the server relay a frame whose header tells of no body while the stale body follows it |
| Wire.ServerBytes | MMO_Game/include/MMO_Common.h:10-38 | each server message as it stands on the wire: its number in the enumeration, the length of its value and the value, low bytes first |
| Wire.ClientBytes | MMO_Game/include/MMO_Common.h:10-38 | and each client message |
| Wire.ServerRoundTrip | MMO_Game/include/MMO_Common.h:10-22 | a server message decodes to itself, also with a stale body attached to a bodyless one |
| Wire.ClientRoundTrip | MMO_Game/include/MMO_Common.h:10-22 | so does a client message |
| Wire.DescRoundTrip | MMO_Game/include/MMO_Common.h:24-38 | a player description comes back from its 56 bytes |
| ThreadSafeQueues.RunKeeps | MMO_Game/include/olcPGEX_Network/thread_safe_queue.h:84-119 | with any number of threads, any schedule and spurious wake-ups: while some consumer sleeps, the queue is no longer than pending notifications plus awake consumers; what is queued is what was pushed last, in order |
| ThreadSafeQueues.NobodySleepsForever | MMO_Game/include/olcPGEX_Network/thread_safe_queue.h:89-104 | a sleeper on a non-empty queue always has a pending notification or an awake consumer beside it |
| ThreadSafeQueues.FirstInFirstOut | MMO_Game/include/olcPGEX_Network/thread_safe_queue.h:89-104 | without a clear, popped items followed by the queue are what was pushed, in order |
| ThreadSafeQueues.PopAfterNonEmpty | MMO_Game/include/olcPGEX_Network/server_interface.h:232-234 | with one consumer, a pop after a false empty test does not block and takes the front item |
| ThreadSafeQueues.ThreadSafeQueue.PushLocked | MMO_Game/include/olcPGEX_Network/thread_safe_queue.h:98-101 | is the pushing step of the thread model and keeps its invariant |
| ThreadSafeQueues.ThreadSafeQueue.NotifyOne | MMO_Game/include/olcPGEX_Network/thread_safe_queue.h:103 | wakes one sleeper if there is one, and keeps it |
| ThreadSafeQueues.ThreadSafeQueue.Test | MMO_Game/include/olcPGEX_Network/thread_safe_queue.h:91-94 | takes the front item or goes to sleep, as the thread model has it, and keeps it |
| ThreadSafeQueues.ThreadSafeQueue.Pop | MMO_Game/include/olcPGEX_Network/thread_safe_queue.h:89-95 | called while there is an item, hands over the oldest one and leaves every thread where it was |
| ThreadSafeQueues.ThreadSafeQueue.Clear | MMO_Game/include/olcPGEX_Network/thread_safe_queue.h:116-119 | is the clearing step of the thread model and keeps its invariant |
| DrawTargets.Engine.Draw | MMO_Game/include/olcPixelGameEngine.h:1859-1867 | plots the pixel if it is on the target and nothing otherwise; the picture is that of all calls so far |
| DrawTargets.PictureAfter | MMO_Game/include/olcPixelGameEngine.h:1346-1355 | after some pixels were drawn in one color, the picture shows the color at them and is unchanged elsewhere |
| DrawTargets.RowByRow | MMO_Game/include/olcPixelGameEngine.h:1346-1355 | the pixels of a picture stand row by row, each row from the left |
| DrawTargets.PlotAt | MMO_Game/include/olcPixelGameEngine.h:1346-1355 | setting one pixel changes that pixel only |
| Lines.DrawLine | MMO_Game/include/olcPixelGameEngine.h:1897-1974 | draws exactly the visible pixels of the line, in all octants and both straight cases |
| Lines.VisibleExactly | MMO_Game/include/olcPixelGameEngine.h:1897-1918 | for every pattern the pixels drawn are, in order and each once, those of the steps k with bit 31 - (k mod 32) of the pattern set |
| Lines.FullPattern | MMO_Game/include/olcPixelGameEngine.h:1897-1974 | with the full pattern all pixels are drawn, max(|dx|,|dy|)+1 of them |
| Lines.EndPoints | MMO_Game/include/olcPixelGameEngine.h:1919-1973 | the line begins and ends exactly at the two end points |
| Lines.Connected | MMO_Game/include/olcPixelGameEngine.h:1935-1972 | each step moves one along the longer axis and at most one along the other |
| Lines.NearTheLine | MMO_Game/include/olcPixelGameEngine.h:1919-1973 | each pixel is within half a pixel of the ideal line along the shorter axis |
| Lines.SameBackwards | MMO_Game/include/olcPixelGameEngine.h:1919-1973 | drawn from either end the line visits the same pixels in the same order |
| Lines.GentleStep | MMO_Game/include/olcPixelGameEngine.h:1938-1944 | the error term of a flat line keeps its closed form, and y is the rounded true ordinate |
| Lines.SteepStep | MMO_Game/include/olcPixelGameEngine.h:1964-1970 | the same for a steep line |
| Patterns.RotateOnce | MMO_Game/include/olcPixelGameEngine.h:1902 | the k-th pixel is drawn exactly if bit 31 - (k mod 32) of the original pattern is set |
| Patterns.RotatedBits | MMO_Game/include/olcPixelGameEngine.h:1902 | a rotation moves every bit up by one and the top bit to the bottom |
| Circles.DrawCircle | MMO_Game/include/olcPixelGameEngine.h:1979-2013 | draws exactly the reflections, as the mask asks, of the octant of nearest ordinates |
| Circles.MaskShows | MMO_Game/include/olcPixelGameEngine.h:1990-2003 | for every mask exactly those pixels of the full circle are drawn that lie in an octant the mask asks for, counted clockwise from the top |
| Circles.OctantStep | MMO_Game/include/olcPixelGameEngine.h:2005-2008 | the decision variable always equals 2(x+1)^2 + y^2 + (y-1)^2 - 2r^2, and y is the nearest ordinate |
| Circles.OctantUnique | MMO_Game/include/olcPixelGameEngine.h:1990-2009 | there is only one such octant for a radius |
| Circles.OctantShape | MMO_Game/include/olcPixelGameEngine.h:1990-2009 | its ordinates begin at the radius, fall in steps of at most one and end at the diagonal |
| Circles.OutlineOnce | MMO_Game/include/olcPixelGameEngine.h:1990-2009 | with the full mask no pixel is drawn twice, and none beyond the radius |
| Circles.OffTargetHidesNothing | MMO_Game/include/olcPixelGameEngine.h:1981-1982 | the early returns discard no visible pixel of the circle, for any mask, nor of the filled circle, nor of the single point of radius 0 |
| Circles.DrawnWithin | MMO_Game/include/olcPixelGameEngine.h:1990-2051 | no pixel of a circle with any mask or of a filled one is beyond the radius |
| Circles.FillCircle | MMO_Game/include/olcPixelGameEngine.h:2018-2055 | draws exactly the rows of the filled circle |
| Circles.RowsOnce | MMO_Game/include/olcPixelGameEngine.h:2035-2050 | every row from -r to r is drawn exactly once, and no other |
| Circles.FilledOnce | MMO_Game/include/olcPixelGameEngine.h:2018-2055 | no pixel is drawn twice |
| Circles.RowEndsOnOutline | MMO_Game/include/olcPixelGameEngine.h:2018-2055 | each row ends exactly at the outermost pixels of the outline on that row |
| Circles.FilledExactly | MMO_Game/include/olcPixelGameEngine.h:2018-2055 | a pixel is filled exactly if it lies on its row between two pixels of the outline |
| Spans.DrawSpan | MMO_Game/include/olcPixelGameEngine.h:2029-2033 | draws the pixels from the first to the last column of a row, none if they are the wrong way round |
| FilledTriangles.FillTriangle | MMO_Game/include/olcPixelGameEngine.h:2118-2251 | terminates and draws exactly the spans of the triangle with its vertices sorted by row |
| Triangles.SortByRow | MMO_Game/include/olcPixelGameEngine.h:2128-2130 | the three swaps sort the vertices by row and lose none |
| Triangles.FilledOnce | MMO_Game/include/olcPixelGameEngine.h:2118-2251 | every row from the smallest to the largest y is drawn and no pixel twice |
| Triangles.FilledExactly | MMO_Game/include/olcPixelGameEngine.h:2118-2251 | any pixel is drawn exactly if it lies on its row between two pixels of the edges on either side |
| Triangles.InsideIsFilled | MMO_Game/include/olcPixelGameEngine.h:2118-2251 | every lattice point of the triangle is drawn, degenerate triangles included |
| Triangles.OrderIrrelevantExactly | MMO_Game/include/olcPixelGameEngine.h:2118-2251 | all orders of three vertices give the same pixels exactly if, where the two lower ones share a row, the upper one is less than two heights beside them, or they coincide, or they are neighbours and the farther one is a whole number of double heights away |
| Triangles.OrderMatters | MMO_Game/include/olcPixelGameEngine.h:2128-2130 | two orders give the same pixels exactly if that holds or they are sorted alike |
| Triangles.OrderMattersHere | MMO_Game/include/olcPixelGameEngine.h:2118-2251 | two orders of (0,0), (10,1), (12,1) that give different pixels |
| Triangles.FirstOnLastRow | MMO_Game/include/olcPixelGameEngine.h:2194-2250 | on its last row an edge reaches back from its lower end by its width divided by twice its height |
| Triangles.FilledWithin | MMO_Game/include/olcPixelGameEngine.h:2118-2251 | every span lies in the bounding box |
| Triangles.VerticesFilled | MMO_Game/include/olcPixelGameEngine.h:2118-2251 | all three vertices are drawn |
| Triangles.EdgeNear | MMO_Game/include/olcPixelGameEngine.h:2150-2193 | a pixel of an edge is within half a pixel of the true edge along the shorter axis |
| Triangles.EdgeRow | MMO_Game/include/olcPixelGameEngine.h:2150-2193 | on each row the pixels of an edge are those between its outermost ones |
| Edges.RowExactly | MMO_Game/include/olcPixelGameEngine.h:2150-2193 | the columns an edge visits in a row are those whose rounded row it is |
| Edges.AtRowFirst | MMO_Game/include/olcPixelGameEngine.h:2150-2193 | where the error term says a row begins is its first column |
| FilledTriangles.WalkUpperFirst | MMO_Game/include/olcPixelGameEngine.h:2155-2168 | takes the edge to the middle vertex from the first column of a row to the last, ready for the next row |
| FilledTriangles.WalkUpperSecond | MMO_Game/include/olcPixelGameEngine.h:2169-2180 | the same for the long edge |
| FilledTriangles.WalkLowerFirst | MMO_Game/include/olcPixelGameEngine.h:2213-2225 | the same for the edge from the middle vertex, whose last row ends at the lower vertex |
| FilledTriangles.WalkLowerSecond | MMO_Game/include/olcPixelGameEngine.h:2226-2237 | the same for the long edge in the lower half; its guard is harmless |
| FilledTriangles.FillUpper | MMO_Game/include/olcPixelGameEngine.h:2146-2193 | draws the spans above the middle vertex |
| FilledTriangles.FillLower | MMO_Game/include/olcPixelGameEngine.h:2194-2250 | draws the remaining spans |
| Sprites.DrawSprite | MMO_Game/include/olcPixelGameEngine.h:2256-2288 | draws each pixel of the scaled rectangle once, in the color of the mirrored source pixel |
| Sprites.SpriteShows | MMO_Game/include/olcPixelGameEngine.h:2256-2288 | on the target, the rectangle shows the sprite and everything else is unchanged |
| Sprites.SourceInside | MMO_Game/include/olcPixelGameEngine.h:2261-2287 | every pixel drawn is one of the sprite's |
| Sprites.SourceAt | MMO_Game/include/olcPixelGameEngine.h:2268-2277 | a square of the target of the size of the scale shows one pixel of the sprite, the one as far from the other side if flag 1 or 2 mirrors that axis |
| Sprites.FlippingTwiceRestores | MMO_Game/include/olcPixelGameEngine.h:2261-2287 | drawing flipped what was drawn flipped restores the sprite |
| Sprites.FlippedTwice | MMO_Game/include/olcPixelGameEngine.h:2263-2264 | flipping twice the same way is the identity |
| Sprites.GetPixelInside | MMO_Game/include/olcPixelGameEngine.h:1331-1344 | both sample modes agree on the sprite itself |
| Sprites.GetPixelOutside | MMO_Game/include/olcPixelGameEngine.h:1331-1344 | beyond the sprite one mode shows nothing and the other repeats it, mirrored about the axes |
| PackSafety.SaveThenLoad | MMO_Game/include/olcPixelGameEngine.h:1516-1634 | loading a saved resource pack with its key into a fresh one reconstructs the map with its offsets |
| PackSafety.PackReadBack | MMO_Game/include/olcPixelGameEngine.h:1516-1560 | loading it elsewhere adds just that map |
| PackSafety.RegionHoldsFile | MMO_Game/include/olcPixelGameEngine.h:1588-1602 | the region of each file that begins in the first 4 GiB of the pack holds what the file held when it was saved |
| PackSafety.OffsetExactly | MMO_Game/include/olcPixelGameEngine.h:1588-1602 | an entry's offset is where its contents begin exactly if that is in the first 4 GiB |
| PackSafety.SavedFileComesBack | MMO_Game/include/olcPixelGameEngine.h:1501-1637 | a file packed whole that begins in the first 4 GiB comes back byte for byte |
| PackSafety.SavedPackStaysGood | MMO_Game/include/olcPixelGameEngine.h:1491-1560 | reading a saved pack's index and any of its files leaves no error on the stream, so later requests read on |
| PackSafety.RegionsTile | MMO_Game/include/olcPixelGameEngine.h:1585-1602 | the regions follow one another from the index to the end of the file |
| PackSafety.RegionsDisjoint | MMO_Game/include/olcPixelGameEngine.h:1585-1602 | regions of different files do not overlap |
| PackSafety.PlacedAt | MMO_Game/include/olcPixelGameEngine.h:1588-1592 | each entry gets the offset of its contents, modulo 2^32 |
| PackSafety.EntryFields | MMO_Game/include/olcPixelGameEngine.h:1577-1582 | an entry has the length of the path, the path, the size and the offset, in this order |
| PackSafety.PackParts | MMO_Game/include/olcPixelGameEngine.h:1562-1634 | a pack is the length of its index, the scrambled index and the contents |
| PackFormat.IndexLength | MMO_Game/include/olcPixelGameEngine.h:1604-1626 | the index is as long whatever sizes and offsets it holds, so the rewritten one fits its placeholder |
| ResourcePacks.OverwriteFront | MMO_Game/include/olcPixelGameEngine.h:1627-1631 | rewriting size and index touches no file data |
| PackFormat.ScrambledBits | MMO_Game/include/olcPixelGameEngine.h:1642-1649 | each bit of each byte is flipped exactly if it is set in the byte of the repeated key that falls on it |
| PackFormat.ScrambleTwice | MMO_Game/include/olcPixelGameEngine.h:1642-1649 | scrambling twice with the same key restores the data |
| ResourcePacks.ResourcePack.AddFile | MMO_Game/include/olcPixelGameEngine.h:1501-1514 | records an existing file under its path with forward slashes |
| ResourcePacks.ResourcePack.LoadPack | MMO_Game/include/olcPixelGameEngine.h:1516-1560 | reads the index of the file into the map, and leaves an error on the stream exactly if the file is shorter than its index claims |
| ResourcePacks.ResourcePack.SavePack | MMO_Game/include/olcPixelGameEngine.h:1562-1634 | writes the whole file and leaves the offsets in the map |
| ResourcePacks.ResourcePack.WriteContents | MMO_Game/include/olcPixelGameEngine.h:1588-1602 | writes the contents and gives each entry its offset |
| ResourcePacks.ResourcePack.GetFileBuffer | MMO_Game/include/olcPixelGameEngine.h:1636-1637 | yields the bytes of the region, zeros after an error on the stream; a missing path gets an empty entry; no error arises while all regions are in the file |
| ResourcePacks.ScrambleData | MMO_Game/include/olcPixelGameEngine.h:1642-1649 | refines the scrambling |
| PackFormat.Posix | MMO_Game/include/olcPixelGameEngine.h:1651-1656 | every backslash becomes a slash, no backslash is left, and nothing else changes |
| ResourcePacks.MakePosix | MMO_Game/include/olcPixelGameEngine.h:1651-1656 | refines the change of backslashes to slashes |
| Views.GrabbedPointStays | MMO_Game/src/MMO_Client.cpp:82-88 | from press to release, with zooms in between, the world point grabbed is under the mouse at the end of every frame |
| Views.ScalePositive | MMO_Game/src/MMO_Client.cpp:82-88 | the scale stays positive over any run of frames |
| Views.ScaleIs | MMO_Game/src/MMO_Client.cpp:82-88 | after any frames the scale is the starting one times 3/2 for each frame with the wheel up and 3/4 for each with the wheel down |
| Views.PanningExactly | MMO_Game/src/MMO_Client.cpp:82-88 | the view is being dragged exactly from a press to the next release |
| Views.NoDragNoMove | MMO_Game/src/MMO_Client.cpp:82-88 | while no drag is under way a frame only zooms, and without the wheel changes nothing |
| Views.ScaleAfter | MMO_Game/include/olcPGEX_TransformedView.h:255-290 | panning leaves the scale alone, zooming multiplies it and setting it sets it |
| Views.PixelSize | MMO_Game/include/olcPGEX_TransformedView.h:310-313 | screen positions start at the offset and are the inverse of the scale apart |
| Views.ZoomKeepsPoint | MMO_Game/include/olcPGEX_TransformedView.h:255-269 | zooming leaves the world point under the cursor where it is |
| Views.PanMovesPoint | MMO_Game/include/olcPGEX_TransformedView.h:277-284 | dragging brings the world point from under the last position under the new one |
| Views.ThereAndBack | MMO_Game/include/olcPGEX_TransformedView.h:302-312 | from the screen to the world and back is the identity on screen points |
| Views.BackAndThere | MMO_Game/include/olcPGEX_TransformedView.h:302-312 | a world point falls into a pixel exactly if it lies in the square that the pixel covers in the world |
| Views.TilesOnScreen | MMO_Game/include/olcPGEX_TransformedView.h:630-648 | the tile under any pixel of the screen is among those that the world is drawn from |
| Views.TilesExactly | MMO_Game/include/olcPGEX_TransformedView.h:630-638 | the tiles drawn are exactly those that meet the part of the world on the screen |
| TransformedViews.TransformedView.UpdatePan | MMO_Game/include/olcPGEX_TransformedView.h:277-284 | refines the panning step |
| TransformedViews.TransformedView.ZoomAtScreenPos | MMO_Game/include/olcPGEX_TransformedView.h:255-261 | refines zooming at a position |
| TransformedViews.TransformedView.SetZoom | MMO_Game/include/olcPGEX_TransformedView.h:263-269 | refines setting the zoom |
| TransformedViews.TransformedView.HandlePanAndZoom | MMO_Game/src/MMO_Client.cpp:82-88 | refines one frame of panning and zooming |

## Left out

- Asio, sockets, name resolution and real threads: completion handlers are steps over byte sequences, and access to the connection container from two threads is a sequence of atomic steps.
- Connection requests denied or failing in `async_accept`: they change nothing but the console.
- Rendering, platforms, image loaders, window and keyboard handling, decals, the font sheet and the frame loop of the engine.
- `UpdateObjectsLocally` and `ControlOfPlayerObject`: what they compute is a parameter of `GameClients.GameClient.Move`; only that keys and IDs stay is used.
- Floating-point blending, the mask, alpha and custom pixel modes, `Sample` and `SampleBL`: drawing is in normal mode.
- A null draw target, for which `Draw` does nothing, and a null sprite.
- 32-bit overflow of coordinates and error terms: the drawing methods use mathematical integers.
- Rounding of `float` in the view: positions and scales are exact reals; the ranged tiles and drawing wrappers of the view only forward.
- The TCP echo server and client: short callback chains.
- The removal of a player is not claimed to be final, since an update queued before a disconnect is relayed after it; `ServerAftermath.LeavesUnannounced` shows who is never announced as removed.
- Views.ZoomAt: zooms and scales of zero or below, by which the program would divide, are excluded; the client starts at a scale of 8 and zooms by 1.5 and 0.75.
- Messages.Message.Pull: pulling more bytes than the body holds is undefined in the program and excluded.
- GameServers.GameServer.FlushGarbage: does not model that the vector may have to move its elements when it is pushed to during the loop, after which the program is undefined; the runs do (`ServerRuns.Reallocate`).
- ResourcePacks.ResourcePack.LoadPack: an index that leads outside itself makes the program copy from beyond its buffer, and is excluded; so is loading a pack that is already open, which does just that, since nothing is read then (`PackFormat.NothingToRead`).
- PackSafety.RegionHoldsFile: files that begin beyond 4 GiB in a pack are excluded; `PackSafety.OffsetExactly` shows that their offset is wrong.
- PackSafety.SavedFileComesBack: the same files are excluded.
- ThreadSafeQueues.ThreadSafeQueue.Pop: as one call it is described for a queue with an item, where it does not wait; waiting is in the steps `EnterPop` and `Test`.
- ThreadSafeQueues.FirstInFirstOut: `Clear` is excluded, as it drops items.
- ConnectionSpec.Next: a client's end takes over messages only once its handshake is written; `NetworkedGame.HandOverPossible` shows that the game's client sends none before.
- Peers that do not run the game's client are in `Links` (for the bytes the server accepts) and in `Wire.BrokenRelay`, not in `GameSystem` or `NetworkedGame`.
- Wire.DecodeServer: a message too short for its value makes the program read outside the body; the model decodes it to nothing.
