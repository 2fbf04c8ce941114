# The lobby platform, verified

This project models the parts of the lobby platform that decide who is where and what they may reach: the
coordinator's rooms, addresses and tickets, the relay's routing, the tunnel's replay window, the app's polling, and
the smaller protocols around them. It states what they promise and proves it with Dafny 4.11. Nothing was executed.

`dafny verify dfyconfig.toml` checks the whole project.

## How it is built

Each operation is first a function from a state to the next state and the answer (`RoomModel`, `StoreModel`,
`TicketModel`, `SystemModel`, and the `...Spec` functions of the other modules). The classes (`Rooms.Room`,
`RoomStores.RoomStore`, `TicketStores.TicketStore`, `Coordinators.Coordinator`, `Replay.Session`, `Chat.Board`,
`LobbySync.App`, `Moderation.Store`, `Social.Store`, `Migrate.Database`, `RateLimiter.Limiter`,
`SelfUpdate.Updater`) update their fields in place with the loops the source has, and each method is proved to do
what its function says. The theorems are then about any run of those functions, and what each function does is told
once more without it: every field of every room after any event (`SystemChanges`), every ticket (`SystemTables`,
`SystemCollisions.TableAfter`), every answer (`StoreAnswers`, `RoomRefusals`), every role, sanction and log line
(`ModerationCalls`), every line of chat shown (`LobbyTalk`).

The centre is the coordinator. Its state is a table of rooms, each with ten playing seats, four watching seats, three
moderators' seats and one pool of fourteen addresses; an index map that gives every room a /27 of its own; and a
table of timed tickets that name a player, a room and an address. An event is one request or one turn of the timer.
`Coordinators.Coordinator` holds the real tables, and its invariant says that they are exactly where some fair run of
events leads, so everything proved of runs holds of it. A run is fair when its clock does not go back and room ids
are drawn afresh; nothing else is asked of the environment.

Where the code does something other than what is said of it, the model follows the code, a concrete case shows it,
and the exact condition is proved:

- Setting a room to closed by its status leaves no closing time, so the next timer turn sweeps it unreported and its
  tickets stay valid (`SystemTheorems.UndatedEndingGoesUnreported`); together with connecting to a room that has
  ended, this is exactly how a ticket can outlast its room (`SystemLeaks.LeaksExactly`). Two players can then hold
  one address (`SystemHosts.TicketsCanCollide`), and `SystemLive.OnePlayerPerAddressExactly` says exactly when.
- The host's address is read as a playing slot's, of which there are ten, from a pool of fourteen
  (`SystemHosts.HandOverExactly`), and a run reaches a room nobody can connect to
  (`SystemReach.ReachableRoomIsStranded`). Joining such a room seats the applicant and refuses them
  (`StoreAnswers.JoinAnswered`).
- The relay's broadcast test assumes blocks of sixteen, so the last place of the pool counts as broadcast
  (`RelayRoute.MemberToMember`, `SystemReach.SomebodyIsBroadcast`).
- Declining somebody who is already a friend leaves the friendship one-sided (`Social.SymmetryExactly`).
- The app can adopt a room and clear it in the same poll (`LobbySync.OnePollExactly`).
- Somebody removed from a room and back in it before the app's next poll is shown its last hundred lines twice
  (`LobbyTalk.BackBeforeTheNextPoll`).
- A token bucket of less than one token lets its first request through (`RateLimiter.BoundNeedsAWholeToken`).
- Lifting a sanction does not ask who it is against (`ModerationRuns.LiftedExactly`,
  `ModerationRuns.LiftsBeyondReachExactly`).
- A moderation row and its log line are two writes; the log falls short exactly by the lines that failed
  (`ModerationRuns.OnRecordExactly`).
- The old file is taken away before the new one gets its name, so a failing rename leaves none
  (`SelfUpdate.LostExactly`).
- The comment on the end of a restriction calls it the soonest moment anything stops; the code gives the latest, and
  so does the model (`Moderation.EndsWhenItSays`).

## Model

| member | source | states |
|---|---|---|
| SystemTheorems.TicketsAgreeWithSeats | coordinator/internal/api/http.go:531-553 | after any run of requests and timer turns, a ticket the relay accepts for a room still held names somebody seated in it and exactly the address they hold, inside the room's own block |
| SystemLeaks.LeaksExactly | coordinator/cmd/coordinator/main.go:264-273 | while every ticket is for an open room, an event breaks that if and only if it connects somebody still seated in an ended room whose host address can be given out, or sets a room with tickets out to closed |
| SystemLeaks.OneAddressOnePlayer | coordinator/internal/api/http.go:704-728 | in every run without those two events each ticket is for an open room that seats its player, and two tickets have one address exactly when they have one player; `SystemLive.OnePlayerPerAddressExactly` has the exact condition over all runs |
| SystemCollisions.ClearExactly | coordinator/internal/api/http.go:531-553 | while no two players have tickets for one address, an event breaks that if and only if it gives somebody, told from the state before it, an address that a ticket of another player still names for a room no longer held |
| SystemCollisions.TableAfter | coordinator/internal/api/http.go:531-822 | what each event does to the ticket table, exactly and told from the state before it: the ticket of whom, for which room and address goes in, or none and the table is unchanged; every other event leaves exactly the tickets it does not take back, as they were but for a renewal in time |
| SystemTables.TicketsLeftExactly | coordinator/internal/api/http.go:704-822 | which tickets a leave, kick, shutdown, eviction or timer turn takes back, exactly, by whom and which room they name; every other event that mints none takes none, and a renewal in time changes only its own ticket's time |
| SystemTables.TimerOnOpenRoom | coordinator/internal/room/store.go:417-443 | a timer turn on an open room: it stays, closed and dated now exactly when the registry does not know its host or has them offline, with the host in a game exactly as the registry says, and nothing else changed |
| SystemTables.TimerOnEndedRoom | coordinator/internal/room/store.go:417-443 | an ended room is left exactly as it is until five minutes after its date, and goes then, or at once if it has no date; with no registry installed open rooms are left alone |
| SystemChanges.StatusAfter | coordinator/internal/room/state.go:575-656 | a room's status after any event at all |
| SystemChanges.HostAfter | coordinator/internal/room/state.go:672-699 | a room's host after any event: only a hand-over to somebody playing in an open room changes it |
| SystemChanges.SeatedAfter | coordinator/internal/room/state.go:323-404 | who sits in a room after any event, exactly: whoever sat there and did not leave, was not kicked by the host nor evicted, and whoever the room and its door let in |
| SystemChanges.InvitedAfter | coordinator/internal/room/privacy.go:175-197 | who is invited after any event: only the host's own invitations and withdrawals change it |
| SystemChanges.DoorAfter | coordinator/internal/room/privacy.go:128-164 | a room's kind, rating and password after any event: only its host's own door changes them |
| SystemChanges.BlockedAfter | coordinator/internal/room/state.go:618-636 | who is kept out and until when after any event: only the host's kick changes it, by one, three, five minutes and so on |
| SystemChanges.RoomsAfter | coordinator/internal/room/store.go:417-443 | which rooms are still held after any event |
| SystemLive.StepForgets | coordinator/internal/ticket/ticket.go:133-143 | forgetting the tickets that have run out before an event comes to the same as forgetting them after it |
| SystemLive.LiveClearExactly | coordinator/internal/ticket/ticket.go:70-81 | the same exact condition for the tickets that still validate |
| SystemLive.LiveLeaksExactly | coordinator/internal/ticket/ticket.go:70-81 | a ticket that still validates outlasts its room being open exactly by a connect to an ended room, or by its host closing through the status a room with such a ticket out |
| SystemLive.OnePlayerPerAddressExactly | coordinator/internal/ticket/ticket.go:56-81 | at every moment of a run two validating tickets with one address belong to one player, if and only if no event of the run gives away an address that a validating ticket of somebody else names for a room that is gone |
| SystemHosts.TicketsCanCollide | coordinator/internal/room/state.go:641-650 | the concrete run in which two players end up with accepted tickets for one address: open, set to closed, sweep, open the next room |
| SystemTheorems.UndatedEndingGoesUnreported | coordinator/internal/room/store.go:417-443 | a room its host set to closed is swept at the next turn of the timer, is not reported by it, and its unexpired tickets stay valid |
| SystemTheorems.OnePersonOnePlace | coordinator/internal/room/store.go:201-206 | in every reachable state nobody is in two open rooms or in two seats of one room, and to be seated is to have an address |
| SystemTheorems.PoolNeverRunsDry | coordinator/internal/room/state.go:258-279 | in every reachable room a free playing or watching seat means a free address in the pool |
| SystemTheorems.AddressForTheWholeStay | coordinator/internal/room/state.go:478-540 | an address never changes from sitting down until getting up, across any moves, hand-overs and timer turns of any run |
| SystemTheorems.HostWhereTheRoomSays | coordinator/internal/room/state.go:485-540 | in every reachable state an open room's host sits exactly where its host slot and its watching flag say, and holds an address |
| SystemTheorems.IndexesAreTheRoomsTurnedRound | coordinator/internal/room/store.go:130-151 | in every reachable state the index map is the room map turned round, within the room ceiling |
| SystemTheorems.AddressesNeverCollide | coordinator/internal/ipam/allocator.go:90-145 | any two people in held rooms of any reachable state have different addresses, each inside its own room's /27 |
| SystemTheorems.PacketsReachTheirPerson | relay/internal/route/decision.go:49-90 | in every reachable state the relay forwards a member's packet to exactly the member it is addressed to, except exactly when that member holds the last place of the pool, which it takes for broadcast |
| SystemTheorems.KickedStaysOut | coordinator/internal/room/state.go:618-638 | after an n-th kick, no run of events before 2n - 1 minutes are up seats the target in that room again, by any kind of seat, password, invitation or change of host |
| SystemTheorems.BarredThroughout | coordinator/internal/room/state.go:309-320 | whoever is barred stays out through every run that ends before the block does |
| SystemTheorems.ClosedIsForGood | coordinator/internal/room/state.go:575-581 | a closed room keeps its status, closing time, last host and index for as long as it is held, and a room once gone never comes back |
| SystemTheorems.LingersInFull | coordinator/internal/room/store.go:417-443 | a room with a closing time keeps its place and its index for the full linger, whatever else happens, unless an administrator shuts it down |
| SystemTheorems.RemovedOnlyWhenDue | coordinator/internal/room/store.go:430-440 | no event removes a room but an administrator's closing or the timer at the end of its linger |
| SystemTheorems.EndingsAreDated | coordinator/internal/room/state.go:575-650 | every event that ends a room dates the ending, except the host's status control, which leaves no date |
| SystemHosts.ConnectsExactly | coordinator/internal/room/store.go:244-264 | in every reachable state an open room's host holds an address, and a seated person gets a membership exactly when the host's place in the pool is below ten; then it names the host's and their own address |
| SystemHosts.WithoutHandOverAllConnect | coordinator/internal/room/store.go:521-530 | in every run without a hand-over, everybody in an open room can connect and is told the host's own address, the first of the block |
| SystemHosts.HandOverExactly | coordinator/internal/room/store.go:602-610 | after an accepted change of host the room can be connected to exactly when the new host holds one of the first ten places; otherwise nobody in it gets a membership |
| SystemReach.ReachableRoomIsStranded | coordinator/internal/room/state.go:672-699 | a run of fourteen requests that ends in an open room with ten players, not one of whom can connect |
| SystemReach.SomebodyIsBroadcast | relay/internal/route/decision.go:81-90 | a run that seats fourteen people, the last of whom holds the place the relay takes for broadcast |
| SystemReach.ArrivalsFill | coordinator/internal/room/state.go:266-279 | up to fourteen arrivals fill the seats and the pool in order of arrival |
| SystemRuns.StepKeeps | coordinator/internal/api/http.go:555-871 | every event keeps both tables in order and does to each room at most the one operation it is for |
| SystemInvariants.TimerActKeeps | coordinator/cmd/coordinator/main.go:255-288 | a timer turn keeps rooms, seats, addresses and tickets in agreement; what it makes of each room is `SystemTables.TimerOnOpenRoom` and `TimerOnEndedRoom` |
| SystemInvariants.EvictActKeeps | coordinator/internal/api/moderation.go:467-486 | evicting a player keeps both tables in order and changes exactly the open rooms the player sits in |
| Coordinators.Coordinator.CreateRoom | coordinator/internal/api/http.go:555-649 | somebody banned or timed out is refused and nothing changes; otherwise the new state is one more event of a fair run, the answer exactly what opening the room and putting its door on give, and a credential handed out is in the table under the caller's name and address |
| Coordinators.Coordinator.PutDoorOn | coordinator/internal/api/http.go:628-645 | a room asked for with a door gets it, or is closed again and its tickets revoked |
| Coordinators.Coordinator.JoinRoom | coordinator/internal/api/http.go:651-693 | the refusals in the handler's order, a ban or timeout and then a room that is not there, before the room's own answer; then one more event of a fair run and a ticket for exactly the membership granted; `SystemDoors.LetInExactly` says who is let in and `StoreAnswers.JoinAnswered` what the answer means |
| Coordinators.Coordinator.SpectateRoom | coordinator/internal/api/lobby.go:323-363 | the refusals in the handler's order, then one more event of a fair run and a ticket for exactly the place in the gallery granted; `SystemDoors.LetInExactly` says who is let in and `StoreAnswers.WatchAnswered` what the answer means |
| Coordinators.KeptOffExactly | coordinator/internal/moderation/sanctions.go:215-250 | whom a ban or a timeout in force keeps off, told from the sanctions themselves; a mute keeps nobody off |
| Coordinators.Coordinator.ConnectRoom | coordinator/internal/api/http.go:704-728 | a fresh ticket for somebody already seated, changing no room |
| Coordinators.Coordinator.LeaveRoom | coordinator/internal/api/http.go:730-764 | leaving takes back one's own tickets for the room, or everybody's when the host's leaving ended it |
| Coordinators.Coordinator.KickPlayer | coordinator/internal/api/http.go:766-785 | an accepted kick takes the target's tickets for the room; a refused one changes nothing; exactly the target's and nobody else's, by `SystemTables.TicketsLeftExactly` |
| Coordinators.Coordinator.MoveSlot | coordinator/internal/api/http.go:790-822 | a change of seat takes no ticket |
| Coordinators.Coordinator.SetStatus | coordinator/internal/api/http.go:824-849 | the status change is the room's own and takes no ticket, closing included |
| Coordinators.Coordinator.ChangeHost | coordinator/internal/api/moderation.go:313-353 | a hand-over changes the room's host and takes no ticket |
| Coordinators.Coordinator.CloseRoom | coordinator/internal/api/moderation.go:284-310 | an administrator's closing removes the room, its index and every ticket naming it |
| Coordinators.Coordinator.EvictPlayer | coordinator/internal/api/moderation.go:467-486 | the loop over rooms, in whatever order they come, ends in the one eviction of the model |
| Coordinators.DeparturesAreTheEviction | coordinator/internal/api/moderation.go:467-486 | leaving each room one after another, in any order, comes to the same state |
| Coordinators.Coordinator.RunTimers | coordinator/cmd/coordinator/main.go:255-288 | one timer turn: the rooms advance, the tickets of the rooms this turn ended are revoked, and the expired go; room by room and ticket by ticket that is `SystemTables.TimerOnOpenRoom`, `TimerOnEndedRoom` and `TicketsLeftExactly` |
| Coordinators.Coordinator.RenewLease | coordinator/internal/api/http.go:858-871 | a lease is renewed exactly when the ticket still validates |
| Coordinators.Coordinator.SetPrivacy | coordinator/internal/api/privacy.go:79-115 | the door change as a step of the run |
| Coordinators.Coordinator.Invite | coordinator/internal/api/privacy.go:118-147 | the invitation as a step of the run, with unnamed callers refused |
| Coordinators.Coordinator.Uninvite | coordinator/internal/api/privacy.go:118-147 | the withdrawal as a step of the run |
| Coordinators.Coordinator.CredentialsHold | coordinator/internal/api/http.go:531-553 | whatever the handlers have been through, each ticket in the real table for a room in the real table is for somebody seated there at the address they hold |
| TicketStores.TicketStore.RevokePlayerRoom | coordinator/internal/ticket/ticket.go:110-118 | the loop removes exactly one player's tickets for one room |
| TicketStores.TicketStore.RevokeRoom | coordinator/internal/ticket/ticket.go:123-131 | the loop removes exactly the tickets of one room |
| TicketStores.TicketStore.Purge | coordinator/internal/ticket/ticket.go:135-143 | the loop removes exactly the expired |
| TicketModel.PurgeUnnoticed | coordinator/internal/ticket/ticket.go:70-143 | purging never changes which tickets validate, then or later |
| TicketRuns.GoodExactly | coordinator/internal/ticket/ticket.go:56-143 | after any use of the table a ticket validates exactly until its time, as the renewals that came in time have set it, unless it was taken back; then it still names the same claims |
| TicketRuns.LeaseExactly | coordinator/internal/ticket/ticket.go:83-98 | issued and then always renewed in time, a ticket is good for one lifetime after its last renewal, exactly, unless it was taken back |
| RoomStores.RoomStore.RoomOf | coordinator/internal/room/store.go:173-192 | the scan, in any order, finds the open room that seats a player, or that there is none |
| RoomStores.RoomStore.FreeIndex | coordinator/internal/room/store.go:208-215 | the loop finds the lowest free index, or that all are taken |
| RoomStores.RoomStore.Create | coordinator/internal/room/store.go:118-152 | a new record under a fresh id and the lowest free index, refused to somebody in another open room |
| RoomStores.RoomStore.Join | coordinator/internal/room/store.go:218-233 | one room changes, as its own join says, and no other; what the answer means is `StoreAnswers.JoinAnswered` |
| RoomStores.RoomStore.JoinObserver | coordinator/internal/room/store.go:267-282 | one room changes, as its own gallery says, and no other; what the answer means is `StoreAnswers.WatchAnswered` |
| RoomStores.RoomStore.JoinAdmin | coordinator/internal/room/store.go:296-312 | one room changes, as its own moderators' seats say, and the address comes from the seat; what the answer means is `StoreAnswers.ModerateAnswered` |
| RoomStores.RoomStore.Membership | coordinator/internal/room/store.go:244-264 | what a seated person is told, whether or not the room has ended |
| RoomStores.RoomStore.Leave | coordinator/internal/room/store.go:318-339 | leaving, and whether that ended the room |
| RoomStores.RoomStore.Move | coordinator/internal/room/store.go:343-351 | one room changes, as its own move says, and no other |
| RoomStores.RoomStore.Kick | coordinator/internal/room/store.go:354-376 | one room changes, as its own kick says, and no other |
| RoomStores.RoomStore.Close | coordinator/internal/room/store.go:584-598 | the room and its index are gone at once, for the host or the platform only |
| RoomStores.RoomStore.Tick | coordinator/internal/room/store.go:417-443 | the loop over the rooms, in any order, comes to every room looked at and the due ones swept with their indexes, and reports each room it ended, once; what the look does is `SystemTables.TimerOnOpenRoom` |
| StoreInvariants.OnRoomKeeps | coordinator/internal/room/store.go:118-206 | an operation on one room keeps the room map and the index map inverse and nobody in two open rooms, provided whoever sits down is in no other |
| StoreInvariants.CreateKeeps | coordinator/internal/room/store.go:118-152 | opening a room keeps the table in order and adds exactly that room, under an index that was free |
| StoreInvariants.TickKeeps | coordinator/internal/room/store.go:417-443 | a timer turn keeps the two maps inverse and nobody in two open rooms |
| StoreInvariants.CloseKeeps | coordinator/internal/room/store.go:584-598 | closing keeps the two maps inverse |
| StoreInvariants.MembershipExactly | coordinator/internal/room/store.go:445-512 | who is given a membership, exactly, and that it names their own and the host's address |
| StoreInvariants.MembershipTellsTruly | coordinator/internal/room/store.go:446-512 | a membership names the seat its player sits in and its kind, says whether they are the host, and gives the room's own /27, which covers both addresses |
| StoreInvariants.HostAddrExactly | coordinator/internal/room/store.go:521-530 | the host's address can be given exactly when the host holds one of the first ten places, and is then the host's own |
| StoreInvariants.AddressesAreDistinct | coordinator/internal/ipam/allocator.go:90-145 | people in held rooms share an address only with themselves |
| StoreInvariants.BerthStays | coordinator/internal/room/state.go:285-302 | only getting up costs somebody their address |
| Rooms.Room.TakeAddress | coordinator/internal/room/state.go:266-279 | the loop gives a holder what they hold and a newcomer the lowest free place |
| Rooms.Room.Join | coordinator/internal/room/state.go:322-349 | the loops that update the record in place come to `RoomModel.Join`; `RoomDoors.PlaysExactly` says whom it lets in, `RoomRefusals.RefusalsAreTrue` why it refuses, and `RoomSeats.JoinTakesLowest` where it seats |
| Rooms.Room.JoinObserver | coordinator/internal/room/state.go:356-384 | the in-place loops come to `RoomModel.JoinObserver`; `RoomDoors.WatchesExactly` says whom it lets in, `RoomRefusals.RefusalsAreTrue` why it refuses, and `RoomSeats.WatchExactly` where it seats |
| Rooms.Room.JoinAdmin | coordinator/internal/room/state.go:393-404 | the in-place loop comes to `RoomModel.JoinAdmin`, described by `RoomSeats.ModerateExactly` |
| Rooms.Room.Move | coordinator/internal/room/state.go:485-540 | the in-place move comes to `RoomModel.Move`, described by `RoomSeats.MoveExactly` and `RoomSeats.OthersSitStill` |
| Rooms.Room.Leave | coordinator/internal/room/state.go:549-564 | the loops over all four arrays come to `RoomModel.Leave`, described by `RoomSeats.LeaverIsGone` and `RoomSeats.OthersStayOnLeave` |
| Rooms.Room.Kick | coordinator/internal/room/state.go:618-638 | the in-place kick comes to `RoomModel.Kick`, described by `RoomSeats.KickExactly` and `RoomInvariants.KickExtends` |
| Rooms.Room.SetHost | coordinator/internal/room/state.go:672-699 | the in-place change comes to `RoomModel.SetHost`, described by `RoomSeats.HandOverMovesNobody` |
| RoomInvariants.ApplyKeeps | coordinator/internal/room/state.go:157-177 | every operation keeps one seat each, the pool holding exactly the players and watchers once each, and the host where the room says, and changes nothing outside its footprint |
| RoomInvariants.AddressNeverRunsDry | coordinator/internal/room/state.go:258-279 | pigeonhole: a free playing or watching seat leaves a free address |
| RoomInvariants.KickExtends | coordinator/internal/room/state.go:77-83 | an n-th kick bars for 2n - 1 minutes and ends later than every block before it |
| RoomInvariants.TotalBlockIsSquare | coordinator/internal/room/state.go:77-83 | the first n blocks together are n squared minutes |
| RoomInvariants.BarredStays | coordinator/internal/room/state.go:309-404 | no operation before a block ends seats the barred |
| RoomInvariants.JoinableIsHonest | coordinator/internal/api/http.go:393-465 | a join is let in exactly when the room admits, has a free playing seat, and neither a seat, a block nor the door is against the applicant; what the door asks is spelled out in `RoomDoors.PlaysExactly` |
| RoomSeats.JoinTakesLowest | coordinator/internal/room/state.go:323-349 | a join takes the lowest free seat and the lowest free address and changes nothing else |
| RoomSeats.WatchExactly | coordinator/internal/room/state.go:356-384 | who is let into the gallery, exactly; then they take its lowest free place and the lowest free address, and nothing else changes; what the door asks is spelled out in `RoomDoors.WatchesExactly` |
| RoomSeats.ModerateExactly | coordinator/internal/room/state.go:393-404 | who is let into a moderator's seat, exactly, the lock and the door not among the conditions; no address is taken from the pool |
| RoomSeats.LeaverIsGone | coordinator/internal/room/state.go:549-564 | whoever left has no seat and no address, and the room ends exactly when it was its host |
| RoomSeats.OthersStayOnLeave | coordinator/internal/room/state.go:549-564 | a departure changes nobody else's seat or address |
| RoomSeats.KickExactly | coordinator/internal/room/state.go:618-638 | who may kick whom, exactly; the target is out, one more kick is counted, nobody else is touched and the room goes on |
| RoomSeats.HandOverMovesNobody | coordinator/internal/room/state.go:672-699 | to whom a room can be handed, exactly; the new host is where the room says, and no seat or address changes |
| RoomSeats.LeaveUndoesJoin | coordinator/internal/room/state.go:549-564 | leaving after joining, as player or watcher, gives the room back exactly |
| RoomSeats.LeaveUndoesJoinAdmin | coordinator/internal/room/state.go:549-564 | leaving a moderator's seat gives the room back exactly |
| RoomSeats.MoveExactly | coordinator/internal/room/state.go:485-540 | when a move is accepted, exactly; then the mover sits where asked, and every address is as it was |
| RoomSeats.OthersSitStill | coordinator/internal/room/state.go:485-540 | a move changes nobody else's seat |
| RoomSeats.MoveThereAndBack | coordinator/internal/room/state.go:485-540 | moving back undoes moving, the host's whereabouts included |
| RoomDoors.PrivacyExactly | coordinator/internal/room/privacy.go:128-164 | when a door is put on, exactly, and what door it is then; only a room that already asks for a password may leave it out, and keeps the one it has |
| RoomDoors.ApplyKeepsDoor | coordinator/internal/room/privacy.go:128-164 | every operation keeps it that a room has a password exactly when it is a password room |
| SystemDoors.PasswordRoomsHavePasswords | coordinator/internal/room/privacy.go:94-164 | in every reachable state a room has a password exactly when it is a password room, and lets nobody but staff in without that password |
| RoomDoors.OldPasswordIsGone | coordinator/internal/room/privacy.go:152-160 | once a room was of another kind, its old password does not come back |
| RoomDoors.InGameLocks | coordinator/internal/room/state.go:231-236 | a host seen in a game: nobody joins, watches or moves, unless the room is open to new players, and then joining and watching are as they were |
| RoomDoors.OutOfGameUnlocks | coordinator/internal/room/state.go:606-614 | a host seen out of the game again gives the room back as it was |
| RoomDoors.UnseenHostEndsTheRoom | coordinator/internal/room/state.go:606-614 | a host not seen ends the room at that moment, with everybody still in their seats, and nothing seen later reopens it |
| RoomDoors.PlaysExactly | coordinator/internal/room/privacy.go:94-119 | who gets to play, exactly: the room is open, unlocked or opened to new players during a match, has a seat, the applicant is not in it nor blocked, and is staff, or has the rating and the password, the friendship or the invitation the room asks for |
| RoomDoors.WatchesExactly | coordinator/internal/room/state.go:356-384 | the same for the gallery and its places |
| RoomDoors.StatusDecides | coordinator/internal/room/state.go:641-656 | what the host's status control does to who gets in: nobody, everybody the door lets through, or everybody until a match is on |
| RoomDoors.InvitationOpens | coordinator/internal/room/privacy.go:175-187 | an invitation is the host's to give while the room is open, and opens an invitation room to the one it names and nobody else |
| RoomDoors.WithdrawalCloses | coordinator/internal/room/privacy.go:191-197 | taking it back closes the room to that one and nobody else |
| RoomDoors.NewRoomTakesAnybody | coordinator/internal/room/state.go:241-259 | a new room lets anybody in, and made an invitation room at once nobody but staff, its host's name included |
| RoomRefusals.RefusalsAreTrue | coordinator/internal/room/state.go:309-699 | whatever any operation on a room refuses, the reason it gives holds of the room and the request, and the room is unchanged |
| SystemDoors.LetInExactly | coordinator/internal/room/privacy.go:94-119 | in every reachable room, who is let in to play and to watch, exactly; there the password named need only be the room's own |
| SystemDoors.OpenedWithItsDoor | coordinator/internal/api/http.go:618-645 | a room asked for with a door is there with exactly that door, or not at all |
| StoreAnswers.JoinAnswered | coordinator/internal/room/store.go:218-233 | what somebody who asks to play is answered: a membership told truly, or a refusal that holds and changes nothing, but for one seated in a room whose host's address cannot be given out |
| StoreAnswers.WatchAnswered | coordinator/internal/room/store.go:267-282 | the same of the gallery |
| StoreAnswers.ModerateAnswered | coordinator/internal/room/store.go:296-312 | the same of the moderators' seats |
| StoreAnswers.CreateAnswered | coordinator/internal/room/store.go:118-166 | whoever opens a room is told its first seat, as its host, or refused for a room they are in or because all the places are taken |
| StoreAnswers.ConnectAnswered | coordinator/internal/room/store.go:244-264 | whoever asks for a fresh ticket is told the truth: no such room, no seat, the host gone from an ended room, or the host out of reach |
| Ipam.BerthsAreDisjoint | coordinator/internal/ipam/allocator.go:90-145 | different rooms or different places never share an address, and each lies in its room's /27 clear of its first two and its last |
| Ipam.SubnetCoversExactly | coordinator/internal/ipam/allocator.go:75-88 | a room's /27 covers exactly the addresses of the platform that fall in its block |
| RelayRoute.MemberToMember | relay/internal/route/decision.go:49-90 | a packet for a place of a room is forwarded to exactly it, unless it is the fourteenth of the pool, which counts as broadcast |
| RelayRoute.DecidesExactly | relay/internal/route/decision.go:49-90 | which packets are dropped, fanned out and forwarded, exactly, told from their octets |
| Replay.Session.CheckReplay | protocol/crypto/session.go:87-118 | the 64-bit bitmap accepts a number exactly when it was never accepted and none accepted is 64 or more ahead of it, and then adds it to the set |
| Replay.Session.Open | protocol/crypto/session.go:70-84 | what has no header or does not open never moves the window |
| Replay.Session.MoveUp | protocol/crypto/session.go:97-106 | the bits after a jump, jumps of 64 and more included |
| Bits.ShiftMovesBits | protocol/crypto/session.go:97-106 | a shifted word has the bits of the word, moved |
| Replay.DeliveredExactly | protocol/crypto/session.go:70-118 | of any stream, a packet is handed up exactly when it is authentic, no earlier authentic packet carried its number, and none was 64 or more ahead |
| Replay.DeliveredOnce | protocol/crypto/session.go:87-118 | no number is handed up twice |
| Replay.ReorderingLosesNothing | protocol/crypto/session.go:25-27 | packets out of order by less than the window all arrive, whatever forgeries come between |
| SqlSplit.SplitStatements | coordinator/internal/store/db.go:248-315 | the look-ahead scanner returns the trimmed pieces that the three-state automaton cuts at bare semicolons |
| SqlSplit.ScanLiteral | coordinator/internal/store/db.go:283-299 | looking ahead for a doubled quote is the same as letting each quote toggle |
| SqlSplit.RejoinedIsTheScript | coordinator/internal/store/db.go:248-315 | the pieces put back together at semicolons are the script up to a last unended comment |
| SqlSplit.BodyIsAllButAComment | coordinator/internal/store/db.go:271-279 | what is left out is nothing, or one comment with no newline |
| SqlSplit.PiecesAreWhole | coordinator/internal/store/db.go:239-247 | no piece holds a bare semicolon, and every piece but the last ends outside comments and literals |
| SqlSplit.SplitUndoesJoin | coordinator/internal/store/db.go:239-247 | complete trimmed statements joined by semicolons and split come back unchanged |
| SqlSplit.StatementsAreTrimmed | coordinator/internal/store/db.go:263-268 | no statement is empty or has blanks at its ends |
| SqlSplit.WholeExactly | coordinator/internal/store/db.go:239-247 | what the splitter keeps together, told by a grammar: exactly what is written with plain characters, quoted literals with doubled quotes, and line comments |
| Migrate.Database.Migrate | coordinator/internal/store/db.go:198-230 | each script is one transaction from the recorded version on, stopping at the first call that fails |
| Migrate.Database.RunScript | coordinator/internal/store/db.go:211-228 | a script is committed whole with its version, or leaves nothing |
| Migrate.EveryRunCommitsAPrefix | coordinator/internal/store/db.go:189-237 | from a new database, after any starts of any releases, failing wherever they may, exactly the first so many migration texts have been run, each split, once and in order, and that many is the recorded version |
| Migrate.OneRun | coordinator/internal/store/db.go:198-237 | a run never goes back, succeeds exactly when no call it makes fails, and then ends at its full list |
| Migrate.AgainChangesNothing | coordinator/internal/store/db.go:198-237 | running again after a success changes nothing |
| Migrate.MaxVersionIsHighest | coordinator/internal/store/db.go:232-237 | the version read is the highest of the rows, whatever their order |
| RateLimiter.Limiter.Allow | coordinator/internal/api/ratelimit.go:35-54 | one client's bucket is refilled, capped and spent, and no other is touched |
| RateLimiter.Limiter.Purge | coordinator/internal/api/ratelimit.go:58-66 | the loop drops exactly the buckets idle for longer than asked |
| RateLimiter.WindowBound | coordinator/internal/api/ratelimit.go:35-54 | in any window of any run of many clients and patient purges, one client gets through at most burst plus rate times the window's length |
| RateLimiter.BoundNeedsAWholeToken | coordinator/internal/api/ratelimit.go:40-43 | that bound holds of a first request if and only if the burst is at least one |
| RateLimiter.SteadyClientNeverRefused | coordinator/internal/api/ratelimit.go:35-54 | requests at least 1/rate apart are never refused, whatever other clients do |
| RateLimiter.PatientPurgeUnnoticed | coordinator/internal/api/ratelimit.go:56-66 | with purges that wait for burst over rate, every answer is the one without them |
| RateLimiter.ForgettingExactly | coordinator/internal/api/ratelimit.go:35-66 | forgetting a bucket is unnoticed exactly when it would have been full |
| RateLimiter.IdleExactly | coordinator/internal/api/ratelimit.go:58-66 | an idle time never shows if and only if it is at least burst over rate |
| Checksums.Checksum | loadtest/echopeer.go:129-141 | the loops compute the complement of the one's-complement sum of the words, kept in 32 bits |
| Checksums.Rechecks | loadtest/echopeer.go:129-141 | a buffer of any length with its checksum in place comes to zero |
| Checksums.RechecksInFullExactly | loadtest/echopeer.go:129-141 | a receiver that loses no carry agrees exactly when the carries the 32-bit sum lost are a multiple of 65535 |
| Echo.EchoReply | loadtest/echopeer.go:91-126 | the reply is made exactly for a whole echo request to us, and is the request with addresses swapped, type and both checksums replaced and nothing else |
| Echo.ReplyChecksOut | loadtest/echopeer.go:91-126 | header and message each re-check to zero, also for a receiver that loses no carry up to 131074 octets |
| Echo.RepliesAreNotAnswered | loadtest/echopeer.go:99-108 | a reply is never answered in its turn, by anybody |
| Echo.OneReply | loadtest/echopeer.go:91-126 | only one reply meets these conditions |
| LobbySync.App.Pull | lobbyapp/server.go:484-584 | one poll against the real room table and chat board: the belief, both conversations and both cursors afterwards; over runs, what that makes of the two conversations is `LobbyTalk.LobbyIsTheLog` and `LobbyTalk.RoomTalkIsTheLog` |
| LobbySync.AskAfter | coordinator/internal/api/lobby.go:111-191 | what the coordinator answers about a player and the room asked after |
| LobbySync.PollDoes | lobbyapp/server.go:543-574 | what one poll makes of a belief, by what it was |
| LobbySync.TwoPollsExactly | lobbyapp/server.go:520-574 | from any belief two polls make it right, exactly when a player who is nowhere does not linger in the room believed in, and one who is somewhere can get a ticket there |
| LobbySync.AppIsRightAfterTwoPolls | lobbyapp/server.go:484-584 | the same of the app's whole state through two polls, whatever is said in the chats meanwhile |
| LobbySync.OnePollExactly | lobbyapp/server.go:543-574 | when one poll is enough, exactly; the rest is adopting and clearing in the same poll |
| LobbySync.NeverElsewhere | lobbyapp/server.go:567-574 | the app is never left believing in a room its player has no seat in |
| LobbySync.RightStaysRight | lobbyapp/server.go:543-574 | a right belief is left alone |
| LobbySync.ConvergesAfterSweep | lobbyapp/server.go:559-566 | once the ended room is swept, two polls are enough again |
| LobbySync.TwoPollsInEveryRun | lobbyapp/server.go:520-574 | in every run of the coordinator without a hand-over, two polls are enough but for a player lingering in an ended room |
| LobbySync.CrossedAnswerHeals | lobbyapp/server.go:535-543 | an answer that crosses a change of belief adopts nothing, at worst clears, and two more polls put that right |
| LobbyTalk.PullIsAPoll | lobbyapp/server.go:484-584 | the app's poll of the real board and tables is one poll of these runs |
| LobbyTalk.LobbyIsTheLog | lobbyapp/server.go:577-578 | over any run with at most a hundred lobby lines between polls, the app shows exactly the last two hundred lines of the lobby's log from where it began to where it last polled |
| LobbyTalk.RoomTalkIsTheLog | lobbyapp/server.go:496-502 | the same of a room's conversation from the first poll after entering, for as long as the player stays seated there |
| LobbyTalk.SeatedStays | coordinator/internal/api/lobby.go:164-190 | the coordinator's answer leaves the player in the room exactly while they sit there and it has them nowhere else, in particular while the room is open |
| LobbyTalk.OutsidersHearNothing | coordinator/internal/api/lobby.go:173-190 | whoever has no seat in the room asked after is handed none of its conversation |
| LobbyTalk.NeverSeatedHearsNothing | coordinator/internal/api/lobby.go:173-190 | over any run in which no poll finds the player seated, the app shows nothing of any room |
| LobbyTalk.BackBeforeTheNextPoll | lobbyapp/server.go:579-582 | somebody removed from a room and back in it before the next poll is shown its last hundred lines a second time |
| Chat.Board.Append | coordinator/internal/chat/chat.go:102-121 | each channel stays exactly the last hundred lines of its log, with ids that only go up |
| Chat.Board.Since | coordinator/internal/chat/chat.go:126-141 | the loop returns the kept lines newer than the cursor |
| Chat.PollMissesNothingExactly | coordinator/internal/chat/chat.go:126-141 | a poll brings everything new exactly when at most a hundred lines are |
| Chat.EveryLineOnce | coordinator/internal/api/lobby.go:195-200 | a client that polls before a hundred lines have come is handed every line once and in order, and keeps the last two hundred |
| Chat.FirstPoll | coordinator/internal/chat/chat.go:123-141 | a client with no cursor begins with the last hundred lines, up to date |
| Chat.KeptAdds | lobbyapp/server.go:586-595 | appending to what is kept keeps the last two hundred of everything handed over |
| Chat.LateLinesAreLost | coordinator/internal/chat/chat.go:102-121 | a line pushed out before a poll is behind the cursor after it |
| Social.Store.Request | coordinator/internal/social/social.go:75-125 | asking: silently dropped when either blocked the other, an acceptance when they asked first, refused at the ceiling |
| Social.Store.Accept | coordinator/internal/social/social.go:128-150 | accepting writes both rows or none |
| Social.Store.Accepting | coordinator/internal/social/social.go:152-170 | the two loops over the pair: both counts first, then both rows |
| Social.Store.Block | coordinator/internal/social/social.go:270-292 | blocking writes the block and removes the rows both ways; that it holds is `Social.BlockedFromThenOn` and who has blocked whom `Social.BlocksExactly` |
| Social.AlwaysInOrder | coordinator/internal/social/social.go:75-299 | after any run: blocked pairs have no rows and are not friends, facing rows are both accepted, nobody has more than 200 |
| Social.SymmetryExactly | coordinator/internal/social/social.go:172-178 | friendship stays mutual across an operation if and only if it is not a decline of somebody already a friend |
| Social.RunStaysSymmetric | coordinator/internal/social/social.go:75-299 | in every run without such a decline accepted rows are mutual |
| Social.DeclinedFriendReturns | coordinator/internal/social/social.go:172-178 | what follows from one: the declined friend asks again and is a friend at once, unless the list is full |
| Social.FriendsHaveBothReached | coordinator/internal/social/social.go:152-170 | a row from one person to another exists only if that person asked or accepted them |
| Social.BlockHoldsUntilLifted | coordinator/internal/social/social.go:270-299 | no run without an unblock leaves a row between a blocked pair |
| Social.BlockedFromThenOn | coordinator/internal/social/social.go:270-299 | from a block until its maker lifts it, no run leaves a row or a friendship between the two either way, and an ask by either adds nothing |
| Social.BlocksExactly | coordinator/internal/social/social.go:270-299 | after any run, who has blocked whom: exactly whoever did and has not taken it back since |
| Social.AskingExactly | coordinator/internal/social/social.go:75-125 | when asking is refused, dropped, answered with a friendship or left waiting, exactly, with every other row untouched |
| Social.AcceptingExactly | coordinator/internal/social/social.go:128-170 | when accepting makes the two friends, exactly, with every other row untouched |
| Social.RemovingExactly | coordinator/internal/social/social.go:172-200 | removing leaves nothing between the two and declining nothing of the other's, with every other row untouched |
| SelfUpdate.Updater.Download | client/selfupdate/selfupdate.go:124-191 | the retry loop, the verdict, and what is under the runnable name afterwards, also when taking the old file away or renaming the new one fails |
| SelfUpdate.LostExactly | client/selfupdate/selfupdate.go:183-190 | the runnable file is lost exactly when a good one was fetched, the old one taken away and the rename failed; otherwise it is the old one or the described one |
| SelfUpdate.Updater.Fetch1 | client/selfupdate/selfupdate.go:196-238 | one attempt's effect on the partial file for each kind of answer |
| SelfUpdate.EveryAttemptBeginsAtAPrefix | client/selfupdate/selfupdate.go:124-163 | against a server with one file, every attempt begins with exactly its first so many octets |
| SelfUpdate.OnlyTheDescribedFile | client/selfupdate/selfupdate.go:164-191 | at most four attempts, and what becomes runnable is the described file and nothing else; a download that did not fail is accepted exactly when all of it came |
| SelfUpdate.ResumingSucceeds | client/selfupdate/selfupdate.go:87-97 | a link that brings something each time and once runs to the end within four attempts is enough |
| SelfUpdate.FruitlessAttemptEndsIt | client/selfupdate/selfupdate.go:147-156 | an attempt after the first that fails and brings nothing is the last |
| Moderation.Store.RoleOf | coordinator/internal/moderation/roles.go:111-133 | the loop over the standing grants, head admin outranking admin |
| Moderation.Store.BootstrapHeadAdmin | coordinator/internal/moderation/roles.go:69-92 | the first head admin, once; asking again for the same one adds nothing; a failing second write leaves the row without its line |
| Moderation.Store.GrantAdmin | coordinator/internal/moderation/roles.go:136-158 | the head admin's grant, refused to staff; row and line are two writes, either of which may fail |
| Moderation.Store.RevokeAdmin | coordinator/internal/moderation/roles.go:164-187 | the grant is stamped, not removed; stamp and line are two writes, either of which may fail |
| Moderation.Store.Punish | coordinator/internal/moderation/sanctions.go:79-129 | a refusal that changes nothing, or a row and its line, two writes either of which may fail |
| Moderation.Store.Lift | coordinator/internal/moderation/sanctions.go:136-155 | the sanction is stamped, not removed; stamp and line are two writes, either of which may fail |
| Moderation.Store.Record | coordinator/internal/moderation/roles.go:314-319 | an action taken elsewhere adds its line, for staff only |
| Moderation.Store.Restrictions | coordinator/internal/moderation/sanctions.go:221-248 | the loop over what is in force: what somebody is kept from, and until when |
| Moderation.RestrictionsExactly | coordinator/internal/moderation/sanctions.go:215-249 | each answer is exactly whether a sanction of that kind is in force |
| Moderation.EndsWhenItSays | coordinator/internal/moderation/sanctions.go:236-248 | with nothing done meanwhile, somebody is under a sanction at a later moment exactly when no end was given or it has not come |
| ModerationRuns.HeadAdminForGood | coordinator/internal/moderation/roles.go:58-92 | once there is a head admin it is that account through every later run |
| ModerationRuns.AppointedByTheHead | coordinator/internal/moderation/roles.go:136-187 | in every run: one standing grant to an account at most, no admin before the head admin, every grant and withdrawal the head admin's own |
| ModerationRuns.RolesChangeOnlyBy | coordinator/internal/moderation/roles.go:69-187 | which call changes a role, by whom and of whom |
| ModerationRuns.PunishedExactly | coordinator/internal/moderation/sanctions.go:256-277 | which sanctions are accepted, exactly |
| ModerationCalls.AcceptedExactly | coordinator/internal/moderation/roles.go:69-195 | which calls are accepted, exactly, told from the grants and sanctions there are |
| ModerationCalls.RoleAfter | coordinator/internal/moderation/roles.go:69-195 | everybody's role after any call, whatever write fails |
| ModerationCalls.PunishmentBears | coordinator/internal/moderation/sanctions.go:79-130 | an accepted sanction puts its target, and nobody else, under its own kind until its length is over, and for good when it has none |
| ModerationCalls.RowEntered | coordinator/internal/moderation/sanctions.go:79-130 | the row it is entered in, with its reason trimmed and cut at three hundred characters |
| ModerationCalls.LiftFrees | coordinator/internal/moderation/sanctions.go:136-155 | after a lift somebody is under a kind exactly by a row that is not the one lifted |
| ModerationCalls.LogAfter | coordinator/internal/moderation/roles.go:296-320 | the log after any call: who signed it, what it was, whom it was about and when |
| ModerationCalls.RefusalsAreTrue | coordinator/internal/moderation/roles.go:69-195 | whatever is refused, the reason given holds, and nothing has changed unless the log line was lost |
| ModerationRuns.StaffNotTurnedOnEachOther | coordinator/internal/moderation/sanctions.go:97-102 | every sanction row of every run was the head admin's, against oneself, or against somebody not on the staff at the time |
| ModerationRuns.RunKeeps | coordinator/internal/moderation/roles.go:160-163 | rows and log lines are never taken out, and a stamp stays as it was made |
| ModerationRuns.OneLineEach | coordinator/internal/moderation/roles.go:293-309 | a call that succeeds adds exactly one log line, but for asking again for the head admin there is; one that is refused or fails adds none |
| ModerationRuns.OnRecordExactly | coordinator/internal/moderation/roles.go:293-309 | in every run there are as many log lines of each kind as grants, withdrawals, sanctions and lifts, if and only if no call wrote its row and failed to write its line; there are never more |
| ModerationRuns.LiftedExactly | coordinator/internal/moderation/sanctions.go:136-155 | a lift is accepted exactly for staff and a row that is not lifted |
| ModerationRuns.LiftsBeyondReachExactly | coordinator/internal/moderation/sanctions.go:136-155 | an accepted lift undoes what the lifter could not have imposed exactly when the row is another's and against the head admin, or against an admin and the lifter is not the head admin |
| ModerationRuns.AdminLiftsTheirOwn | coordinator/internal/moderation/sanctions.go:136-155 | lifting asks only whether the caller is staff: an admin can lift what the head admin imposed on them |

## Left out

- Concurrency: each handler and each timer turn is one atomic step. In the source a handler locks the room table and the ticket table separately, so two requests may interleave between the two.
- The clock is read once in a handler; the source reads it at each call.
- The source's fixed-size seat arrays are parts of the room's record and copied with it, so they are fields of type `seq` that the methods reassign.
- A room that never recorded a closing time has `None` where the source has the zero time, which is long past its linger.
- Passwords: the stored hash is compared as the password itself, so two passwords with one hash are not modelled.
- Player ids are taken to be non-empty wherever the source checks that; room ids and tokens are drawn afresh and never repeat.
- Coordinators.Coordinator.ModerateRoom: no handler of the source gives moderators a seat; the step is the store's operation followed by the ticket its membership is for.
- Coordinators.Coordinator.CreateRoom: the room's name, description and game mode, and the lines said in the chats, are left out; the restriction in force on the caller is a parameter.
- Coordinators.Coordinator.JoinRoom: the line said in the chat is left out; what the door knows of the applicant and the restriction in force on them are parameters.
- Coordinators.Coordinator.SpectateRoom: left out as for JoinRoom.
- Coordinators.Coordinator.RunTimers: dropping the chat of the rooms a turn ended and sweeping the presence registry are left out, as are the chat drops of a closed room in the other handlers.
- Names, descriptions, game modes, latency, chat lines written by the handlers, and the presence registry.
- Replay.Session.Open: the cipher is abstract. A packet carries what its sealed part opens to, if it opens; sending and nonces are not modelled.
- Migrate.Database.Migrate: SQL statements are opaque text appended to what was run, a failed or uncommitted transaction leaves nothing, and creating the version table changes no row.
- RateLimiter.Limiter.Allow: tokens and seconds are exact numbers, where the source has floating point; rounding is not modelled. The server itself never calls Purge on its limiters.
- Chat.Board.Append: message ids are unbounded, where the source counts in 64 bits; trimming and length limits of a line are left out.
- LobbySync.App.Pull: anonymous browsing, the tunnel's state and the screen's other fields are left out; the refresh is the membership it depends on, without the ticket it mints.
- Social.Store.Request: each call is one transaction that does not fail; private messages and room invitations are left out.
- SelfUpdate.Updater.Download: waiting between attempts and the manifest's own download are left out; the hash is a function given to the method.
- Moderation.Store.Restrictions: the reason shown with a restriction depends on the order of rows and is left out.
- Moderation.Store.Punish: reads do not fail; the log line's free text is left out.
- Accounts, sessions, terms, banners, labels, diagnostics, the load generator's traffic, the Windows client, the installer and both user interfaces.
