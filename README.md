# Roommate changes on the FreeSO city server

This project models `ChangeRoommateHandler.Handle`, the city-server handler for a `ChangeRoommateRequest` from a client. A signed-in avatar sends one of five requests:

- **POLL** re-sends its pending roommate invitations.
- **ACCEPT** accepts the invitation of the lot at a location.
- **DECLINE** declines that invitation.
- **INVITE** invites another avatar into the requester's lot.
- **KICK** removes a roommate from a lot; an avatar can also remove itself.

The handler reads and writes the following:

- the roommate table of the store, whose rows are *(avatar, lot, pending)* in creation order;
- the lot table, with each lot's owner and location;
- the cached `Lot` and `Avatar` objects that clients see;
- the lot servers that hold a lot's claim;
- the sessions of online avatars.

The replies are `ChangeRoommateResponse` statuses. Any exception from a collaborator is caught and answered with `UNKNOWN`.

The model is in two layers:

- **Pure specification.** `Semantics.Step` is a function from the state before a request to the state after it. It follows the handler statement by statement, with one branch function per request kind. Every collaborator call that can throw has its own `Site`, and the set `faulty` says which sites throw. The `Lots.Get` inside the POLL loop has one site per pass of the loop (`PollLot(i)` for the avatar's `i`-th row), so the loop can throw on any pass. A branch that throws ends as `Thrown`, keeping whatever it had changed already. `Step` then appends `UNKNOWN`, as the catch-all does.
- **Imperative version.** `Handler.RoommateService` holds the same state in fields. Its methods perform the same statements by assignment and loops. Each method is proved equal to its specification function: `Handle` ensures `Snap() == Semantics.Step(old(Snap()), session, req)`.

The properties of the handler are then proved about `Step`:

- `PollFacts`, `AcceptFacts`, `DeclineFacts`, `InviteFacts` and `KickFacts` hold one module of properties per branch.
- `Invariants` holds the table rules that every request preserves.
- `TableFacts` holds facts about the table updates themselves.

Some behaviour of the handler looks odd, but the model keeps it exactly:

- An INVITE whose target does not exist is answered `UNKNOWN` and then goes on; there is no `return`.
- INVITE checks the target's rows before it looks at the requester's lot.
- INVITE uses the requester's first row of any kind (`FirstOrDefault`), confirmed or pending.
- POLL stops at the first pending row whose lot is missing. A throw on a later pass keeps the echoes already written, and `UNKNOWN` follows them.
- A KICK on a lot with at most one confirmed roommate is answered `UNKNOWN` whoever asks. The inner owner check leads to the same answer.
- The KICK broadcast goes over the list of rows read *before* the removal.

## Model

| member | source | states |
|---|---|---|
| Queries.RecordsOf | TSOClient/FSO.Server/Servers/City/Handlers/ChangeRoommateHandler.cs:54 | the rows of one avatar: exactly the rows of the table with that avatar, no more of them than the table has |
| Queries.LotRecords | TSOClient/FSO.Server/Servers/City/Handlers/ChangeRoommateHandler.cs:202 | the rows of one lot: exactly the rows of the table with that lot id |
| Queries.PendingOf | TSOClient/FSO.Server/Servers/City/Handlers/ChangeRoommateHandler.cs:55-57 | the rows the POLL loop acts on: exactly the pending rows of the list |
| Queries.ConfirmedCount | TSOClient/FSO.Server/Servers/City/Handlers/ChangeRoommateHandler.cs:203 | the number of confirmed rows: at most the list's length, and zero exactly when every row is pending |
| Queries.HasConfirmed | TSOClient/FSO.Server/Servers/City/Handlers/ChangeRoommateHandler.cs:215 | the target is a confirmed roommate iff one of its own rows is confirmed; then the confirmed count is at least one |
| Queries.First | TSOClient/FSO.Server/Servers/City/Handlers/ChangeRoommateHandler.cs:156 | `FirstOrDefault` on the pending flag: None iff no row has the flag; otherwise a row with the flag that sits at an index with no earlier row having the flag |
| Queries.CountMatching | TSOClient/FSO.Server/Servers/City/Handlers/ChangeRoommateHandler.cs:230 | the count RemoveRoommate returns: zero exactly when no row has that avatar and lot |
| Queries.AcceptPending | TSOClient/FSO.Server/Servers/City/Handlers/ChangeRoommateHandler.cs:74 | AcceptRoommateRequest: same length and order; exactly the pending rows of (avatar, lot) become confirmed |
| Queries.DeclinePending | TSOClient/FSO.Server/Servers/City/Handlers/ChangeRoommateHandler.cs:108 | DeclineRoommateRequest: exactly the pending row of (avatar, lot) disappears; the table gets shorter iff that row was there and is unchanged otherwise |
| Queries.RemoveMember | TSOClient/FSO.Server/Servers/City/Handlers/ChangeRoommateHandler.cs:230 | RemoveRoommate: exactly the rows of (avatar, lot) disappear, and the length drops by the count of such rows |
| Queries.RemoveFirst | TSOClient/FSO.Server/Servers/City/Handlers/ChangeRoommateHandler.cs:244 | `ImmutableList.Remove`: a list without the value is returned unchanged; otherwise it is one shorter |
| Queries.RemoveFirstCuts | TSOClient/FSO.Server/Servers/City/Handlers/ChangeRoommateHandler.cs:244 | `Remove` cuts out precisely the first occurrence of the value |
| Queries.RecordsOfAppend | TSOClient/FSO.Server/Servers/City/Handlers/ChangeRoommateHandler.cs:169-175 | after a row is appended, an avatar's rows are its old rows followed by the appended ones |
| Queries.LotRecordsAppend | TSOClient/FSO.Server/Servers/City/Handlers/ChangeRoommateHandler.cs:169-175 | after a row is appended, a lot's rows are its old rows followed by the appended ones |
| TableFacts.DeclineDeletesOne | TSOClient/FSO.Server/Servers/City/Handlers/ChangeRoommateHandler.cs:108 | for an avatar with one row, the decline deletes precisely the index holding its pending row |
| TableFacts.AcceptPendingCounts | TSOClient/FSO.Server/Servers/City/Handlers/ChangeRoommateHandler.cs:74 | accepting changes no avatar's number of rows and no lot's number of rows |
| TableFacts.DeclinePendingCounts | TSOClient/FSO.Server/Servers/City/Handlers/ChangeRoommateHandler.cs:164 | declining never adds a row to an avatar or a lot, and strictly shrinks that avatar and that lot when the row was there |
| TableFacts.RemoveMemberCounts | TSOClient/FSO.Server/Servers/City/Handlers/ChangeRoommateHandler.cs:230 | removing never adds a row to any avatar or lot |
| TableFacts.AcceptConfirms | TSOClient/FSO.Server/Servers/City/Handlers/ChangeRoommateHandler.cs:74 | after accepting, the confirmed row is in the table and the pending row is not |
| TableFacts.OldestPendingCut | TSOClient/FSO.Server/Servers/City/Handlers/ChangeRoommateHandler.cs:155-164 | under one row per avatar, declining the lot's first pending row deletes precisely that row, at an index of the table |
| TableFacts.ConfirmedOther | TSOClient/FSO.Server/Servers/City/Handlers/ChangeRoommateHandler.cs:203-215 | more confirmed rows than one avatar's rows means a confirmed row of some other avatar |
| TableFacts.LotRecordsOfAvatar | TSOClient/FSO.Server/Servers/City/Handlers/ChangeRoommateHandler.cs:202 | an avatar has no more rows in one lot than in the table |
| Semantics.Send | TSOClient/FSO.Server/Servers/City/Handlers/ChangeRoommateHandler.cs:61-65 | a write to a session or a lot server appends exactly that message to the outbox and changes nothing else |
| Semantics.Reply | TSOClient/FSO.Server/Servers/City/Handlers/ChangeRoommateHandler.cs:40-43 | the Status helper: exactly one message is appended, a response with that status and extra 0 to the requester's session, and nothing else changes |
| Semantics.LotByLocation | TSOClient/FSO.Server/Servers/City/Handlers/ChangeRoommateHandler.cs:72 | `Lots.GetByLocation`: a lot iff one is at that location, and then the lot at that location with its own id, owner and location |
| Semantics.LotById | TSOClient/FSO.Server/Servers/City/Handlers/ChangeRoommateHandler.cs:140 | `Lots.Get`: a lot exactly when the id exists, with its own owner and location |
| Semantics.CanCreate | TSOClient/FSO.Server/Servers/City/Handlers/ChangeRoommateHandler.cs:169-179 | `Roommates.Create` succeeds iff the avatar exists, `Lots.Get` finds the lot and the avatar has no row in the table |
| Semantics.ReassignedOwner | TSOClient/FSO.Server/Servers/City/Handlers/ChangeRoommateHandler.cs:238 | `Lots.ReassignOwner`: the oldest confirmed roommate left becomes the owner, and a lot with none keeps its row; other lots and every other part of the state stay |
| Semantics.CacheAddRoommate | TSOClient/FSO.Server/Servers/City/Handlers/ChangeRoommateHandler.cs:76-77 | the cached lot update changes nothing but the lot cache |
| Semantics.CacheSetLotGrid | TSOClient/FSO.Server/Servers/City/Handlers/ChangeRoommateHandler.cs:95-96 | the cached avatar update changes nothing but the avatar cache |
| Semantics.NotifyLotServer | TSOClient/FSO.Server/Servers/City/Handlers/ChangeRoommateHandler.cs:79-93 | the lot-server notice changes nothing but the outbox, which only grows |
| Semantics.PollEchoes | TSOClient/FSO.Server/Servers/City/Handlers/ChangeRoommateHandler.cs:55-68 | the POLL loop echoes at most one invitation per row |
| Semantics.PollEchoesStopped | TSOClient/FSO.Server/Servers/City/Handlers/ChangeRoommateHandler.cs:60 | once the loop has returned, later rows change nothing |
| Semantics.PollStep | TSOClient/FSO.Server/Servers/City/Handlers/ChangeRoommateHandler.cs:52-69 | POLL changes nothing but the outbox |
| Semantics.AcceptStep | TSOClient/FSO.Server/Servers/City/Handlers/ChangeRoommateHandler.cs:70-103 | ACCEPT keeps the read-only parts and, when it completes, ends with a status to the requester |
| Semantics.AcceptJoin | TSOClient/FSO.Server/Servers/City/Handlers/ChangeRoommateHandler.cs:76-97 | after a successful accept, the caches, notice and reply leave the table and the lots alone |
| Semantics.DeclineStep | TSOClient/FSO.Server/Servers/City/Handlers/ChangeRoommateHandler.cs:104-116 | DECLINE keeps the read-only parts and, when it completes, ends with a status to the requester |
| Semantics.InviteStep | TSOClient/FSO.Server/Servers/City/Handlers/ChangeRoommateHandler.cs:124-150 | INVITE keeps the read-only parts and, when it completes, ends with a status to the requester |
| Semantics.InviteAdmit | TSOClient/FSO.Server/Servers/City/Handlers/ChangeRoommateHandler.cs:151-166 | the capacity rule keeps the read-only parts and, when it completes, ends with a status |
| Semantics.InviteRecord | TSOClient/FSO.Server/Servers/City/Handlers/ChangeRoommateHandler.cs:167-194 | the creation keeps the read-only parts and, when it completes, ends with a status |
| Semantics.KickNotice | TSOClient/FSO.Server/Servers/City/Handlers/ChangeRoommateHandler.cs:278-290 | one row of the broadcast: at most one notice; none iff the row is pending, is a self-deleting target, is the requester or is offline; a notice goes to that row's own session with the target as extra, GOT_KICKED iff the row is the target, ROOMMATE_LEFT otherwise |
| Semantics.KickNotices | TSOClient/FSO.Server/Servers/City/Handlers/ChangeRoommateHandler.cs:276-291 | at most one notice per row of the list |
| Semantics.KickStep | TSOClient/FSO.Server/Servers/City/Handlers/ChangeRoommateHandler.cs:197-229 | KICK keeps the read-only parts and, when it completes, ends with a status to the requester |
| Semantics.KickRemoval | TSOClient/FSO.Server/Servers/City/Handlers/ChangeRoommateHandler.cs:230-235 | the removal keeps the read-only parts and, when it completes, ends with a status |
| Semantics.KickHandOver | TSOClient/FSO.Server/Servers/City/Handlers/ChangeRoommateHandler.cs:236-239 | the owner hand-over leaves the table alone and, when it completes, ends with a status |
| Semantics.KickFinish | TSOClient/FSO.Server/Servers/City/Handlers/ChangeRoommateHandler.cs:241-294 | the steps after the removal leave the table and the lots alone |
| Semantics.KickLotEntry | TSOClient/FSO.Server/Servers/City/Handlers/ChangeRoommateHandler.cs:241-247 | the cached lot update sends nothing and touches nothing but the lot cache |
| Semantics.KickNotify | TSOClient/FSO.Server/Servers/City/Handlers/ChangeRoommateHandler.cs:249-268 | the lot-server notice or forced open leaves the table, lots and lot cache alone |
| Semantics.KickBroadcast | TSOClient/FSO.Server/Servers/City/Handlers/ChangeRoommateHandler.cs:272-294 | the avatar cache, broadcast and reply leave the table, lots and lot cache alone |
| Semantics.Dispatch | TSOClient/FSO.Server/Servers/City/Handlers/ChangeRoommateHandler.cs:50-123 | every branch keeps the read-only parts; every branch but POLL that completes ends with a status |
| Semantics.Step | TSOClient/FSO.Server/Servers/City/Handlers/ChangeRoommateHandler.cs:45-321 | an anonymous session changes nothing; a signed-in non-POLL request always ends with a status to the requester, even after an exception |
| Steps.StepConcludes | TSOClient/FSO.Server/Servers/City/Handlers/ChangeRoommateHandler.cs:318-320 | the catch-all: a branch that threw is answered UNKNOWN on top of what it had done |
| Steps.LotServerNote | TSOClient/FSO.Server/Servers/City/Handlers/ChangeRoommateHandler.cs:79-93 | the lot-server notice: at most one message, present iff the lot is claimed by a live lot server, sent to that server as a RoommateChange of that avatar, lot and change; NotifyLotServer appends exactly it |
| Steps.Routes | TSOClient/FSO.Server/Servers/City/Handlers/ChangeRoommateHandler.cs:52-124 | once the store is open (and for INVITE and KICK the two common queries have run), each request kind runs its own branch |
| PollFacts.PollEchoesInOrder | TSOClient/FSO.Server/Servers/City/Handlers/ChangeRoommateHandler.cs:55-68 | whatever throws, the k-th echo is the invitation of the k-th pending row, from its lot's owner at its location; all pending rows are echoed iff the loop finished; a stop at a missing lot means the next pending row's lot is missing |
| PollFacts.PollStopsAt | TSOClient/FSO.Server/Servers/City/Handlers/ChangeRoommateHandler.cs:55-68 | the loop finishes iff every pending row has its lot and `Lots.Get` does not throw on its pass; otherwise it stops at the first pending row that fails, having written exactly the echoes of the rows before it, and it throws iff `Lots.Get` threw on that pass |
| PollFacts.PollOnlyWrites | TSOClient/FSO.Server/Servers/City/Handlers/ChangeRoommateHandler.cs:52-69 | whatever throws, POLL never modifies the store or the caches, only the outbox |
| PollFacts.PollWrites | TSOClient/FSO.Server/Servers/City/Handlers/ChangeRoommateHandler.cs:52-69 | POLL sends exactly the echoes written before the loop stopped, followed by UNKNOWN only if `Lots.Get` threw on the pass where it stopped |
| AcceptFacts.AcceptUnknownLot | TSOClient/FSO.Server/Servers/City/Handlers/ChangeRoommateHandler.cs:72-73 | an ACCEPT at a location without a lot answers LOT_DOESNT_EXIST and changes nothing else |
| AcceptFacts.AcceptWithoutInvite | TSOClient/FSO.Server/Servers/City/Handlers/ChangeRoommateHandler.cs:99-102 | without a pending invitation the answer is NO_INVITE_PENDING, with no cache or lot-server change |
| AcceptFacts.AcceptJoinsLot | TSOClient/FSO.Server/Servers/City/Handlers/ChangeRoommateHandler.cs:74-97 | a successful ACCEPT confirms the row (confirmed row in, pending row out), keeps the lots, sends the ADD_ROOMMATE notice to a live lot server, and answers ACCEPT_SUCCESS |
| AcceptFacts.AcceptUpdatesCache | TSOClient/FSO.Server/Servers/City/Handlers/ChangeRoommateHandler.cs:76-96 | the cached lot gets the requester appended to its roommate vector and the cached avatar gets the location as LotGridXY; nothing else in the caches changes |
| AcceptFacts.AcceptKeptOnFault | TSOClient/FSO.Server/Servers/City/Handlers/ChangeRoommateHandler.cs:74-76 | if the cache read throws after the accept, the row stays confirmed and the answer is UNKNOWN |
| DeclineFacts.DeclineOutcome | TSOClient/FSO.Server/Servers/City/Handlers/ChangeRoommateHandler.cs:104-116 | LOT_DOESNT_EXIST without a lot; otherwise the pending row is deleted, and the answer is DECLINE_SUCCESS iff it was there |
| DeclineFacts.DeclineTouchesOnlyTable | TSOClient/FSO.Server/Servers/City/Handlers/ChangeRoommateHandler.cs:104-116 | whatever throws, DECLINE changes only the table and sends exactly one message: no cache, no lot server |
| InviteFacts.MissingTarget | TSOClient/FSO.Server/Servers/City/Handlers/ChangeRoommateHandler.cs:127-131 | the UNKNOWN for a missing target: nothing iff the target exists, otherwise only UNKNOWN statuses to the requester, at most one; the state INVITE goes on from is the old one with exactly these appended |
| InviteFacts.InviteTargetElsewhere | TSOClient/FSO.Server/Servers/City/Handlers/ChangeRoommateHandler.cs:127-137 | a target with any row gets ROOMIE_ELSEWHERE, after the UNKNOWN for a missing target, and no row is created |
| InviteFacts.InviteWithoutLot | TSOClient/FSO.Server/Servers/City/Handlers/ChangeRoommateHandler.cs:138-145 | a requester without a row, or whose first row's lot is gone, gets LOT_DOESNT_EXIST and no row is created |
| InviteFacts.InviteStepWithoutLot | TSOClient/FSO.Server/Servers/City/Handlers/ChangeRoommateHandler.cs:138-145 | the INVITE branch alone, for a requester whose rows name no lot: it completes with the missing-target UNKNOWN, if any, then LOT_DOESNT_EXIST |
| InviteFacts.InviteNotOwner | TSOClient/FSO.Server/Servers/City/Handlers/ChangeRoommateHandler.cs:146-150 | a requester who does not own the lot of its first row gets YOU_ARE_NOT_OWNER and no row is created |
| InviteFacts.InviteLotFull | TSOClient/FSO.Server/Servers/City/Handlers/ChangeRoommateHandler.cs:152-161 | a lot with at least 8 rows, none pending, gets TOO_MANY_ROOMMATES and no row is created |
| InviteFacts.InviteCreatesRow | TSOClient/FSO.Server/Servers/City/Handlers/ChangeRoommateHandler.cs:167-194 | below capacity, the pending row of the target is appended, an online target is sent the invitation, and the answer is INVITE_SUCCESS |
| InviteFacts.InviteEvictsOldestPending | TSOClient/FSO.Server/Servers/City/Handlers/ChangeRoommateHandler.cs:152-194 | at capacity, exactly the lot's first pending row is deleted, then the target's row is appended if the target exists; the answer is INVITE_SUCCESS, or UNKNOWN when the store refuses the row |
| KickFacts.KickNoticesSound | TSOClient/FSO.Server/Servers/City/Handlers/ChangeRoommateHandler.cs:276-291 | every broadcast notice goes to an online confirmed member of the pre-removal list, never to the requester nor to a self-deleting target: GOT_KICKED to the target, ROOMMATE_LEFT to others, extra = target |
| KickFacts.KickNoticesComplete | TSOClient/FSO.Server/Servers/City/Handlers/ChangeRoommateHandler.cs:276-291 | every such member is notified |
| KickFacts.KickUnknownLot | TSOClient/FSO.Server/Servers/City/Handlers/ChangeRoommateHandler.cs:199-200 | a KICK at a location without a lot answers UNKNOWN and changes nothing else |
| KickFacts.KickLastRoommate | TSOClient/FSO.Server/Servers/City/Handlers/ChangeRoommateHandler.cs:203-214 | with at most one confirmed roommate the answer is UNKNOWN, owner or not, and nothing else changes |
| KickFacts.KickNotRoommate | TSOClient/FSO.Server/Servers/City/Handlers/ChangeRoommateHandler.cs:296-300 | a target that is not a confirmed roommate gets YOU_ARE_NOT_ROOMMATE and nothing else changes |
| KickFacts.KickNotOwner | TSOClient/FSO.Server/Servers/City/Handlers/ChangeRoommateHandler.cs:224-228 | a non-owner removing someone else gets YOU_ARE_NOT_OWNER and nothing else changes |
| KickFacts.KickRemovesMember | TSOClient/FSO.Server/Servers/City/Handlers/ChangeRoommateHandler.cs:230-294 | an allowed KICK removes exactly the target's rows in the lot; the lots change only when the owner leaves; an unclaimed lot is forced open; it sends the REMOVE_ROOMMATE notice, the broadcast and SELFKICK_SUCCESS iff requester == target, else KICK_SUCCESS |
| KickFacts.KickUpdatesCache | TSOClient/FSO.Server/Servers/City/Handlers/ChangeRoommateHandler.cs:241-273 | the cached lot loses the target and shows the owner after the KICK; the cached avatar's LotGridXY becomes 0 |
| KickFacts.KickOwnerLeaves | TSOClient/FSO.Server/Servers/City/Handlers/ChangeRoommateHandler.cs:236-239 | when the owner leaves, the new owner is another confirmed roommate still in the lot, and its row is the oldest confirmed row left in it |
| Invariants.AcceptShrinks | TSOClient/FSO.Server/Servers/City/Handlers/ChangeRoommateHandler.cs:74 | accepting never adds a row to an avatar or a lot |
| Invariants.DeclineShrinks | TSOClient/FSO.Server/Servers/City/Handlers/ChangeRoommateHandler.cs:108 | declining never adds a row to an avatar or a lot |
| Invariants.RemoveShrinks | TSOClient/FSO.Server/Servers/City/Handlers/ChangeRoommateHandler.cs:230 | removing never adds a row to an avatar or a lot |
| Invariants.AcceptKeeps | TSOClient/FSO.Server/Servers/City/Handlers/ChangeRoommateHandler.cs:70-103 | ACCEPT, whatever throws, keeps the table bounded and the lots as they were |
| Invariants.DeclineKeeps | TSOClient/FSO.Server/Servers/City/Handlers/ChangeRoommateHandler.cs:104-116 | DECLINE, whatever throws, keeps the table bounded and the lots as they were |
| Invariants.InviteRecordRows | TSOClient/FSO.Server/Servers/City/Handlers/ChangeRoommateHandler.cs:169-179 | Create adds one row, for an avatar with no row, or nothing |
| Invariants.InviteAdmitKeeps | TSOClient/FSO.Server/Servers/City/Handlers/ChangeRoommateHandler.cs:151-194 | the capacity rule keeps a lot at or below max(8, its count before) |
| Invariants.InviteKeeps | TSOClient/FSO.Server/Servers/City/Handlers/ChangeRoommateHandler.cs:124-194 | INVITE, whatever throws, keeps the table bounded and the lots as they were |
| Invariants.KickRemovalKeeps | TSOClient/FSO.Server/Servers/City/Handlers/ChangeRoommateHandler.cs:230-239 | the removal keeps the table bounded, and the lots change only for an owner's self-delete |
| Invariants.KickKeeps | TSOClient/FSO.Server/Servers/City/Handlers/ChangeRoommateHandler.cs:197-300 | KICK, whatever throws, keeps the table bounded, and the lots change only when the owner removes themself |
| Invariants.DispatchKeeps | TSOClient/FSO.Server/Servers/City/Handlers/ChangeRoommateHandler.cs:50-123 | every branch keeps the table bounded and the lots, except an owner's self-KICK |
| Invariants.StepBounded | TSOClient/FSO.Server/Servers/City/Handlers/ChangeRoommateHandler.cs:45-321 | after any request no avatar has more than max(1, before) rows and no lot more than max(8, before) |
| Invariants.StepKeepsTableRules | TSOClient/FSO.Server/Servers/City/Handlers/ChangeRoommateHandler.cs:132-152 | one row per avatar and at most 8 rows per lot survive every request |
| Invariants.StepLotsChange | TSOClient/FSO.Server/Servers/City/Handlers/ChangeRoommateHandler.cs:236-239 | the lot table changes only by a KICK in which the owner of the lot removes themself |
| Handler.RoommateService.Write | TSOClient/FSO.Server/Servers/City/Handlers/ChangeRoommateHandler.cs:86-91 | `session.Write` and `lotServer.Write`: the outbox gets exactly that message appended, and no other field changes |
| Handler.RoommateService.SendStatus | TSOClient/FSO.Server/Servers/City/Handlers/ChangeRoommateHandler.cs:40-43 | appends the status response to the outbox |
| Handler.RoommateService.AcceptRoommateRequest | TSOClient/FSO.Server/Servers/City/Handlers/ChangeRoommateHandler.cs:74 | true iff a pending row existed; the table becomes AcceptPending of the old one; throws at its site |
| Handler.RoommateService.DeclineRoommateRequest | TSOClient/FSO.Server/Servers/City/Handlers/ChangeRoommateHandler.cs:108 | true iff a pending row existed; the table becomes DeclinePending of the old one; throws at its site |
| Handler.RoommateService.CreateRoommate | TSOClient/FSO.Server/Servers/City/Handlers/ChangeRoommateHandler.cs:169-179 | appends the pending row iff the store accepts it; throws at its site |
| Handler.RoommateService.RemoveRoommate | TSOClient/FSO.Server/Servers/City/Handlers/ChangeRoommateHandler.cs:230 | returns the count of matching rows, and the table becomes RemoveMember of the old one |
| Handler.RoommateService.ReassignOwner | TSOClient/FSO.Server/Servers/City/Handlers/ChangeRoommateHandler.cs:238 | the lots become those of ReassignedOwner |
| Handler.RoommateService.TryFindOrOpen | TSOClient/FSO.Server/Servers/City/Handlers/ChangeRoommateHandler.cs:267 | records the location as asked to open |
| Handler.RoommateService.HandlePoll | TSOClient/FSO.Server/Servers/City/Handlers/ChangeRoommateHandler.cs:52-69 | ends as Semantics.PollStep of the old state |
| Handler.RoommateService.EchoPendingInvites | TSOClient/FSO.Server/Servers/City/Handlers/ChangeRoommateHandler.cs:55-68 | the loop writes exactly the echoes of PollEchoes, including a throw of `Lots.Get` on any pass, and ends as it says |
| Handler.RoommateService.HandleAccept | TSOClient/FSO.Server/Servers/City/Handlers/ChangeRoommateHandler.cs:70-103 | ends as Semantics.AcceptStep of the old state |
| Handler.RoommateService.JoinLot | TSOClient/FSO.Server/Servers/City/Handlers/ChangeRoommateHandler.cs:76-97 | ends as Semantics.AcceptJoin of the old state |
| Handler.RoommateService.HandleDecline | TSOClient/FSO.Server/Servers/City/Handlers/ChangeRoommateHandler.cs:104-116 | ends as Semantics.DeclineStep of the old state |
| Handler.RoommateService.HandleInvite | TSOClient/FSO.Server/Servers/City/Handlers/ChangeRoommateHandler.cs:124-151 | ends as Semantics.InviteStep of the old state |
| Handler.RoommateService.AdmitInvite | TSOClient/FSO.Server/Servers/City/Handlers/ChangeRoommateHandler.cs:151-166 | ends as Semantics.InviteAdmit of the old state |
| Handler.RoommateService.RecordInvite | TSOClient/FSO.Server/Servers/City/Handlers/ChangeRoommateHandler.cs:167-194 | ends as Semantics.InviteRecord of the old state |
| Handler.RoommateService.HandleKick | TSOClient/FSO.Server/Servers/City/Handlers/ChangeRoommateHandler.cs:197-300 | ends as Semantics.KickStep of the old state |
| Handler.RoommateService.RemoveFromLot | TSOClient/FSO.Server/Servers/City/Handlers/ChangeRoommateHandler.cs:230-235 | ends as Semantics.KickRemoval of the old state |
| Handler.RoommateService.HandOver | TSOClient/FSO.Server/Servers/City/Handlers/ChangeRoommateHandler.cs:236-239 | ends as Semantics.KickHandOver of the old state |
| Handler.RoommateService.FinishKick | TSOClient/FSO.Server/Servers/City/Handlers/ChangeRoommateHandler.cs:241-294 | ends as Semantics.KickFinish of the old state |
| Handler.RoommateService.UpdateLotEntry | TSOClient/FSO.Server/Servers/City/Handlers/ChangeRoommateHandler.cs:241-247 | ends as Semantics.KickLotEntry of the old state |
| Handler.RoommateService.NotifyKick | TSOClient/FSO.Server/Servers/City/Handlers/ChangeRoommateHandler.cs:249-294 | ends as Semantics.KickNotify of the old state |
| Handler.RoommateService.BroadcastKick | TSOClient/FSO.Server/Servers/City/Handlers/ChangeRoommateHandler.cs:272-294 | ends as Semantics.KickBroadcast of the old state |
| Handler.RoommateService.NotifyRoommates | TSOClient/FSO.Server/Servers/City/Handlers/ChangeRoommateHandler.cs:276-291 | the loop writes exactly KickNotices of the pre-removal list |
| Handler.RoommateService.Dispatch | TSOClient/FSO.Server/Servers/City/Handlers/ChangeRoommateHandler.cs:50-123 | ends as Semantics.Dispatch of the old state |
| Handler.RoommateService.Handle | TSOClient/FSO.Server/Servers/City/Handlers/ChangeRoommateHandler.cs:45-321 | the new state is Semantics.Step of the old state |

## Left out

- The store (`IDAFactory`) is a table of rows plus a lot table; its SQL is not part of this model. Three of its behaviours are assumptions here:
  - `Roommates.Create` refuses a row exactly when the avatar or the lot is unknown or the avatar already holds a row (`Semantics.CanCreate`).
  - `Lots.ReassignOwner` picks the oldest confirmed row left in the lot, and keeps the owner when there is none.
  - `AcceptRoommateRequest` and `DeclineRoommateRequest` return true iff a pending row of that avatar and lot existed.
- Which calls throw is an input (`faulty`), not something the model derives. The lookups that return null instead of throwing (`Sessions.GetByAvatarId`, `GetLotServerSession`, `DataService.Get` on a missing key) are modelled as map and set membership.
- `session.Write` and `lotServer.Write` are appends to one outbox. The transport, serialisation and delivery are not modelled.
- `async`/`await` and concurrency are not modelled: each request runs to completion alone, and nothing interleaves with another request or with the cache's own writers.
- `Lots.TryFindOrOpen` is only recorded as a request to open the location. Its result is never used by the handler; how a lot server opens the lot is not part of this model.
- The unused result of `Lots.GetByOwner` is not modelled; only its chance to throw is.
- `permissions_level` of the created row is always 0 and is not modelled.
- `is_pending` is a byte in the store, tested `== 1` and `== 0`. The model makes it a `bool`, so a stored value other than 0 or 1 cannot be expressed. The handler only ever writes 1, when it creates a row.
- The `Lot` and `Avatar` data-service objects are reduced to the fields the handler writes: `Lot_RoommateVec`, `Lot_OwnerVec` and `Avatar_LotGridXY`.
- Request types other than the five named ones are not modelled. The handler does nothing with them beyond the two common queries.
- `TSOClient/tso.world/World2D.cs` is rendering code and is not part of this model.
- Semantics.AcceptStep, DeclineStep, InviteStep, KickStep and the other branch functions: their own `ensures` state only the frame (read-only parts kept, the outbox only grows, a final status). What each branch does is stated by the lemmas in the per-branch modules.
- Semantics.KickNotices: its own `ensures` is only a length bound. Who is notified is stated by KickFacts.KickNoticesSound and KickFacts.KickNoticesComplete.
