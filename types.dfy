/**
 * The entities the roommate handler of the city server reads and writes:
 * the membership table of the store, the lot table, the client-visible
 * cache entries, the messages it sends, and the request it receives.
 */
module Types {

  type AvatarId = nat
  type LotId = nat
  type Location = nat
  type ServerId = nat

  datatype Option<T> = None | Some(value: T)

  /** What a collaborator call yields: a value, or an exception. */
  datatype Result<T> = Ok(value: T) | Fail

  /** A row of the roommate table; the table keeps rows in creation order. */
  datatype Roommate = Roommate(avatar: AvatarId, lot: LotId, pending: bool)

  /** A row of the lot table, without its key. */
  datatype LotRow = LotRow(owner: AvatarId, location: Location)

  /** A lot as the store hands it out: key and row together. */
  datatype DbLot = DbLot(id: LotId, owner: AvatarId, location: Location)

  /** The status a ChangeRoommateResponse carries. */
  datatype Status =
    | AcceptSuccess
    | DeclineSuccess
    | InviteSuccess
    | KickSuccess
    | SelfkickSuccess
    | LotDoesntExist
    | NoInvitePending
    | YouAreNotOwner
    | YouAreNotRoommate
    | RoomieElsewhere
    | TooManyRoommates
    | GotKicked
    | RoommateLeft
    | Unknown

  /** The change a lot server is told about. */
  datatype ChangeType = RoommateAdded | RoommateRemoved

  datatype Msg =
    /** ChangeRoommateResponse; `extra` is 0 unless the status names an avatar. */
    | Response(status: Status, extra: AvatarId)
    /** ChangeRoommateRequest of type INVITE, echoed to an invitee. */
    | InviteEcho(avatar: AvatarId, location: Location)
    /** NotifyLotRoommateChange, sent to the lot server that hosts the lot. */
    | RoommateChange(avatar: AvatarId, lot: LotId, change: ChangeType)

  datatype Recipient = ToSession(avatar: AvatarId) | ToLotServer(server: ServerId)

  datatype Envelope = Envelope(to: Recipient, msg: Msg)

  /** The request kinds, one variant each, with the fields each one reads. */
  datatype Request =
    | Poll
    | Accept(location: Location)
    | Decline(location: Location)
    | Invite(target: AvatarId)
    | Kick(target: AvatarId, location: Location)

  datatype Session = Session(avatar: AvatarId, anonymous: bool)

  /** The cached Lot object a client sees: Lot_RoommateVec and Lot_OwnerVec. */
  datatype LotEntry = LotEntry(roommateVec: seq<AvatarId>, ownerVec: seq<AvatarId>)

  /**
   * Every collaborator call of the handler that can throw, one per call site
   * of ChangeRoommateHandler.cs (line numbers in the comments).
   */
  datatype Site =
    | OpenStore          // DAFactory.Get, 50
    | PollRecords        // Roommates.GetAvatarsLots, 54
    | PollLot(iteration: nat)  // Lots.Get, 59, on the given pass of the loop over the avatar's rows
    | AcceptLookup       // Lots.GetByLocation, 72
    | AcceptUpdate       // Roommates.AcceptRoommateRequest, 74
    | AcceptLotCache     // DataService.Get<Lot>, 76
    | AcceptClaim        // LotClaims.GetByLotID, 79
    | AcceptAvatarCache  // DataService.Get<Avatar>, 95
    | DeclineLookup      // Lots.GetByLocation, 106
    | DeclineUpdate      // Roommates.DeclineRoommateRequest, 108
    | OwnedLot           // Lots.GetByOwner, 121
    | MyLots             // Roommates.GetAvatarsLots, 122
    | InviteTarget       // Avatars.Get, 127
    | InviteTargetLots   // Roommates.GetAvatarsLots, 132
    | InviteLot          // Lots.Get, 140
    | InviteRoomies      // Roommates.GetLotRoommates, 151
    | InviteEvict        // Roommates.DeclineRoommateRequest, 164
    | InviteCreate       // Roommates.Create, 169
    | KickLookup         // Lots.GetByLocation, 199
    | KickRoomies        // Roommates.GetLotRoommates, 202
    | KickRemove         // Roommates.RemoveRoommate, 230
    | KickReassign       // Lots.ReassignOwner, 238
    | KickLotCache       // DataService.Get<Lot>, 241
    | KickNewLot         // Lots.Get and its dereference, 245-246
    | KickClaim          // LotClaims.GetByLotID, 250
    | KickForceOpen      // Lots.TryFindOrOpen, 267
    | KickAvatarCache    // DataService.Get<Avatar>, 272

  /**
   * Everything the handler can observe or change, as one value.
   * `locations` is the shard's location index of the lot table, `claims`
   * maps a lot to the lot server that holds its claim, `liveServers` are
   * the lot servers with a live session, `online` the avatars with a live
   * session. `forcedOpen` lists the locations the handler asked to force open,
   * `faulty` the call sites that throw.
   */
  datatype State = State(
    lots: map<LotId, LotRow>,
    locations: map<Location, LotId>,
    roommates: seq<Roommate>,
    avatars: set<AvatarId>,
    claims: map<LotId, ServerId>,
    liveServers: set<ServerId>,
    online: set<AvatarId>,
    lotCache: map<Location, LotEntry>,
    avatarCache: map<AvatarId, Location>,
    outbox: seq<Envelope>,
    forcedOpen: seq<Location>,
    faulty: set<Site>)
}
