/**
 * ChangeRoommateHandler as an object over the state it works on: the
 * store's tables, the client-visible cache, the session and lot-server
 * registries, and an outbox that stands for every Write to a session or a
 * lot server. Handle changes these fields step by step, as the source
 * does, and is proved to end in the state Semantics.Step describes.
 */
module Handler {
  import opened Types
  import opened Queries
  import Semantics

  class RoommateService {
    // the store: lot table, its location index, roommate table, avatar table, lot claims
    var lots: map<LotId, LotRow>
    var locations: map<Location, LotId>
    var roommates: seq<Roommate>
    var avatars: set<AvatarId>
    var claims: map<LotId, ServerId>
    // the registries of live sessions
    var liveServers: set<ServerId>
    var online: set<AvatarId>
    // the client-visible cache, keyed as DataService.Get keys it
    var lotCache: map<Location, LotEntry>
    var avatarCache: map<AvatarId, Location>
    // what the handler sent, and which lots it asked to open
    var outbox: seq<Envelope>
    var forcedOpen: seq<Location>
    // the collaborator call sites that throw
    var faulty: set<Site>

    function Snap(): State
      reads this
    {
      State(lots, locations, roommates, avatars, claims, liveServers, online,
            lotCache, avatarCache, outbox, forcedOpen, faulty)
    }

    /** How a branch method ended, in the terms of Semantics. */
    function Ended(completed: bool): Semantics.Outcome
      reads this
    {
      if completed then Semantics.Done(Snap()) else Semantics.Thrown(Snap())
    }

    constructor (st: State)
      ensures Snap() == st
    {
      lots, locations, roommates, avatars, claims := st.lots, st.locations, st.roommates, st.avatars, st.claims;
      liveServers, online := st.liveServers, st.online;
      lotCache, avatarCache := st.lotCache, st.avatarCache;
      outbox, forcedOpen, faulty := st.outbox, st.forcedOpen, st.faulty;
    }

    // ----- transport: session.Write and lotServer.Write -----

    method Write(to: Recipient, m: Msg)
      modifies this`outbox
      ensures outbox == old(outbox) + [Envelope(to, m)]
    {
      outbox := outbox + [Envelope(to, m)];
    }

    /** The Status helper (lines 40-43). */
    method SendStatus(a: AvatarId, s: Status)
      modifies this`outbox
      ensures outbox == old(outbox) + [Envelope(ToSession(a), Response(s, 0))]
    {
      Write(ToSession(a), Response(s, 0));
    }

    // ----- the store's updates, each of which may throw -----

    /** Roommates.AcceptRoommateRequest: true iff a pending row of (a, l) existed; it is confirmed. */
    method AcceptRoommateRequest(site: Site, a: AvatarId, l: LotId) returns (r: Result<bool>)
      modifies this`roommates
      ensures site in faulty ==> r == Fail && roommates == old(roommates)
      ensures site !in faulty ==> r == Ok(Roommate(a, l, true) in old(roommates))
      ensures site !in faulty ==> roommates == AcceptPending(old(roommates), a, l)
    {
      if site in faulty { return Fail; }
      r := Ok(Roommate(a, l, true) in roommates);
      roommates := AcceptPending(roommates, a, l);
    }

    /** Roommates.DeclineRoommateRequest: true iff a pending row of (a, l) existed; it is deleted. */
    method DeclineRoommateRequest(site: Site, a: AvatarId, l: LotId) returns (r: Result<bool>)
      modifies this`roommates
      ensures site in faulty ==> r == Fail && roommates == old(roommates)
      ensures site !in faulty ==> r == Ok(Roommate(a, l, true) in old(roommates))
      ensures site !in faulty ==> roommates == DeclinePending(old(roommates), a, l)
    {
      if site in faulty { return Fail; }
      r := Ok(Roommate(a, l, true) in roommates);
      roommates := DeclinePending(roommates, a, l);
    }

    /** Roommates.Create of a pending row for (t, l); false when the store refuses the row. */
    method CreateRoommate(site: Site, t: AvatarId, l: LotId) returns (r: Result<bool>)
      modifies this`roommates
      ensures site in faulty ==> r == Fail && roommates == old(roommates)
      ensures site !in faulty ==> r == Ok(Semantics.CanCreate(old(Snap()), t, l))
      ensures site !in faulty && r == Ok(true) ==> roommates == old(roommates) + [Roommate(t, l, true)]
      ensures r != Ok(true) ==> roommates == old(roommates)
    {
      if site in faulty { return Fail; }
      if Semantics.CanCreate(Snap(), t, l) {
        roommates := roommates + [Roommate(t, l, true)];
        r := Ok(true);
      } else {
        r := Ok(false);
      }
    }

    /** Roommates.RemoveRoommate: deletes every row of (a, l) and says how many there were. */
    method RemoveRoommate(site: Site, a: AvatarId, l: LotId) returns (r: Result<nat>)
      modifies this`roommates
      ensures site in faulty ==> r == Fail && roommates == old(roommates)
      ensures site !in faulty ==> r == Ok(CountMatching(old(roommates), a, l))
      ensures site !in faulty ==> roommates == RemoveMember(old(roommates), a, l)
    {
      if site in faulty { return Fail; }
      r := Ok(CountMatching(roommates, a, l));
      roommates := RemoveMember(roommates, a, l);
    }

    /** Lots.ReassignOwner: the oldest confirmed roommate left becomes the owner. */
    method ReassignOwner(site: Site, l: LotId) returns (r: Result<()>)
      modifies this`lots
      ensures site in faulty ==> r == Fail && lots == old(lots)
      ensures site !in faulty ==> r == Ok(()) && lots == Semantics.ReassignedOwner(old(Snap()), l).lots
    {
      if site in faulty { return Fail; }
      lots := Semantics.ReassignedOwner(Snap(), l).lots;
      r := Ok(());
    }

    /** Lots.TryFindOrOpen: a request to open the lot; its result is not used. */
    method TryFindOrOpen(site: Site, loc: Location) returns (r: Result<()>)
      modifies this`forcedOpen
      ensures site in faulty ==> r == Fail && forcedOpen == old(forcedOpen)
      ensures site !in faulty ==> r == Ok(()) && forcedOpen == old(forcedOpen) + [loc]
    {
      if site in faulty { return Fail; }
      forcedOpen := forcedOpen + [loc];
      r := Ok(());
    }

    // ----- POLL (lines 52-69) -----

    method HandlePoll(a: AvatarId) returns (completed: bool)
      modifies this
      ensures Ended(completed) == Semantics.PollStep(old(Snap()), a)
    {
      if PollRecords in faulty { return false; }
      var recs := RecordsOf(roommates, a);
      var end := EchoPendingInvites(a, recs);
      completed := end != Semantics.Faulted;
    }

    /** The POLL loop (lines 55-68): echo each pending invitation until a lot is missing or Lots.Get throws. */
    method EchoPendingInvites(a: AvatarId, recs: seq<Roommate>) returns (end: Semantics.PollEnd)
      modifies this`outbox
      ensures outbox == old(outbox) + Semantics.PollEchoes(a, recs, lots, faulty).echoes
      ensures end == Semantics.PollEchoes(a, recs, lots, faulty).end
    {
      var i := 0;
      while i < |recs|
        invariant 0 <= i <= |recs|
        invariant Semantics.PollEchoes(a, recs[..i], lots, faulty).end == Semantics.Finished
        invariant outbox == old(outbox) + Semantics.PollEchoes(a, recs[..i], lots, faulty).echoes
      {
        var lot := recs[i];
        assert recs[..i + 1][..i] == recs[..i];
        if lot.pending {
          if PollLot(i) in faulty {
            Semantics.PollEchoesStopped(a, recs, i + 1, lots, faulty);
            return Semantics.Faulted;
          }
          if lot.lot !in lots {
            Semantics.PollEchoesStopped(a, recs, i + 1, lots, faulty);
            return Semantics.LotMissing;
          }
          var lotdb := lots[lot.lot];
          Write(ToSession(a), InviteEcho(lotdb.owner, lotdb.location));
        }
        i := i + 1;
      }
      assert recs[..i] == recs;
      return Semantics.Finished;
    }

    // ----- ACCEPT (lines 70-103) -----

    method HandleAccept(a: AvatarId, loc: Location) returns (completed: bool)
      modifies this
      ensures Ended(completed) == Semantics.AcceptStep(old(Snap()), a, loc)
    {
      if AcceptLookup in faulty { return false; }
      var found := Semantics.LotByLocation(Snap(), loc);
      if found.None? { SendStatus(a, LotDoesntExist); return true; }
      var lot := found.value;
      ghost var s0 := Snap();
      var accepted := AcceptRoommateRequest(AcceptUpdate, a, lot.id);
      if accepted.Fail? { return false; }
      assert Snap() == s0.(roommates := AcceptPending(s0.roommates, a, lot.id));
      if !accepted.value { SendStatus(a, NoInvitePending); return true; }
      completed := JoinLot(a, loc, lot.id);
    }

    /** After a successful accept (lines 76-97). */
    method JoinLot(a: AvatarId, loc: Location, l: LotId) returns (completed: bool)
      modifies this
      ensures Ended(completed) == Semantics.AcceptJoin(old(Snap()), a, loc, l)
    {
      if AcceptLotCache in faulty { return false; }
      ghost var s0 := Snap();
      if loc in lotCache {
        lotCache := lotCache[loc := lotCache[loc].(roommateVec := lotCache[loc].roommateVec + [a])];
      }
      ghost var s1 := Snap();
      assert s1 == Semantics.CacheAddRoommate(s0, loc, a);
      if AcceptClaim in faulty { return false; }
      if l in claims && claims[l] in liveServers {
        Write(ToLotServer(claims[l]), RoommateChange(a, l, RoommateAdded));
      }
      ghost var s2 := Snap();
      assert s2 == Semantics.NotifyLotServer(s1, l, a, RoommateAdded);
      if AcceptAvatarCache in faulty { return false; }
      if a in avatarCache {
        avatarCache := avatarCache[a := loc];
      }
      assert Snap() == Semantics.CacheSetLotGrid(s2, a, loc);
      SendStatus(a, AcceptSuccess);
      return true;
    }

    // ----- DECLINE (lines 104-116) -----

    method HandleDecline(a: AvatarId, loc: Location) returns (completed: bool)
      modifies this
      ensures Ended(completed) == Semantics.DeclineStep(old(Snap()), a, loc)
    {
      if DeclineLookup in faulty { return false; }
      var found := Semantics.LotByLocation(Snap(), loc);
      if found.None? { SendStatus(a, LotDoesntExist); return true; }
      ghost var s0 := Snap();
      var declined := DeclineRoommateRequest(DeclineUpdate, a, found.value.id);
      if declined.Fail? { return false; }
      assert Snap() == s0.(roommates := DeclinePending(s0.roommates, a, found.value.id));
      if declined.value {
        SendStatus(a, DeclineSuccess);
      } else {
        SendStatus(a, NoInvitePending);
      }
      return true;
    }

    // ----- INVITE (lines 124-196) -----

    method HandleInvite(a: AvatarId, t: AvatarId, myLots: seq<Roommate>) returns (completed: bool)
      modifies this
      ensures Ended(completed) == Semantics.InviteStep(old(Snap()), a, t, myLots)
    {
      if InviteTarget in faulty { return false; }
      if t !in avatars {
        SendStatus(a, Unknown);
      }
      if InviteTargetLots in faulty { return false; }
      var targLots := RecordsOf(roommates, t);
      if |targLots| > 0 { SendStatus(a, RoomieElsewhere); return true; }
      if myLots == [] { SendStatus(a, LotDoesntExist); return true; }
      var lotr := myLots[0];
      if InviteLot in faulty { return false; }
      var found := Semantics.LotById(Snap(), lotr.lot);
      if found.None? { SendStatus(a, LotDoesntExist); return true; }
      var lot := found.value;
      if lot.owner != a { SendStatus(a, YouAreNotOwner); return true; }
      if InviteRoomies in faulty { return false; }
      var myLotRoomies := LotRecords(roommates, lot.id);
      completed := AdmitInvite(a, t, lot, myLotRoomies);
    }

    /** The capacity rule and the creation of the invitation (lines 151-194). */
    method AdmitInvite(a: AvatarId, t: AvatarId, lot: DbLot, roomies: seq<Roommate>) returns (completed: bool)
      modifies this
      ensures Ended(completed) == Semantics.InviteAdmit(old(Snap()), a, t, lot, roomies)
    {
      if |roomies| >= Capacity {
        var pending := First(roomies, true);
        if pending.None? { SendStatus(a, TooManyRoommates); return true; }
        var declined := DeclineRoommateRequest(InviteEvict, pending.value.avatar, pending.value.lot);
        if declined.Fail? { return false; }
      }
      completed := RecordInvite(a, t, lot);
    }

    /** The creation of the pending row and the echo to an online invitee (lines 167-194). */
    method RecordInvite(a: AvatarId, t: AvatarId, lot: DbLot) returns (completed: bool)
      modifies this
      ensures Ended(completed) == Semantics.InviteRecord(old(Snap()), a, t, lot)
    {
      var created := CreateRoommate(InviteCreate, t, lot.id);
      if created.Fail? { return false; }
      if !created.value { SendStatus(a, Unknown); return true; }
      if t in online {
        Write(ToSession(t), InviteEcho(a, lot.location));
      }
      SendStatus(a, InviteSuccess);
      return true;
    }

    // ----- KICK (lines 197-300) -----

    method HandleKick(a: AvatarId, t: AvatarId, loc: Location) returns (completed: bool)
      modifies this
      ensures Ended(completed) == Semantics.KickStep(old(Snap()), a, t, loc)
    {
      if KickLookup in faulty { return false; }
      var found := Semantics.LotByLocation(Snap(), loc);
      if found.None? { SendStatus(a, Unknown); return true; }
      var lot := found.value;
      if KickRoomies in faulty { return false; }
      var list := LotRecords(roommates, lot.id);
      if ConfirmedCount(list) <= 1 {
        SendStatus(a, Unknown);
        return true;
      }
      if !HasConfirmed(list, t) { SendStatus(a, YouAreNotRoommate); return true; }
      var selfDelete := a == t;
      if !selfDelete && lot.owner != a { SendStatus(a, YouAreNotOwner); return true; }
      completed := RemoveFromLot(a, t, loc, lot, list, selfDelete);
    }

    /** The removal (lines 230-235), then the rest. */
    method RemoveFromLot(a: AvatarId, t: AvatarId, loc: Location, lot: DbLot, list: seq<Roommate>, selfDelete: bool)
      returns (completed: bool)
      modifies this
      ensures Ended(completed) == Semantics.KickRemoval(old(Snap()), a, t, loc, lot, list, selfDelete)
    {
      var removed := RemoveRoommate(KickRemove, t, lot.id);
      if removed.Fail? { return false; }
      if removed.value == 0 { SendStatus(a, YouAreNotRoommate); return true; }
      completed := HandOver(a, t, loc, lot, list, selfDelete);
    }

    /** The owner reassignment when the owner leaves (lines 236-239), then the rest. */
    method HandOver(a: AvatarId, t: AvatarId, loc: Location, lot: DbLot, list: seq<Roommate>, selfDelete: bool)
      returns (completed: bool)
      modifies this
      ensures Ended(completed) == Semantics.KickHandOver(old(Snap()), a, t, loc, lot, list, selfDelete)
    {
      if selfDelete && lot.owner == a {
        var reassigned := ReassignOwner(KickReassign, lot.id);
        if reassigned.Fail? { return false; }
      }
      completed := FinishKick(a, t, loc, lot, list, selfDelete);
    }

    /** The steps after the removal (lines 241-294). */
    method FinishKick(a: AvatarId, t: AvatarId, loc: Location, lot: DbLot, list: seq<Roommate>, selfDelete: bool)
      returns (completed: bool)
      modifies this
      ensures Ended(completed) == Semantics.KickFinish(old(Snap()), a, t, loc, lot, list, selfDelete)
    {
      if KickLotCache in faulty { return false; }
      completed := UpdateLotEntry(t, loc, lot.id);
      if !completed { return; }
      completed := NotifyKick(a, t, lot, list, selfDelete);
    }

    /** The cached Lot drops the removed avatar and takes the current owner (lines 242-247). */
    method UpdateLotEntry(t: AvatarId, loc: Location, l: LotId) returns (completed: bool)
      modifies this
      ensures Ended(completed) == Semantics.KickLotEntry(old(Snap()), t, loc, l)
    {
      if loc in lotCache {
        lotCache := lotCache[loc := lotCache[loc].(roommateVec := RemoveFirst(lotCache[loc].roommateVec, t))];
        if KickNewLot in faulty || l !in lots { return false; }
        var newLot := lots[l];
        lotCache := lotCache[loc := lotCache[loc].(ownerVec := [newLot.owner])];
      }
      return true;
    }

    /** The lot server, or the force-open fallback when no server claims the lot (lines 250-268). */
    method NotifyKick(a: AvatarId, t: AvatarId, lot: DbLot, list: seq<Roommate>, selfDelete: bool) returns (completed: bool)
      modifies this
      ensures Ended(completed) == Semantics.KickNotify(old(Snap()), a, t, lot, list, selfDelete)
    {
      if KickClaim in faulty { return false; }
      if lot.id in claims {
        if claims[lot.id] in liveServers {
          Write(ToLotServer(claims[lot.id]), RoommateChange(t, lot.id, RoommateRemoved));
        }
      } else {
        var result := TryFindOrOpen(KickForceOpen, lot.location);
        if result.Fail? { return false; }
      }
      completed := BroadcastKick(a, t, list, selfDelete);
    }

    /** The avatar cache, the broadcast and the reply (lines 272-294). */
    method BroadcastKick(a: AvatarId, t: AvatarId, list: seq<Roommate>, selfDelete: bool) returns (completed: bool)
      modifies this
      ensures Ended(completed) == Semantics.KickBroadcast(old(Snap()), a, t, list, selfDelete)
    {
      if KickAvatarCache in faulty { return false; }
      if t in avatarCache {
        avatarCache := avatarCache[t := 0];
      }
      NotifyRoommates(a, t, selfDelete, list);
      if selfDelete {
        SendStatus(a, SelfkickSuccess);
      } else {
        SendStatus(a, KickSuccess);
      }
      return true;
    }

    /** The broadcast loop (lines 276-291) over the list read before the removal. */
    method NotifyRoommates(a: AvatarId, t: AvatarId, selfDelete: bool, list: seq<Roommate>)
      modifies this`outbox
      ensures outbox == old(outbox) + Semantics.KickNotices(list, a, t, selfDelete, online)
    {
      for i := 0 to |list|
        invariant outbox == old(outbox) + Semantics.KickNotices(list[..i], a, t, selfDelete, online)
      {
        var roomie := list[i];
        var kickedMe := roomie.avatar == t;
        assert list[..i + 1][..i] == list[..i];
        if !roomie.pending && !(kickedMe && selfDelete) && a != roomie.avatar {
          if roomie.avatar in online {
            Write(ToSession(roomie.avatar), Response(if kickedMe then GotKicked else RoommateLeft, t));
          }
        }
      }
      assert list[..|list|] == list;
    }

    // ----- dispatch and the catch-all (lines 45-51, 117-123, 318-320) -----

    method Dispatch(a: AvatarId, req: Request) returns (completed: bool)
      modifies this
      ensures Ended(completed) == Semantics.Dispatch(old(Snap()), a, req)
    {
      if OpenStore in faulty { return false; }
      match req
      case Poll =>
        completed := HandlePoll(a);
      case Accept(loc) =>
        completed := HandleAccept(a, loc);
      case Decline(loc) =>
        completed := HandleDecline(a, loc);
      case Invite(t) =>
        // Lots.GetByOwner: its result is never used, but the call may throw
        if OwnedLot in faulty { return false; }
        if MyLots in faulty { return false; }
        var myLots := RecordsOf(roommates, a);
        completed := HandleInvite(a, t, myLots);
      case Kick(t, loc) =>
        if OwnedLot in faulty { return false; }
        if MyLots in faulty { return false; }
        completed := HandleKick(a, t, loc);
    }

    /** ChangeRoommateHandler.Handle (lines 45-321). */
    method Handle(session: Session, req: Request)
      modifies this
      ensures Snap() == Semantics.Step(old(Snap()), session, req)
    {
      if session.anonymous { return; }
      var completed := Dispatch(session.avatar, req);
      if !completed {
        SendStatus(session.avatar, Unknown);
      }
    }
  }
}
