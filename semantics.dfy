/**
 * What one call of ChangeRoommateHandler.Handle does, as a function from
 * the state before the call to the state after it. Each branch function
 * follows its branch of the handler statement by statement; a collaborator
 * call whose site is in `faulty` throws, and the branch then stops with
 * `Thrown`, keeping whatever it changed before the throw.
 */
module Semantics {
  import opened Types
  import opened Queries

  /** How a branch ends: normally, or by an exception the catch-all sees. */
  datatype Outcome = Done(state: State) | Thrown(state: State)

  /** The parts of the state the handler only reads stay as they were, and the outbox only grows. */
  ghost predicate Evolves(st: State, st': State)
  {
    && st'.locations == st.locations
    && st'.avatars == st.avatars
    && st'.claims == st.claims
    && st'.liveServers == st.liveServers
    && st'.online == st.online
    && st'.faulty == st.faulty
    && st'.lots.Keys == st.lots.Keys
    && (forall l :: l in st.lots ==> st'.lots[l].location == st.lots[l].location)
    && st.outbox <= st'.outbox
    && st.forcedOpen <= st'.forcedOpen
  }

  lemma EvolvesTransitive(s0: State, s1: State, s2: State)
    requires Evolves(s0, s1) && Evolves(s1, s2)
    ensures Evolves(s0, s2)
  {
  }

  /** The last message written is a status response to the session of `a`. */
  ghost predicate EndsWithStatus(st: State, a: AvatarId)
  {
    && |st.outbox| > 0
    && st.outbox[|st.outbox| - 1].to == ToSession(a)
    && st.outbox[|st.outbox| - 1].msg.Response?
    && st.outbox[|st.outbox| - 1].msg.extra == 0
  }

  /** `session.Write` or `lotServer.Write`: one message leaves, nothing else changes. */
  function Send(st: State, to: Recipient, m: Msg): (st': State)
    ensures Evolves(st, st') && st'.outbox == st.outbox + [Envelope(to, m)]
    ensures st' == st.(outbox := st'.outbox)
  {
    st.(outbox := st.outbox + [Envelope(to, m)])
  }

  /** The Status helper: a response carrying `s` and no extra, to the requester. */
  function Reply(st: State, a: AvatarId, s: Status): (st': State)
    ensures Evolves(st, st') && EndsWithStatus(st', a)
    ensures st'.outbox[|st'.outbox| - 1].msg.status == s
    ensures st' == st.(outbox := st.outbox + [Envelope(ToSession(a), Response(s, 0))])
  {
    Send(st, ToSession(a), Response(s, 0))
  }

  /** Lots.GetByLocation on the current shard; None when no lot is there. */
  function LotByLocation(st: State, loc: Location): (r: Option<DbLot>)
    ensures r.Some? <==> loc in st.locations && st.locations[loc] in st.lots
    ensures r.Some? ==> r.value.id in st.lots && r.value.owner == st.lots[r.value.id].owner
    ensures r.Some? ==>
      r.value == DbLot(st.locations[loc], st.lots[st.locations[loc]].owner, st.lots[st.locations[loc]].location)
  {
    if loc in st.locations && st.locations[loc] in st.lots then
      var id := st.locations[loc];
      Some(DbLot(id, st.lots[id].owner, st.lots[id].location))
    else None
  }

  /** Lots.Get; None when the lot does not exist. */
  function LotById(st: State, id: LotId): (r: Option<DbLot>)
    ensures r.Some? <==> id in st.lots
    ensures r.Some? ==> r.value == DbLot(id, st.lots[id].owner, st.lots[id].location)
  {
    if id in st.lots then Some(DbLot(id, st.lots[id].owner, st.lots[id].location)) else None
  }

  /**
   * Roommates.Create's outcome: the store refuses a row for an avatar it
   * does not know, for a lot it does not know, or for an avatar that
   * already holds a row.
   */
  predicate CanCreate(st: State, t: AvatarId, l: LotId)
    ensures CanCreate(st, t, l) <==>
      t in st.avatars && LotById(st, l).Some? && RecordsOf(st.roommates, t) == []
  {
    assert RecordsOf(st.roommates, t) != [] ==> RecordsOf(st.roommates, t)[0] in RecordsOf(st.roommates, t);
    t in st.avatars && l in st.lots && NoRecordOf(st.roommates, t)
  }

  /**
   * Lots.ReassignOwner: the oldest confirmed roommate left in the lot
   * becomes its owner. A lot with no confirmed roommate keeps its owner.
   */
  function ReassignedOwner(st: State, l: LotId): (st': State)
    ensures Evolves(st, st') && st'.outbox == st.outbox
    ensures st'.roommates == st.roommates && st'.lotCache == st.lotCache && st'.avatarCache == st.avatarCache
    ensures forall m :: m in st.lots && m != l ==> st'.lots[m] == st.lots[m]
    ensures l in st.lots && First(LotRecords(st.roommates, l), false).Some? ==>
      st'.lots[l].owner == First(LotRecords(st.roommates, l), false).value.avatar
    ensures l in st.lots && First(LotRecords(st.roommates, l), false).None? ==> st'.lots[l] == st.lots[l]
    ensures st' == st.(lots := st'.lots)
  {
    if l in st.lots then
      match First(LotRecords(st.roommates, l), false)
      case None => st
      case Some(r) => st.(lots := st.lots[l := st.lots[l].(owner := r.avatar)])
    else st
  }

  /** The cached Lot at `loc`, if any, gets `a` appended to its roommate vector. */
  function CacheAddRoommate(st: State, loc: Location, a: AvatarId): (st': State)
    ensures Evolves(st, st') && st' == st.(lotCache := st'.lotCache)
  {
    if loc in st.lotCache then
      st.(lotCache := st.lotCache[loc := st.lotCache[loc].(roommateVec := st.lotCache[loc].roommateVec + [a])])
    else st
  }

  /** The cached Avatar `a`, if any, gets `loc` as its Avatar_LotGridXY. */
  function CacheSetLotGrid(st: State, a: AvatarId, loc: Location): (st': State)
    ensures Evolves(st, st') && st' == st.(avatarCache := st'.avatarCache)
  {
    if a in st.avatarCache then st.(avatarCache := st.avatarCache[a := loc]) else st
  }

  /** The lot server of a claimed lot is told of the change, when its session is live. */
  function NotifyLotServer(st: State, l: LotId, a: AvatarId, change: ChangeType): (st': State)
    ensures Evolves(st, st') && st' == st.(outbox := st'.outbox)
  {
    if l in st.claims && st.claims[l] in st.liveServers then
      Send(st, ToLotServer(st.claims[l]), RoommateChange(a, l, change))
    else st
  }

  // POLL (lines 52-69)

  datatype PollEnd = Finished | LotMissing | Faulted

  /** The invitations the POLL loop echoes and how the loop ends. */
  datatype PollRun = PollRun(echoes: seq<Envelope>, end: PollEnd)

  /**
   * The POLL loop over the requester's rows: each pending row is echoed as
   * an invitation from the lot's owner, until a lot is missing (the handler
   * returns) or Lots.Get throws on pass `i` (`PollLot(i)` in `faulty`); the
   * echoes already written stay written.
   */
  function PollEchoes(a: AvatarId, recs: seq<Roommate>, lots: map<LotId, LotRow>, faulty: set<Site>): (run: PollRun)
    ensures |run.echoes| <= |recs|
  {
    if recs == [] then PollRun([], Finished)
    else
      var prev := PollEchoes(a, recs[..|recs| - 1], lots, faulty);
      var r := recs[|recs| - 1];
      if prev.end != Finished || !r.pending then prev
      else if PollLot(|recs| - 1) in faulty then PollRun(prev.echoes, Faulted)
      else if r.lot !in lots then PollRun(prev.echoes, LotMissing)
      else PollRun(prev.echoes + [Envelope(ToSession(a), InviteEcho(lots[r.lot].owner, lots[r.lot].location))], Finished)
  }

  /** Once the POLL loop has stopped, the rows after the stop change nothing. */
  lemma {:induction false} PollEchoesStopped(a: AvatarId, recs: seq<Roommate>, n: nat, lots: map<LotId, LotRow>, faulty: set<Site>)
    requires n <= |recs|
    requires PollEchoes(a, recs[..n], lots, faulty).end != Finished
    ensures PollEchoes(a, recs, lots, faulty) == PollEchoes(a, recs[..n], lots, faulty)
    decreases |recs| - n
  {
    if n < |recs| {
      var m := |recs| - 1;
      assert recs[..m][..n] == recs[..n];
      PollEchoesStopped(a, recs[..m], n, lots, faulty);
    } else {
      assert recs[..n] == recs;
    }
  }

  function PollStep(st: State, a: AvatarId): (r: Outcome)
    ensures Evolves(st, r.state)
    ensures r.state == st.(outbox := r.state.outbox)
  {
    if PollRecords in st.faulty then Thrown(st)
    else
      var run := PollEchoes(a, RecordsOf(st.roommates, a), st.lots, st.faulty);
      var st' := st.(outbox := st.outbox + run.echoes);
      if run.end == Faulted then Thrown(st') else Done(st')
  }

  // ACCEPT (lines 70-103)

  function AcceptStep(st: State, a: AvatarId, loc: Location): (r: Outcome)
    ensures Evolves(st, r.state)
    ensures r.Done? ==> EndsWithStatus(r.state, a)
  {
    if AcceptLookup in st.faulty then Thrown(st)
    else match LotByLocation(st, loc)
      case None => Done(Reply(st, a, LotDoesntExist))
      case Some(lot) =>
        if AcceptUpdate in st.faulty then Thrown(st)
        else if Roommate(a, lot.id, true) !in st.roommates then Done(Reply(st, a, NoInvitePending))
        else AcceptJoin(st.(roommates := AcceptPending(st.roommates, a, lot.id)), a, loc, lot.id)
  }

  /** After a successful accept: the lot cache, the lot server, the avatar cache and the reply (lines 76-97). */
  function AcceptJoin(st: State, a: AvatarId, loc: Location, l: LotId): (r: Outcome)
    ensures Evolves(st, r.state)
    ensures r.Done? ==> EndsWithStatus(r.state, a)
    ensures r.state.roommates == st.roommates && r.state.lots == st.lots
  {
    if AcceptLotCache in st.faulty then Thrown(st)
    else
      var s1 := CacheAddRoommate(st, loc, a);
      if AcceptClaim in st.faulty then Thrown(s1)
      else
        var s2 := NotifyLotServer(s1, l, a, RoommateAdded);
        EvolvesTransitive(st, s1, s2);
        if AcceptAvatarCache in st.faulty then Thrown(s2)
        else
          var s3 := CacheSetLotGrid(s2, a, loc);
          var s4 := Reply(s3, a, AcceptSuccess);
          EvolvesTransitive(st, s2, s3);
          EvolvesTransitive(st, s3, s4);
          Done(s4)
  }

  // DECLINE (lines 104-116)

  function DeclineStep(st: State, a: AvatarId, loc: Location): (r: Outcome)
    ensures Evolves(st, r.state)
    ensures r.Done? ==> EndsWithStatus(r.state, a)
  {
    if DeclineLookup in st.faulty then Thrown(st)
    else match LotByLocation(st, loc)
      case None => Done(Reply(st, a, LotDoesntExist))
      case Some(lot) =>
        if DeclineUpdate in st.faulty then Thrown(st)
        else if Roommate(a, lot.id, true) in st.roommates then
          Done(Reply(st.(roommates := DeclinePending(st.roommates, a, lot.id)), a, DeclineSuccess))
        else Done(Reply(st, a, NoInvitePending))
  }

  // INVITE (lines 124-196), after the two queries at lines 121-122

  function InviteStep(st: State, a: AvatarId, t: AvatarId, myLots: seq<Roommate>): (r: Outcome)
    ensures Evolves(st, r.state)
    ensures r.Done? ==> EndsWithStatus(r.state, a)
  {
    if InviteTarget in st.faulty then Thrown(st)
    else
      // a missing target is reported, and the branch goes on
      var s1 := if t in st.avatars then st else Reply(st, a, Unknown);
      var r :=
        if InviteTargetLots in st.faulty then Thrown(s1)
        else if |RecordsOf(s1.roommates, t)| > 0 then Done(Reply(s1, a, RoomieElsewhere))
        else if myLots == [] then Done(Reply(s1, a, LotDoesntExist))
        else if InviteLot in st.faulty then Thrown(s1)
        else match LotById(s1, myLots[0].lot)
          case None => Done(Reply(s1, a, LotDoesntExist))
          case Some(lot) =>
            if lot.owner != a then Done(Reply(s1, a, YouAreNotOwner))
            else if InviteRoomies in st.faulty then Thrown(s1)
            else InviteAdmit(s1, a, t, lot, LotRecords(s1.roommates, lot.id));
      EvolvesTransitive(st, s1, r.state);
      r
  }

  /** The capacity rule and the creation of the invitation (lines 151-194). */
  function InviteAdmit(st: State, a: AvatarId, t: AvatarId, lot: DbLot, roomies: seq<Roommate>): (r: Outcome)
    ensures Evolves(st, r.state)
    ensures r.Done? ==> EndsWithStatus(r.state, a)
  {
    var full := |roomies| >= Capacity;
    if full && First(roomies, true).None? then Done(Reply(st, a, TooManyRoommates))
    else if full && InviteEvict in st.faulty then Thrown(st)
    else
      var s2 :=
        if full then
          var p := First(roomies, true).value;
          st.(roommates := DeclinePending(st.roommates, p.avatar, p.lot))
        else st;
      InviteRecord(s2, a, t, lot)
  }

  /** The creation of the pending row and the echo to an online invitee (lines 167-194). */
  function InviteRecord(st: State, a: AvatarId, t: AvatarId, lot: DbLot): (r: Outcome)
    ensures Evolves(st, r.state)
    ensures r.Done? ==> EndsWithStatus(r.state, a)
  {
    if InviteCreate in st.faulty then Thrown(st)
    else if !CanCreate(st, t, lot.id) then Done(Reply(st, a, Unknown))
    else
      var s1 := st.(roommates := st.roommates + [Roommate(t, lot.id, true)]);
      var s2 := if t in s1.online then Send(s1, ToSession(t), InviteEcho(a, lot.location)) else s1;
      Done(Reply(s2, a, InviteSuccess))
  }

  // KICK (lines 197-300)

  /**
   * The broadcast to one row of the pre-removal list (lines 278-290): a
   * confirmed, online member other than the requester and other than a
   * self-deleting target is told, on its own session, GOT_KICKED if it is
   * the target and ROOMMATE_LEFT otherwise, with the target as extra.
   */
  function KickNotice(r: Roommate, a: AvatarId, t: AvatarId, selfDelete: bool, online: set<AvatarId>): (n: seq<Envelope>)
    ensures |n| <= 1
    ensures n == [] <==> r.pending || (r.avatar == t && selfDelete) || r.avatar == a || r.avatar !in online
    ensures forall e :: e in n ==>
      e.to == ToSession(r.avatar) && e.msg.Response? && e.msg.extra == t &&
      (e.msg.status == GotKicked <==> r.avatar == t) && (e.msg.status == RoommateLeft <==> r.avatar != t)
  {
    if !r.pending && !(r.avatar == t && selfDelete) && a != r.avatar && r.avatar in online then
      [Envelope(ToSession(r.avatar), Response(if r.avatar == t then GotKicked else RoommateLeft, t))]
    else []
  }

  /** The broadcast loop over the pre-removal list (lines 276-291). */
  function KickNotices(list: seq<Roommate>, a: AvatarId, t: AvatarId, selfDelete: bool, online: set<AvatarId>): (r: seq<Envelope>)
    ensures |r| <= |list|
  {
    if list == [] then []
    else KickNotices(list[..|list| - 1], a, t, selfDelete, online) + KickNotice(list[|list| - 1], a, t, selfDelete, online)
  }

  function KickStep(st: State, a: AvatarId, t: AvatarId, loc: Location): (r: Outcome)
    ensures Evolves(st, r.state)
    ensures r.Done? ==> EndsWithStatus(r.state, a)
  {
    if KickLookup in st.faulty then Thrown(st)
    else match LotByLocation(st, loc)
      case None => Done(Reply(st, a, Unknown))
      case Some(lot) =>
        if KickRoomies in st.faulty then Thrown(st)
        else
          var list := LotRecords(st.roommates, lot.id);
          // closing a lot down to no roommate is not supported: UNKNOWN, owner or not
          if ConfirmedCount(list) <= 1 then Done(Reply(st, a, Unknown))
          else if !HasConfirmed(list, t) then Done(Reply(st, a, YouAreNotRoommate))
          else
            var selfDelete := a == t;
            if !selfDelete && lot.owner != a then Done(Reply(st, a, YouAreNotOwner))
            else KickRemoval(st, a, t, loc, lot, list, selfDelete)
  }

  /** The removal itself (lines 230-235), then the rest. */
  function KickRemoval(st: State, a: AvatarId, t: AvatarId, loc: Location, lot: DbLot, list: seq<Roommate>, selfDelete: bool): (r: Outcome)
    ensures Evolves(st, r.state)
    ensures r.Done? ==> EndsWithStatus(r.state, a)
  {
    if KickRemove in st.faulty then Thrown(st)
    else
      var removed := CountMatching(st.roommates, t, lot.id);
      var s1 := st.(roommates := RemoveMember(st.roommates, t, lot.id));
      if removed == 0 then Done(Reply(s1, a, YouAreNotRoommate))
      else
        var r := KickHandOver(s1, a, t, loc, lot, list, selfDelete);
        EvolvesTransitive(st, s1, r.state);
        r
  }

  /** An owner who removes themself hands the lot over (lines 236-239), then the rest. */
  function KickHandOver(st: State, a: AvatarId, t: AvatarId, loc: Location, lot: DbLot, list: seq<Roommate>, selfDelete: bool): (r: Outcome)
    ensures Evolves(st, r.state)
    ensures r.Done? ==> EndsWithStatus(r.state, a)
    ensures r.state.roommates == st.roommates
  {
    var reassign := selfDelete && lot.owner == a;
    if reassign && KickReassign in st.faulty then Thrown(st)
    else
      var s2 := if reassign then ReassignedOwner(st, lot.id) else st;
      var r := KickFinish(s2, a, t, loc, lot, list, selfDelete);
      EvolvesTransitive(st, s2, r.state);
      r
  }

  /** The cache, lot-server and broadcast steps of a removal that took place (lines 241-294). */
  function KickFinish(st: State, a: AvatarId, t: AvatarId, loc: Location, lot: DbLot, list: seq<Roommate>, selfDelete: bool): (r: Outcome)
    ensures Evolves(st, r.state)
    ensures r.Done? ==> EndsWithStatus(r.state, a)
    ensures r.state.roommates == st.roommates
    ensures r.state.lots == st.lots
  {
    if KickLotCache in st.faulty then Thrown(st)
    else match KickLotEntry(st, t, loc, lot.id)
      case Thrown(s) => Thrown(s)
      case Done(s) => KickNotify(s, a, t, lot, list, selfDelete)
  }

  /**
   * The cached Lot at `loc`, if any, drops `t` from its roommate vector and
   * gets the lot's current owner as its owner vector (lines 242-247).
   */
  function KickLotEntry(st: State, t: AvatarId, loc: Location, l: LotId): (r: Outcome)
    ensures Evolves(st, r.state) && r.state.outbox == st.outbox && r.state.forcedOpen == st.forcedOpen
    ensures r.state.roommates == st.roommates && r.state.lots == st.lots && r.state.avatarCache == st.avatarCache
  {
    if loc !in st.lotCache then Done(st)
    else
      var e := st.lotCache[loc];
      var s1 := st.(lotCache := st.lotCache[loc := e.(roommateVec := RemoveFirst(e.roommateVec, t))]);
      if KickNewLot in st.faulty || l !in st.lots then Thrown(s1)
      else Done(s1.(lotCache := s1.lotCache[loc := s1.lotCache[loc].(ownerVec := [st.lots[l].owner])]))
  }

  /** The lot server of the lot, or the force-open fallback when nothing claims it, then the rest (lines 249-294). */
  function KickNotify(st: State, a: AvatarId, t: AvatarId, lot: DbLot, list: seq<Roommate>, selfDelete: bool): (r: Outcome)
    ensures Evolves(st, r.state)
    ensures r.Done? ==> EndsWithStatus(r.state, a)
    ensures r.state.roommates == st.roommates && r.state.lots == st.lots && r.state.lotCache == st.lotCache
  {
    if KickClaim in st.faulty then Thrown(st)
    else if lot.id !in st.claims && KickForceOpen in st.faulty then Thrown(st)
    else
      var s1 :=
        if lot.id in st.claims then NotifyLotServer(st, lot.id, t, RoommateRemoved)
        else st.(forcedOpen := st.forcedOpen + [lot.location]);
      var r := KickBroadcast(s1, a, t, list, selfDelete);
      EvolvesTransitive(st, s1, r.state);
      r
  }

  /** The avatar cache, the broadcast to the pre-removal list and the reply (lines 272-294). */
  function KickBroadcast(st: State, a: AvatarId, t: AvatarId, list: seq<Roommate>, selfDelete: bool): (r: Outcome)
    ensures Evolves(st, r.state)
    ensures r.Done? ==> EndsWithStatus(r.state, a)
    ensures r.state.roommates == st.roommates && r.state.lots == st.lots && r.state.lotCache == st.lotCache
  {
    if KickAvatarCache in st.faulty then Thrown(st)
    else
      var s1 := CacheSetLotGrid(st, t, 0);
      var s2 := s1.(outbox := s1.outbox + KickNotices(list, a, t, selfDelete, s1.online));
      Done(Reply(s2, a, if selfDelete then SelfkickSuccess else KickSuccess))
  }

  // Dispatch and the catch-all (lines 45-51, 117-123, 318-320)

  function Dispatch(st: State, a: AvatarId, req: Request): (r: Outcome)
    ensures Evolves(st, r.state)
    ensures r.Done? && !req.Poll? ==> EndsWithStatus(r.state, a)
  {
    if OpenStore in st.faulty then Thrown(st)
    else match req
      case Poll => PollStep(st, a)
      case Accept(loc) => AcceptStep(st, a, loc)
      case Decline(loc) => DeclineStep(st, a, loc)
      case Invite(t) =>
        if OwnedLot in st.faulty || MyLots in st.faulty then Thrown(st)
        else InviteStep(st, a, t, RecordsOf(st.roommates, a))
      case Kick(t, loc) =>
        if OwnedLot in st.faulty || MyLots in st.faulty then Thrown(st)
        else KickStep(st, a, t, loc)
  }

  /**
   * One call of Handle: an anonymous session is ignored; otherwise the
   * request is dispatched, and an exception from any collaborator call
   * ends the request with an UNKNOWN status.
   */
  function Step(st: State, session: Session, req: Request): (st': State)
    ensures session.anonymous ==> st' == st
    ensures Evolves(st, st')
    ensures !session.anonymous && !req.Poll? ==> EndsWithStatus(st', session.avatar)
  {
    if session.anonymous then st
    else match Dispatch(st, session.avatar, req)
      case Done(s) => s
      case Thrown(s) => Reply(s, session.avatar, Unknown)
  }
}
