/**
 * What the KICK branch (lines 197-300 of ChangeRoommateHandler.cs) answers,
 * the rows it removes, the owner it leaves, and whom it notifies.
 */
module KickFacts {
  import opened Types
  import opened Queries
  import opened Semantics
  import opened Steps
  import opened TableFacts

  /**
   * Every notice of the KICK broadcast goes to a confirmed row of the list
   * whose avatar is online, is not the requester, and is not the target of a
   * self-delete; the target is told GOT_KICKED, the others ROOMMATE_LEFT, and
   * the extra field names the target.
   */
  lemma {:induction false} KickNoticesSound(list: seq<Roommate>, a: AvatarId, t: AvatarId, selfDelete: bool, online: set<AvatarId>)
    ensures forall e :: e in KickNotices(list, a, t, selfDelete, online) ==>
      && e.to.ToSession?
      && e.to.avatar != a
      && e.to.avatar in online
      && HasConfirmed(list, e.to.avatar)
      && !(selfDelete && e.to.avatar == t)
      && e.msg == Response(if e.to.avatar == t then GotKicked else RoommateLeft, t)
    decreases |list|
  {
    if list != [] {
      var m := |list| - 1;
      KickNoticesSound(list[..m], a, t, selfDelete, online);
      forall e | e in KickNotices(list, a, t, selfDelete, online)
        ensures HasConfirmed(list, e.to.avatar)
      {
        if e in KickNotices(list[..m], a, t, selfDelete, online) {
          var x :| x in list[..m] && x.avatar == e.to.avatar && !x.pending;
          assert x in list;
        } else {
          assert list[m] in list;
        }
      }
    }
  }

  /** Every confirmed, online row of the list other than the requester and a self-deleting target is notified. */
  lemma {:induction false} KickNoticesComplete(list: seq<Roommate>, a: AvatarId, t: AvatarId, selfDelete: bool, online: set<AvatarId>)
    ensures forall r :: r in list && !r.pending && r.avatar != a && r.avatar in online && !(selfDelete && r.avatar == t) ==>
      Envelope(ToSession(r.avatar), Response(if r.avatar == t then GotKicked else RoommateLeft, t))
        in KickNotices(list, a, t, selfDelete, online)
    decreases |list|
  {
    if list != [] {
      var m := |list| - 1;
      KickNoticesComplete(list[..m], a, t, selfDelete, online);
      forall r | r in list && !r.pending && r.avatar != a && r.avatar in online && !(selfDelete && r.avatar == t)
        ensures Envelope(ToSession(r.avatar), Response(if r.avatar == t then GotKicked else RoommateLeft, t))
          in KickNotices(list, a, t, selfDelete, online)
      {
        assert list == list[..m] + [list[m]];
        if r != list[m] {
          assert r in list[..m];
        }
      }
    }
  }

  /** None of the calls a KICK makes before it reads the lot's rows throws. */
  predicate KickOpens(st: State)
  {
    OpenStore !in st.faulty && OwnedLot !in st.faulty && MyLots !in st.faulty &&
    KickLookup !in st.faulty && KickRoomies !in st.faulty
  }

  /** A KICK at a location without a lot answers UNKNOWN and changes nothing else. */
  lemma KickUnknownLot(st: State, a: AvatarId, t: AvatarId, loc: Location)
    requires KickOpens(st) && LotByLocation(st, loc).None?
    ensures Step(st, Session(a, false), Kick(t, loc)) == st.(outbox := st.outbox + [StatusTo(a, Unknown)])
  {
    StepConcludes(st, a, Kick(t, loc));
    Routes(st, a, Kick(t, loc));
  }

  /**
   * A lot down to one confirmed roommate cannot lose it: the KICK answers
   * UNKNOWN, owner or not, and changes nothing else.
   */
  lemma KickLastRoommate(st: State, a: AvatarId, t: AvatarId, loc: Location)
    requires KickOpens(st) && LotByLocation(st, loc).Some?
    requires ConfirmedCount(LotRecords(st.roommates, LotByLocation(st, loc).value.id)) <= 1
    ensures Step(st, Session(a, false), Kick(t, loc)) == st.(outbox := st.outbox + [StatusTo(a, Unknown)])
  {
    StepConcludes(st, a, Kick(t, loc));
    Routes(st, a, Kick(t, loc));
  }

  /** A KICK of an avatar that is not a confirmed roommate of the lot answers YOU_ARE_NOT_ROOMMATE. */
  lemma KickNotRoommate(st: State, a: AvatarId, t: AvatarId, loc: Location)
    requires KickOpens(st) && LotByLocation(st, loc).Some?
    requires ConfirmedCount(LotRecords(st.roommates, LotByLocation(st, loc).value.id)) > 1
    requires !HasConfirmed(LotRecords(st.roommates, LotByLocation(st, loc).value.id), t)
    ensures Step(st, Session(a, false), Kick(t, loc)) == st.(outbox := st.outbox + [StatusTo(a, YouAreNotRoommate)])
  {
    StepConcludes(st, a, Kick(t, loc));
    Routes(st, a, Kick(t, loc));
  }

  /** Only the owner may remove someone else: anyone else gets YOU_ARE_NOT_OWNER. */
  lemma KickNotOwner(st: State, a: AvatarId, t: AvatarId, loc: Location)
    requires KickOpens(st) && LotByLocation(st, loc).Some?
    requires ConfirmedCount(LotRecords(st.roommates, LotByLocation(st, loc).value.id)) > 1
    requires HasConfirmed(LotRecords(st.roommates, LotByLocation(st, loc).value.id), t)
    requires a != t && LotByLocation(st, loc).value.owner != a
    ensures Step(st, Session(a, false), Kick(t, loc)) == st.(outbox := st.outbox + [StatusTo(a, YouAreNotOwner)])
  {
    StepConcludes(st, a, Kick(t, loc));
    Routes(st, a, Kick(t, loc));
  }

  /**
   * An allowed KICK always removes a row (the YOU_ARE_NOT_ROOMMATE answer
   * after RemoveRoommate cannot happen), reassigns the lot when its owner
   * leaves, and then reaches the cache, lot-server and broadcast steps.
   */
  lemma KickReachesFinish(st: State, a: AvatarId, t: AvatarId, loc: Location) returns (s2: State)
    requires st.faulty == {} && LotByLocation(st, loc).Some?
    requires ConfirmedCount(LotRecords(st.roommates, LotByLocation(st, loc).value.id)) > 1
    requires HasConfirmed(LotRecords(st.roommates, LotByLocation(st, loc).value.id), t)
    requires a == t || LotByLocation(st, loc).value.owner == a
    ensures var lot := LotByLocation(st, loc).value;
      var s1 := st.(roommates := RemoveMember(st.roommates, t, lot.id));
      && CountMatching(st.roommates, t, lot.id) > 0
      && s2 == (if a == t && lot.owner == a then ReassignedOwner(s1, lot.id) else s1)
      && s2 == st.(roommates := s1.roommates, lots := s2.lots)
      && s2.lots.Keys == st.lots.Keys
      && (forall m :: m in st.lots && m != lot.id ==> s2.lots[m] == st.lots[m])
      && (!(a == t && lot.owner == a) ==> s2.lots == st.lots)
      && Step(st, Session(a, false), Kick(t, loc)) ==
           Concluded(KickFinish(s2, a, t, loc, lot, LotRecords(st.roommates, lot.id), a == t), a)
  {
    StepConcludes(st, a, Kick(t, loc));
    Routes(st, a, Kick(t, loc));
    var lot := LotByLocation(st, loc).value;
    var list := LotRecords(st.roommates, lot.id);
    var x :| x in list && x.avatar == t && !x.pending;
    assert x in st.roommates && x.lot == lot.id;
    assert KickStep(st, a, t, loc) == KickRemoval(st, a, t, loc, lot, list, a == t);
    var s1 := st.(roommates := RemoveMember(st.roommates, t, lot.id));
    assert CountMatching(st.roommates, t, lot.id) > 0;
    assert KickRemoval(st, a, t, loc, lot, list, a == t) == KickHandOver(s1, a, t, loc, lot, list, a == t);
    s2 := if a == t && lot.owner == a then ReassignedOwner(s1, lot.id) else s1;
    assert KickHandOver(s1, a, t, loc, lot, list, a == t) == KickFinish(s2, a, t, loc, lot, list, a == t);
  }

  /** The cached Lot after a KICK of `t`: `t` leaves its roommate vector, the owner vector is reset. */
  function KickedEntries(st: State, t: AvatarId, loc: Location, l: LotId): map<Location, LotEntry>
    requires l in st.lots
  {
    if loc in st.lotCache
    then st.lotCache[loc := LotEntry(RemoveFirst(st.lotCache[loc].roommateVec, t), [st.lots[l].owner])]
    else st.lotCache
  }

  lemma KickLotEntryDone(st: State, t: AvatarId, loc: Location, l: LotId)
    requires KickNewLot !in st.faulty && l in st.lots
    ensures KickLotEntry(st, t, loc, l) == Done(st.(lotCache := KickedEntries(st, t, loc, l)))
  {
  }

  lemma KickBroadcastDone(st: State, a: AvatarId, t: AvatarId, list: seq<Roommate>, selfDelete: bool)
    requires KickAvatarCache !in st.faulty
    ensures var r := KickBroadcast(st, a, t, list, selfDelete);
      && r.Done?
      && r.state == st.(avatarCache := r.state.avatarCache, outbox := r.state.outbox)
      && r.state.avatarCache == (if t in st.avatarCache then st.avatarCache[t := 0] else st.avatarCache)
      && r.state.outbox == st.outbox + KickNotices(list, a, t, selfDelete, st.online) +
                           [StatusTo(a, if selfDelete then SelfkickSuccess else KickSuccess)]
  {
  }

  lemma KickNotifyDone(st: State, a: AvatarId, t: AvatarId, lot: DbLot, list: seq<Roommate>, selfDelete: bool)
    requires KickClaim !in st.faulty && KickForceOpen !in st.faulty && KickAvatarCache !in st.faulty
    ensures var r := KickNotify(st, a, t, lot, list, selfDelete);
      && r.Done?
      && r.state == st.(avatarCache := r.state.avatarCache, forcedOpen := r.state.forcedOpen, outbox := r.state.outbox)
      && r.state.avatarCache == (if t in st.avatarCache then st.avatarCache[t := 0] else st.avatarCache)
      && r.state.forcedOpen == (if lot.id in st.claims then st.forcedOpen else st.forcedOpen + [lot.location])
      && r.state.outbox == st.outbox + LotServerNote(st, lot.id, t, RoommateRemoved) +
                           KickNotices(list, a, t, selfDelete, st.online) +
                           [StatusTo(a, if selfDelete then SelfkickSuccess else KickSuccess)]
  {
    var s1 :=
      if lot.id in st.claims then NotifyLotServer(st, lot.id, t, RoommateRemoved)
      else st.(forcedOpen := st.forcedOpen + [lot.location]);
    assert s1 == st.(forcedOpen := s1.forcedOpen, outbox := st.outbox + LotServerNote(st, lot.id, t, RoommateRemoved));
    KickBroadcastDone(s1, a, t, list, selfDelete);
  }

  /** The steps after the removal, when nothing throws. */
  lemma KickFinishDone(st: State, a: AvatarId, t: AvatarId, loc: Location, lot: DbLot, list: seq<Roommate>, selfDelete: bool)
    requires st.faulty == {} && lot.id in st.lots
    ensures var r := KickFinish(st, a, t, loc, lot, list, selfDelete);
      && r.Done?
      && r.state == st.(lotCache := r.state.lotCache, avatarCache := r.state.avatarCache,
                        forcedOpen := r.state.forcedOpen, outbox := r.state.outbox)
      && r.state.lotCache == KickedEntries(st, t, loc, lot.id)
      && r.state.avatarCache == (if t in st.avatarCache then st.avatarCache[t := 0] else st.avatarCache)
      && r.state.forcedOpen == (if lot.id in st.claims then st.forcedOpen else st.forcedOpen + [lot.location])
      && r.state.outbox == st.outbox + LotServerNote(st, lot.id, t, RoommateRemoved) +
                           KickNotices(list, a, t, selfDelete, st.online) +
                           [StatusTo(a, if selfDelete then SelfkickSuccess else KickSuccess)]
  {
    KickLotEntryDone(st, t, loc, lot.id);
    var s1 := st.(lotCache := KickedEntries(st, t, loc, lot.id));
    KickNotifyDone(s1, a, t, lot, list, selfDelete);
  }

  /**
   * An allowed KICK removes every row (t, lot) and only those, hands the lot
   * to a new owner only when its owner leaves, forces the lot open when no
   * lot server claims it, and sends the lot-server notice, the broadcast to
   * the list read before the removal, and the KICK/SELFKICK success reply.
   */
  lemma KickRemovesMember(st: State, a: AvatarId, t: AvatarId, loc: Location)
    requires st.faulty == {} && LotByLocation(st, loc).Some?
    requires ConfirmedCount(LotRecords(st.roommates, LotByLocation(st, loc).value.id)) > 1
    requires HasConfirmed(LotRecords(st.roommates, LotByLocation(st, loc).value.id), t)
    requires a == t || LotByLocation(st, loc).value.owner == a
    ensures var lot := LotByLocation(st, loc).value;
      var list := LotRecords(st.roommates, lot.id);
      var st' := Step(st, Session(a, false), Kick(t, loc));
      && st'.roommates == RemoveMember(st.roommates, t, lot.id)
      && |st'.roommates| < |st.roommates|
      && st'.lots.Keys == st.lots.Keys
      && (forall m :: m in st.lots && m != lot.id ==> st'.lots[m] == st.lots[m])
      && (!(a == t && lot.owner == a) ==> st'.lots == st.lots)
      && st'.forcedOpen == (if lot.id in st.claims then st.forcedOpen else st.forcedOpen + [lot.location])
      && st'.outbox == st.outbox + LotServerNote(st, lot.id, t, RoommateRemoved) +
                       KickNotices(list, a, t, a == t, st.online) +
                       [StatusTo(a, if a == t then SelfkickSuccess else KickSuccess)]
  {
    var lot := LotByLocation(st, loc).value;
    var s2 := KickReachesFinish(st, a, t, loc);
    KickFinishDone(s2, a, t, loc, lot, LotRecords(st.roommates, lot.id), a == t);
  }

  /**
   * After an allowed KICK the target's cached avatar is at lot 0, and the
   * cached lot has lost the target from its roommate vector and shows the
   * lot's owner after the KICK as its only owner.
   */
  lemma KickUpdatesCache(st: State, a: AvatarId, t: AvatarId, loc: Location)
    requires st.faulty == {} && LotByLocation(st, loc).Some?
    requires ConfirmedCount(LotRecords(st.roommates, LotByLocation(st, loc).value.id)) > 1
    requires HasConfirmed(LotRecords(st.roommates, LotByLocation(st, loc).value.id), t)
    requires a == t || LotByLocation(st, loc).value.owner == a
    ensures var l := LotByLocation(st, loc).value.id;
      var st' := Step(st, Session(a, false), Kick(t, loc));
      && l in st'.lots
      && st'.avatarCache == (if t in st.avatarCache then st.avatarCache[t := 0] else st.avatarCache)
      && st'.lotCache == (if loc in st.lotCache
                          then st.lotCache[loc := LotEntry(RemoveFirst(st.lotCache[loc].roommateVec, t), [st'.lots[l].owner])]
                          else st.lotCache)
  {
    var lot := LotByLocation(st, loc).value;
    var s2 := KickReachesFinish(st, a, t, loc);
    KickFinishDone(s2, a, t, loc, lot, LotRecords(st.roommates, lot.id), a == t);
  }

  /**
   * When the owner removes themself from a table that keeps one row per
   * avatar, the lot passes to a confirmed roommate who is still in it and is
   * not the old owner, and whose row is the oldest confirmed row left in the
   * lot: a lot is never left owned by someone who left it.
   */
  lemma KickOwnerLeaves(st: State, a: AvatarId, loc: Location)
    requires st.faulty == {} && OneRecordPerAvatar(st.roommates) && LotByLocation(st, loc).Some?
    requires LotByLocation(st, loc).value.owner == a
    requires ConfirmedCount(LotRecords(st.roommates, LotByLocation(st, loc).value.id)) > 1
    requires HasConfirmed(LotRecords(st.roommates, LotByLocation(st, loc).value.id), a)
    ensures var l := LotByLocation(st, loc).value.id;
      var st' := Step(st, Session(a, false), Kick(a, loc));
      && l in st'.lots
      && st'.lots[l].owner != a
      && Roommate(st'.lots[l].owner, l, false) in st'.roommates
      && First(LotRecords(st'.roommates, l), false) == Some(Roommate(st'.lots[l].owner, l, false))
  {
    var lot := LotByLocation(st, loc).value;
    var l := lot.id;
    var list := LotRecords(st.roommates, l);
    LotRecordsOfAvatar(st.roommates, l, a);
    ConfirmedOther(list, a);
    var x :| x in list && !x.pending && x.avatar != a;
    var rest := RemoveMember(st.roommates, a, l);
    assert x in LotRecords(rest, l);
    var o := First(LotRecords(rest, l), false);
    assert o.Some?;
    assert o.value in rest && o.value == Roommate(o.value.avatar, l, false);
    var s2 := KickReachesFinish(st, a, a, loc);
    assert s2.lots[l].owner == o.value.avatar;
    KickFinishDone(s2, a, a, loc, lot, list, true);
  }
}
