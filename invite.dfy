/**
 * What the INVITE branch (lines 124-196 of ChangeRoommateHandler.cs)
 * answers, and the rows it creates and deletes.
 */
module InviteFacts {
  import opened Types
  import opened Queries
  import opened Semantics
  import opened Steps
  import opened TableFacts

  /** The UNKNOWN the INVITE branch sends, without returning, when the target avatar does not exist. */
  function MissingTarget(st: State, a: AvatarId, t: AvatarId): (n: seq<Envelope>)
    ensures n == [] <==> t in st.avatars
    ensures forall e :: e in n ==> e == StatusTo(a, Unknown)
    ensures |n| <= 1
    ensures (if t in st.avatars then st else Reply(st, a, Unknown)) == st.(outbox := st.outbox + n)
  {
    if t in st.avatars then [] else [StatusTo(a, Unknown)]
  }

  /** None of the calls an INVITE makes before it reads the target's rows throws. */
  predicate InviteOpens(st: State)
  {
    OpenStore !in st.faulty && OwnedLot !in st.faulty && MyLots !in st.faulty &&
    InviteTarget !in st.faulty && InviteTargetLots !in st.faulty
  }

  /** An INVITE of an avatar that already holds a row, pending or not, answers ROOMIE_ELSEWHERE. */
  lemma InviteTargetElsewhere(st: State, a: AvatarId, t: AvatarId)
    requires InviteOpens(st)
    requires RecordsOf(st.roommates, t) != []
    ensures Step(st, Session(a, false), Invite(t)) ==
      st.(outbox := st.outbox + MissingTarget(st, a, t) + [StatusTo(a, RoomieElsewhere)])
  {
    StepConcludes(st, a, Invite(t));
    Routes(st, a, Invite(t));
  }

  /**
   * An INVITE from an avatar without a row, or whose first row names a lot
   * that is gone, answers LOT_DOESNT_EXIST.
   */
  lemma InviteWithoutLot(st: State, a: AvatarId, t: AvatarId)
    requires InviteOpens(st) && InviteLot !in st.faulty
    requires RecordsOf(st.roommates, t) == []
    requires RecordsOf(st.roommates, a) == [] || RecordsOf(st.roommates, a)[0].lot !in st.lots
    ensures Step(st, Session(a, false), Invite(t)) ==
      st.(outbox := st.outbox + MissingTarget(st, a, t) + [StatusTo(a, LotDoesntExist)])
  {
    StepConcludes(st, a, Invite(t));
    Routes(st, a, Invite(t));
    InviteStepWithoutLot(st, a, t, RecordsOf(st.roommates, a));
  }

  /** The INVITE branch proper, for an inviter whose rows name no lot. */
  lemma InviteStepWithoutLot(st: State, a: AvatarId, t: AvatarId, mine: seq<Roommate>)
    requires InviteTarget !in st.faulty && InviteTargetLots !in st.faulty && InviteLot !in st.faulty
    requires RecordsOf(st.roommates, t) == []
    requires mine == [] || mine[0].lot !in st.lots
    ensures InviteStep(st, a, t, mine) ==
      Done(st.(outbox := st.outbox + MissingTarget(st, a, t) + [StatusTo(a, LotDoesntExist)]))
  {
    var s1 := if t in st.avatars then st else Reply(st, a, Unknown);
    if mine != [] {
      assert LotById(s1, mine[0].lot).None?;
    }
  }

  /** An INVITE from an avatar that does not own the lot of its first row answers YOU_ARE_NOT_OWNER. */
  lemma InviteNotOwner(st: State, a: AvatarId, t: AvatarId)
    requires InviteOpens(st) && InviteLot !in st.faulty
    requires RecordsOf(st.roommates, t) == [] && RecordsOf(st.roommates, a) != []
    requires RecordsOf(st.roommates, a)[0].lot in st.lots && st.lots[RecordsOf(st.roommates, a)[0].lot].owner != a
    ensures Step(st, Session(a, false), Invite(t)) ==
      st.(outbox := st.outbox + MissingTarget(st, a, t) + [StatusTo(a, YouAreNotOwner)])
  {
    StepConcludes(st, a, Invite(t));
    Routes(st, a, Invite(t));
  }

  /** An INVITE to a lot that holds the maximum of rows, none of them pending, answers TOO_MANY_ROOMMATES. */
  lemma InviteLotFull(st: State, a: AvatarId, t: AvatarId)
    requires InviteOpens(st) && InviteLot !in st.faulty && InviteRoomies !in st.faulty
    requires RecordsOf(st.roommates, t) == [] && RecordsOf(st.roommates, a) != []
    requires RecordsOf(st.roommates, a)[0].lot in st.lots && st.lots[RecordsOf(st.roommates, a)[0].lot].owner == a
    requires |LotRecords(st.roommates, RecordsOf(st.roommates, a)[0].lot)| >= Capacity
    requires forall x :: x in st.roommates && x.lot == RecordsOf(st.roommates, a)[0].lot ==> !x.pending
    ensures Step(st, Session(a, false), Invite(t)) ==
      st.(outbox := st.outbox + MissingTarget(st, a, t) + [StatusTo(a, TooManyRoommates)])
  {
    StepConcludes(st, a, Invite(t));
    Routes(st, a, Invite(t));
  }

  /**
   * An INVITE by the owner of a lot with room creates a pending row for the
   * target, echoes the invitation to the target when it is online, and
   * answers INVITE_SUCCESS.
   */
  lemma InviteCreatesRow(st: State, a: AvatarId, t: AvatarId)
    requires st.faulty == {}
    requires t in st.avatars && RecordsOf(st.roommates, t) == [] && RecordsOf(st.roommates, a) != []
    requires RecordsOf(st.roommates, a)[0].lot in st.lots && st.lots[RecordsOf(st.roommates, a)[0].lot].owner == a
    requires |LotRecords(st.roommates, RecordsOf(st.roommates, a)[0].lot)| < Capacity
    ensures var l := RecordsOf(st.roommates, a)[0].lot;
      Step(st, Session(a, false), Invite(t)) ==
        st.(roommates := st.roommates + [Roommate(t, l, true)],
            outbox := st.outbox + (if t in st.online then [Envelope(ToSession(t), InviteEcho(a, st.lots[l].location))] else []) +
                      [StatusTo(a, InviteSuccess)])
  {
    StepConcludes(st, a, Invite(t));
    Routes(st, a, Invite(t));
    var l := RecordsOf(st.roommates, a)[0].lot;
    var lot := DbLot(l, a, st.lots[l].location);
    InviteReachesAdmit(st, a, t);
    assert InviteAdmit(st, a, t, lot, LotRecords(st.roommates, l)) == InviteRecord(st, a, t, lot);
    assert CanCreate(st, t, l);
  }

  /** An INVITE by the owner of the lot of its first row, for a target without a row, reaches the capacity rule. */
  lemma InviteReachesAdmit(st: State, a: AvatarId, t: AvatarId)
    requires InviteTarget !in st.faulty && InviteTargetLots !in st.faulty && InviteLot !in st.faulty && InviteRoomies !in st.faulty
    requires RecordsOf(st.roommates, t) == [] && RecordsOf(st.roommates, a) != []
    requires RecordsOf(st.roommates, a)[0].lot in st.lots && st.lots[RecordsOf(st.roommates, a)[0].lot].owner == a
    ensures var l := RecordsOf(st.roommates, a)[0].lot;
      var s1 := if t in st.avatars then st else Reply(st, a, Unknown);
      InviteStep(st, a, t, RecordsOf(st.roommates, a)) == InviteAdmit(s1, a, t, DbLot(l, a, st.lots[l].location), LotRecords(st.roommates, l))
  {
  }

  /**
   * An INVITE by the owner of a full lot that holds a pending row deletes
   * the lot's oldest pending row, and, where its avatar holds no other row,
   * that row alone. The target's row is then created when the target exists;
   * when it does not, the store refuses it and the eviction stays, answered
   * UNKNOWN.
   */
  lemma InviteEvictsOldestPending(st: State, a: AvatarId, t: AvatarId) returns (i: nat)
    requires st.faulty == {}
    requires RecordsOf(st.roommates, t) == [] && RecordsOf(st.roommates, a) != []
    requires RecordsOf(st.roommates, a)[0].lot in st.lots && st.lots[RecordsOf(st.roommates, a)[0].lot].owner == a
    requires |LotRecords(st.roommates, RecordsOf(st.roommates, a)[0].lot)| >= Capacity
    requires First(LotRecords(st.roommates, RecordsOf(st.roommates, a)[0].lot), true).Some?
    requires OneRecordPerAvatar(st.roommates)
    ensures var l := RecordsOf(st.roommates, a)[0].lot;
      var p := First(LotRecords(st.roommates, l), true).value;
      && i < |st.roommates| && st.roommates[i] == p && p.lot == l && p.pending
      && Step(st, Session(a, false), Invite(t)).roommates ==
           st.roommates[..i] + st.roommates[i + 1..] + (if t in st.avatars then [Roommate(t, l, true)] else [])
    ensures var st' := Step(st, Session(a, false), Invite(t));
      st'.outbox[|st'.outbox| - 1] == StatusTo(a, if t in st.avatars then InviteSuccess else Unknown)
  {
    var rs := st.roommates;
    var l := RecordsOf(rs, a)[0].lot;
    i := OldestPendingCut(rs, l);
    var s2 := InviteReachesRecord(st, a, t);
    assert NoRecordOf(s2.roommates, t) by {
      assert NoRecordOf(rs, t);
    }
    assert CanCreate(s2, t, l) == (t in st.avatars);
    InviteRecordResult(s2, a, t, DbLot(l, a, st.lots[l].location));
  }

  /** A full lot with a pending row gets to Roommates.Create with the oldest pending row declined. */
  lemma InviteReachesRecord(st: State, a: AvatarId, t: AvatarId) returns (s2: State)
    requires st.faulty == {}
    requires RecordsOf(st.roommates, t) == [] && RecordsOf(st.roommates, a) != []
    requires RecordsOf(st.roommates, a)[0].lot in st.lots && st.lots[RecordsOf(st.roommates, a)[0].lot].owner == a
    requires |LotRecords(st.roommates, RecordsOf(st.roommates, a)[0].lot)| >= Capacity
    requires First(LotRecords(st.roommates, RecordsOf(st.roommates, a)[0].lot), true).Some?
    ensures var l := RecordsOf(st.roommates, a)[0].lot;
      var p := First(LotRecords(st.roommates, l), true).value;
      && s2 == (if t in st.avatars then st else Reply(st, a, Unknown)).(roommates := DeclinePending(st.roommates, p.avatar, p.lot))
      && Step(st, Session(a, false), Invite(t)) == Concluded(InviteRecord(s2, a, t, DbLot(l, a, st.lots[l].location)), a)
  {
    StepConcludes(st, a, Invite(t));
    Routes(st, a, Invite(t));
    InviteReachesAdmit(st, a, t);
    var l := RecordsOf(st.roommates, a)[0].lot;
    var p := First(LotRecords(st.roommates, l), true).value;
    var s1 := if t in st.avatars then st else Reply(st, a, Unknown);
    s2 := s1.(roommates := DeclinePending(st.roommates, p.avatar, p.lot));
    assert s1.roommates == st.roommates;
    assert InviteAdmit(s1, a, t, DbLot(l, a, st.lots[l].location), LotRecords(st.roommates, l)) ==
      InviteRecord(s2, a, t, DbLot(l, a, st.lots[l].location));
  }

  /** Roommates.Create adds the pending row exactly when the store accepts it, and the answer says which. */
  lemma InviteRecordResult(st: State, a: AvatarId, t: AvatarId, lot: DbLot)
    requires InviteCreate !in st.faulty
    ensures InviteRecord(st, a, t, lot).Done?
    ensures InviteRecord(st, a, t, lot).state.roommates ==
      st.roommates + (if CanCreate(st, t, lot.id) then [Roommate(t, lot.id, true)] else [])
    ensures var o := InviteRecord(st, a, t, lot).state.outbox;
      o[|o| - 1] == StatusTo(a, if CanCreate(st, t, lot.id) then InviteSuccess else Unknown)
  {
  }
}
