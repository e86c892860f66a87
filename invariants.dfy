/**
 * What every call of Handle keeps: no avatar gains a second row, no lot
 * grows past the roommate cap, and the lot table changes only when an
 * owner removes themself.
 */
module Invariants {
  import opened Types
  import opened Queries
  import opened Semantics
  import opened Steps
  import opened TableFacts

  function Max(x: nat, y: nat): (m: nat)
    ensures m >= x && m >= y && (m == x || m == y)
  {
    if x >= y then x else y
  }

  /** From `rs` to `rs'` no avatar's rows and no lot's rows became more numerous. */
  ghost predicate Shrunk(rs: seq<Roommate>, rs': seq<Roommate>)
  {
    && (forall b :: |RecordsOf(rs', b)| <= |RecordsOf(rs, b)|)
    && (forall m :: |LotRecords(rs', m)| <= |LotRecords(rs, m)|)
  }

  /**
   * From `rs` to `rs'` an avatar grows to at most one row, and a lot to at
   * most `Capacity` rows; a count already above stays where it was or drops.
   */
  ghost predicate Bounded(rs: seq<Roommate>, rs': seq<Roommate>)
  {
    && (forall b :: |RecordsOf(rs', b)| <= Max(1, |RecordsOf(rs, b)|))
    && (forall m :: |LotRecords(rs', m)| <= Max(Capacity, |LotRecords(rs, m)|))
  }

  lemma ShrunkBounded(rs: seq<Roommate>, rs': seq<Roommate>)
    requires Shrunk(rs, rs')
    ensures Bounded(rs, rs')
  {
    forall b ensures |RecordsOf(rs', b)| <= Max(1, |RecordsOf(rs, b)|) {
      assert |RecordsOf(rs', b)| <= |RecordsOf(rs, b)|;
    }
    forall m ensures |LotRecords(rs', m)| <= Max(Capacity, |LotRecords(rs, m)|) {
      assert |LotRecords(rs', m)| <= |LotRecords(rs, m)|;
    }
  }

  lemma AcceptShrinks(rs: seq<Roommate>, a: AvatarId, l: LotId)
    ensures Shrunk(rs, AcceptPending(rs, a, l))
  {
    forall b ensures |RecordsOf(AcceptPending(rs, a, l), b)| <= |RecordsOf(rs, b)| {
      AcceptPendingCounts(rs, a, l, b, l);
    }
    forall m ensures |LotRecords(AcceptPending(rs, a, l), m)| <= |LotRecords(rs, m)| {
      AcceptPendingCounts(rs, a, l, a, m);
    }
  }

  lemma DeclineShrinks(rs: seq<Roommate>, a: AvatarId, l: LotId)
    ensures Shrunk(rs, DeclinePending(rs, a, l))
  {
    forall b ensures |RecordsOf(DeclinePending(rs, a, l), b)| <= |RecordsOf(rs, b)| {
      DeclinePendingCounts(rs, a, l, b, l);
    }
    forall m ensures |LotRecords(DeclinePending(rs, a, l), m)| <= |LotRecords(rs, m)| {
      DeclinePendingCounts(rs, a, l, a, m);
    }
  }

  lemma RemoveShrinks(rs: seq<Roommate>, a: AvatarId, l: LotId)
    ensures Shrunk(rs, RemoveMember(rs, a, l))
  {
    forall b ensures |RecordsOf(RemoveMember(rs, a, l), b)| <= |RecordsOf(rs, b)| {
      RemoveMemberCounts(rs, a, l, b, l);
    }
    forall m ensures |LotRecords(RemoveMember(rs, a, l), m)| <= |LotRecords(rs, m)| {
      RemoveMemberCounts(rs, a, l, a, m);
    }
  }

  /**
   * Appending a row for an avatar without rows, to a lot that has room
   * for one more under the bound, keeps the table bounded.
   */
  lemma AddBounded(rs: seq<Roommate>, rs2: seq<Roommate>, r: Roommate)
    requires Shrunk(rs, rs2) && NoRecordOf(rs2, r.avatar)
    requires |LotRecords(rs2, r.lot)| < Max(Capacity, |LotRecords(rs, r.lot)|)
    ensures Bounded(rs, rs2 + [r])
  {
    assert [r][1..] == [];
    forall b ensures |RecordsOf(rs2 + [r], b)| <= Max(1, |RecordsOf(rs, b)|) {
      RecordsOfAppend(rs2, [r], b);
      assert |RecordsOf([r], b)| == if r.avatar == b then 1 else 0;
      if b == r.avatar {
        NoRecordsOf(rs2, b);
      }
    }
    forall m ensures |LotRecords(rs2 + [r], m)| <= Max(Capacity, |LotRecords(rs, m)|) {
      LotRecordsAppend(rs2, [r], m);
      assert |LotRecords([r], m)| == if r.lot == m then 1 else 0;
    }
  }

  lemma {:induction false} NoRecordsOf(rs: seq<Roommate>, a: AvatarId)
    requires NoRecordOf(rs, a)
    ensures RecordsOf(rs, a) == []
  {
    if rs != [] {
      assert rs[0] in rs;
      NoRecordsOf(rs[1..], a);
    }
  }

  // Branch by branch: the table stays bounded and the lot table stays put.

  lemma AcceptKeeps(st: State, a: AvatarId, loc: Location)
    ensures Bounded(st.roommates, AcceptStep(st, a, loc).state.roommates)
    ensures AcceptStep(st, a, loc).state.lots == st.lots
  {
    var rs := st.roommates;
    var rs' := AcceptStep(st, a, loc).state.roommates;
    if rs' == rs {
      ShrunkBounded(rs, rs);
    } else {
      var l := LotByLocation(st, loc).value.id;
      assert rs' == AcceptPending(rs, a, l);
      AcceptShrinks(rs, a, l);
      ShrunkBounded(rs, rs');
    }
  }

  lemma DeclineKeeps(st: State, a: AvatarId, loc: Location)
    ensures Bounded(st.roommates, DeclineStep(st, a, loc).state.roommates)
    ensures DeclineStep(st, a, loc).state.lots == st.lots
  {
    var rs := st.roommates;
    var rs' := DeclineStep(st, a, loc).state.roommates;
    if rs' == rs {
      ShrunkBounded(rs, rs);
    } else {
      var l := LotByLocation(st, loc).value.id;
      assert rs' == DeclinePending(rs, a, l);
      DeclineShrinks(rs, a, l);
      ShrunkBounded(rs, rs');
    }
  }

  /** Roommates.Create adds one row, for an avatar that had none, or nothing. */
  lemma InviteRecordRows(st: State, a: AvatarId, t: AvatarId, lot: DbLot)
    ensures var st' := InviteRecord(st, a, t, lot).state;
      && st'.lots == st.lots
      && (st'.roommates == st.roommates ||
          (NoRecordOf(st.roommates, t) && st'.roommates == st.roommates + [Roommate(t, lot.id, true)]))
  {
  }

  lemma InviteAdmitKeeps(st: State, a: AvatarId, t: AvatarId, lot: DbLot, roomies: seq<Roommate>)
    requires roomies == LotRecords(st.roommates, lot.id)
    ensures Bounded(st.roommates, InviteAdmit(st, a, t, lot, roomies).state.roommates)
    ensures InviteAdmit(st, a, t, lot, roomies).state.lots == st.lots
  {
    var rs := st.roommates;
    var full := |roomies| >= Capacity;
    if full && First(roomies, true).None? {
      ShrunkBounded(rs, rs);
    } else if full && InviteEvict in st.faulty {
      ShrunkBounded(rs, rs);
    } else {
      var s2 :=
        if full then
          var p := First(roomies, true).value;
          st.(roommates := DeclinePending(st.roommates, p.avatar, p.lot))
        else st;
      assert InviteAdmit(st, a, t, lot, roomies) == InviteRecord(s2, a, t, lot);
      if full {
        var p := First(roomies, true).value;
        assert p in roomies;
        DeclineShrinks(rs, p.avatar, p.lot);
        DeclinePendingCounts(rs, p.avatar, p.lot, p.avatar, lot.id);
      } else {
        ShrunkBounded(rs, rs);
      }
      InviteRecordRows(s2, a, t, lot);
      var rs' := InviteRecord(s2, a, t, lot).state.roommates;
      if rs' == s2.roommates {
        ShrunkBounded(rs, s2.roommates);
      } else {
        AddBounded(rs, s2.roommates, Roommate(t, lot.id, true));
      }
    }
  }

  lemma InviteKeeps(st: State, a: AvatarId, t: AvatarId, myLots: seq<Roommate>)
    ensures Bounded(st.roommates, InviteStep(st, a, t, myLots).state.roommates)
    ensures InviteStep(st, a, t, myLots).state.lots == st.lots
  {
    var s1 := if t in st.avatars then st else Reply(st, a, Unknown);
    assert s1.roommates == st.roommates && s1.lots == st.lots;
    if InviteTarget in st.faulty || InviteTargetLots in st.faulty || |RecordsOf(s1.roommates, t)| > 0 ||
       myLots == [] || InviteLot in st.faulty || LotById(s1, myLots[0].lot).None? {
      ShrunkBounded(st.roommates, st.roommates);
    } else {
      var lot := LotById(s1, myLots[0].lot).value;
      if lot.owner != a || InviteRoomies in st.faulty {
        ShrunkBounded(st.roommates, st.roommates);
      } else {
        assert InviteStep(st, a, t, myLots) == InviteAdmit(s1, a, t, lot, LotRecords(s1.roommates, lot.id));
        InviteAdmitKeeps(s1, a, t, lot, LotRecords(s1.roommates, lot.id));
      }
    }
  }

  /**
   * The removal and what follows it keep the roommate table bounded, and
   * change the lots only when the owner deletes themself (Lots.ReassignOwner).
   */
  lemma KickRemovalKeeps(st: State, a: AvatarId, t: AvatarId, loc: Location, lot: DbLot, list: seq<Roommate>, selfDelete: bool)
    ensures var st' := KickRemoval(st, a, t, loc, lot, list, selfDelete).state;
      && Bounded(st.roommates, st'.roommates)
      && (st'.lots == st.lots || (selfDelete && lot.owner == a))
  {
    if KickRemove in st.faulty {
      ShrunkBounded(st.roommates, st.roommates);
    } else {
      var rs' := RemoveMember(st.roommates, t, lot.id);
      assert KickRemoval(st, a, t, loc, lot, list, selfDelete).state.roommates == rs';
      RemoveShrinks(st.roommates, t, lot.id);
      ShrunkBounded(st.roommates, rs');
    }
  }

  lemma KickKeeps(st: State, a: AvatarId, t: AvatarId, loc: Location)
    ensures var st' := KickStep(st, a, t, loc).state;
      && Bounded(st.roommates, st'.roommates)
      && (st'.lots == st.lots ||
          (t == a && LotByLocation(st, loc).Some? && LotByLocation(st, loc).value.owner == a))
  {
    if KickLookup in st.faulty || LotByLocation(st, loc).None? || KickRoomies in st.faulty {
      ShrunkBounded(st.roommates, st.roommates);
    } else {
      var lot := LotByLocation(st, loc).value;
      var list := LotRecords(st.roommates, lot.id);
      if ConfirmedCount(list) <= 1 || !HasConfirmed(list, t) || (a != t && lot.owner != a) {
        ShrunkBounded(st.roommates, st.roommates);
      } else {
        assert KickStep(st, a, t, loc) == KickRemoval(st, a, t, loc, lot, list, a == t);
        KickRemovalKeeps(st, a, t, loc, lot, list, a == t);
      }
    }
  }

  /** The branch a request of a signed-in avatar runs keeps the bounds, and the lots unless an owner leaves. */
  lemma DispatchKeeps(st: State, a: AvatarId, req: Request)
    ensures var st' := Dispatch(st, a, req).state;
      && Bounded(st.roommates, st'.roommates)
      && (st'.lots == st.lots ||
          (req.Kick? && req.target == a && LotByLocation(st, req.location).Some? &&
           LotByLocation(st, req.location).value.owner == a))
  {
    ShrunkBounded(st.roommates, st.roommates);
    if OpenStore !in st.faulty {
      match req
      case Poll =>
      case Accept(loc) => AcceptKeeps(st, a, loc);
      case Decline(loc) => DeclineKeeps(st, a, loc);
      case Invite(t) =>
        if OwnedLot !in st.faulty && MyLots !in st.faulty {
          InviteKeeps(st, a, t, RecordsOf(st.roommates, a));
        }
      case Kick(t, loc) =>
        if OwnedLot !in st.faulty && MyLots !in st.faulty {
          KickKeeps(st, a, t, loc);
        }
    }
  }

  /**
   * Whatever the request and whichever calls throw, no avatar ends with more
   * than one row unless it had more before, and no lot ends with more than
   * `Capacity` rows unless it had more before. In particular a full lot's
   * count is never raised by an INVITE.
   */
  lemma StepBounded(st: State, session: Session, req: Request)
    ensures Bounded(st.roommates, Step(st, session, req).roommates)
  {
    if session.anonymous {
      ShrunkBounded(st.roommates, st.roommates);
    } else {
      StepConcludes(st, session.avatar, req);
      DispatchKeeps(st, session.avatar, req);
    }
  }

  /** The table's two rules, one row per avatar and at most `Capacity` rows per lot, survive every request. */
  lemma StepKeepsTableRules(st: State, session: Session, req: Request)
    requires OneRecordPerAvatar(st.roommates) && WithinCapacity(st.roommates)
    ensures var st' := Step(st, session, req);
      OneRecordPerAvatar(st'.roommates) && WithinCapacity(st'.roommates)
  {
    var rs' := Step(st, session, req).roommates;
    StepBounded(st, session, req);
    forall b ensures |RecordsOf(rs', b)| <= 1 {
      assert |RecordsOf(st.roommates, b)| <= 1;
    }
    forall m ensures |LotRecords(rs', m)| <= Capacity {
      assert |LotRecords(st.roommates, m)| <= Capacity;
    }
  }

  /** The lot table changes only by a KICK in which the lot's owner removes themself. */
  lemma StepLotsChange(st: State, session: Session, req: Request)
    requires Step(st, session, req).lots != st.lots
    ensures !session.anonymous && req.Kick? && req.target == session.avatar
    ensures LotByLocation(st, req.location).Some? && LotByLocation(st, req.location).value.owner == session.avatar
  {
    StepConcludes(st, session.avatar, req);
    DispatchKeeps(st, session.avatar, req);
  }
}
