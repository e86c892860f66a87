/** What the ACCEPT branch (lines 70-103 of ChangeRoommateHandler.cs) changes and answers. */
module AcceptFacts {
  import opened Types
  import opened Queries
  import opened Semantics
  import opened Steps
  import opened TableFacts

  /** ACCEPT at a location without a lot answers LOT_DOESNT_EXIST and changes nothing else. */
  lemma AcceptUnknownLot(st: State, a: AvatarId, loc: Location)
    requires OpenStore !in st.faulty && AcceptLookup !in st.faulty
    requires LotByLocation(st, loc).None?
    ensures Step(st, Session(a, false), Accept(loc)) == Sent(st, [StatusTo(a, LotDoesntExist)])
  {
    StepConcludes(st, a, Accept(loc));
    Routes(st, a, Accept(loc));
  }

  /**
   * ACCEPT without a pending invitation to the lot answers NO_INVITE_PENDING
   * and touches neither the table, the caches nor a lot server.
   */
  lemma AcceptWithoutInvite(st: State, a: AvatarId, loc: Location)
    requires OpenStore !in st.faulty && AcceptLookup !in st.faulty && AcceptUpdate !in st.faulty
    requires LotByLocation(st, loc).Some? && Roommate(a, LotByLocation(st, loc).value.id, true) !in st.roommates
    ensures Step(st, Session(a, false), Accept(loc)) == Sent(st, [StatusTo(a, NoInvitePending)])
  {
    StepConcludes(st, a, Accept(loc));
    Routes(st, a, Accept(loc));
  }

  /**
   * A successful ACCEPT confirms the invitation, tells the lot's server and
   * answers ACCEPT_SUCCESS; lots and force-open requests stay as they were.
   */
  lemma AcceptJoinsLot(st: State, a: AvatarId, loc: Location)
    requires st.faulty == {}
    requires LotByLocation(st, loc).Some? && Roommate(a, LotByLocation(st, loc).value.id, true) in st.roommates
    ensures var l := LotByLocation(st, loc).value.id;
      var st' := Step(st, Session(a, false), Accept(loc));
      && st'.roommates == AcceptPending(st.roommates, a, l)
      && Roommate(a, l, false) in st'.roommates && Roommate(a, l, true) !in st'.roommates
      && st'.lots == st.lots && st'.forcedOpen == st.forcedOpen
      && st'.outbox == st.outbox + LotServerNote(st, l, a, RoommateAdded) + [StatusTo(a, AcceptSuccess)]
  {
    var l := LotByLocation(st, loc).value.id;
    AcceptConfirms(st.roommates, a, l);
    var s3 := AcceptThrough(st, a, loc);
  }

  /**
   * A successful ACCEPT appends the requester to the cached lot's roommate
   * vector and sets the cached avatar's Avatar_LotGridXY to the location;
   * no other cache entry changes.
   */
  lemma AcceptUpdatesCache(st: State, a: AvatarId, loc: Location)
    requires st.faulty == {}
    requires LotByLocation(st, loc).Some? && Roommate(a, LotByLocation(st, loc).value.id, true) in st.roommates
    ensures var st' := Step(st, Session(a, false), Accept(loc));
      && st'.lotCache.Keys == st.lotCache.Keys
      && (loc in st.lotCache ==> st'.lotCache[loc].roommateVec == st.lotCache[loc].roommateVec + [a])
      && (forall k :: k in st.lotCache && k != loc ==> st'.lotCache[k] == st.lotCache[k])
      && st'.avatarCache.Keys == st.avatarCache.Keys
      && (a in st.avatarCache ==> st'.avatarCache[a] == loc)
      && (forall b :: b in st.avatarCache && b != a ==> st'.avatarCache[b] == st.avatarCache[b])
  {
    var s3 := AcceptThrough(st, a, loc);
  }

  /** The state a fault-free ACCEPT reaches just before the avatar cache is updated. */
  lemma AcceptThrough(st: State, a: AvatarId, loc: Location) returns (s3: State)
    requires st.faulty == {}
    requires LotByLocation(st, loc).Some? && Roommate(a, LotByLocation(st, loc).value.id, true) in st.roommates
    ensures var l := LotByLocation(st, loc).value.id;
      && s3 == NotifyLotServer(CacheAddRoommate(st.(roommates := AcceptPending(st.roommates, a, l)), loc, a), l, a, RoommateAdded)
      && Step(st, Session(a, false), Accept(loc)) == Reply(CacheSetLotGrid(s3, a, loc), a, AcceptSuccess)
  {
    StepConcludes(st, a, Accept(loc));
    Routes(st, a, Accept(loc));
    var l := LotByLocation(st, loc).value.id;
    s3 := NotifyLotServer(CacheAddRoommate(st.(roommates := AcceptPending(st.roommates, a, l)), loc, a), l, a, RoommateAdded);
  }

  /**
   * The catch-all does not undo: when the cache fetch after the accept
   * throws, the invitation stays confirmed and the answer is UNKNOWN.
   */
  lemma AcceptKeptOnFault(st: State, a: AvatarId, loc: Location)
    requires OpenStore !in st.faulty && AcceptLookup !in st.faulty && AcceptUpdate !in st.faulty
    requires AcceptLotCache in st.faulty
    requires LotByLocation(st, loc).Some? && Roommate(a, LotByLocation(st, loc).value.id, true) in st.roommates
    ensures Step(st, Session(a, false), Accept(loc)) ==
      Sent(st.(roommates := AcceptPending(st.roommates, a, LotByLocation(st, loc).value.id)), [StatusTo(a, Unknown)])
  {
    StepConcludes(st, a, Accept(loc));
    Routes(st, a, Accept(loc));
  }
}
