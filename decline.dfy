/** What the DECLINE branch (lines 104-116 of ChangeRoommateHandler.cs) changes and answers. */
module DeclineFacts {
  import opened Types
  import opened Queries
  import opened Semantics
  import opened Steps

  /**
   * DECLINE answers LOT_DOESNT_EXIST for a location without a lot, and
   * otherwise deletes the pending invitation and answers DECLINE_SUCCESS
   * iff there was one, NO_INVITE_PENDING iff there was none.
   */
  lemma DeclineOutcome(st: State, a: AvatarId, loc: Location)
    requires OpenStore !in st.faulty && DeclineLookup !in st.faulty && DeclineUpdate !in st.faulty
    ensures Step(st, Session(a, false), Decline(loc)) ==
      match LotByLocation(st, loc)
      case None => Sent(st, [StatusTo(a, LotDoesntExist)])
      case Some(lot) =>
        Sent(st.(roommates := DeclinePending(st.roommates, a, lot.id)),
             [StatusTo(a, if Roommate(a, lot.id, true) in st.roommates then DeclineSuccess else NoInvitePending)])
  {
    StepConcludes(st, a, Decline(loc));
    Routes(st, a, Decline(loc));
  }

  /** Whatever throws, DECLINE changes only the table and sends exactly one message: no cache, no lot server. */
  lemma DeclineTouchesOnlyTable(st: State, a: AvatarId, loc: Location)
    ensures var st' := Step(st, Session(a, false), Decline(loc));
      && st' == st.(roommates := st'.roommates, outbox := st'.outbox)
      && |st'.outbox| == |st.outbox| + 1
  {
    StepConcludes(st, a, Decline(loc));
    if OpenStore !in st.faulty {
      Routes(st, a, Decline(loc));
    }
  }
}
