/** What the POLL branch (lines 52-69 of ChangeRoommateHandler.cs) sends and keeps. */
module PollFacts {
  import opened Types
  import opened Queries
  import opened Semantics
  import opened Steps

  /** The invitation echo for row `r`, sent to `a` by the POLL branch. */
  function Echo(a: AvatarId, r: Roommate, lots: map<LotId, LotRow>): Envelope
    requires r.lot in lots
  {
    Envelope(ToSession(a), InviteEcho(lots[r.lot].owner, lots[r.lot].location))
  }


  /**
   * The POLL loop echoes the pending rows in table order, each as an
   * invitation from its lot's owner at its lot's location, and finishes iff
   * it echoed them all; when it stops at a missing lot, that lot is the one
   * of the first pending row it did not echo.
   */
  lemma {:induction false} PollEchoesInOrder(a: AvatarId, recs: seq<Roommate>, lots: map<LotId, LotRow>, faulty: set<Site>)
    ensures |PollEchoes(a, recs, lots, faulty).echoes| <= |PendingOf(recs)|
    ensures forall k :: 0 <= k < |PollEchoes(a, recs, lots, faulty).echoes| ==>
      PendingOf(recs)[k].lot in lots && PollEchoes(a, recs, lots, faulty).echoes[k] == Echo(a, PendingOf(recs)[k], lots)
    ensures PollEchoes(a, recs, lots, faulty).end == Finished <==>
      |PollEchoes(a, recs, lots, faulty).echoes| == |PendingOf(recs)|
    ensures PollEchoes(a, recs, lots, faulty).end == LotMissing ==>
      PendingOf(recs)[|PollEchoes(a, recs, lots, faulty).echoes|].lot !in lots
    decreases |recs|
  {
    if recs != [] {
      var m := |recs| - 1;
      PollEchoesInOrder(a, recs[..m], lots, faulty);
      var prev := PollEchoes(a, recs[..m], lots, faulty);
      var p := PendingOf(recs[..m]);
      assert PendingOf(recs) == p + (if recs[m].pending then [recs[m]] else []);
    }
  }

  /** Row `i` of the loop is pending and neither throws in Lots.Get nor misses its lot. */
  predicate Passes(recs: seq<Roommate>, i: nat, lots: map<LotId, LotRow>, faulty: set<Site>)
    requires i < |recs|
  {
    recs[i].pending ==> PollLot(i) !in faulty && recs[i].lot in lots
  }

  /**
   * The POLL loop finishes iff every pending row passes; otherwise it stops
   * at the first pending row `i` that does not, having echoed exactly the
   * pending rows before it, and it ends in a throw iff Lots.Get throws on
   * that pass (a throw on pass `i` keeps the echoes of the passes before).
   */
  lemma {:induction false} PollStopsAt(a: AvatarId, recs: seq<Roommate>, lots: map<LotId, LotRow>, faulty: set<Site>)
    ensures PollEchoes(a, recs, lots, faulty).end == Finished <==>
      forall i :: 0 <= i < |recs| ==> Passes(recs, i, lots, faulty)
    ensures PollEchoes(a, recs, lots, faulty).end != Finished ==>
      exists i :: 0 <= i < |recs| && !Passes(recs, i, lots, faulty) &&
        (forall j :: 0 <= j < i ==> Passes(recs, j, lots, faulty)) &&
        PollEchoes(a, recs, lots, faulty).echoes == PollEchoes(a, recs[..i], lots, faulty).echoes &&
        (PollEchoes(a, recs, lots, faulty).end == Faulted <==> PollLot(i) in faulty)
    decreases |recs|
  {
    if recs != [] {
      var m := |recs| - 1;
      var rm := recs[..m];
      PollStopsAt(a, rm, lots, faulty);
      var prev := PollEchoes(a, rm, lots, faulty);
      assert forall j :: 0 <= j < m ==> (Passes(rm, j, lots, faulty) <==> Passes(recs, j, lots, faulty));
      if prev.end != Finished {
        var i :| 0 <= i < m && !Passes(rm, i, lots, faulty) &&
          (forall j :: 0 <= j < i ==> Passes(rm, j, lots, faulty)) &&
          prev.echoes == PollEchoes(a, rm[..i], lots, faulty).echoes &&
          (prev.end == Faulted <==> PollLot(i) in faulty);
        assert rm[..i] == recs[..i];
      } else if !Passes(recs, m, lots, faulty) {
        assert rm == recs[..m];
      }
    }
  }

  /** POLL changes nothing but the outbox, whatever throws. */
  lemma PollOnlyWrites(st: State, a: AvatarId)
    ensures Step(st, Session(a, false), Poll) == st.(outbox := Step(st, Session(a, false), Poll).outbox)
  {
    StepConcludes(st, a, Poll);
    if OpenStore !in st.faulty {
      Routes(st, a, Poll);
    }
  }

  /** POLL writes exactly the echoes of its loop, and UNKNOWN after them when Lots.Get throws. */
  lemma PollWrites(st: State, a: AvatarId)
    requires OpenStore !in st.faulty && PollRecords !in st.faulty
    ensures var run := PollEchoes(a, RecordsOf(st.roommates, a), st.lots, st.faulty);
      Step(st, Session(a, false), Poll) ==
        Sent(st, run.echoes + if run.end == Faulted then [StatusTo(a, Unknown)] else [])
  {
    StepConcludes(st, a, Poll);
    Routes(st, a, Poll);
  }
}
