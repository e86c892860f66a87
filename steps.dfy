/**
 * The vocabulary the properties of Handle are stated in: the messages a
 * branch sends, the catch-all, and the routing of a request to its branch.
 */
module Steps {
  import opened Types
  import opened Queries
  import opened Semantics

  /** The status response `s` to the session of `a`. */
  function StatusTo(a: AvatarId, s: Status): Envelope
  {
    Envelope(ToSession(a), Response(s, 0))
  }

  /** `st` with nothing changed but `sent` appended to the outbox. */
  function Sent(st: State, sent: seq<Envelope>): State
  {
    st.(outbox := st.outbox + sent)
  }

  /** The catch-all: a branch that threw gets UNKNOWN appended to what it sent. */
  function Concluded(o: Outcome, a: AvatarId): State
  {
    if o.Done? then o.state else Reply(o.state, a, Unknown)
  }

  /** A request of a signed-in avatar is dispatched, and a throw is answered UNKNOWN. */
  lemma StepConcludes(st: State, a: AvatarId, req: Request)
    ensures Step(st, Session(a, false), req) == Concluded(Dispatch(st, a, req), a)
  {
  }

  /** Once the store is open, each request kind runs its own branch. */
  lemma Routes(st: State, a: AvatarId, req: Request)
    requires OpenStore !in st.faulty
    requires req.Invite? || req.Kick? ==> OwnedLot !in st.faulty && MyLots !in st.faulty
    ensures req.Poll? ==> Dispatch(st, a, req) == PollStep(st, a)
    ensures req.Accept? ==> Dispatch(st, a, req) == AcceptStep(st, a, req.location)
    ensures req.Decline? ==> Dispatch(st, a, req) == DeclineStep(st, a, req.location)
    ensures req.Invite? ==> Dispatch(st, a, req) == InviteStep(st, a, req.target, RecordsOf(st.roommates, a))
    ensures req.Kick? ==> Dispatch(st, a, req) == KickStep(st, a, req.target, req.location)
  {
  }

  /** The notice to the lot server holding lot `l`, when one holds it and its session is live. */
  function LotServerNote(st: State, l: LotId, a: AvatarId, change: ChangeType): (n: seq<Envelope>)
    ensures |n| <= 1
    ensures n != [] <==> l in st.claims && st.claims[l] in st.liveServers
    ensures forall e :: e in n ==> e.to == ToLotServer(st.claims[l]) && e.msg == RoommateChange(a, l, change)
    ensures NotifyLotServer(st, l, a, change) == st.(outbox := st.outbox + n)
  {
    if l in st.claims && st.claims[l] in st.liveServers then
      [Envelope(ToLotServer(st.claims[l]), RoommateChange(a, l, change))]
    else []
  }
}
