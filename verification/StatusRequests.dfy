/**
 A status change as a request: the access gate lets it in, and only later - other requests run in
 between - does it write the status and look up the field key. Both look-ups are by the same token.
 */
module StatusRequests {
  import opened Config
  import opened AuthModel
  import opened AuthInvariant
  import opened SessionLife
  import ReviewGate

  /**
   A status change that the gate let in is stored in any case. Its reply is "locked" if and only if,
   between gate and write, the token was locked, logged out, found expired or ended by a recovery
   reset, or its key ran out - and then the new status stays although the request was refused.
   */
  lemma LockedReplyIff(cfg: Settings, s: State, clock: int, gateAt: int, tok: Token, commits: bool, mid: seq<Timed>,
                       now: int, work: ReviewGate.State, item: nat, review: ReviewGate.Review)
    requires Inv(cfg, s, clock) && clock <= gateAt
    requires Step(cfg, s, gateAt, Gate(tok, commits)).1.Granted?
    requires var s1 := Step(cfg, s, gateAt, Gate(tok, commits)).0;
             Legal(cfg, s1, gateAt, mid) && Clock(gateAt, mid) <= now
    requires ReviewGate.Settable(review) && item < |work.items|
    ensures var s1 := Step(cfg, s, gateAt, Gate(tok, commits)).0;
            var key := HasKey(Run(cfg, s1, mid), tok, now);
            var (work', reply) := ReviewGate.Step(work, ReviewGate.SetStatus(item, review, key));
            && tok in s1.keys
            && work'.items[item].review == review
            && (reply == ReviewGate.LockedOut <==> s1.keys[tok].expiresAt <= now || ClosedIn(cfg, s1, mid, tok))
            && (reply == ReviewGate.LockedOut ==> work'.items[item].byUser == work.items[item].byUser)
  {
    var s1 := Step(cfg, s, gateAt, Gate(tok, commits)).0;
    StepKeepsInv(cfg, s, clock, gateAt, Gate(tok, commits));
    KeyFoundIff(cfg, s1, gateAt, mid, tok, now);
  }

  /** Set up, pass the gate, lock in another tab, write: refused as locked, and the item is confirmed all the same. */
  lemma LockBetweenGateAndWrite(cfg: Settings, setup: Event, work: ReviewGate.State)
    requires setup.Setup? && setup.policyOk
    requires work.items == [ReviewGate.Item(ReviewGate.Pending, true, false)]
    ensures var gate, lock := Gate(setup.token, true), At(2, Lock(setup.token));
            var s := Step(cfg, EMPTY, 0, setup).0;
            var s1 := Step(cfg, s, 1, gate).0;
            && Fresh(EMPTY, setup) && Step(cfg, s, 1, gate).1.Granted? && Legal(cfg, s1, 1, [lock])
            && !HasKey(Run(cfg, s1, [lock]), setup.token, 3)
            && var (work', reply) := ReviewGate.Step(work, ReviewGate.SetStatus(0, ReviewGate.Confirmed, false));
               reply == ReviewGate.LockedOut && work'.items[0].review.Confirmed?
  {
  }
}
