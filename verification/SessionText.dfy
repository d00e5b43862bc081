/** Field encryption across sessions: what one unlocked session writes, every later one can read. */
module SessionText {
  import opened Wrappers
  import opened Config
  import opened AuthModel
  import AuthInvariant
  import AuthRuns
  import opened FieldEncryption

  /**
   Text encrypted with the key of one opened session decrypts with the key any later operation of
   the run yields, through any number of unlocks, locks, expiries and recovery resets in between.
   */
  lemma TextSurvivesSessions(a: Aead, cfg: Settings, s: State, clock: int, first: Timed, mid: seq<Timed>, later: Timed,
                             v: Option<string>, nonce: nat)
    requires Lawful(a) && !IsEncrypted(v)
    requires AuthInvariant.Inv(cfg, s, clock) && Legal(cfg, s, clock, [first] + mid + [later])
    requires Step(cfg, s, first.now, first.event).1.Opened?
    ensures var written := EncryptText(a, v, Step(cfg, s, first.now, first.event).1.dek, nonce);
            var reply := Step(cfg, Run(cfg, s, [first] + mid), later.now, later.event).1;
            && (reply.Opened? ==> DecryptText(a, written, reply.dek) == Readable(v))
            && (reply.Found? ==> DecryptText(a, written, reply.key) == Readable(v))
  {
    AuthRuns.OneDataKey(cfg, s, clock, first, mid, later);
    RoundTripIff(a, v, Step(cfg, s, first.now, first.event).1.dek, nonce);
  }
}
