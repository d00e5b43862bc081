/** Which secrets open the account over a whole run: the latest password, and the recovery key of the setup. */
module Credentials {
  import opened Config
  import opened Crypto
  import opened AuthModel
  import opened AuthInvariant
  import AuthRuns

  /** A setup or a recovery reset that went through: it chose a password. */
  predicate Chooses(cfg: Settings, s: State, at: Timed) {
    (at.event.Setup? || at.event.Reset?) && Step(cfg, s, at.now, at.event).1.Opened?
  }

  function Chosen(ev: Event): string
    requires ev.Setup? || ev.Reset?
  {
    if ev.Setup? then ev.password else ev.newPassword
  }

  predicate NoResetIn(cfg: Settings, s: State, run: seq<Timed>)
    decreases |run|
  {
    run == []
    || (&& !(run[0].event.Reset? && Step(cfg, s, run[0].now, run[0].event).1.Opened?)
        && NoResetIn(cfg, Step(cfg, s, run[0].now, run[0].event).0, run[1..]))
  }

  /** The stored password hash is that of `password`, made with or without argon2id. */
  predicate PasswordIs(s: State, password: string, argon: bool) {
    && s.user.Some?
    && (s.user.value.passwordKdf, s.user.value.passwordHash)
         == HashSecret(password, s.user.value.passwordSalt, argon)
  }

  predicate RecoveryIs(s: State, key: string, argon: bool) {
    && s.user.Some? && s.user.value.wrappedByRecovery.Some?
    && s.user.value.recoveryHash == HashSecret(key, s.user.value.recoverySalt, argon).1
  }

  /** No event but a reset that goes through changes a stored secret, and not even that one the recovery key. */
  lemma {:induction false} StepKeepsSecrets(cfg: Settings, s: State, now: int, ev: Event)
    requires s.user.Some?
    ensures var (s', reply) := Step(cfg, s, now, ev);
            && s'.user.Some?
            && s'.user.value.recoveryHash == s.user.value.recoveryHash
            && s'.user.value.recoverySalt == s.user.value.recoverySalt
            && s'.user.value.wrappedByRecovery == s.user.value.wrappedByRecovery
            && (!(ev.Reset? && reply.Opened?) ==>
                  && s'.user.value.passwordKdf == s.user.value.passwordKdf
                  && s'.user.value.passwordHash == s.user.value.passwordHash
                  && s'.user.value.passwordSalt == s.user.value.passwordSalt)
  {
  }

  lemma {:induction false} PasswordStays(cfg: Settings, s: State, clock: int, run: seq<Timed>,
                                         password: string, argon: bool)
    requires PasswordIs(s, password, argon) && Legal(cfg, s, clock, run) && NoResetIn(cfg, s, run)
    ensures PasswordIs(Run(cfg, s, run), password, argon)
    decreases |run|
  {
    if run != [] {
      StepKeepsSecrets(cfg, s, run[0].now, run[0].event);
      PasswordStays(cfg, Step(cfg, s, run[0].now, run[0].event).0, run[0].now, run[1..], password, argon);
    }
  }

  lemma {:induction false} RecoveryStays(cfg: Settings, s: State, clock: int, run: seq<Timed>, key: string, argon: bool)
    requires RecoveryIs(s, key, argon) && Legal(cfg, s, clock, run)
    ensures RecoveryIs(Run(cfg, s, run), key, argon)
    decreases |run|
  {
    if run != [] {
      StepKeepsSecrets(cfg, s, run[0].now, run[0].event);
      RecoveryStays(cfg, Step(cfg, s, run[0].now, run[0].event).0, run[0].now, run[1..], key, argon);
    }
  }

  /**
   From the setup or reset that chose it until the next reset that goes through, exactly the chosen
   password unlocks the account - as long as argon2 can run, if it was hashed with it.
   */
  lemma UnlockIff(cfg: Settings, s: State, clock: int, choice: Timed, mid: seq<Timed>,
                  now: int, token: Token, attempt: string, argonNow: bool)
    requires Inv(cfg, s, clock) && Legal(cfg, s, clock, [choice] + mid) && Chooses(cfg, s, choice)
    requires NoResetIn(cfg, Step(cfg, s, choice.now, choice.event).0, mid)
    ensures Step(cfg, Run(cfg, s, [choice] + mid), now, Unlock(token, attempt, argonNow)).1.Opened? <==>
            attempt == Chosen(choice.event) && (choice.event.argon ==> argonNow)
  {
    LegalSplit(cfg, s, clock, [choice], mid);
    var s1 := Step(cfg, s, choice.now, choice.event).0;
    assert Run(cfg, s, [choice]) == s1;
    StepKeepsInv(cfg, s, clock, choice.now, choice.event);
    PasswordStays(cfg, s1, choice.now, mid, Chosen(choice.event), choice.event.argon);
    RunKeepsInv(cfg, s1, choice.now, mid);
    AuthRuns.RightPasswordUnlocksIff(cfg, Run(cfg, s1, mid), Clock(choice.now, mid), now, token, attempt,
                                     Chosen(choice.event), choice.event.argon, argonNow);
  }

  lemma {:induction false} RecoveryNow(cfg: Settings, s: State, clock: int, now: int, reset: Event,
                                       key: string, argon: bool)
    requires Inv(cfg, s, clock) && RecoveryIs(s, key, argon) && reset.Reset?
    ensures Step(cfg, s, now, reset).1.Opened? <==>
            reset.policyOk && reset.recoveryKey == key && (argon ==> reset.argon)
  {
  }

  /**
   After a setup, in every run, a recovery reset goes through exactly with the recovery key of that
   setup, an acceptable new password, and argon2 if the setup used it - also after earlier resets.
   */
  lemma ResetIff(cfg: Settings, s: State, clock: int, setup: Timed, mid: seq<Timed>, now: int, reset: Event)
    requires Inv(cfg, s, clock) && Legal(cfg, s, clock, [setup] + mid)
    requires setup.event.Setup? && Step(cfg, s, setup.now, setup.event).1.Opened?
    requires reset.Reset?
    ensures Step(cfg, Run(cfg, s, [setup] + mid), now, reset).1.Opened? <==>
            reset.policyOk && reset.recoveryKey == setup.event.recoveryKey && (setup.event.argon ==> reset.argon)
  {
    LegalSplit(cfg, s, clock, [setup], mid);
    var s1 := Step(cfg, s, setup.now, setup.event).0;
    assert Run(cfg, s, [setup]) == s1;
    StepKeepsInv(cfg, s, clock, setup.now, setup.event);
    RecoveryStays(cfg, s1, setup.now, mid, setup.event.recoveryKey, setup.event.argon);
    RunKeepsInv(cfg, s1, setup.now, mid);
    RecoveryNow(cfg, Run(cfg, s1, mid), Clock(setup.now, mid), now, reset, setup.event.recoveryKey, setup.event.argon);
  }

  /** A setup goes through exactly on an empty installation with an acceptable password, with its own data key. */
  lemma SetupIff(cfg: Settings, s: State, clock: int, now: int, setup: Event)
    requires Inv(cfg, s, clock) && setup.Setup?
    ensures Step(cfg, s, now, setup).1 == if s == EMPTY && setup.policyOk then Opened(setup.dek) else Refused
  {
  }
}
