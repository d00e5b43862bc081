/** A worker executing a claimed job: the encryption-key check in front of it (app/services/job/worker.py). */
module Worker {
  import opened Wrappers
  import opened Config
  import opened Crypto
  import opened AuthModel
  import opened AuthServices
  import AuthInvariant
  import AuthRuns
  import SessionLife
  import JobQueue

  // The encryption part of a job row: the unlock token it was queued under, and until when it may use it.
  datatype Credential = Credential(required: bool, token: Option<Token>, expiresAt: Option<int>)

  /** The key the job may use now, if any. */
  function KeyFor(s: State, c: Credential, now: int): Option<Key> {
    if c.token.None? then None
    else
      var reply := ResolveJobKey(s, c.token.value, c.expiresAt, now).1;
      if reply.Found? then Some(reply.key) else None
  }

  class JobWorker {
    const auth: AuthService
    const repo: JobQueue.JobRepository

    constructor (auth: AuthService, repo: JobQueue.JobRepository)
      ensures this.auth == auth && this.repo == repo
    {
      this.auth := auth;
      this.repo := repo;
    }

    /** Check one claimed job; without its key it goes back to the queue as a retry and nothing else changes. */
    method ExecuteJob(i: nat, c: Credential, now: int) returns (ok: bool)
      requires auth.Valid() && i < |repo.jobs|
      modifies auth.cache, repo
      ensures ok <==> !c.required || KeyFor(old(auth.View()), c, now).Some?
      ensures repo.jobs == if ok then old(repo.jobs) else JobQueue.KeyBlock(old(repo.jobs), i)
      ensures auth.View().(keys := old(auth.View()).keys) == old(auth.View())
    {
      if c.required {
        if c.token.None? {
          repo.MarkRetryableKeyBlock(i);
          return false;
        }
        var reply := auth.ResolveJobKey(c.token.value, c.expiresAt, now);
        if !reply.Found? {
          repo.MarkRetryableKeyBlock(i);
          return false;
        }
      }
      return true;
    }
  }

  /**
   At the end of any run after the token was issued, a job queued under it finds a key exactly as long as
   nothing shut the token, neither lifetime has run out and the job itself has not expired; the key is
   then the data key of the account, so the job can read what the user stored.
   */
  lemma QueuedJobRunsIff(cfg: Settings, s: State, clock: int, open: Timed, mid: seq<Timed>, c: Credential, now: int)
    requires AuthInvariant.Inv(cfg, s, clock) && Legal(cfg, s, clock, [open] + mid) && Clock(open.now, mid) <= now
    requires c.token.Some? && AuthRuns.Opens(cfg, s, open.now, open.event, c.token.value)
    ensures var s1 := Step(cfg, s, open.now, open.event).0;
            var s' := Run(cfg, s, [open] + mid);
            && (KeyFor(s', c, now).Some? <==>
                  && !SessionLife.ShutIn(cfg, s1, mid, c.token.value)
                  && now - open.now < cfg.Absolute()
                  && now - SessionLife.LastPass(cfg, s1, mid, c.token.value, open.now) < cfg.Ttl()
                  && (c.expiresAt.Some? ==> now < c.expiresAt.value))
            && (KeyFor(s', c, now).Some? ==>
                  s'.user.Some? && KeyFor(s', c, now).value == AuthInvariant.DataKey(s'.user.value))
  {
    SessionLife.AccessIff(cfg, s, clock, open, mid, c.token.value, now, true, c.expiresAt);
    AuthInvariant.RunKeepsInv(cfg, s, clock, [open] + mid);
    var s' := Run(cfg, s, [open] + mid);
    AuthRuns.RepliesGiveDataKey(cfg, s', Clock(open.now, mid), now, WorkerKey(c.token.value, c.expiresAt));
  }

  /** A job queued under a token from before a recovery reset is blocked on its key in every state after it. */
  lemma ResetBlocksQueuedJobs(cfg: Settings, s: State, clock: int, reset: Timed, post: seq<Timed>,
                              c: Credential, now: int)
    requires AuthInvariant.Inv(cfg, s, clock) && Legal(cfg, s, clock, [reset] + post)
    requires reset.event.Reset? && Step(cfg, s, reset.now, reset.event).1.Opened?
    requires c.token.Some? && c.token.value in s.sessions
    ensures KeyFor(Run(cfg, s, [reset] + post), c, now).None?
  {
    AuthRuns.NoKeyAcrossReset(cfg, s, clock, reset, post, c.token.value, now, true, c.expiresAt);
  }
}
