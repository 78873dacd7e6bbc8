/**
 The counter of failed logins (app/authentication.go). An attempt reads the user, checks, and writes a count computed
 from what it read; several attempts may be under way at once.
 */
module Login {
  import opened Prelude

  datatype Config = Config(maximumLoginAttempts: int, enableMfa: bool, requireEmailVerification: bool)

  datatype User = User(failedAttempts: int, deleteAt: int, isBot: bool, mfaActive: bool, emailVerified: bool)

  datatype Entry = AllCriteria | DoubleCheck

  /** One call: the answers of the password and MFA checks, and whether the store refuses the write. */
  datatype Attempt = Attempt(entry: Entry, passwordOk: bool, mfaToken: string, mfaOk: bool, storeFails: bool)

  datatype Reason = Inactive | BotLogin | TooManyAttempts | BadPassword | BadMfa | StoreError | NotVerified

  /** The count written to the store, if any, and the error returned, if any. */
  datatype Outcome = Outcome(write: Option<int>, error: Option<Reason>)

  function CheckUserLoginAttempts(user: User, max: int): Option<Reason> {
    if user.failedAttempts >= max then Some(TooManyAttempts) else None
  }

  function Preflight(cfg: Config, user: User): Option<Reason> {
    if user.deleteAt > 0 then Some(Inactive)
    else if user.isBot then Some(BotLogin)
    else CheckUserLoginAttempts(user, cfg.maximumLoginAttempts)
  }

  function CheckUserMfa(cfg: Config, user: User, a: Attempt): Option<Reason> {
    if !user.mfaActive || !cfg.enableMfa || a.mfaOk then None else Some(BadMfa)
  }

  /** Writes `count` and then answers `error`, unless the store refuses. */
  function Record(a: Attempt, count: int, error: Option<Reason>): Outcome {
    if a.storeFails then Outcome(None, Some(StoreError)) else Outcome(Some(count), error)
  }

  function AllCriteriaOutcome(cfg: Config, user: User, a: Attempt): Outcome {
    if Preflight(cfg, user).Some? then Outcome(None, Preflight(cfg, user))
    else if !a.passwordOk then Record(a, user.failedAttempts + 1, Some(BadPassword))
    else if CheckUserMfa(cfg, user, a).Some? then
      if a.mfaToken != "" then Record(a, user.failedAttempts + 1, Some(BadMfa)) else Outcome(None, Some(BadMfa))
    else Record(a, 0, if !user.emailVerified && cfg.requireEmailVerification then Some(NotVerified) else None)
  }

  function DoubleCheckOutcome(cfg: Config, user: User, a: Attempt): Outcome {
    if CheckUserLoginAttempts(user, cfg.maximumLoginAttempts).Some? then Outcome(None, Some(TooManyAttempts))
    else if !a.passwordOk then Record(a, user.failedAttempts + 1, Some(BadPassword))
    else Record(a, 0, None)
  }

  function OutcomeOf(cfg: Config, user: User, a: Attempt): Outcome {
    if a.entry == AllCriteria then AllCriteriaOutcome(cfg, user, a) else DoubleCheckOutcome(cfg, user, a)
  }

  function Write(count: int, o: Outcome): int { if o.write.Some? then o.write.value else count }

  // ---------- What an attempt is answered ----------

  /** May the user try at all? */
  predicate MayTry(cfg: Config, user: User) {
    user.deleteAt <= 0 && !user.isBot && user.failedAttempts < cfg.maximumLoginAttempts
  }

  /** The second factor is off, not required, or right. */
  predicate MfaPasses(cfg: Config, user: User, a: Attempt) { !user.mfaActive || !cfg.enableMfa || a.mfaOk }

  /** A login goes through exactly when the user is live, no bot and below the maximum, password and second factor are
      right, the store answers, and the address is verified if it has to be. */
  lemma LoginSucceedsIff(cfg: Config, user: User, a: Attempt)
    ensures AllCriteriaOutcome(cfg, user, a).error == None <==>
              && MayTry(cfg, user) && a.passwordOk && MfaPasses(cfg, user, a) && !a.storeFails
              && (user.emailVerified || !cfg.requireEmailVerification)
  {
  }

  /** Its counter is raised exactly on a wrong password or a wrong second factor that is not empty, and set to zero
      exactly when both are right, verified or not; otherwise nothing is written: not for a user that may not try, not
      when the store fails, and not when the second factor is only asked for. */
  lemma LoginCounts(cfg: Config, user: User, a: Attempt)
    requires user.failedAttempts >= 0
    ensures var o := AllCriteriaOutcome(cfg, user, a);
            && (o.write == Some(user.failedAttempts + 1) <==>
                  && MayTry(cfg, user) && !a.storeFails
                  && (!a.passwordOk || (!MfaPasses(cfg, user, a) && a.mfaToken != "")))
            && (o.write == Some(0) <==>
                  MayTry(cfg, user) && !a.storeFails && a.passwordOk && MfaPasses(cfg, user, a))
            && (o.write == None || o.write == Some(0) || o.write == Some(user.failedAttempts + 1))
            && (a.passwordOk && !MfaPasses(cfg, user, a) && a.mfaToken == "" ==> o.write == None && o.error.Some?)
  {
  }

  /** The reason given for each kind of failure; what is wrong with the user comes before what is wrong with the
      secrets, and a store that fails hides the latter. */
  lemma LoginReasons(cfg: Config, user: User, a: Attempt)
    ensures var error := AllCriteriaOutcome(cfg, user, a).error;
            var badMfa := a.passwordOk && !MfaPasses(cfg, user, a);
            && (error == Some(Inactive) <==> user.deleteAt > 0)
            && (error == Some(BotLogin) <==> user.deleteAt <= 0 && user.isBot)
            && (error == Some(TooManyAttempts) <==>
                  user.deleteAt <= 0 && !user.isBot && user.failedAttempts >= cfg.maximumLoginAttempts)
            && (error == Some(BadPassword) <==> MayTry(cfg, user) && !a.passwordOk && !a.storeFails)
            && (error == Some(BadMfa) <==> MayTry(cfg, user) && badMfa && (!a.storeFails || a.mfaToken == ""))
            && (error == Some(StoreError) <==> MayTry(cfg, user) && a.storeFails && !(badMfa && a.mfaToken == ""))
  {
  }

  /** Checking the password of a user that is logged in: only the maximum, the password and the store matter. */
  lemma DoubleCheckIff(cfg: Config, user: User, a: Attempt)
    requires user.failedAttempts >= 0
    ensures var o, below := DoubleCheckOutcome(cfg, user, a), user.failedAttempts < cfg.maximumLoginAttempts;
            && (o.error == None <==> below && a.passwordOk && !a.storeFails)
            && (o.error == Some(TooManyAttempts) <==> !below)
            && (o.error == Some(BadPassword) <==> below && !a.passwordOk && !a.storeFails)
            && (o.error == Some(StoreError) <==> below && a.storeFails)
            && (o.write == Some(user.failedAttempts + 1) <==> below && !a.passwordOk && !a.storeFails)
            && (o.write == Some(0) <==> below && a.passwordOk && !a.storeFails)
            && (o.write == None <==> !below || a.storeFails)
  {
  }

  // ---------- Interleaved attempts ----------

  /** The stored count, and the attempts under way with the user each of them read. */
  datatype System = System(count: int, underWay: map<nat, User>)

  datatype Step = Begin(p: nat, user: User) | End(p: nat, attempt: Attempt)

  predicate Permitted(s: System, step: Step) {
    match step
    case Begin(p, user) => p !in s.underWay && user.failedAttempts == s.count
    case End(p, _) => p in s.underWay
  }

  function Perform(cfg: Config, s: System, step: Step): System
    requires Permitted(s, step)
  {
    match step
    case Begin(p, user) => s.(underWay := s.underWay[p := user])
    case End(p, a) => System(Write(s.count, OutcomeOf(cfg, s.underWay[p], a)), s.underWay - {p})
  }

  ghost predicate Run(cfg: Config, s: System, ss: seq<System>, steps: seq<Step>) {
    && |ss| == |steps| + 1 && ss[0] == s
    && forall k :: 0 <= k < |steps| ==> Permitted(ss[k], steps[k]) && ss[k + 1] == Perform(cfg, ss[k], steps[k])
  }

  ghost predicate Within(cfg: Config, s: System) {
    && 0 <= s.count <= cfg.maximumLoginAttempts
    && forall p :: p in s.underWay ==> 0 <= s.underWay[p].failedAttempts <= cfg.maximumLoginAttempts
  }

  /** Whatever the interleaving, the stored count never leaves the range it started in. */
  lemma {:induction false} CountNeverExceedsMaximum(cfg: Config, s: System, ss: seq<System>, steps: seq<Step>, k: nat)
    requires Within(cfg, s) && Run(cfg, s, ss, steps) && k < |ss|
    ensures Within(cfg, ss[k])
  {
    if k > 0 {
      CountNeverExceedsMaximum(cfg, s, ss, steps, k - 1);
      assert Permitted(ss[k - 1], steps[k - 1]);
    }
  }

  /** The step neither changes the count nor lets an attempt through. */
  ghost predicate Refused(cfg: Config, s: System, step: Step, s': System) {
    && s'.count == s.count
    && (step.End? ==> step.p in s.underWay && OutcomeOf(cfg, s.underWay[step.p], step.attempt).error.Some?)
  }

  ghost predicate AllRefused(cfg: Config, ss: seq<System>, steps: seq<Step>) {
    forall k :: 0 <= k < |steps| < |ss| ==> Refused(cfg, ss[k], steps[k], ss[k + 1])
  }

  /** The account is locked and stays so, whatever follows. */
  ghost predicate LockedForGood(cfg: Config, s: System) {
    forall ss: seq<System>, steps: seq<Step> :: Run(cfg, s, ss, steps) ==> AllRefused(cfg, ss, steps)
  }

  ghost predicate NoneStale(cfg: Config, s: System) {
    forall p :: p in s.underWay ==> s.underWay[p].failedAttempts >= cfg.maximumLoginAttempts
  }

  lemma {:induction false} LockedRun(cfg: Config, s: System, ss: seq<System>, steps: seq<Step>, k: nat)
    requires s.count >= cfg.maximumLoginAttempts && NoneStale(cfg, s) && Run(cfg, s, ss, steps) && k < |ss|
    ensures ss[k].count == s.count && NoneStale(cfg, ss[k])
  {
    if k > 0 {
      LockedRun(cfg, s, ss, steps, k - 1);
      assert Permitted(ss[k - 1], steps[k - 1]);
    }
  }

  /** Once the count is at the maximum, every attempt by either entry point fails and leaves it unchanged, if and only
      if no attempt under way had read the user before. */
  lemma LockedForGoodIff(cfg: Config, s: System)
    requires s.count >= cfg.maximumLoginAttempts
    ensures LockedForGood(cfg, s) <==> NoneStale(cfg, s)
  {
    if NoneStale(cfg, s) {
      forall ss: seq<System>, steps: seq<Step> | Run(cfg, s, ss, steps)
        ensures AllRefused(cfg, ss, steps)
      {
        forall k | 0 <= k < |steps|
          ensures Refused(cfg, ss[k], steps[k], ss[k + 1])
        {
          LockedRun(cfg, s, ss, steps, k);
          LockedRun(cfg, s, ss, steps, k + 1);
          assert Permitted(ss[k], steps[k]);
        }
      }
    } else {
      var p :| p in s.underWay && s.underWay[p].failedAttempts < cfg.maximumLoginAttempts;
      var end := End(p, Attempt(DoubleCheck, true, "", true, false));
      var ss := [s, Perform(cfg, s, end)];
      assert Run(cfg, s, ss, [end]);
      assert !AllRefused(cfg, ss, [end]) by {
        assert !Refused(cfg, ss[0], [end][0], ss[0 + 1]);
      }
    }
  }

  // ---------- Sequential attempts ----------

  /** An attempt as its client sees it. */
  datatype Answer = Answer(attempt: Attempt, error: Option<Reason>)

  predicate Counted(a: Answer) {
    a.error == Some(BadPassword) || (a.error == Some(BadMfa) && a.attempt.mfaToken != "")
  }

  predicate Resets(a: Answer) { a.error == None || a.error == Some(NotVerified) }

  /** The counted failures among `answers` since the last reset, on top of `start` if there was none. */
  function CountedSinceReset(start: int, answers: seq<Answer>): int {
    if answers == [] then start
    else
      var n := |answers| - 1;
      if Resets(answers[n]) then 0 else CountedSinceReset(start, answers[..n]) + if Counted(answers[n]) then 1 else 0
  }

  ghost predicate Answered(cfg: Config, count: int, user: User, a: Answer, count': int) {
    var o := OutcomeOf(cfg, user, a.attempt);
    user.failedAttempts == count && a.error == o.error && count' == Write(count, o)
  }

  /** Each attempt begins and ends before the next; `users[k]` is what attempt `k` read. */
  ghost predicate Sequential(cfg: Config, counts: seq<int>, users: seq<User>, answers: seq<Answer>) {
    && |counts| == |answers| + 1 && |users| == |answers|
    && forall k :: 0 <= k < |answers| ==> Answered(cfg, counts[k], users[k], answers[k], counts[k + 1])
  }

  /** In a sequential run the stored count is the number of counted failures since the last reset, as told from the
      answers alone. */
  lemma {:induction false} CountIsFailuresSinceReset(cfg: Config, counts: seq<int>, users: seq<User>,
                                                     answers: seq<Answer>, k: nat)
    requires Sequential(cfg, counts, users, answers) && k <= |answers|
    ensures counts[k] == CountedSinceReset(counts[0], answers[..k])
  {
    if k > 0 {
      CountIsFailuresSinceReset(cfg, counts, users, answers, k - 1);
      assert answers[..k][..k - 1] == answers[..k - 1];
      assert Answered(cfg, counts[k - 1], users[k - 1], answers[k - 1], counts[k]);
    }
  }

  /** At the maximum nothing is answered but a refusal, and below it the count stays within the maximum. */
  lemma NextAnswer(cfg: Config, count: int, user: User, a: Answer, count': int)
    requires Answered(cfg, count, user, a, count') && 0 <= count <= cfg.maximumLoginAttempts
    ensures 0 <= count' <= cfg.maximumLoginAttempts
    ensures count == cfg.maximumLoginAttempts ==>
              a.error in {Some(Inactive), Some(BotLogin), Some(TooManyAttempts)} && count' == count
  {
  }

  /** So between two resets no more than the maximum are ever counted, and at the maximum every attempt by either entry
      point is refused and leaves the count as it is. */
  lemma {:induction false} FailuresBounded(cfg: Config, counts: seq<int>, users: seq<User>, answers: seq<Answer>,
                                           k: nat)
    requires Sequential(cfg, counts, users, answers) && k <= |answers|
    requires 0 <= counts[0] <= cfg.maximumLoginAttempts
    ensures 0 <= CountedSinceReset(counts[0], answers[..k]) == counts[k] <= cfg.maximumLoginAttempts
    ensures k < |answers| && counts[k] == cfg.maximumLoginAttempts ==>
              answers[k].error in {Some(Inactive), Some(BotLogin), Some(TooManyAttempts)} && counts[k + 1] == counts[k]
  {
    CountIsFailuresSinceReset(cfg, counts, users, answers, k);
    if k > 0 {
      FailuresBounded(cfg, counts, users, answers, k - 1);
      NextAnswer(cfg, counts[k - 1], users[k - 1], answers[k - 1], counts[k]);
    }
    if k < |answers| {
      NextAnswer(cfg, counts[k], users[k], answers[k], counts[k + 1]);
    }
  }

  // ---------- Overlapping attempts ----------

  /** What the client of an attempt is told when it ends. */
  function AnswerAt(cfg: Config, s: System, step: Step): Answer
    requires step.End? && Permitted(s, step)
  {
    Answer(step.attempt, OutcomeOf(cfg, s.underWay[step.p], step.attempt).error)
  }

  /** The answers of the attempts ended in the first `k` steps of a run. */
  ghost function Answers(cfg: Config, s: System, ss: seq<System>, steps: seq<Step>, k: nat): seq<Answer>
    requires Run(cfg, s, ss, steps) && k <= |steps|
  {
    if k == 0 then []
    else Answers(cfg, s, ss, steps, k - 1)
         + if steps[k - 1].End? then [AnswerAt(cfg, ss[k - 1], steps[k - 1])] else []
  }

  /** The step ends an attempt with a failure that is counted. */
  predicate CountedEnd(cfg: Config, s: System, step: Step)
    requires Permitted(s, step)
  {
    step.End? && Counted(AnswerAt(cfg, s, step))
  }

  function CountRead(s: System, step: Step): int
    requires step.End? && Permitted(s, step)
  {
    s.underWay[step.p].failedAttempts
  }

  lemma NextCount(cfg: Config, s: System, ss: seq<System>, steps: seq<Step>, k: nat)
    requires Run(cfg, s, ss, steps) && k < |steps|
    ensures var count, step := CountedSinceReset(s.count, Answers(cfg, s, ss, steps, k)), steps[k];
            if step.End? && Resets(AnswerAt(cfg, ss[k], step)) then
              CountedSinceReset(s.count, Answers(cfg, s, ss, steps, k + 1)) == ss[k + 1].count == 0
            else if CountedEnd(cfg, ss[k], step) then
              && CountedSinceReset(s.count, Answers(cfg, s, ss, steps, k + 1)) == count + 1
              && ss[k + 1].count == CountRead(ss[k], step) + 1
            else
              CountedSinceReset(s.count, Answers(cfg, s, ss, steps, k + 1)) == count && ss[k + 1].count == ss[k].count
    ensures |Answers(cfg, s, ss, steps, k + 1)| == |Answers(cfg, s, ss, steps, k)| + if steps[k].End? then 1 else 0
  {
    var before, after := Answers(cfg, s, ss, steps, k), Answers(cfg, s, ss, steps, k + 1);
    if steps[k].End? {
      assert after[..|after| - 1] == before;
    } else {
      assert after == before;
    }
  }

  ghost predicate CountsAllAt(cfg: Config, s: System, ss: seq<System>, steps: seq<Step>, j: nat)
    requires Run(cfg, s, ss, steps) && j <= |steps|
  {
    ss[j].count == CountedSinceReset(s.count, Answers(cfg, s, ss, steps, j))
  }

  ghost predicate CountsAllUpTo(cfg: Config, s: System, ss: seq<System>, steps: seq<Step>, k: nat)
    requires Run(cfg, s, ss, steps) && k <= |steps|
  {
    forall j :: 0 <= j <= k ==> CountsAllAt(cfg, s, ss, steps, j)
  }

  /** A counted failure finds the count that its attempt had read. */
  ghost predicate NoOverlapAt(cfg: Config, s: System, step: Step)
    requires Permitted(s, step)
  {
    CountedEnd(cfg, s, step) ==> CountRead(s, step) == s.count
  }

  ghost predicate NoneOverlapsUpTo(cfg: Config, s: System, ss: seq<System>, steps: seq<Step>, k: nat)
    requires Run(cfg, s, ss, steps) && k <= |steps|
  {
    forall j :: 0 <= j < k ==> NoOverlapAt(cfg, ss[j], steps[j])
  }

  lemma CountsAllNext(cfg: Config, s: System, ss: seq<System>, steps: seq<Step>, k: nat)
    requires Run(cfg, s, ss, steps) && k < |steps| && CountsAllAt(cfg, s, ss, steps, k)
    ensures CountsAllAt(cfg, s, ss, steps, k + 1) <==> NoOverlapAt(cfg, ss[k], steps[k])
  {
    NextCount(cfg, s, ss, steps, k);
  }

  /** Under any interleaving the stored count is at all times the number of counted failures since the last reset, if
      and only if every counted failure found the count that its attempt had read. */
  lemma {:induction false} CountsAllIff(cfg: Config, s: System, ss: seq<System>, steps: seq<Step>, k: nat)
    requires Run(cfg, s, ss, steps) && k <= |steps|
    ensures CountsAllUpTo(cfg, s, ss, steps, k) <==> NoneOverlapsUpTo(cfg, s, ss, steps, k)
  {
    if k > 0 {
      CountsAllIff(cfg, s, ss, steps, k - 1);
      if CountsAllUpTo(cfg, s, ss, steps, k - 1) {
        assert CountsAllAt(cfg, s, ss, steps, k - 1);
        CountsAllNext(cfg, s, ss, steps, k - 1);
      }
      assert CountsAllUpTo(cfg, s, ss, steps, k) ==> CountsAllUpTo(cfg, s, ss, steps, k - 1);
    } else {
      assert CountsAllAt(cfg, s, ss, steps, 0);
    }
  }

  /** Every attempt that ended was a counted failure and had read the count `c`. */
  ghost predicate AllRead(cfg: Config, s: System, ss: seq<System>, steps: seq<Step>, k: nat, c: int)
    requires Run(cfg, s, ss, steps) && k <= |steps|
  {
    forall j :: 0 <= j < k && steps[j].End? ==> CountedEnd(cfg, ss[j], steps[j]) && CountRead(ss[j], steps[j]) == c
  }

  /** Counted failures that all read the same count are counted once, however many they are. */
  lemma {:induction false} OverlappingCountOnce(cfg: Config, s: System, ss: seq<System>, steps: seq<Step>, k: nat,
                                                c: int)
    requires Run(cfg, s, ss, steps) && k <= |steps| && s.count == c && AllRead(cfg, s, ss, steps, k, c)
    ensures var answers := Answers(cfg, s, ss, steps, k);
            && CountedSinceReset(c, answers) == c + |answers|
            && ss[k].count == if |answers| == 0 then c else c + 1
  {
    if k > 0 {
      OverlappingCountOnce(cfg, s, ss, steps, k - 1, c);
      NextCount(cfg, s, ss, steps, k - 1);
      assert steps[k - 1].End? ==> CountedEnd(cfg, ss[k - 1], steps[k - 1]);
    }
  }

  // ---------- The source's object ----------

  class App {
    const cfg: Config
    var failedAttempts: int // the stored counter of the user

    constructor (cfg: Config, failedAttempts: int)
      ensures this.cfg == cfg && this.failedAttempts == failedAttempts
    {
      this.cfg, this.failedAttempts := cfg, failedAttempts;
    }

    method UpdateFailedPasswordAttempts(attempts: int, storeFails: bool) returns (ok: bool)
      modifies this
      ensures ok == !storeFails && failedAttempts == if ok then attempts else old(failedAttempts)
    {
      ok := !storeFails;
      if ok {
        failedAttempts := attempts;
      }
    }

    method CheckPasswordAndAllCriteria(user: User, a: Attempt) returns (error: Option<Reason>)
      modifies this
      ensures var o := AllCriteriaOutcome(cfg, user, a);
              error == o.error && failedAttempts == Write(old(failedAttempts), o)
    {
      error := Preflight(cfg, user);
      if error.Some? {
        return;
      }
      var ok: bool;
      if !a.passwordOk {
        ok := UpdateFailedPasswordAttempts(user.failedAttempts + 1, a.storeFails);
        return if ok then Some(BadPassword) else Some(StoreError);
      }
      error := CheckUserMfa(cfg, user, a);
      if error.Some? {
        if a.mfaToken != "" {
          ok := UpdateFailedPasswordAttempts(user.failedAttempts + 1, a.storeFails);
          if !ok {
            return Some(StoreError);
          }
        }
        return;
      }
      ok := UpdateFailedPasswordAttempts(0, a.storeFails);
      if !ok {
        return Some(StoreError);
      }
      if !user.emailVerified && cfg.requireEmailVerification {
        return Some(NotVerified);
      }
      error := None;
    }

    method DoubleCheckPassword(user: User, a: Attempt) returns (error: Option<Reason>)
      modifies this
      ensures var o := DoubleCheckOutcome(cfg, user, a);
              error == o.error && failedAttempts == Write(old(failedAttempts), o)
    {
      error := CheckUserLoginAttempts(user, cfg.maximumLoginAttempts);
      if error.Some? {
        return;
      }
      var ok: bool;
      if !a.passwordOk {
        ok := UpdateFailedPasswordAttempts(user.failedAttempts + 1, a.storeFails);
        return if ok then Some(BadPassword) else Some(StoreError);
      }
      ok := UpdateFailedPasswordAttempts(0, a.storeFails);
      error := if ok then None else Some(StoreError);
    }
  }
}
