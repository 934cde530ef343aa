/** Named locks (sources/misc/namedlock.go) and the variable locks built on them
    (sources/controller/controller_varhelper.go:295-343), as a state machine over the steps of any number of
    goroutines.  One step is one access to shared state: the channel map under its mutex, a channel, or a flag. */
module NamedLocks {

  type Thread = nat

  /** The name under which variable locks are taken and released. */
  const VAR_LOCKER := "varLockerSystem"

  /** Where a tryLock is: it checks the flag, sets it, reads it again, and has its result. */
  datatype Stage = Check | Mark | Reread | Finished(locked: bool)

  /** What a goroutine does while it has a named lock.  `Other` work does not touch lock flags. */
  datatype Job = Other | TryLock(variable: string, stage: Stage, marked: bool) | Unlock(variable: string, cleared: bool)

  datatype Position =
    | Idle
    | Waiting(name: string, timed: bool, job: Job)   // holds the channel, waits for its token
    | Running(name: string, job: Job)                // took the token

  datatype Event = Locked(variable: string, who: Thread) | Unlocked(variable: string, who: Thread)

  /** `tokens[n]` is the number of tokens in the channel of name `n`, whose capacity is one. */
  datatype State = State(tokens: map<string, nat>, at: map<Thread, Position>, flags: map<string, string>,
      log: seq<Event>)

  ghost predicate Init(s: State) {
    s.tokens == map[] && s.flags == map[] && s.log == [] && forall t :: t in s.at ==> s.at[t] == Idle
  }

  /** VarHelper.IsLocked; a variable without a flag counts as "0". */
  predicate IsLocked(flags: map<string, string>, v: string) {
    var value := if v in flags then flags[v] else "0";
    value != "0" && value != ""
  }

  ghost predicate Fresh(name: string, timed: bool, job: Job) {
    match job
    case Other => name != VAR_LOCKER
    case TryLock(_, stage, marked) => name == VAR_LOCKER && !timed && stage == Check && !marked
    case Unlock(_, cleared) => name == VAR_LOCKER && !timed && !cleared
  }

  /** acquireNamedLock up to the channel: under the mutex, the channel is made, with its token, if there is none. */
  ghost predicate Call(s: State, s': State, t: Thread, name: string, timed: bool, job: Job) {
    && t in s.at && s.at[t] == Idle && Fresh(name, timed, job)
    && s' == s.(tokens := if name in s.tokens then s.tokens else s.tokens[name := 1],
        at := s.at[t := Waiting(name, timed, job)])
  }

  /** The token is received. */
  ghost predicate Take(s: State, s': State, t: Thread) {
    && t in s.at && s.at[t].Waiting?
    && var n := s.at[t].name;
    && n in s.tokens && s.tokens[n] > 0
    && s' == s.(tokens := s.tokens[n := s.tokens[n] - 1], at := s.at[t := Running(n, s.at[t].job)])
  }

  /** acquireNamedLock gives up after its timeout. */
  ghost predicate TimeOut(s: State, s': State, t: Thread) {
    && t in s.at && s.at[t].Waiting? && s.at[t].timed
    && s' == s.(at := s.at[t := Idle])
  }

  /** One step of the function that runs under the lock. */
  ghost predicate Work(s: State, s': State, t: Thread) {
    && t in s.at && s.at[t].Running?
    && var n := s.at[t].name;
    match s.at[t].job
    case Other => s' == s
    case TryLock(v, Check, m) =>
      s' == s.(at := s.at[t := Running(n, TryLock(v, if IsLocked(s.flags, v) then Finished(false) else Mark, m))])
    case TryLock(v, Mark, _) =>
      s' == s.(flags := s.flags[v := "1"], log := s.log + [Locked(v, t)],
          at := s.at[t := Running(n, TryLock(v, Reread, true))])
    case TryLock(v, Reread, m) =>
      s' == s.(at := s.at[t := Running(n, TryLock(v, Finished(IsLocked(s.flags, v)), m))])
    case TryLock(_, Finished(_), _) => false
    case Unlock(v, false) =>
      s' == s.(flags := s.flags[v := "0"], log := s.log + [Unlocked(v, t)],
          at := s.at[t := Running(n, Unlock(v, true))])
    case Unlock(_, true) => false
  }

  ghost predicate Complete(job: Job) {
    job.Other? || (job.TryLock? && job.stage.Finished?) || (job.Unlock? && job.cleared)
  }

  /** releaseNamedLock: the token goes back, unless the channel is full. */
  ghost predicate Release(s: State, s': State, t: Thread) {
    && t in s.at && s.at[t].Running? && Complete(s.at[t].job)
    && var n := s.at[t].name;
    s' == s.(tokens := if n in s.tokens && s.tokens[n] < 1 then s.tokens[n := s.tokens[n] + 1] else s.tokens,
        at := s.at[t := Idle])
  }

  ghost predicate AnyCall(s: State, s': State, t: Thread) {
    exists name, timed, job :: Call(s, s', t, name, timed, job)
  }

  /** A step of goroutine `t`. */
  ghost predicate StepOf(s: State, s': State, t: Thread) {
    AnyCall(s, s', t) || Take(s, s', t) || TimeOut(s, s', t) || Work(s, s', t) || Release(s, s', t)
  }

  ghost predicate Step(s: State, s': State) {
    exists t: Thread :: StepOf(s, s', t)
  }

  /** A run: a sequence of states from the initial one on, each one step after the one before. */
  ghost predicate IsRun(run: seq<State>) {
    run != [] && Init(run[0]) && forall i :: 0 <= i < |run| - 1 ==> Step(run[i], run[i + 1])
  }

  ghost function Holders(s: State, name: string): set<Thread> {
    set t | t in s.at && s.at[t].Running? && s.at[t].name == name
  }

  /** One token or one holder, never both, never none. */
  ghost predicate Exclusive(s: State) {
    && (forall t :: t in s.at && !s.at[t].Idle? ==> s.at[t].name in s.tokens)
    && (forall n :: n in s.tokens ==> s.tokens[n] + |Holders(s, n)| == 1)
  }

  ghost predicate JobOk(s: State, p: Position) {
    match p
    case Idle => true
    case Waiting(n, timed, job) => Fresh(n, timed, job)
    case Running(n, Other) => n != VAR_LOCKER
    case Running(n, TryLock(v, stage, marked)) =>
      && n == VAR_LOCKER
      && (stage == Check ==> !marked)
      && (stage == Mark ==> !marked && !IsLocked(s.flags, v))
      && (stage == Reread ==> marked && IsLocked(s.flags, v))
      && (stage.Finished? ==> stage.locked == marked && IsLocked(s.flags, v))
    case Running(n, Unlock(v, cleared)) => n == VAR_LOCKER && (cleared ==> !IsLocked(s.flags, v))
  }

  ghost predicate JobsOk(s: State) {
    forall t :: t in s.at ==> JobOk(s, s.at[t])
  }

  /** The last thing that happened to `v` was a lock. */
  ghost predicate LockedLast(log: seq<Event>, v: string) {
    exists i :: 0 <= i < |log| && log[i].Locked? && log[i].variable == v
                && forall j :: i < j < |log| ==> log[j].variable != v
  }

  /** Between two locks of the same variable it was unlocked. */
  ghost predicate Alternates(log: seq<Event>) {
    forall i, j :: 0 <= i < j < |log| && log[i].Locked? && log[j].Locked? && log[i].variable == log[j].variable ==>
                     exists k :: i < k < j && log[k].Unlocked? && log[k].variable == log[i].variable
  }

  ghost predicate LogOk(s: State) {
    Alternates(s.log) && forall v :: IsLocked(s.flags, v) <==> LockedLast(s.log, v)
  }

  ghost predicate Inv(s: State) {
    Exclusive(s) && JobsOk(s) && LogOk(s)
  }

  lemma InitInv(s: State)
    requires Init(s)
    ensures Inv(s)
  {
    assert forall v :: !LockedLast(s.log, v);
  }

  lemma HoldersAdd(s: State, s': State, t: Thread, n: string)
    requires t in s.at && t in s'.at && s'.at == s.at[t := s'.at[t]]
    ensures Holders(s', n) == if s'.at[t].Running? && s'.at[t].name == n then Holders(s, n) + {t}
        else Holders(s, n) - {t}
  {
  }

  /** How one step of `t` moves tokens and holders. */
  lemma TokensStep(s: State, s': State, t: Thread)
    requires StepOf(s, s', t) && JobsOk(s)
    ensures t in s.at && t in s'.at && s'.at == s.at[t := s'.at[t]]
    ensures if !s.at[t].Running? && s'.at[t].Running? then
              var n := s'.at[t].name; n in s.tokens && s.tokens[n] > 0 && s'.tokens == s.tokens[n := s.tokens[n] - 1]
            else if s.at[t].Running? && !s'.at[t].Running? then
              var n := s.at[t].name; s'.tokens == if n in s.tokens && s.tokens[n] < 1
                  then s.tokens[n := s.tokens[n] + 1] else s.tokens
            else
              && (s.at[t].Running? ==> s'.at[t].name == s.at[t].name)
              && (s'.tokens == s.tokens ||
                  (s'.at[t].Waiting? && var n := s'.at[t].name; n !in s.tokens && s'.tokens == s.tokens[n := 1]))
    ensures !s'.at[t].Idle? ==> s'.at[t].name in s'.tokens || (s.at[t].Running? && s'.at[t].name == s.at[t].name)
  {
    hide IsLocked, Fresh;
    assert s'.at == s.at[t := s'.at[t]];
  }

  /** Tokens plus holders stay one for every name. */
  lemma ExclusiveStep(s: State, s': State, t: Thread)
    requires Exclusive(s) && JobsOk(s) && StepOf(s, s', t)
    ensures Exclusive(s')
  {
    hide StepOf, JobsOk, Holders;
    TokensStep(s, s', t);
    forall n | n in s'.tokens ensures s'.tokens[n] + |Holders(s', n)| == 1 {
      HoldersMove(s, s', t, n);
    }
  }

  lemma HoldersMove(s: State, s': State, t: Thread, n: string)
    requires t in s.at && t in s'.at && s'.at == s.at[t := s'.at[t]]
    ensures var before, after := s.at[t].Running? && s.at[t].name == n, s'.at[t].Running? && s'.at[t].name == n;
            |Holders(s', n)| == |Holders(s, n)| + (if after then 1 else 0) - if before then 1 else 0
    ensures n !in s.tokens && Exclusive(s) ==> |Holders(s, n)| == 0
  {
    HoldersAdd(s, s', t, n);
    var before, after := t in Holders(s, n), t in Holders(s', n);
    assert before == (s.at[t].Running? && s.at[t].name == n) && after == (s'.at[t].Running? && s'.at[t].name == n);
    assert after ==> Holders(s', n) == (Holders(s, n) - {t}) + {t};
    assert !after ==> Holders(s', n) == Holders(s, n) - {t};
    if n !in s.tokens && Exclusive(s) { assert Holders(s, n) == {}; }
  }

  /** At most one goroutine runs under a name. */
  lemma OneHolder(s: State, t: Thread, u: Thread)
    requires Exclusive(s) && t in s.at && u in s.at && s.at[t].Running? && s.at[u].Running? && s.at[t].name
        == s.at[u].name
    ensures t == u
  {
    var h := Holders(s, s.at[t].name);
    assert t in h && u in h;
    if t != u {
      assert {t, u} <= h;
      SubsetSize({t, u}, h);
      assert false;
    }
  }

  lemma {:induction false} SubsetSize(a: set<Thread>, b: set<Thread>)
    requires a <= b
    ensures |a| <= |b|
    decreases a
  {
    if a != {} {
      var x :| x in a;
      SubsetSize(a - {x}, b - {x});
    }
  }

  /** Only the holder of VAR_LOCKER touches a flag, so nobody else's view of it goes stale. */
  lemma JobsStep(s: State, s': State, t: Thread)
    requires Exclusive(s) && JobsOk(s)
    requires StepOf(s, s', t)
    ensures JobsOk(s')
  {
    assert JobOk(s, s.at[t]);
    forall u | u in s'.at ensures JobOk(s', s'.at[u]) {
      if u != t {
        assert s'.at[u] == s.at[u] && JobOk(s, s.at[u]);
        if s.at[u].Running? && s.at[t].Running? && s.at[u].name == VAR_LOCKER && s.at[t].name == VAR_LOCKER {
          OneHolder(s, t, u);
        }
      }
    }
  }

  lemma LogAppend(s: State, log': seq<Event>, flags': map<string, string>, e: Event)
    requires LogOk(s) && log' == s.log + [e]
    requires e.Locked? ==> !IsLocked(s.flags, e.variable)
    requires flags' == s.flags[e.variable := if e.Locked? then "1" else "0"]
    ensures LogOk(s.(log := log', flags := flags'))
  {
    var s' := s.(log := log', flags := flags');
    var n := |s.log|;
    forall v ensures IsLocked(flags', v) <==> LockedLast(log', v) {
      if v == e.variable {
        assert log'[n] == e;
      } else {
        assert IsLocked(flags', v) <==> IsLocked(s.flags, v);
        if LockedLast(s.log, v) {
          var i :|
            && 0 <= i < n && s.log[i].Locked? && s.log[i].variable == v
            && forall j :: i < j < n ==> s.log[j].variable != v;
          assert log'[i] == s.log[i];
        }
        if LockedLast(log', v) {
          var i :|
            && 0 <= i < n + 1 && log'[i].Locked? && log'[i].variable == v
            && forall j :: i < j < n + 1 ==> log'[j].variable != v;
          assert i < n && s.log[i] == log'[i];
          assert forall j :: i < j < n ==> s.log[j] == log'[j];
        }
      }
    }
    forall i, j | 0 <= i < j < n + 1 && log'[i].Locked? && log'[j].Locked? && log'[i].variable == log'[j].variable
      ensures exists k :: i < k < j && log'[k].Unlocked? && log'[k].variable == log'[i].variable
    {
      if j < n {
        var k :| i < k < j && s.log[k].Unlocked? && s.log[k].variable == s.log[i].variable;
        assert log'[k] == s.log[k];
      } else {
        UnlockedSince(s.log, i);
        var k :| i < k < n && s.log[k].Unlocked? && s.log[k].variable == s.log[i].variable;
        assert log'[k] == s.log[k];
      }
    }
  }

  /** A lock that is not the last word on its variable was followed by an unlock. */
  lemma UnlockedSince(log: seq<Event>, i: nat)
    requires i < |log| && log[i].Locked? && !LockedLast(log, log[i].variable)
    ensures exists k :: i < k < |log| && log[k].Unlocked? && log[k].variable == log[i].variable
  {
    LastAfter(log, i, |log|);
  }

  /** The last event on a variable, sought among the first `n`, is a lock or an unlock. */
  lemma {:induction false} LastAfter(log: seq<Event>, i: nat, n: nat)
    requires i < n <= |log| && log[i].Locked?
    requires forall j :: n <= j < |log| ==> log[j].variable != log[i].variable
    ensures LockedLast(log, log[i].variable)
         || exists k :: i < k < |log| && log[k].Unlocked? && log[k].variable == log[i].variable
    decreases n
  {
    var k := n - 1;
    if log[k].variable != log[i].variable {
      LastAfter(log, i, n - 1);
    }
  }

  lemma LogStep(s: State, s': State, t: Thread)
    requires Inv(s)
    requires StepOf(s, s', t)
    ensures LogOk(s')
  {
    assert JobOk(s, s.at[t]);
    if s'.log != s.log {
      var e := s'.log[|s.log|];
      LogAppend(s, s'.log, s'.flags, e);
    }
  }

  lemma StepInv(s: State, s': State)
    requires Inv(s) && Step(s, s')
    ensures Inv(s')
  {
    var t: Thread :| StepOf(s, s', t);
    ExclusiveStep(s, s', t);
    JobsStep(s, s', t);
    LogStep(s, s', t);
  }

  lemma {:induction false} RunInv(run: seq<State>, i: nat)
    requires IsRun(run) && i < |run|
    ensures Inv(run[i])
  {
    if i == 0 {
      InitInv(run[0]);
    } else {
      RunInv(run, i - 1);
      StepInv(run[i - 1], run[i]);
    }
  }

  // ----- What holds in every interleaving -----

  /** For every name that was ever used, the tokens in its channel and the goroutines under it are one in number,
      however many acquirers wait or have given up. */
  lemma TokensPlusHolders(run: seq<State>, i: nat, name: string)
    requires IsRun(run) && i < |run| && name in run[i].tokens
    ensures run[i].tokens[name] + |Holders(run[i], name)| == 1
  {
    RunInv(run, i);
  }

  lemma MutualExclusion(run: seq<State>, i: nat, t: Thread, u: Thread)
    requires IsRun(run) && i < |run| && t in run[i].at && u in run[i].at
    requires run[i].at[t].Running? && run[i].at[u].Running? && run[i].at[t].name == run[i].at[u].name
    ensures t == u
  {
    RunInv(run, i);
    OneHolder(run[i], t, u);
  }

  /** No release ever finds the channel full: the `default` of releaseNamedLock is not taken. */
  lemma ReleaseFindsRoom(run: seq<State>, i: nat, t: Thread)
    requires IsRun(run) && i < |run| && t in run[i].at && run[i].at[t].Running?
    ensures run[i].at[t].name in run[i].tokens && run[i].tokens[run[i].at[t].name] == 0
  {
    RunInv(run, i);
    assert t in Holders(run[i], run[i].at[t].name);
  }

  /** Between two successful locks of a variable there is an unlock. */
  lemma LocksAlternate(run: seq<State>, i: nat)
    requires IsRun(run) && i < |run|
    ensures Alternates(run[i].log)
  {
    RunInv(run, i);
  }

  /** A tryLock reports success exactly when it was the one that set the flag. */
  lemma SuccessMeansMarked(run: seq<State>, i: nat, t: Thread)
    requires IsRun(run) && i < |run| && t in run[i].at && run[i].at[t].Running?
    requires run[i].at[t].job.TryLock? && run[i].at[t].job.stage.Finished?
    ensures run[i].at[t].job.stage.locked <==> run[i].at[t].job.marked
  {
    RunInv(run, i);
    assert JobOk(run[i], run[i].at[t]);
  }

  // ----- What an attempt and an unlock come to -----

  /** A flag other than "0" and the empty text is a lock; no flag is none. */
  lemma FlagMeans(flags: map<string, string>, v: string, u: string, x: string)
    ensures !IsLocked(map[], v) && (IsLocked(flags[v := x], v) <==> x !in {"0", ""})
    ensures u != v ==> (IsLocked(flags[v := x], u) <==> IsLocked(flags, u))
  {
  }

  /** Whoever was refused sees a lock that was set by someone before and not undone: the last thing that happened to the
      variable is the lock of another attempt. */
  lemma RefusedMeansLocked(run: seq<State>, i: nat, t: Thread)
    requires IsRun(run) && i < |run| && t in run[i].at && run[i].at[t].Running?
    requires run[i].at[t].job.TryLock? && run[i].at[t].job.stage.Finished?
    ensures var v := run[i].at[t].job.variable; IsLocked(run[i].flags, v) && LockedLast(run[i].log, v)
    ensures !run[i].at[t].job.stage.locked ==> !run[i].at[t].job.marked
  {
    RunInv(run, i);
    assert JobOk(run[i], run[i].at[t]);
  }

  /** After an unlock has done its work the variable is not locked. */
  lemma UnlockedMeansFree(run: seq<State>, i: nat, t: Thread)
    requires IsRun(run) && i < |run| && t in run[i].at && run[i].at[t].Running?
    requires run[i].at[t].job.Unlock? && run[i].at[t].job.cleared
    ensures var v := run[i].at[t].job.variable; !IsLocked(run[i].flags, v) && !LockedLast(run[i].log, v)
  {
    RunInv(run, i);
    assert JobOk(run[i], run[i].at[t]);
  }

  /** Without a timeout, and so for every attempt on a variable and every unlock, a wait ends only in holding the
      lock. */
  lemma WaitsForToken(run: seq<State>, i: nat, t: Thread)
    requires IsRun(run) && i < |run| - 1 && t in run[i].at && run[i].at[t].Waiting?
    requires run[i].at[t].name == VAR_LOCKER || !run[i].at[t].timed
    ensures var p := run[i].at[t];
            t in run[i + 1].at && run[i + 1].at[t] in {p, Running(p.name, p.job)}
    ensures run[i].at[t].name == VAR_LOCKER <==> !run[i].at[t].job.Other?
  {
    RunInv(run, i);
    assert JobOk(run[i], run[i].at[t]) && Step(run[i], run[i + 1]);
    var u: Thread :| StepOf(run[i], run[i + 1], u);
  }

  /** `t` is trying to lock `v`, and has not found it locked. */
  ghost predicate Winning(s: State, t: Thread, v: string) {
    && t in s.at && s.at[t].Running? && s.at[t].name == VAR_LOCKER && s.at[t].job.TryLock? && s.at[t].job.variable == v
    && match s.at[t].job.stage
       case Check => !IsLocked(s.flags, v)
       case Mark => true
       case Reread => true
       case Finished(locked) => locked
  }

  /** From the check that finds no lock on, an attempt either is still on its way to success or has released. */
  lemma WinningStep(s: State, s': State, t: Thread, v: string)
    requires Inv(s) && Winning(s, t, v) && Step(s, s')
    ensures Winning(s', t, v) || (t in s'.at && s'.at[t] == Idle && s.at[t].job.stage == Finished(true))
  {
    var u: Thread :| StepOf(s, s', u);
    assert JobOk(s, s.at[t]);
    if u != t {
      OthersKeepFlags(s, s', u, t);
    }
  }

  /** Only the holder of VAR_LOCKER touches flags. */
  lemma OthersKeepFlags(s: State, s': State, u: Thread, t: Thread)
    requires Exclusive(s) && JobsOk(s) && StepOf(s, s', u) && u != t
    requires t in s.at && s.at[t].Running? && s.at[t].name == VAR_LOCKER
    ensures s'.flags == s.flags && t in s'.at && s'.at[t] == s.at[t]
  {
    assert JobOk(s, s.at[u]);
    if s.at[u].Running? && s.at[u].name == VAR_LOCKER { OneHolder(s, t, u); }
  }

  /** An attempt whose check finds no lock succeeds: as long as it has not released, it is on its way, and where it is
      finished it reports success. */
  lemma {:induction false} UnlockedAttemptSucceeds(run: seq<State>, i: nat, j: nat, t: Thread, v: string)
    requires IsRun(run) && i <= j < |run|
    requires t in run[i].at && run[i].at[t] == Running(VAR_LOCKER, TryLock(v, Check, false))
    requires !IsLocked(run[i].flags, v)
    requires forall k :: i <= k <= j ==> t in run[k].at && run[k].at[t] != Idle
    ensures Winning(run[j], t, v) && (run[j].at[t].job.stage.Finished? ==> run[j].at[t].job.stage.locked)
    decreases j
  {
    hide Step, Inv, Init, IsLocked;
    if i < j {
      UnlockedAttemptSucceeds(run, i, j - 1, t, v);
      RunInv(run, j - 1);
      WinningStep(run[j - 1], run[j], t, v);
    }
  }

  /** And it can always go on to that success, in three steps of its own, after which the flag is set. */
  lemma AttemptGoesThrough(s: State, t: Thread, v: string) returns (more: seq<State>)
    requires t in s.at && s.at[t] == Running(VAR_LOCKER, TryLock(v, Check, false)) && !IsLocked(s.flags, v)
    ensures Follows(s, more) && |more| == 3
    ensures var s' := more[2];
            && t in s'.at && s'.at[t] == Running(VAR_LOCKER, TryLock(v, Finished(true), true))
            && s'.flags == s.flags[v := "1"] && s'.log == s.log + [Locked(v, t)]
  {
    var n := VAR_LOCKER;
    var s1 := s.(at := s.at[t := Running(n, TryLock(v, Mark, false))]);
    var s2 := s1.(flags := s.flags[v := "1"], log := s.log + [Locked(v, t)],
      at := s1.at[t := Running(n, TryLock(v, Reread, true))]);
    var s3 := s2.(at := s2.at[t := Running(n, TryLock(v, Finished(true), true))]);
    assert Work(s, s1, t) && Work(s1, s2, t) && Work(s2, s3, t);
    assert StepOf(s, s1, t) && StepOf(s1, s2, t) && StepOf(s2, s3, t);
    more := [s1, s2, s3];
  }

  /** Nobody leaves a lock before the work under it is done. */
  lemma ReleasedWhenDone(s: State, s': State, t: Thread)
    requires Step(s, s') && t in s.at && s.at[t].Running? && t in s'.at && s'.at[t] == Idle
    ensures s.at[t].job.TryLock? ==> s.at[t].job.stage.Finished?
    ensures s.at[t].job.Unlock? ==> s.at[t].job.cleared
  {
  }

  /** A goroutine with nothing to do may call for any name, which then has a channel; one that waits with a timeout may
      leave, which takes no token; one whose work is done may release. */
  lemma CanCallAndLeave(s: State, t: Thread, name: string, timed: bool, job: Job)
    requires t in s.at && (s.at[t] == Idle ==> Fresh(name, timed, job))
    ensures s.at[t] == Idle ==>
              exists s' :: Step(s, s') && name in s'.tokens && s'.at == s.at[t := Waiting(name, timed, job)]
    ensures s.at[t].Waiting? && s.at[t].timed ==> Step(s, s.(at := s.at[t := Idle]))
  {
    if s.at[t] == Idle {
      var s' := s.(tokens := if name in s.tokens then s.tokens else s.tokens[name := 1],
        at := s.at[t := Waiting(name, timed, job)]);
      assert Call(s, s', t, name, timed, job);
      assert StepOf(s, s', t);
    } else if s.at[t].Waiting? && s.at[t].timed {
      assert TimeOut(s, s.(at := s.at[t := Idle]), t);
      assert StepOf(s, s.(at := s.at[t := Idle]), t);
    }
  }

  // ----- Nobody who waits is stuck -----

  /** The steps a job still has to take under its lock. */
  function Left(job: Job): nat {
    match job
    case Other => 0
    case TryLock(_, Check, _) => 3
    case TryLock(_, Mark, _) => 2
    case TryLock(_, Reread, _) => 1
    case TryLock(_, Finished(_), _) => 0
    case Unlock(_, cleared) => if cleared then 0 else 1
  }

  /** A goroutine that runs under a name can always take its next step there, or release. */
  lemma HolderMoves(s: State, h: Thread) returns (s': State)
    requires Inv(s) && h in s.at && s.at[h].Running?
    ensures Step(s, s') && s'.at.Keys == s.at.Keys && forall u :: u in s.at && u != h ==> s'.at[u] == s.at[u]
    ensures var n := s.at[h].name;
            if Left(s.at[h].job) == 0 then
              n in s'.tokens && s'.tokens[n] == 1
            else
              && s'.tokens == s.tokens && s'.at[h].Running? && s'.at[h].name == n
              && Left(s'.at[h].job) < Left(s.at[h].job)
  {
    var n := s.at[h].name;
    if Left(s.at[h].job) == 0 {
      assert n in s.tokens && h in Holders(s, n);
      s' := s.(tokens := s.tokens[n := 1], at := s.at[h := Idle]);
      assert Release(s, s', h);
    } else {
      var job, f, l := s.at[h].job, s.flags, s.log;
      match job {
        case TryLock(v, Check, m) => job := TryLock(v, if IsLocked(f, v) then Finished(false) else Mark, m);
        case TryLock(v, Mark, _) => job, f, l := TryLock(v, Reread, true), f[v := "1"], l + [Locked(v, h)];
        case TryLock(v, Reread, m) => job := TryLock(v, Finished(IsLocked(f, v)), m);
        case Unlock(v, _) => job, f, l := Unlock(v, true), f[v := "0"], l + [Unlocked(v, h)];
      }
      s' := s.(flags := f, log := l, at := s.at[h := Running(n, job)]);
      assert Work(s, s', h);
    }
    assert StepOf(s, s', h);
  }

  /** States that follow one another from `s` on. */
  ghost predicate Follows(s: State, more: seq<State>) {
    more != [] && Step(s, more[0]) && forall i :: 0 <= i < |more| - 1 ==> Step(more[i], more[i + 1])
  }

  lemma FollowsCons(s: State, s': State, more: seq<State>)
    requires Step(s, s') && Follows(s', more)
    ensures Follows(s, [s'] + more)
  {
    var all := [s'] + more;
    forall i | 0 <= i < |all| - 1 ensures Step(all[i], all[i + 1]) {
      if i > 0 { assert all[i] == more[i - 1] && all[i + 1] == more[i]; }
    }
  }

  lemma TakeToken(s: State, t: Thread) returns (s': State)
    requires t in s.at && s.at[t].Waiting? && s.at[t].name in s.tokens && s.tokens[s.at[t].name] > 0
    ensures Step(s, s') && t in s'.at && s'.at[t] == Running(s.at[t].name, s.at[t].job)
  {
    var n := s.at[t].name;
    s' := s.(tokens := s.tokens[n := s.tokens[n] - 1], at := s.at[t := Running(n, s.at[t].job)]);
    assert Take(s, s', t);
    assert StepOf(s, s', t);
  }

  /** The holder of the name that `t` waits for can go on until it has released, and `t` can take the token. */
  lemma {:induction false} ServedAfter(s: State, t: Thread, h: Thread) returns (more: seq<State>)
    requires Inv(s) && t in s.at && s.at[t].Waiting? && h in s.at && s.at[h].Running? && s.at[h].name == s.at[t].name
    ensures Follows(s, more) && |more| <= Left(s.at[h].job) + 2
    ensures t in more[|more| - 1].at && more[|more| - 1].at[t] == Running(s.at[t].name, s.at[t].job)
    decreases Left(s.at[h].job)
  {
    hide Inv, Step, Left;
    var s' := HolderMoves(s, h);
    StepInv(s, s');
    if Left(s.at[h].job) == 0 {
      var s'' := TakeToken(s', t);
      more := [s', s''];
    } else {
      var rest := ServedAfter(s', t, h);
      FollowsCons(s, s', rest);
      more := [s'] + rest;
    }
  }

  /** In every state of every run, whoever waits for a name can be running under it within five steps of other
      goroutines and its own: no deadlock, and no token is lost. */
  lemma WaiterCanBeServed(run: seq<State>, t: Thread) returns (more: seq<State>)
    requires IsRun(run) && t in run[|run| - 1].at && run[|run| - 1].at[t].Waiting?
    ensures IsRun(run + more) && 1 <= |more| <= 5
    ensures var s, s' := run[|run| - 1], more[|more| - 1];
            t in s'.at && s'.at[t] == Running(s.at[t].name, s.at[t].job)
  {
    hide Step, StepOf;
    var s := run[|run| - 1];
    RunInv(run, |run| - 1);
    var n := s.at[t].name;
    if s.tokens[n] > 0 {
      var s' := TakeToken(s, t);
      more := [s'];
    } else {
      assert |Holders(s, n)| == 1;
      var h :| h in Holders(s, n);
      LeftAtMost(s.at[h].job);
      more := ServedAfter(s, t, h);
    }
    forall i | 0 <= i < |run + more| - 1 ensures Step((run + more)[i], (run + more)[i + 1]) {
      if i >= |run| { assert (run + more)[i] == more[i - |run|] && (run + more)[i + 1] == more[i - |run| + 1]; }
    }
  }

  lemma LeftAtMost(job: Job)
    ensures Left(job) <= 3
  {
  }
}
