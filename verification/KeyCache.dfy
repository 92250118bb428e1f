/**
  The verification-key cache (auth/jwt.go): double-checked locking with an unlocked fast
  path, and an update that writes the key first and its expiry later. Any number of threads
  run `GetVerificationKey`; each step below is one read or write of a shared field, of the
  lock or of the clock.
 */
module KeyCache {

  import opened Results

  type Thread = nat

  /** `cachedKey`, with the number of the fetch that it came from. */
  datatype Key = NoKey | Key(bytes: string, fetch: nat)

  /** `cachedKeyExpiration`, with the number of the fetch that it was written for. */
  datatype Expiry = Never | At(time: int, fetch: nat)

  /** A request to the key server: who began it and when, when its answer was read, and `time.Now()` at line 63. */
  datatype Fetch = Fetch(owner: Thread, started: int, ended: Option<int>, body: Option<string>, recorded: Option<int>)

  /** Why a key was returned: an expiry of fetch `fetch` that lay after time `at`, or the thread's own fetch. */
  datatype Reason = Unexpired(fetch: nat, at: int) | OwnFetch(fetch: nat)

  datatype Result = Pinned(bytes: string) | Cached(key: Key, why: Reason) | FetchFailed

  /** Where a thread is in `GetVerificationKey`. */
  datatype Pc =
    | Idle
    | SawKey                    // line 40: the key is not nil
    | SawExpiry(seen: Expiry)   // line 40: the expiry has been read
    | Passed(why: Reason)       // line 41: about to read the key
    | Waiting                   // line 44
    | Locked                    // line 47
    | LockedSawKey
    | LockedSawExpiry(seen: Expiry)
    | LockedPassed(why: Reason)
    | ToFetch                   // line 51
    | Fetching
    | Fetched(body: string)     // line 62
    | KeyWritten                // line 63: about to read the clock
    | Stamped(now: int)         // line 63: about to write the expiry
    | ExpiryWritten             // line 65
    | Done(result: Result)

  datatype State = State(
    configured: string,         // config.VerificationKey, empty if there is none
    ttl: int,                   // cacheTtl
    clock: int,
    key: Key,
    expiry: Expiry,
    lock: Option<Thread>,
    pcs: map<Thread, Pc>,
    fetches: seq<Fetch>)
  {
    function Pc(t: Thread): Pc {
      if t in pcs then pcs[t] else Idle
    }

    function At(t: Thread, pc: Pc): State {
      this.(pcs := pcs[t := pc])
    }

    function Last(): nat
      requires fetches != []
    {
      |fetches| - 1
    }
  }

  predicate After(e: Expiry, now: int) {
    e.At? && e.time > now
  }

  /** What the key server answers. */
  datatype Answer = Failure | Body(body: string)

  datatype Action = Tick(elapsed: nat) | Step(thread: Thread, answer: Answer)

  function Next(s: State, a: Action): State {
    match a
    case Tick(elapsed) => s.(clock := s.clock + elapsed)
    case Step(t, answer) => StepOf(s, t, answer)
  }

  /** One step of thread `t`; a thread that waits for a taken lock stays where it is. */
  function StepOf(s: State, t: Thread, answer: Answer): State {
    match s.Pc(t)
    case Idle =>
      if s.configured != "" then s.At(t, Done(Pinned(s.configured)))
      else if s.key.NoKey? then s.At(t, Waiting)
      else s.At(t, SawKey)
    case SawKey => s.At(t, SawExpiry(s.expiry))
    case SawExpiry(e) =>
      if After(e, s.clock) then s.At(t, Passed(Unexpired(e.fetch, s.clock))) else s.At(t, Waiting)
    case Passed(why) => s.At(t, Done(Cached(s.key, why)))
    case Waiting => if s.lock.Some? then s else s.At(t, Locked).(lock := Some(t))
    case Locked => if s.key.NoKey? then s.At(t, ToFetch) else s.At(t, LockedSawKey)
    case LockedSawKey => s.At(t, LockedSawExpiry(s.expiry))
    case LockedSawExpiry(e) =>
      if After(e, s.clock) then s.At(t, LockedPassed(Unexpired(e.fetch, s.clock))) else s.At(t, ToFetch)
    case LockedPassed(why) => s.At(t, Done(Cached(s.key, why))).(lock := None)
    case ToFetch => s.At(t, Fetching).(fetches := s.fetches + [Fetch(t, s.clock, None, None, None)])
    case Fetching =>
      if s.fetches == [] then s
      else
        var ended := s.fetches[s.Last()].(ended := Some(s.clock));
        if answer.Failure? then
          s.At(t, Done(FetchFailed)).(fetches := s.fetches[s.Last() := ended], lock := None)
        else
          s.At(t, Fetched(answer.body)).(fetches := s.fetches[s.Last() := ended.(body := Some(answer.body))])
    case Fetched(body) => if s.fetches == [] then s else s.At(t, KeyWritten).(key := Key(body, s.Last()))
    case KeyWritten =>
      if s.fetches == [] then s
      else s.At(t, Stamped(s.clock)).(fetches := s.fetches[s.Last() := s.fetches[s.Last()].(recorded := Some(s.clock))])
    case Stamped(now) =>
      if s.fetches == [] then s else s.At(t, ExpiryWritten).(expiry := Expiry.At(now + s.ttl, s.Last()))
    case ExpiryWritten =>
      if s.fetches == [] then s else s.At(t, Done(Cached(s.key, OwnFetch(s.Last())))).(lock := None)
    case Done(_) => s.At(t, Idle)
  }

  predicate Init(s: State) {
    s.key == NoKey && s.expiry == Never && s.lock == None && s.pcs == map[] && s.fetches == []
  }

  function Exec(s: State, run: seq<Action>): State
    decreases run
  {
    if run == [] then s else Exec(Next(s, run[0]), run[1..])
  }

  // ------------------------------------------------------------------ the invariant

  predicate HoldsLock(pc: Pc) {
    match pc
    case Locked | LockedSawKey | LockedSawExpiry(_) | LockedPassed(_) => true
    case ToFetch | Fetching | Fetched(_) | KeyWritten | Stamped(_) | ExpiryWritten => true
    case _ => false
  }

  ghost predicate Exclusive(s: State) {
    forall t: Thread :: HoldsLock(s.Pc(t)) <==> s.lock == Some(t)
  }

  /** Where the update stands: the place of the thread that holds the lock. */
  function Holder(s: State): Pc {
    if s.lock.Some? then s.Pc(s.lock.value) else Idle
  }

  /** Fetch `i` is well formed: its dates are in order and not in the future. */
  ghost predicate Dated(s: State, i: nat)
    requires i < |s.fetches|
  {
    var f := s.fetches[i];
    && f.started <= s.clock
    && (f.ended.Some? ==> f.started <= f.ended.value <= s.clock)
    && (f.body.Some? ==> f.ended.Some?)
    && (f.recorded.Some? ==> f.body.Some? && f.ended.value <= f.recorded.value <= s.clock)
    && (f.ended.None? <==> i == |s.fetches| - 1 && Holder(s).Fetching?)
  }

  /** Fetch `j` comes after fetch `i`: it began once `i` was over, and not before `i`'s key expired. */
  ghost predicate Apart(s: State, i: nat, j: nat)
    requires i < j < |s.fetches|
  {
    && s.fetches[i].ended.Some? && s.fetches[i].ended.value <= s.fetches[j].started
    && (s.fetches[i].recorded.Some? ==> s.fetches[i].recorded.value + s.ttl <= s.fetches[j].started)
  }

  ghost predicate Log(s: State) {
    && (forall i: nat | i < |s.fetches| :: Dated(s, i))
    && (forall i: nat, j: nat | i < j < |s.fetches| :: Apart(s, i, j))
  }

  /** `g` is a fetch whose key is no newer than the cached one, and whose expiry lies after `at`. */
  ghost predicate Backed(s: State, g: nat, e: int)
  {
    && s.key.Key? && g <= s.key.fetch && g < |s.fetches|
    && s.fetches[g].recorded.Some? && s.fetches[g].recorded.value + s.ttl == e
  }

  ghost predicate Fields(s: State) {
    && (s.key.Key? ==> s.key.fetch < |s.fetches| && s.fetches[s.key.fetch].body == Some(s.key.bytes))
    && (s.expiry.At? ==> Backed(s, s.expiry.fetch, s.expiry.time))
    // between the two writes the key is newer than the expiry; otherwise they agree
    && (if Holder(s).KeyWritten? || Holder(s).Stamped? then s.key.Key?
        else (s.key.Key? <==> s.expiry.At?) && (s.key.Key? ==> s.key.fetch == s.expiry.fetch))
    // whatever has been recorded is covered by the expiry, or is about to be
    && (forall i: nat | i < |s.fetches| && s.fetches[i].recorded.Some? ::
          (s.expiry.At? && i <= s.expiry.fetch) || (Holder(s).Stamped? && i == |s.fetches| - 1))
  }

  /** What a key that was returned, or is about to be, stands for. */
  ghost predicate Justified(s: State, why: Reason) {
    match why
    case Unexpired(g, at) =>
      && s.key.Key? && g <= s.key.fetch && g < |s.fetches|
      && s.fetches[g].recorded.Some? && s.fetches[g].recorded.value + s.ttl > at && at <= s.clock
    case OwnFetch(g) => g < |s.fetches|
  }

  ghost predicate Returned(s: State, key: Key, why: Reason) {
    && key.Key? && key.fetch < |s.fetches| && s.fetches[key.fetch].body == Some(key.bytes)
    && match why
       case Unexpired(g, at) =>
         && g <= key.fetch
         && s.fetches[g].recorded.Some? && s.fetches[g].recorded.value + s.ttl > at && at <= s.clock
       case OwnFetch(g) => g == key.fetch
  }

  /** What a thread at `pc` can rely on. */
  ghost predicate Local(s: State, pc: Pc) {
    match pc
    case SawKey => s.key.Key?
    case SawExpiry(e) => s.key.Key? && (e.At? ==> Backed(s, e.fetch, e.time))
    case LockedSawKey => s.key.Key?
    case LockedSawExpiry(e) => s.key.Key? && e == s.expiry
    case Passed(why) => why.Unexpired? && Justified(s, why)
    case LockedPassed(why) => why.Unexpired? && Justified(s, why)
    case ToFetch =>
      forall i: nat | i < |s.fetches| && s.fetches[i].recorded.Some? ::
        s.fetches[i].recorded.value + s.ttl <= s.clock
    case Fetching => s.fetches != []
    case Fetched(body) =>
      s.fetches != [] && s.fetches[s.Last()].body == Some(body) && s.fetches[s.Last()].recorded.None?
    case KeyWritten => s.fetches != [] && s.key.Key? && s.key.fetch == s.Last() && s.fetches[s.Last()].recorded.None?
    case Stamped(now) =>
      s.fetches != [] && s.key.Key? && s.key.fetch == s.Last() && s.fetches[s.Last()].recorded == Some(now)
    case ExpiryWritten => s.fetches != [] && s.key.Key? && s.key.fetch == s.Last()
    case Done(Cached(key, why)) => Returned(s, key, why)
    case _ => true
  }

  ghost predicate Inv(s: State) {
    && Exclusive(s) && Log(s) && Fields(s)
    && (forall t: Thread :: Local(s, s.Pc(t)))
  }

  /** `s'` is a later state: what has been recorded stays, and the cached key only gets newer. */
  ghost predicate Later(s: State, s': State) {
    && s'.ttl == s.ttl && s.clock <= s'.clock && |s.fetches| <= |s'.fetches|
    && (s.key.Key? ==> s'.key.Key? && s.key.fetch <= s'.key.fetch)
    && (forall i: nat | i < |s.fetches| :: Keeps(s.fetches[i], s'.fetches[i]))
  }

  ghost predicate Keeps(f: Fetch, f': Fetch) {
    && (f.body.Some? ==> f'.body == f.body)
    && (f.recorded.Some? ==> f'.recorded == f.recorded)
  }

  lemma {:induction false} LocalStable(s: State, s': State, pc: Pc)
    requires Later(s, s') && Local(s, pc) && !HoldsLock(pc)
    ensures Local(s', pc)
  {
  }

  /** The step of a thread keeps the invariant if it keeps the shared part and its own assertion. */
  lemma {:induction false} Framed(s: State, s': State, t: Thread)
    requires Inv(s) && Later(s, s') && Exclusive(s') && Log(s') && Fields(s')
    requires forall u: Thread | u != t :: s'.Pc(u) == s.Pc(u)
    requires forall u: Thread | u != t :: !HoldsLock(s.Pc(u))
    requires Local(s', s'.Pc(t))
    ensures Inv(s')
  {
    forall u: Thread
      ensures Local(s', s'.Pc(u))
    {
      if u != t {
        LocalStable(s, s', s.Pc(u));
      }
    }
  }

  predicate MidUpdate(pc: Pc) {
    pc.Fetching? || pc.KeyWritten? || pc.Stamped?
  }

  /** Thread `t` moves to `pc`, perhaps taking or giving up the lock, and touches nothing else. */
  lemma {:induction false} Moved(s: State, t: Thread, pc: Pc, lock: Option<Thread>)
    requires Inv(s) && Local(s, pc) && !MidUpdate(pc) && !MidUpdate(s.Pc(t))
    requires lock == s.lock || (s.lock == Some(t) && lock == None) || (s.lock == None && lock == Some(t))
    requires HoldsLock(pc) <==> lock == Some(t)
    ensures Inv(s.At(t, pc).(lock := lock))
  {
    var s' := s.At(t, pc).(lock := lock);
    assert forall u: Thread :: s'.Pc(u) == if u == t then pc else s.Pc(u);
    assert HoldsLock(s.Pc(t)) <==> s.lock == Some(t);
    SharedKept(s, s');
    forall u: Thread
      ensures Local(s', s'.Pc(u))
    {
      SameLocal(s, s', s'.Pc(u));
    }
  }

  lemma {:induction false} SameLocal(s: State, s': State, pc: Pc)
    requires s' == s.(pcs := s'.pcs, lock := s'.lock)
    ensures Local(s', pc) == Local(s, pc)
  {
  }

  /** The log and the fields depend on the lock only through three places of its holder. */
  lemma {:induction false} SharedKept(s: State, s': State)
    requires Log(s) && Fields(s)
    requires s' == s.(pcs := s'.pcs, lock := s'.lock)
    requires Holder(s').Fetching? == Holder(s).Fetching?
    requires Holder(s').KeyWritten? == Holder(s).KeyWritten?
    requires Holder(s').Stamped? == Holder(s).Stamped?
    ensures Log(s') && Fields(s')
  {
    forall i: nat | i < |s.fetches|
      ensures Dated(s', i)
    {
      assert Dated(s, i);
    }
    forall i: nat, j: nat | i < j < |s.fetches|
      ensures Apart(s', i, j)
    {
      assert Apart(s, i, j);
    }
  }

  /** The steps outside the lock, and the one that takes it. */
  lemma {:induction false} UnlockedStep(s: State, t: Thread, answer: Answer)
    requires Inv(s) && !HoldsLock(s.Pc(t))
    ensures Inv(StepOf(s, t, answer))
  {
    var s' := StepOf(s, t, answer);
    assert Local(s, s.Pc(t)) && s.lock != Some(t);
    var pc := s'.Pc(t);
    if s' != s {
      assert s' == s.At(t, pc).(lock := s'.lock);
      UnlockedLocal(s, t, answer);
      Moved(s, t, pc, s'.lock);
    }
  }

  lemma {:induction false} UnlockedLocal(s: State, t: Thread, answer: Answer)
    requires Fields(s) && Local(s, s.Pc(t)) && !HoldsLock(s.Pc(t))
    ensures Local(s, StepOf(s, t, answer).Pc(t))
  {
  }

  predicate OnlyReads(pc: Pc) {
    pc.Locked? || pc.LockedSawKey? || pc.LockedSawExpiry? || pc.LockedPassed? || pc.ExpiryWritten?
  }

  /** The steps under the lock that only read. */
  lemma {:induction false} LockedRead(s: State, t: Thread, answer: Answer)
    requires Inv(s) && OnlyReads(s.Pc(t))
    ensures Inv(StepOf(s, t, answer))
  {
    var s' := StepOf(s, t, answer);
    var pc := s'.Pc(t);
    assert Local(s, s.Pc(t)) && s.lock == Some(t);
    assert s' == s.At(t, pc).(lock := s'.lock);
    LockedLocal(s, t, answer);
    Moved(s, t, pc, s'.lock);
  }

  lemma {:induction false} LockedLocal(s: State, t: Thread, answer: Answer)
    requires Log(s) && Fields(s) && Local(s, s.Pc(t)) && Holder(s) == s.Pc(t)
    requires OnlyReads(s.Pc(t))
    ensures Local(s, StepOf(s, t, answer).Pc(t))
  {
    if StepOf(s, t, answer).Pc(t).ToFetch? {
      forall i: nat | i < |s.fetches| && s.fetches[i].recorded.Some?
        ensures s.fetches[i].recorded.value + s.ttl <= s.clock
      {
        if i < s.expiry.fetch {
          assert Apart(s, i, s.expiry.fetch) && Dated(s, s.expiry.fetch);
        }
      }
    }
  }

  /** Line 51: the fetch begins after the last one was over and its key expired. */
  lemma {:induction false} FetchBegins(s: State, t: Thread, answer: Answer)
    requires Inv(s) && s.Pc(t).ToFetch?
    ensures Inv(StepOf(s, t, answer))
  {
    var s' := StepOf(s, t, answer);
    LockStep(s, s', t);
    var n := |s.fetches|;
    forall i: nat, j: nat | i < j < |s'.fetches|
      ensures Apart(s', i, j)
    {
      assert Dated(s, i);
      if j < n {
        assert Apart(s, i, j);
      }
    }
    assert forall i: nat | i < n :: Dated(s, i) && s'.fetches[i] == s.fetches[i];
    Framed(s, s', t);
  }

  /** Lines 51-60: the answer is in, or the fetch has failed. */
  lemma {:induction false} FetchEnds(s: State, t: Thread, answer: Answer)
    requires Inv(s) && s.Pc(t).Fetching?
    ensures Inv(StepOf(s, t, answer))
  {
    var s' := StepOf(s, t, answer);
    LockStep(s, s', t);
    assert Dated(s, s.Last());
    LogLastChanged(s, s');
    Framed(s, s', t);
  }

  /** Lines 62 and 63: the key, the clock and the expiry. */
  lemma {:induction false} UpdateStep(s: State, t: Thread, answer: Answer)
    requires Inv(s) && (s.Pc(t).Fetched? || s.Pc(t).KeyWritten? || s.Pc(t).Stamped?)
    ensures Inv(StepOf(s, t, answer))
  {
    var s' := StepOf(s, t, answer);
    LockStep(s, s', t);
    assert Dated(s, s.Last());
    LogLastChanged(s, s');
    Framed(s, s', t);
  }

  /** What is common to the steps of the lock holder. */
  lemma {:induction false} LockStep(s: State, s': State, t: Thread)
    requires Inv(s) && HoldsLock(s.Pc(t)) && s'.pcs == s.pcs[t := s'.Pc(t)]
    requires s'.lock == if HoldsLock(s'.Pc(t)) then Some(t) else None
    ensures Holder(s) == s.Pc(t) && s.lock == Some(t) && Local(s, s.Pc(t))
    ensures Exclusive(s')
    ensures forall u: Thread | u != t :: s'.Pc(u) == s.Pc(u) && !HoldsLock(s.Pc(u))
  {
    assert forall u: Thread :: HoldsLock(s.Pc(u)) <==> s.lock == Some(u);
  }

  /** The log after a change of its last entry. */
  lemma {:induction false} LogLastChanged(s: State, s': State)
    requires Log(s) && s.fetches != [] && |s'.fetches| == |s.fetches| && s'.ttl == s.ttl && s'.clock == s.clock
    requires forall i: nat | i < |s.fetches| - 1 :: s'.fetches[i] == s.fetches[i]
    requires s'.fetches[s.Last()].started == s.fetches[s.Last()].started
    requires Dated(s', s.Last())
    ensures Log(s')
  {
    forall i: nat | i < |s.fetches|
      ensures Dated(s', i)
    {
      assert Dated(s, i);
    }
    forall i: nat, j: nat | i < j < |s.fetches|
      ensures Apart(s', i, j)
    {
      assert Apart(s, i, j);
    }
  }

  lemma {:induction false} LogTick(s: State, s': State)
    requires Log(s) && s' == s.(clock := s'.clock) && s.clock <= s'.clock
    ensures Log(s')
  {
    forall i: nat | i < |s.fetches|
      ensures Dated(s', i)
    {
      assert Dated(s, i);
    }
    forall i: nat, j: nat | i < j < |s.fetches|
      ensures Apart(s', i, j)
    {
      assert Apart(s, i, j);
    }
  }

  lemma {:induction false} FieldsTick(s: State, s': State)
    requires Fields(s) && s' == s.(clock := s'.clock) && s.clock <= s'.clock
    ensures Fields(s')
  {
  }

  lemma {:induction false} LocalTick(s: State, s': State, pc: Pc)
    requires Local(s, pc) && s' == s.(clock := s'.clock) && s.clock <= s'.clock
    ensures Local(s', pc)
  {
  }

  lemma {:induction false} TickKeepsInv(s: State, s': State)
    requires Inv(s) && s' == s.(clock := s'.clock) && s.clock <= s'.clock
    ensures Inv(s')
  {
    LogTick(s, s');
    FieldsTick(s, s');
    assert forall u: Thread :: s'.Pc(u) == s.Pc(u);
    forall u: Thread
      ensures Local(s', s'.Pc(u))
    {
      LocalTick(s, s', s.Pc(u));
    }
  }

  lemma {:induction false} StepKeepsInv(s: State, a: Action)
    requires Inv(s)
    ensures Inv(Next(s, a))
  {
    match a
    case Tick(_) => TickKeepsInv(s, Next(s, a));
    case Step(t, answer) =>
      match s.Pc(t) {
        case ToFetch => FetchBegins(s, t, answer);
        case Fetching => FetchEnds(s, t, answer);
        case Fetched(_) => UpdateStep(s, t, answer);
        case KeyWritten => UpdateStep(s, t, answer);
        case Stamped(_) => UpdateStep(s, t, answer);
        case _ =>
          if HoldsLock(s.Pc(t)) {
            LockedRead(s, t, answer);
          } else {
            UnlockedStep(s, t, answer);
          }
      }
  }

  lemma {:induction false} RunKeepsInv(s: State, run: seq<Action>)
    requires Inv(s)
    ensures Inv(Exec(s, run))
    decreases run
  {
    if run != [] {
      StepKeepsInv(s, run[0]);
      RunKeepsInv(Next(s, run[0]), run[1..]);
    }
  }

  // ------------------------------------------------------------------ who fetched

  /** The fetch that a thread is engaged in, or says was its own, is one that it began. */
  ghost predicate Owns(s: State, t: Thread) {
    match s.Pc(t)
    case Fetching | Fetched(_) | KeyWritten | Stamped(_) | ExpiryWritten =>
      s.fetches != [] && s.fetches[s.Last()].owner == t
    case Done(Cached(_, OwnFetch(g))) => g < |s.fetches| && s.fetches[g].owner == t
    case _ => true
  }

  lemma {:induction false} OwnStep(s: State, t: Thread, answer: Answer)
    requires Inv(s) && Owns(s, t)
    ensures Owns(StepOf(s, t, answer), t)
  {
    assert Local(s, s.Pc(t));
  }

  /** Only the holder of the lock changes the log, and no fetch changes hands. */
  lemma {:induction false} LogGrows(s: State, t: Thread, answer: Answer)
    ensures var s' := StepOf(s, t, answer);
      && |s.fetches| <= |s'.fetches| && (forall i: nat | i < |s.fetches| :: s'.fetches[i].owner == s.fetches[i].owner)
      && (!HoldsLock(s.Pc(t)) ==> s'.fetches == s.fetches)
      && forall u: Thread | u != t :: s'.Pc(u) == s.Pc(u)
  {
  }

  lemma {:induction false} OthersOwn(s: State, t: Thread, answer: Answer, u: Thread)
    requires Inv(s) && Owns(s, u) && u != t
    ensures Owns(StepOf(s, t, answer), u)
  {
    LogGrows(s, t, answer);
    assert HoldsLock(s.Pc(u)) <==> s.lock == Some(u);
    assert HoldsLock(s.Pc(t)) <==> s.lock == Some(t);
  }

  lemma {:induction false} RunKeepsOwners(s: State, run: seq<Action>, t: Thread)
    requires Inv(s) && Owns(s, t)
    ensures Owns(Exec(s, run), t)
    decreases run
  {
    if run != [] {
      StepKeepsInv(s, run[0]);
      if run[0].Step? {
        if run[0].thread == t {
          OwnStep(s, t, run[0].answer);
        } else {
          OthersOwn(s, run[0].thread, run[0].answer, t);
        }
      }
      RunKeepsOwners(Next(s, run[0]), run[1..], t);
    }
  }

  // ------------------------------------------------------------------ what every run guarantees

  /**
    Freshness: a key returned by the fast path or by the check under the lock, in any run,
    belongs to a fetch no older than one whose expiry still lay ahead when the thread made
    its check.
   */
  lemma {:induction false} Freshness(init: State, run: seq<Action>, t: Thread)
    requires Init(init) && Exec(init, run).Pc(t).Done? && Exec(init, run).Pc(t).result.Cached?
    requires Exec(init, run).Pc(t).result.why.Unexpired?
    ensures var s := Exec(init, run);
      var Cached(key, Unexpired(g, at)) := s.Pc(t).result;
      && key.Key? && g <= key.fetch < |s.fetches|
      && s.fetches[key.fetch].body == Some(key.bytes)
      && s.fetches[g].recorded.Some? && s.fetches[g].recorded.value + s.ttl > at && at <= s.clock
  {
    RunKeepsInv(init, run);
    assert Local(Exec(init, run), Exec(init, run).Pc(t));
  }

  /**
    Staleness: the fetch that such a key came from was recorded less than `ttl` before the
    check, or began only after the check.
   */
  lemma {:induction false} Staleness(init: State, run: seq<Action>, t: Thread)
    requires Init(init) && Exec(init, run).Pc(t).Done? && Exec(init, run).Pc(t).result.Cached?
    requires Exec(init, run).Pc(t).result.why.Unexpired?
    ensures var s := Exec(init, run);
      var Cached(key, Unexpired(_, at)) := s.Pc(t).result;
      && key.Key? && key.fetch < |s.fetches|
      && var f := s.fetches[key.fetch];
         f.started > at || (f.recorded.Some? && f.recorded.value > at - s.ttl)
  {
    var s := Exec(init, run);
    RunKeepsInv(init, run);
    Freshness(init, run, t);
    var Cached(key, Unexpired(g, at)) := s.Pc(t).result;
    if g < key.fetch {
      assert Apart(s, g, key.fetch);
    }
  }

  /** A thread that fetched returns what a fetch that it began itself received. */
  lemma {:induction false} SlowPath(init: State, run: seq<Action>, t: Thread)
    requires Init(init) && Exec(init, run).Pc(t).Done? && Exec(init, run).Pc(t).result.Cached?
    requires Exec(init, run).Pc(t).result.why.OwnFetch?
    ensures var s := Exec(init, run);
      var Cached(key, OwnFetch(g)) := s.Pc(t).result;
      && key.Key? && g == key.fetch && g < |s.fetches| && s.fetches[g].body == Some(key.bytes)
      && s.fetches[g].owner == t
  {
    RunKeepsInv(init, run);
    RunKeepsOwners(init, run, t);
    assert Local(Exec(init, run), Exec(init, run).Pc(t));
  }

  /**
    Fetches never overlap, and after a fetch recorded at time r none begins before r + ttl,
    for any number of threads and any interleaving.
   */
  lemma {:induction false} FetchesApart(init: State, run: seq<Action>, i: nat, j: nat)
    requires Init(init) && i < j < |Exec(init, run).fetches|
    ensures var s := Exec(init, run);
      && s.fetches[i].ended.Some? && s.fetches[i].ended.value <= s.fetches[j].started
      && (s.fetches[i].recorded.Some? ==> s.fetches[i].recorded.value + s.ttl <= s.fetches[j].started)
  {
    RunKeepsInv(init, run);
    assert Apart(Exec(init, run), i, j);
  }

  /** At most one thread is between the lock and its release, hence at most one fetches. */
  lemma {:induction false} OneFetcher(init: State, run: seq<Action>, t: Thread, u: Thread)
    requires Init(init) && HoldsLock(Exec(init, run).Pc(t)) && HoldsLock(Exec(init, run).Pc(u))
    ensures t == u
  {
    RunKeepsInv(init, run);
  }

  /** The thread that holds the lock is never blocked. */
  lemma {:induction false} HolderRuns(init: State, run: seq<Action>, t: Thread, answer: Answer)
    requires Init(init) && Exec(init, run).lock == Some(t)
    ensures StepOf(Exec(init, run), t, answer) != Exec(init, run)
  {
    var s := Exec(init, run);
    RunKeepsInv(init, run);
    assert HoldsLock(s.Pc(t)) && Local(s, s.Pc(t));
    assert StepOf(s, t, answer).Pc(t) != s.Pc(t);
  }

  // ------------------------------------------------------------------ a configured key, and failures

  /** With a configured key a thread is idle or has it, and no fetch is made; without one nothing is pinned. */
  ghost predicate Pinning(s: State) {
    if s.configured != "" then
      s.fetches == [] && forall t: Thread :: s.Pc(t) == Idle || s.Pc(t) == Done(Pinned(s.configured))
    else
      forall t: Thread :: s.Pc(t).Done? ==> !s.Pc(t).result.Pinned?
  }

  lemma {:induction false} RunKeepsPinning(s: State, run: seq<Action>)
    requires Pinning(s)
    ensures Pinning(Exec(s, run)) && Exec(s, run).configured == s.configured
    decreases run
  {
    if run != [] {
      StepKeepsPinning(s, run[0]);
      RunKeepsPinning(Next(s, run[0]), run[1..]);
    }
  }

  lemma {:induction false} StepKeepsPinning(s: State, a: Action)
    requires Pinning(s)
    ensures Pinning(Next(s, a)) && Next(s, a).configured == s.configured
  {
    match a
    case Tick(_) => assert forall t: Thread :: Next(s, a).Pc(t) == s.Pc(t);
    case Step(u, answer) =>
      LogGrows(s, u, answer);
      assert s.configured != "" ==> s.Pc(u) == Idle || s.Pc(u) == Done(Pinned(s.configured));
  }

  /**
    In every run a configured key is what every call returns, and it is never fetched; without
    one no call returns a configured key.
   */
  lemma {:induction false} PinnedExactly(init: State, run: seq<Action>, t: Thread)
    requires Init(init) && Exec(init, run).Pc(t).Done?
    ensures var s := Exec(init, run);
      && (init.configured != "" ==> s.Pc(t).result == Pinned(init.configured) && s.fetches == [])
      && (init.configured == "" ==> !s.Pc(t).result.Pinned?)
  {
    assert forall u: Thread :: init.Pc(u) == Idle;
    RunKeepsPinning(init, run);
  }

  /** A fetch of this thread that was over without a body. */
  ghost predicate Missed(s: State, t: Thread, g: nat) {
    g < |s.fetches| && s.fetches[g].owner == t && s.fetches[g].ended.Some? && s.fetches[g].body.None?
  }

  ghost predicate Excused(s: State, t: Thread) {
    s.Pc(t) == Done(FetchFailed) ==> exists g :: Missed(s, t, g)
  }

  /** What is over stays as it is, but for the time at which it is recorded. */
  lemma {:induction false} MissedStays(s: State, u: Thread, answer: Answer, t: Thread, g: nat)
    requires Inv(s) && Missed(s, t, g)
    ensures Missed(StepOf(s, u, answer), t, g)
  {
    LogGrows(s, u, answer);
    assert Dated(s, g);
    assert HoldsLock(s.Pc(u)) <==> s.lock == Some(u);
    if s.fetches != [] {
      assert Dated(s, s.Last());
    }
  }

  lemma {:induction false} StepExcused(s: State, u: Thread, answer: Answer, t: Thread)
    requires Inv(s) && Owns(s, t) && Excused(s, t)
    ensures Excused(StepOf(s, u, answer), t)
  {
    LogGrows(s, u, answer);
    if StepOf(s, u, answer).Pc(t) == Done(FetchFailed) {
      if s.Pc(t) == Done(FetchFailed) {
        var g :| Missed(s, t, g);
        MissedStays(s, u, answer, t, g);
      } else {
        assert Local(s, s.Pc(t));
        assert HoldsLock(s.Pc(t)) <==> s.lock == Some(t);
        assert Dated(s, s.Last());
        assert Missed(StepOf(s, u, answer), t, s.Last());
      }
    }
  }

  lemma {:induction false} RunExcused(s: State, run: seq<Action>, t: Thread)
    requires Inv(s) && Owns(s, t) && Excused(s, t)
    ensures Excused(Exec(s, run), t)
    decreases run
  {
    if run != [] {
      StepKeepsInv(s, run[0]);
      RunKeepsOwners(s, [run[0]], t);
      assert Exec(s, [run[0]]) == Next(s, run[0]) by {
        assert [run[0]][1..] == [];
      }
      RunExcusedStep(s, run[0], t);
      RunExcused(Next(s, run[0]), run[1..], t);
    }
  }

  lemma {:induction false} RunExcusedStep(s: State, a: Action, t: Thread)
    requires Inv(s) && Owns(s, t) && Excused(s, t)
    ensures Excused(Next(s, a), t)
  {
    match a {
      case Tick(elapsed) =>
        assert Next(s, a).fetches == s.fetches;
        if s.Pc(t) == Done(FetchFailed) {
          var g :| Missed(s, t, g);
          assert Missed(Next(s, a), t, g);
        }
      case Step(u, answer) => StepExcused(s, u, answer, t);
    }
  }

  /** A call fails only after a fetch of its own that received no body. */
  lemma {:induction false} FailedFetch(init: State, run: seq<Action>, t: Thread)
    requires Init(init) && Exec(init, run).Pc(t) == Done(FetchFailed)
    ensures exists g :: Missed(Exec(init, run), t, g)
  {
    RunKeepsInv(init, []);
    RunExcused(init, run, t);
  }

  // ------------------------------------------------------------------ the fast path

  /**
    With an unexpired key a call returns it in four steps, whoever holds the lock: it does not
    wait, and does not fetch.
   */
  lemma {:induction false} FastPath(s: State, t: Thread, answer: Answer)
    requires s.configured == "" && s.Pc(t) == Idle && s.key.Key? && s.expiry.At? && s.expiry.time > s.clock
    ensures var s1 := StepOf(s, t, answer); var s2 := StepOf(s1, t, answer);
      var s3 := StepOf(s2, t, answer); var s4 := StepOf(s3, t, answer);
      && s4.Pc(t) == Done(Cached(s.key, Unexpired(s.expiry.fetch, s.clock)))
      && s4 == s.At(t, s4.Pc(t))
  {
  }

  /** Without a key, or with an expired one, it goes for the lock; and it waits only while another thread has it. */
  lemma {:induction false} SlowStart(s: State, t: Thread, answer: Answer)
    requires s.configured == ""
    ensures s.Pc(t) == Idle && s.key.NoKey? ==> StepOf(s, t, answer).Pc(t) == Waiting
    ensures s.Pc(t).SawExpiry? && !After(s.Pc(t).seen, s.clock) ==> StepOf(s, t, answer).Pc(t) == Waiting
    ensures s.Pc(t) == Waiting && s.lock.None? ==> StepOf(s, t, answer) == s.At(t, Locked).(lock := Some(t))
    ensures s.Pc(t) == Waiting && s.lock.Some? ==> StepOf(s, t, answer) == s
  {
  }
}
