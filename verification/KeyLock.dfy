/** pkg/conc/key_lock.go, step by step. */
module KeyLock {
  // A "call" is one call of Lock together with the unlock function it returns. The mutex l.lck guards the map of
  // entries and all reference counts; the code under it is cut where it can interleave with another call, that is at
  // each operation on a mutex.

  import opened Bytes

  type Call = nat

  /** Where a call is in Lock or in the unlock function that Lock returned. */
  datatype Phase<K, E> =
    | Idle
    | Entering(key: K)               // has l.lck, has not looked for the entry yet
    | Waiting(key: K, entry: E)      // counted, wants the entry's mutex
    | Holding(key: K, entry: E)      // Lock has returned
    | Unlocking(key: K, entry: E)    // has l.lck, has given its reference back
    | Cleaning(key: K, entry: E)     // has l.lck, has released the entry's mutex
  {
    predicate HasLock() { Entering? || Unlocking? || Cleaning? }
    predicate HasEntry() { !Idle? && !Entering? }
    ghost predicate Uses(e: E) { (Waiting? || Holding?) && entry == e }
    ghost predicate Owns(e: E) { (Holding? || Unlocking?) && entry == e }
  }

  datatype State<!K, !E> = State(
    lck: Option<Call>,
    entries: map<K, E>,
    refCount: map<E, int>,
    owner: map<E, Option<Call>>,
    phase: map<Call, Phase<K, E>>)
  {
    function At(c: Call): Phase<K, E> { if c in phase then phase[c] else Idle }

    ghost function Users(e: E): set<Call> { set c | c in phase && phase[c].Uses(e) }
  }

  datatype Step<K, E> =
    | Enter(c: Call, key: K)
    | Register(c: Call, newEntry: E)
    | Take(c: Call)
    | BeginUnlock(c: Call)
    | Release(c: Call)
    | Finish(c: Call)

  /** When the step does not block: a mutex can be taken only while nobody has it. */
  ghost predicate Enabled<K, E>(s: State<K, E>, step: Step<K, E>) {
    var p := s.At(step.c);
    match step
    case Enter(_, _) => p.Idle? && s.lck == None
    case Register(_, newEntry) => p.Entering? && (p.key in s.entries || newEntry !in s.refCount)
    case Take(_) => p.Waiting? && p.entry in s.owner && s.owner[p.entry] == None
    case BeginUnlock(_) => p.Holding? && s.lck == None && p.entry in s.refCount
    case Release(_) => p.Unlocking?
    case Finish(_) => p.Cleaning? && p.entry in s.refCount
  }

  ghost function Apply<K, E>(s: State<K, E>, step: Step<K, E>): (r: State<K, E>)
    requires Enabled(s, step)
  {
    var p := s.At(step.c);
    match step
    case Enter(c, key) => s.(lck := Some(c), phase := s.phase[c := Entering(key)])
    case Register(c, newEntry) =>
      if p.key in s.entries then
        var e := s.entries[p.key];
        s.(lck := None, refCount := s.refCount[e := (if e in s.refCount then s.refCount[e] else 0) + 1],
           phase := s.phase[c := Waiting(p.key, e)])
      else
        s.(lck := None, entries := s.entries[p.key := newEntry], refCount := s.refCount[newEntry := 1],
           owner := s.owner[newEntry := None], phase := s.phase[c := Waiting(p.key, newEntry)])
    case Take(c) => s.(owner := s.owner[p.entry := Some(c)], phase := s.phase[c := Holding(p.key, p.entry)])
    case BeginUnlock(c) =>
      s.(lck := Some(c), refCount := s.refCount[p.entry := s.refCount[p.entry] - 1],
         phase := s.phase[c := Unlocking(p.key, p.entry)])
    case Release(c) => s.(owner := s.owner[p.entry := None], phase := s.phase[c := Cleaning(p.key, p.entry)])
    case Finish(c) =>
      s.(lck := None, entries := if s.refCount[p.entry] == 0 then s.entries - {p.key} else s.entries,
         phase := s.phase[c := Idle])
  }

  ghost function Initial<K, E>(): State<K, E> {
    State(None, map[], map[], map[], map[])
  }

  /** The state after a run of steps from the initial state, or None when some step of it was not possible. */
  ghost function After<K, E>(run: seq<Step<K, E>>): Option<State<K, E>> {
    if run == [] then Some(Initial())
    else
      match After(run[..|run| - 1])
      case None => None
      case Some(s) => if Enabled(s, run[|run| - 1]) then Some(Apply(s, run[|run| - 1])) else None
  }

  // ---- what every reachable state keeps

  ghost predicate LockInv<K, E>(s: State<K, E>) {
    forall c: Call :: s.At(c).HasLock() <==> s.lck == Some(c)
  }

  ghost predicate EntryInv<K, E>(s: State<K, E>) {
    forall c: Call :: s.At(c).HasEntry() ==> s.At(c).key in s.entries && s.entries[s.At(c).key] == s.At(c).entry
  }

  ghost predicate MapInv<K, E>(s: State<K, E>) {
    && s.refCount.Keys == s.owner.Keys
    && (forall k :: k in s.entries ==> s.entries[k] in s.refCount)
    && (forall k, l :: k in s.entries && l in s.entries && s.entries[k] == s.entries[l] ==> k == l)
  }

  ghost predicate CountInv<K, E>(s: State<K, E>) {
    forall e :: e in s.refCount ==> s.refCount[e] == |s.Users(e)|
  }

  ghost predicate OwnerInv<K, E>(s: State<K, E>) {
    forall e, c: Call :: e in s.owner ==> (s.owner[e] == Some(c) <==> s.At(c).Owns(e))
  }

  /** An entry that nobody uses is there only while its last user is cleaning up. */
  ghost predicate StaleInv<K, E>(s: State<K, E>) {
    forall k :: k in s.entries && s.entries[k] in s.refCount && s.refCount[s.entries[k]] == 0 ==> InUnlock(s, k)
  }

  ghost predicate InUnlock<K, E>(s: State<K, E>, k: K) {
    s.lck.Some? && (s.At(s.lck.value).Unlocking? || s.At(s.lck.value).Cleaning?) && s.At(s.lck.value).key == k
  }

  ghost predicate Inv<K, E>(s: State<K, E>) {
    LockInv(s) && EntryInv(s) && MapInv(s) && CountInv(s) && OwnerInv(s) && StaleInv(s)
  }

  // ---- every step keeps it

  lemma {:induction false} StepKeepsLockInv<K, E>(s: State<K, E>, step: Step<K, E>)
    requires Inv(s) && Enabled(s, step)
    ensures LockInv(Apply(s, step))
  {
    var r := Apply(s, step);
    forall c ensures r.At(c).HasLock() <==> r.lck == Some(c) {
      assert s.At(c).HasLock() <==> s.lck == Some(c);
      assert s.At(step.c).HasLock() <==> s.lck == Some(step.c);
      assert c != step.c ==> r.At(c) == s.At(c);
    }
  }

  lemma {:induction false} NobodyElseHasEntry<K, E>(s: State<K, E>, c: Call, d: Call)
    requires Inv(s) && s.At(c).Cleaning? && s.refCount[s.At(c).entry] == 0
    requires d != c && s.At(d).HasEntry()
    ensures s.At(d).key != s.At(c).key
  {
    assert s.At(c).HasLock();
    assert !s.At(d).HasLock();
    var e := s.At(c).entry;
    assert s.Users(e) == {};
    assert s.At(d).Uses(e) ==> d in s.Users(e);
  }

  lemma {:induction false} StepKeepsEntryInv<K, E>(s: State<K, E>, step: Step<K, E>)
    requires Inv(s) && Enabled(s, step)
    ensures EntryInv(Apply(s, step))
  {
    var r := Apply(s, step);
    forall c | r.At(c).HasEntry() ensures r.At(c).key in r.entries && r.entries[r.At(c).key] == r.At(c).entry {
      if c != step.c {
        assert s.At(c).HasEntry();
        if step.Finish? && s.refCount[s.At(step.c).entry] == 0 {
          NobodyElseHasEntry(s, step.c, c);
        }
      } else if !step.Register? {
        assert s.At(c).HasEntry();
      }
    }
  }

  lemma {:induction false} StepKeepsMapInv<K, E>(s: State<K, E>, step: Step<K, E>)
    requires Inv(s) && Enabled(s, step)
    ensures MapInv(Apply(s, step))
  {
    if !step.Register? && !step.Enter? {
      assert s.At(step.c).HasEntry();
    }
  }

  ghost function UsersBut<K, E>(s: State<K, E>, c: Call, e: E): set<Call> {
    set d | d in s.phase && d != c && s.phase[d].Uses(e)
  }

  lemma {:induction false} CountAround<K, E>(s: State<K, E>, c: Call, e: E)
    ensures |s.Users(e)| == |UsersBut(s, c, e)| + (if s.At(c).Uses(e) then 1 else 0)
  {
    if s.At(c).Uses(e) {
      assert s.Users(e) == UsersBut(s, c, e) + {c};
    } else {
      assert s.Users(e) == UsersBut(s, c, e);
    }
  }

  lemma {:induction false} OneMoved<K, E>(s: State<K, E>, r: State<K, E>, c: Call, q: Phase<K, E>, e: E)
    requires r.phase == s.phase[c := q]
    ensures |r.Users(e)| == |s.Users(e)| + (if q.Uses(e) then 1 else 0) - (if s.At(c).Uses(e) then 1 else 0)
  {
    CountAround(s, c, e);
    CountAround(r, c, e);
    assert UsersBut(s, c, e) == UsersBut(r, c, e);
  }

  lemma {:induction false} StepKeepsCountInv<K, E>(s: State<K, E>, step: Step<K, E>)
    requires Inv(s) && Enabled(s, step)
    ensures CountInv(Apply(s, step))
  {
    var r := Apply(s, step);
    forall e | e in r.refCount ensures r.refCount[e] == |r.Users(e)| {
      OneMoved(s, r, step.c, r.At(step.c), e);
      if e !in s.refCount {
        NoUsersOfUnknown(s, e);
      }
    }
  }

  lemma {:induction false} NoUsersOfUnknown<K, E>(s: State<K, E>, e: E)
    requires Inv(s) && e !in s.refCount
    ensures s.Users(e) == {}
  {
    forall c ensures c !in s.Users(e) {
      assert s.At(c).HasEntry() ==> s.At(c).key in s.entries && s.entries[s.At(c).key] == s.At(c).entry;
    }
  }

  lemma {:induction false} StepKeepsOwnerInv<K, E>(s: State<K, E>, step: Step<K, E>)
    requires Inv(s) && Enabled(s, step)
    ensures OwnerInv(Apply(s, step))
  {
    var r := Apply(s, step);
    var p := s.At(step.c);
    forall e, c | e in r.owner ensures r.owner[e] == Some(c) <==> r.At(c).Owns(e) {
      if e in s.owner {
        assert s.owner[e] == Some(c) <==> s.At(c).Owns(e);
        assert s.owner[e] == Some(step.c) <==> p.Owns(e);
        assert c != step.c ==> r.At(c) == s.At(c);
      } else {
        assert s.At(c).HasEntry() ==> s.At(c).entry in s.refCount;
        assert c != step.c ==> r.At(c) == s.At(c);
      }
    }
  }

  lemma {:induction false} StepKeepsStaleInv<K, E>(s: State<K, E>, step: Step<K, E>)
    requires Inv(s) && Enabled(s, step)
    ensures StaleInv(Apply(s, step))
  {
    var r := Apply(s, step);
    var p := s.At(step.c);
    assert p.HasLock() <==> s.lck == Some(step.c);
    forall k | k in r.entries && r.entries[k] in r.refCount && r.refCount[r.entries[k]] == 0 ensures InUnlock(r, k) {
      if !step.Register? {
        assert k in s.entries && s.entries[k] in s.refCount;
        if p.HasEntry() {
          assert p.key in s.entries && s.entries[p.key] == p.entry;
        }
      }
    }
  }

  lemma {:induction false} StepKeepsInv<K, E>(s: State<K, E>, step: Step<K, E>)
    requires Inv(s) && Enabled(s, step)
    ensures Inv(Apply(s, step))
  {
    StepKeepsLockInv(s, step);
    StepKeepsEntryInv(s, step);
    StepKeepsMapInv(s, step);
    StepKeepsCountInv(s, step);
    StepKeepsOwnerInv(s, step);
    StepKeepsStaleInv(s, step);
  }

  lemma {:induction false} EveryRunKeepsInv<K, E>(run: seq<Step<K, E>>)
    ensures After(run).Some? ==> Inv(After(run).value)
  {
    if run == [] {
      forall e ensures Initial<K, E>().Users(e) == {} {}
    } else {
      EveryRunKeepsInv(run[..|run| - 1]);
      match After(run[..|run| - 1])
      case None =>
      case Some(s) =>
        if Enabled(s, run[|run| - 1]) {
          StepKeepsInv(s, run[|run| - 1]);
        }
    }
  }

  // ---- what it is for

  lemma {:induction false} OneHolder<K, E>(s: State<K, E>, c: Call, d: Call)
    requires Inv(s) && s.At(c).Holding? && s.At(d).Holding? && s.At(c).key == s.At(d).key
    ensures c == d
  {
    assert s.At(c).HasEntry() && s.At(d).HasEntry();
    var e := s.At(c).entry;
    assert s.At(c).Owns(e) && s.At(d).Owns(e);
    assert s.owner[e] == Some(c) && s.owner[e] == Some(d);
  }

  /** At most one call holds a key, in every state of every run. */
  lemma {:induction false} MutualExclusion<K, E>(run: seq<Step<K, E>>, c: Call, d: Call)
    requires After(run).Some?
    requires After(run).value.At(c).Holding? && After(run).value.At(d).Holding?
    requires After(run).value.At(c).key == After(run).value.At(d).key
    ensures c == d
  {
    EveryRunKeepsInv(run);
    OneHolder(After(run).value, c, d);
  }

  ghost function WaitersAndHolders<K, E>(s: State<K, E>, k: K): set<Call> {
    set c | c in s.phase && (s.phase[c].Waiting? || s.phase[c].Holding?) && s.phase[c].key == k
  }

  /** Every waiter and holder of a key points at the entry the map has for it, and the entry counts exactly them. */
  lemma {:induction false} WaitersShareTheEntry<K, E>(run: seq<Step<K, E>>, k: K)
    requires After(run).Some?
    ensures var s := After(run).value;
      forall c <- WaitersAndHolders(s, k) :: k in s.entries && s.At(c).entry == s.entries[k]
    ensures var s := After(run).value;
      forall e | k in s.entries && s.entries[k] == e :: e in s.refCount && s.refCount[e] == |WaitersAndHolders(s, k)|
  {
    EveryRunKeepsInv(run);
    var s := After(run).value;
    forall c <- WaitersAndHolders(s, k) ensures k in s.entries && s.At(c).entry == s.entries[k] {
      assert s.At(c).HasEntry();
    }
    if k in s.entries {
      forall c ensures c in WaitersAndHolders(s, k) <==> c in s.Users(s.entries[k]) {
        assert s.At(c).HasEntry() ==> s.At(c).key in s.entries && s.entries[s.At(c).key] == s.At(c).entry;
      }
      assert WaitersAndHolders(s, k) == s.Users(s.entries[k]);
    }
  }

  lemma {:induction false} EntryHasAReason<K, E>(s: State<K, E>, k: K)
    requires Inv(s) && k in s.entries
    ensures InUnlock(s, k) || exists c: Call :: s.At(c).Uses(s.entries[k])
  {
    if s.refCount[s.entries[k]] != 0 {
      assert s.Users(s.entries[k]) != {};
      var c :| c in s.Users(s.entries[k]);
      assert s.At(c).Uses(s.entries[k]);
    }
  }

  /** Once every call is over the map is empty: no entry leaks. */
  lemma {:induction false} NoEntryLeaks<K, E>(run: seq<Step<K, E>>)
    requires After(run).Some?
    requires forall c: Call :: After(run).value.At(c).Idle?
    ensures After(run).value.entries == map[]
  {
    EveryRunKeepsInv(run);
    var s := After(run).value;
    if k :| k in s.entries {
      EntryHasAReason(s, k);
      assert false;
    }
  }

  /**
   The lock never deadlocks by itself: while some call is not over, a call that has begun can take its next step, once
   those that hold their key call unlock.
   */
  lemma {:induction false} SomeCallCanGoOn<K, E>(run: seq<Step<K, E>>, c: Call, newEntry: E)
    returns (step: Step<K, E>)
    requires After(run).Some?
    requires !After(run).value.At(c).Idle?
    requires newEntry !in After(run).value.refCount
    ensures Enabled(After(run).value, step) && !step.Enter?
  {
    EveryRunKeepsInv(run);
    var s := After(run).value;
    match s.lck
    case Some(d) =>
      assert s.At(d).HasLock();
      step := match s.At(d)
        case Entering(_) => Register(d, newEntry)
        case Unlocking(_, _) => Release(d)
        case _ => Finish(d);
    case None =>
      assert !s.At(c).HasLock();
      if s.At(c).Holding? {
        step := BeginUnlock(c);
      } else {
        match s.owner[s.At(c).entry]
        case None => step := Take(c);
        case Some(d) =>
          assert s.At(d).Owns(s.At(c).entry);
          assert !s.At(d).HasLock();
          step := BeginUnlock(d);
      }
  }

  /** A key that nobody uses is locked in three steps, none of which has to wait once the map's mutex is free. */
  lemma {:induction false} UncontendedLock<K, E>(s: State<K, E>, c: Call, key: K, newEntry: E) returns (t: State<K, E>)
    requires Inv(s) && s.lck == None && s.At(c).Idle? && key !in s.entries && newEntry !in s.refCount
    ensures Enabled(s, Enter(c, key)) &&
      var a := Apply(s, Enter(c, key));
      Enabled(a, Register(c, newEntry)) &&
      var b := Apply(a, Register(c, newEntry));
      Enabled(b, Take(c)) && t == Apply(b, Take(c))
    ensures t.At(c) == Holding(key, newEntry) && t.lck == None && Inv(t)
    ensures t.entries == s.entries[key := newEntry] && t.refCount == s.refCount[newEntry := 1]
  {
    var a := Apply(s, Enter(c, key));
    StepKeepsInv(s, Enter(c, key));
    var b := Apply(a, Register(c, newEntry));
    StepKeepsInv(a, Register(c, newEntry));
    t := Apply(b, Take(c));
    StepKeepsInv(b, Take(c));
  }
}
