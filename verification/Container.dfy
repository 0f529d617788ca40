/** pkg/appctx/container.go, step by step. */
module Container {
  // Provide and Get, interleaved with every other call. The steps of the lock are those of module KeyLock. Between
  // taking and giving back the lock of its key a call loads from the shared map, and Provide, when it finds nothing,
  // runs the factory and stores what the factory made.

  import opened Bytes
  import KeyLock
  type Call = KeyLock.Call

  datatype Outcome<V> = Value(value: V) | FactoryFailed | NoItemFound

  /** How far the body of a call of Provide or Get has come. */
  datatype Progress<K, V> =
    | NotCalled
    | Called(key: K, provide: bool)       // has not loaded yet
    | Missed(key: K)                      // Provide found nothing
    | Made(key: K, made: V)               // the factory succeeded
    | Decided(key: K, outcome: Outcome<V>)

  datatype State<!K, !E, V> = State(lock: KeyLock.State<K, E>, items: map<K, V>, progress: map<Call, Progress<K, V>>) {
    function Of(c: Call): Progress<K, V> { if c in progress then progress[c] else NotCalled }
  }

  datatype Step<K, E, V> =
    | Call(c: Call, key: K, provide: bool)
    | Lock(step: KeyLock.Step<K, E>)
    | Load(c: Call)
    | RunFactory(c: Call, made: Option<V>)
    | Store(c: Call)

  ghost predicate Enabled<K, E, V>(s: State<K, E, V>, step: Step<K, E, V>) {
    match step
    case Call(c, key, _) => s.Of(c).NotCalled? && KeyLock.Enabled(s.lock, KeyLock.Enter(c, key))
    case Lock(l) =>
      // the unlock is deferred: it runs when the body is over
      KeyLock.Enabled(s.lock, l) && !l.Enter? && (l.BeginUnlock? ==> s.Of(l.c).Decided?)
    case Load(c) => s.lock.At(c).Holding? && s.Of(c).Called?
    case RunFactory(c, _) => s.Of(c).Missed?
    case Store(c) => s.Of(c).Made?
  }

  ghost function Apply<K, E, V>(s: State<K, E, V>, step: Step<K, E, V>): State<K, E, V>
    requires Enabled(s, step)
  {
    match step
    case Call(c, key, provide) =>
      State(KeyLock.Apply(s.lock, KeyLock.Enter(c, key)), s.items, s.progress[c := Called(key, provide)])
    case Lock(l) => s.(lock := KeyLock.Apply(s.lock, l))
    case Load(c) =>
      var p := s.Of(c);
      s.(progress := s.progress[c :=
        if p.key in s.items then Decided(p.key, Value(s.items[p.key]))
        else if p.provide then Missed(p.key)
        else Decided(p.key, NoItemFound)])
    case RunFactory(c, made) =>
      var key := s.Of(c).key;
      s.(progress := s.progress[c := match made case None => Decided(key, FactoryFailed) case Some(v) => Made(key, v)])
    case Store(c) =>
      var p := s.Of(c);
      s.(items := s.items[p.key := p.made], progress := s.progress[c := Decided(p.key, Value(p.made))])
  }

  ghost function Initial<K, E, V>(): State<K, E, V> {
    State(KeyLock.Initial(), map[], map[])
  }

  ghost function After<K, E, V>(run: seq<Step<K, E, V>>): Option<State<K, E, V>> {
    if run == [] then Some(Initial())
    else
      match After(run[..|run| - 1])
      case None => None
      case Some(s) => if Enabled(s, run[|run| - 1]) then Some(Apply(s, run[|run| - 1])) else None
  }

  // ---- what every reachable state keeps

  /** A call in the middle of its body holds its key, and nobody has stored under the key yet if it has missed. */
  ghost predicate InBody<K, E, V>(s: State<K, E, V>, c: Call) {
    match s.Of(c)
    case NotCalled => s.lock.At(c).Idle?
    case Called(k, _) =>
      var p := s.lock.At(c);
      (p.Entering? || p.Waiting? || p.Holding?) && p.key == k
    case Missed(k) => s.lock.At(c).Holding? && s.lock.At(c).key == k && k !in s.items
    case Made(k, _) => s.lock.At(c).Holding? && s.lock.At(c).key == k && k !in s.items
    case Decided(k, outcome) => outcome.Value? ==> k in s.items && s.items[k] == outcome.value
  }

  ghost predicate Inv<K, E, V>(s: State<K, E, V>) {
    KeyLock.Inv(s.lock) && forall c: Call :: InBody(s, c)
  }

  lemma {:induction false} LockStepMovesOne<K, E>(s: KeyLock.State<K, E>, l: KeyLock.Step<K, E>, c: Call)
    requires KeyLock.Enabled(s, l)
    ensures var r := KeyLock.Apply(s, l);
      if c != l.c then r.At(c) == s.At(c)
      else match l
        case Enter(_, key) => r.At(c) == KeyLock.Entering(key)
        case Register(_, _) => r.At(c).Waiting? && r.At(c).key == s.At(c).key
        case Take(_) => r.At(c).Holding? && r.At(c).key == s.At(c).key
        case _ => s.At(c).Holding? || s.At(c).Unlocking? || s.At(c).Cleaning?
  {}

  lemma {:induction false} LockStepKeepsInBody<K, E, V>(s: State<K, E, V>, l: KeyLock.Step<K, E>, c: Call)
    requires InBody(s, c) && Enabled(s, Lock(l))
    ensures InBody(s.(lock := KeyLock.Apply(s.lock, l)), c)
  {
    LockStepMovesOne(s.lock, l, c);
  }

  lemma {:induction false} StoreKeepsInBody<K, E, V>(s: State<K, E, V>, c: Call, d: Call)
    requires Inv(s) && Enabled(s, Store(c))
    ensures InBody(Apply(s, Store(c)), d)
  {
    assert InBody(s, c) && InBody(s, d);
    if c != d && (s.Of(d).Missed? || s.Of(d).Made?) && s.Of(d).key == s.Of(c).key {
      KeyLock.OneHolder(s.lock, c, d);
      assert false;
    }
  }

  lemma {:induction false} StepKeepsInv<K, E, V>(s: State<K, E, V>, step: Step<K, E, V>)
    requires Inv(s) && Enabled(s, step)
    ensures Inv(Apply(s, step))
  {
    var r := Apply(s, step);
    if step.Call? {
      KeyLock.StepKeepsInv(s.lock, KeyLock.Enter(step.c, step.key));
    } else if step.Lock? {
      KeyLock.StepKeepsInv(s.lock, step.step);
    }
    forall d: Call ensures InBody(r, d) {
      assert InBody(s, d);
      match step
      case Call(c, key, _) => LockStepMovesOne(s.lock, KeyLock.Enter(c, key), d);
      case Lock(l) => LockStepKeepsInBody(s, l, d);
      case Store(c) => StoreKeepsInBody(s, c, d);
      case _ =>
    }
  }

  lemma {:induction false} EveryRunKeepsInv<K, E, V>(run: seq<Step<K, E, V>>)
    ensures After(run).Some? ==> Inv(After(run).value)
  {
    if run == [] {
      KeyLock.EveryRunKeepsInv<K, E>([]);
    } else {
      EveryRunKeepsInv(run[..|run| - 1]);
      match After(run[..|run| - 1])
      case None =>
      case Some(s) =>
        if Enabled(s, run[|run| - 1]) {
          StepKeepsInv(s, run[|run| - 1]);
        }
    }
  }

  // ---- what it is for

  lemma {:induction false} PrefixIsARun<K, E, V>(run: seq<Step<K, E, V>>, n: nat)
    requires After(run).Some? && n <= |run|
    ensures After(run[..n]).Some?
  {
    if n < |run| {
      PrefixIsARun(run[..|run| - 1], n);
      assert run[..|run| - 1][..n] == run[..n];
    } else {
      assert run[..n] == run;
    }
  }

  /** What is stored stays, and a decision stays: nothing is ever overwritten. */
  lemma {:induction false} StoredForGood<K, E, V>(run: seq<Step<K, E, V>>, n: nat, k: K)
    requires After(run).Some? && n <= |run| && After(run[..n]).Some?
    requires k in After(run[..n]).value.items
    ensures k in After(run).value.items && After(run).value.items[k] == After(run[..n]).value.items[k]
  {
    if n == |run| {
      assert run[..n] == run;
    } else {
      var before := run[..|run| - 1];
      PrefixIsARun(run, |run| - 1);
      assert before[..n] == run[..n];
      StoredForGood(before, n, k);
      EveryRunKeepsInv(before);
      var last := run[|run| - 1];
      if last.Store? {
        assert InBody(After(before).value, last.c);
      }
    }
  }

  /**
   Every successful Provide or Get of a key, decided at any point of a run, returns the one value that the container
   has for the key ever after.
   */
  lemma {:induction false} OneValuePerKey<K, E, V>(run: seq<Step<K, E, V>>, n: nat, c: Call, k: K, v: V)
    requires After(run).Some? && n <= |run| && After(run[..n]).Some?
    requires After(run[..n]).value.Of(c) == Decided(k, Value(v))
    ensures k in After(run).value.items && After(run).value.items[k] == v
  {
    EveryRunKeepsInv(run[..n]);
    assert InBody(After(run[..n]).value, c);
    StoredForGood(run, n, k);
  }

  /** A call that has not loaded yet, or has decided for the value, or has to do with another key. */
  ghost predicate WillFind<K, E, V>(s: State<K, E, V>, c: Call, k: K, v: V) {
    match s.Of(c)
    case NotCalled => true
    case Called(_, _) => true
    case Missed(key) => key != k
    case Made(key, _) => key != k
    case Decided(key, outcome) => key == k ==> outcome == Value(v)
  }

  lemma {:induction false} StepWillFind<K, E, V>(s: State<K, E, V>, step: Step<K, E, V>, c: Call, k: K, v: V)
    requires Inv(s) && Enabled(s, step) && k in s.items && s.items[k] == v && WillFind(s, c, k, v)
    ensures WillFind(Apply(s, step), c, k, v)
  {
    assert InBody(s, c);
  }

  /**
   Once a key has a value, at any point n of a run, each Get or Provide of the key that has not looked yet ends with
   that value: Get does not miss what was provided, and no factory of the key runs again.
   */
  lemma {:induction false} OnceProvidedAlwaysFound<K, E, V>(run: seq<Step<K, E, V>>, n: nat, c: Call, k: K)
    requires After(run).Some? && n <= |run| && After(run[..n]).Some? && k in After(run[..n]).value.items
    requires After(run[..n]).value.Of(c).NotCalled? || After(run[..n]).value.Of(c).Called?
    ensures WillFind(After(run).value, c, k, After(run[..n]).value.items[k])
  {
    hide WillFind, Enabled, Apply;
    if n == |run| {
      assert run[..n] == run;
      NotLookedYet(After(run).value, c, k, After(run).value.items[k]);
    } else {
      var before := run[..|run| - 1];
      PrefixIsARun(run, |run| - 1);
      assert before[..n] == run[..n];
      OnceProvidedAlwaysFound(before, n, c, k);
      StoredForGood(before, n, k);
      EveryRunKeepsInv(before);
      StepWillFind(After(before).value, run[|run| - 1], c, k, After(run[..n]).value.items[k]);
    }
  }

  lemma {:induction false} NotLookedYet<K, E, V>(s: State<K, E, V>, c: Call, k: K, v: V)
    requires s.Of(c).NotCalled? || s.Of(c).Called?
    ensures WillFind(s, c, k, v)
  {}

  /** Two calls never run the factory of one key at the same time, and none runs it once the key has a value. */
  lemma {:induction false} FactoriesDoNotRace<K, E, V>(run: seq<Step<K, E, V>>, c: Call, d: Call)
    requires After(run).Some?
    requires After(run).value.Of(c).Missed? && (After(run).value.Of(d).Missed? || After(run).value.Of(d).Made?)
    requires After(run).value.Of(c).key == After(run).value.Of(d).key
    ensures c == d && After(run).value.Of(c).key !in After(run).value.items
  {
    EveryRunKeepsInv(run);
    var s := After(run).value;
    assert InBody(s, c) && InBody(s, d);
    KeyLock.OneHolder(s.lock, c, d);
  }

  // ---- the bodies as code

  class Items<K(==), V> {
    var items: map<K, V>

    constructor ()
      ensures items == map[]
    {
      items := map[];
    }

    /** The body of Provide under the lock of the key; made is what the factory would return. */
    method Provide(key: K, made: Option<V>) returns (outcome: Outcome<V>)
      modifies this
      ensures items == if key !in old(items) && made.Some? then old(items)[key := made.value] else old(items)
      ensures outcome.Value? <==> key in items
      ensures outcome.Value? ==> outcome.value == items[key]
      ensures !outcome.Value? ==> outcome == FactoryFailed
    {
      if key in items {
        return Value(items[key]);
      }
      if made == None {
        return FactoryFailed;
      }
      items := items[key := made.value];
      return Value(made.value);
    }

    /** The body of Get under the lock of the key. */
    method Get(key: K) returns (outcome: Outcome<V>)
      ensures outcome.Value? <==> key in items
      ensures outcome.Value? ==> outcome.value == items[key]
      ensures !outcome.Value? ==> outcome == NoItemFound
    {
      if key in items {
        return Value(items[key]);
      }
      return NoItemFound;
    }
  }

  /** The steps of one call, with no other call storing under its key in between, do what the body of Provide does. */
  lemma {:induction false} StepsOfProvide<K, E, V>(s: State<K, E, V>, c: Call, made: Option<V>)
    requires s.lock.At(c).Holding? && s.Of(c).Called? && s.Of(c).provide
    ensures var key, loaded := s.Of(c).key, Apply(s, Load(c));
      if key in s.items then loaded.items == s.items && loaded.Of(c) == Decided(key, Value(s.items[key]))
      else
        Enabled(loaded, RunFactory(c, made)) &&
        var ran := Apply(loaded, RunFactory(c, made));
        if made == None then ran.items == s.items && ran.Of(c) == Decided(key, FactoryFailed)
        else
          Enabled(ran, Store(c)) && Apply(ran, Store(c)).items == s.items[key := made.value]
          && Apply(ran, Store(c)).Of(c) == Decided(key, Value(made.value))
  {}

  /** The steps of one Get to the end of its unlock: each goes through, nothing is stored, and the key is free again. */
  lemma {:induction false} StepsOfGet<K, E, V>(s: State<K, E, V>, c: Call) returns (t: State<K, E, V>)
    requires Inv(s) && s.lock.lck == None && s.lock.At(c).Holding? && s.Of(c).Called? && !s.Of(c).provide
    ensures var a := Apply(s, Load(c));
      Enabled(a, Lock(KeyLock.BeginUnlock(c))) &&
      var b := Apply(a, Lock(KeyLock.BeginUnlock(c)));
      Enabled(b, Lock(KeyLock.Release(c))) &&
      var d := Apply(b, Lock(KeyLock.Release(c)));
      Enabled(d, Lock(KeyLock.Finish(c))) && t == Apply(d, Lock(KeyLock.Finish(c)))
    ensures t.items == s.items && t.lock.At(c).Idle? && Inv(t)
    ensures t.lock.owner[s.lock.At(c).entry] == None
    ensures t.Of(c).Decided? && t.Of(c).key == s.Of(c).key
    ensures t.Of(c).outcome == if s.Of(c).key in s.items then Value(s.items[s.Of(c).key]) else NoItemFound
  {
    var a := Apply(s, Load(c));
    StepKeepsInv(s, Load(c));
    var b := Apply(a, Lock(KeyLock.BeginUnlock(c)));
    StepKeepsInv(a, Lock(KeyLock.BeginUnlock(c)));
    var d := Apply(b, Lock(KeyLock.Release(c)));
    StepKeepsInv(b, Lock(KeyLock.Release(c)));
    t := Apply(d, Lock(KeyLock.Finish(c)));
    StepKeepsInv(d, Lock(KeyLock.Finish(c)));
  }

  /**
   A call of Provide or Get starts whenever the mutex of the lock's map is free, and then wants the lock of its key.
   */
  lemma {:induction false} CallsStart<K, E, V>(s: State<K, E, V>, c: Call, key: K, provide: bool)
    requires Inv(s) && s.lock.lck == None && s.Of(c).NotCalled?
    ensures Enabled(s, Call(c, key, provide))
    ensures var t := Apply(s, Call(c, key, provide));
      t.Of(c) == Called(key, provide) && t.lock.At(c) == KeyLock.Entering(key) && t.items == s.items
  {
    assert InBody(s, c);
  }
}
