/** pkg/conc/key_lock.go as the object it is. */
module KeyLockObject {
  // The map and the counts change in place, and every piece of code between two mutex operations takes exactly the
  // step of the protocol in module KeyLock.

  import opened Bytes
  import opened KeyLock

  class Entry {
    var holder: Option<Call>  // the embedded sync.Mutex
    var refCount: int

    constructor ()
      ensures holder == None && refCount == 0
    {
      holder, refCount := None, 0;
    }
  }

  ghost function Counts(made: set<Entry>): map<Entry, int>
    reads made
  {
    map e | e in made :: e.refCount
  }

  ghost function Holders(made: set<Entry>): map<Entry, Option<Call>>
    reads made
  {
    map e | e in made :: e.holder
  }

  class KeyedLock<K(==)> {
    var lck: Option<Call>     // the sync.Mutex lck
    var entries: map<K, Entry>
    ghost var made: set<Entry>
    ghost var phase: map<Call, Phase<K, Entry>>

    ghost function View(): State<K, Entry>
      reads this, made
    {
      State(lck, entries, Counts(made), Holders(made), phase)
    }

    /** Every entry in the map or in use has been made: no method follows a pointer to nowhere. */
    ghost predicate Safe()
      reads this
    {
      && (forall k :: k in entries ==> entries[k] in made)
      && (forall c: Call :: c in phase && phase[c].HasEntry() ==> phase[c].entry in made)
    }

    lemma {:induction false} SafeWhenInv()
      requires Inv(View())
      ensures Safe()
    {
      forall c: Call | c in phase && phase[c].HasEntry() ensures phase[c].entry in made {
        assert View().At(c).HasEntry();
        var k := phase[c].key;
        assert k in View().entries && View().entries[k] in View().refCount;
      }
      forall k | k in entries ensures entries[k] in made {
        assert entries[k] in View().refCount;
      }
    }

    constructor ()
      ensures View() == Initial()
    {
      lck, entries, made, phase := None, map[], {}, map[];
    }

    /** l.lck.Lock() in Lock. */
    method Enter(c: Call, key: K)
      requires Safe() && Enabled(View(), Step.Enter(c, key))
      modifies this
      ensures View() == Apply(old(View()), Step.Enter(c, key)) && made == old(made)
    {
      lck := Some(c);
      phase := phase[c := Entering(key)];
    }

    static ghost function WithEntry(s: State<K, Entry>, key: K, e: Entry): State<K, Entry> {
      if key in s.entries then s
      else s.(entries := s.entries[key := e], refCount := s.refCount[e := 0], owner := s.owner[e := None])
    }

    /** The lookup in Lock, with the entry made when there is none. */
    method FindOrMake(key: K) returns (lockEntry: Entry)
      requires Safe()
      modifies this`entries, this`made
      ensures key in entries && entries[key] == lockEntry && lockEntry in made
      ensures View() == WithEntry(old(View()), key, lockEntry)
      ensures if lockEntry in old(made) then made == old(made) else fresh(lockEntry) && made == old(made) + {lockEntry}
      ensures key !in old(entries) ==> lockEntry !in old(made)
    {
      if key in entries {
        lockEntry := entries[key];
      } else {
        ghost var was := View();
        lockEntry := new Entry();
        entries := entries[key := lockEntry];
        made := made + {lockEntry};
        assert View().owner == was.owner[lockEntry := None];
        assert View().refCount == was.refCount[lockEntry := 0];
      }
    }

    /** l.lck.Unlock(). */
    method LetGo(c: Call, ghost next: Phase<K, Entry>)
      modifies this`lck, this`phase
      ensures View() == old(View()).(lck := None, phase := old(phase)[c := next])
    {
      lck := None;
      phase := phase[c := next];
    }

    /** lockEntry.refCount++. */
    method Count(lockEntry: Entry)
      requires lockEntry in made
      modifies lockEntry
      ensures Counts(made) == old(Counts(made))[lockEntry := old(Counts(made))[lockEntry] + 1]
      ensures Holders(made) == old(Holders(made))
    {
      lockEntry.refCount := lockEntry.refCount + 1;
    }

    /** The code of Lock between l.lck.Lock() and l.lck.Unlock(). */
    method Register(c: Call, key: K) returns (lockEntry: Entry)
      requires Safe() && View().At(c) == Entering(key)
      modifies this, made
      ensures Enabled(old(View()), Step.Register(c, lockEntry))
      ensures View() == Apply(old(View()), Step.Register(c, lockEntry))
      ensures made == old(made) + {lockEntry} && (lockEntry in old(made) || fresh(lockEntry))
    {
      ghost var was := View();
      lockEntry := FindOrMake(key);
      ghost var found := View();
      Count(lockEntry);
      LetGo(c, Waiting(key, lockEntry));
      FoundAndCounted(was, c, key, lockEntry, found);
    }

    static lemma {:induction false} FoundAndCounted(s: State<K, Entry>, c: Call, key: K, e: Entry, found: State<K,
            Entry>)
      requires s.At(c) == Entering(key) && found == WithEntry(s, key, e)
      requires if key in s.entries then s.entries[key] == e && e in s.refCount else e !in s.refCount
      ensures Enabled(s, Step.Register(c, e))
      ensures Apply(s, Step.Register(c, e))
           == State(None, found.entries, found.refCount[e := found.refCount[e] + 1], found.owner,
                    found.phase[c := Waiting(key, e)])
    {
      assert s.refCount[e := 0][e := 1] == s.refCount[e := 1];
    }

    /** lockEntry.Lock(). */
    method Take(c: Call, lockEntry: Entry)
      requires Safe() && Enabled(View(), Step.Take(c)) && View().At(c).entry == lockEntry
      modifies this, made
      ensures View() == Apply(old(View()), Step.Take(c)) && made == old(made)
    {
      lockEntry.holder := Some(c);
      phase := phase[c := Holding(phase[c].key, lockEntry)];
    }

    /** l.lck.Lock() and the decrement in the unlock function. */
    method BeginUnlock(c: Call, lockEntry: Entry)
      requires Safe() && Enabled(View(), Step.BeginUnlock(c)) && View().At(c).entry == lockEntry
      modifies this, made
      ensures View() == Apply(old(View()), Step.BeginUnlock(c)) && made == old(made)
    {
      lck := Some(c);
      lockEntry.refCount := lockEntry.refCount - 1;
      phase := phase[c := Unlocking(phase[c].key, lockEntry)];
    }

    /** lockEntry.Unlock(). */
    method Release(c: Call, lockEntry: Entry)
      requires Safe() && Enabled(View(), Step.Release(c)) && View().At(c).entry == lockEntry
      modifies this, made
      ensures View() == Apply(old(View()), Step.Release(c)) && made == old(made)
    {
      lockEntry.holder := None;
      phase := phase[c := Cleaning(phase[c].key, lockEntry)];
    }

    /** The rest of the unlock function, up to and with l.lck.Unlock(). */
    method Finish(c: Call, key: K, lockEntry: Entry)
      requires Safe() && View().At(c) == Cleaning(key, lockEntry)
      modifies this
      ensures Enabled(old(View()), Step.Finish(c))
      ensures View() == Apply(old(View()), Step.Finish(c)) && made == old(made)
    {
      if lockEntry.refCount == 0 {
        entries := entries - {key};
      }
      LetGo(c, Idle);
    }
  }
}
