/** The cached, signed record of the local node. */
module Identity {
  import opened Nodes

  type Key = nat
  type Value = nat
  type Entries = map<Key, Value>

  /** A signed record: its sequence number and the entries it was signed with. */
  datatype Record = Record(number: nat, entries: Entries)

  // ---------- one caller at a time ----------

  class LocalIdentity {
    var entries: Entries
    var number: nat
    var dirty: bool
    var cur: Option<Record>

    /** A clean flag means that the cached record is the one signing would produce. */
    ghost predicate Valid()
      reads this
    {
      && (!dirty ==> cur.Some? && cur.value.entries == entries)
      && (cur.Some? ==> cur.value.number == number)
    }

    constructor (initial: Entries)
      ensures Valid() && entries == initial && number == 1 && cur == Some(Record(1, initial))
    {
      entries, number := initial, 1;
      dirty, cur := false, Some(Record(1, initial));
    }

    method SetEntry(k: Key, v: Value)
      requires Valid()
      modifies this`entries, this`dirty
      ensures Valid() && entries == old(entries)[k := v]
      ensures dirty <==> old(dirty) || k !in old(entries) || old(entries)[k] != v
    {
      if k !in entries || entries[k] != v {
        entries := entries[k := v];
        dirty := true;
      }
      assert k in old(entries) && old(entries)[k] == v ==> old(entries) == old(entries)[k := v];
    }

    /** The record of the current entries; it is signed anew, with the next sequence number,
        only if the entries have changed since the last time. */
    method GetNode() returns (r: Record)
      requires Valid()
      modifies this`number, this`dirty, this`cur
      ensures Valid() && r.entries == entries && r.number == number && !dirty
      ensures number == if old(dirty) then old(number) + 1 else old(number)
      ensures !old(dirty) ==> Some(r) == old(cur)
    {
      if !dirty {
        return cur.value;
      }
      r := Sign();
    }

    method Sign() returns (r: Record)
      requires Valid()
      modifies this`number, this`dirty, this`cur
      ensures Valid() && r.entries == entries && r.number == number && !dirty
      ensures number == if old(dirty) then old(number) + 1 else old(number)
      ensures !old(dirty) ==> Some(r) == old(cur)
    {
      if !dirty {
        return cur.value;
      }
      number := number + 1;
      r := Record(number, entries);
      cur := Some(r);
      dirty := false;
    }
  }

  // ---------- any number of callers ----------

  /** Where a caller is. `begun` is the time its call began. Reading the flag and loading the
      cache need no lock; everything from `SetLocked` and `SignLocked` on holds it. */
  datatype Pc =
    | SetWaiting(k: Key, v: Value)
    | SetLocked(k: Key, v: Value)
    | SetMarking                       // entries written, flag not yet set
    | GetReading(begun: nat)           // about to read the flag
    | GetLoading(begun: nat)           // read a clean flag, about to load the cache
    | SignWaiting(begun: nat)
    | SignLocked(begun: nat)
    | SignStored(begun: nat, r: Record) // cache written, flag not yet cleared

  datatype Returned = Returned(r: Record, begun: nat, ended: nat)

  datatype Shared = Shared(
    entries: Entries,
    number: nat,
    dirty: bool,
    cur: Record,
    lock: Option<nat>,
    callers: map<nat, Pc>,
    committed: seq<Entries>,           // the entries at each time, as of the last finished SetEntry
    signed: seq<Record>,
    returned: seq<Returned>)

  datatype Action =
    | CallSet(c: nat, k: Key, v: Value)
    | CallGet(c: nat)
    | Lock(c: nat)
    | Write(c: nat)
    | MarkDirty(c: nat)
    | ReadFlag(c: nat)
    | LoadCache(c: nat)
    | Recheck(c: nat)
    | ClearDirty(c: nat)

  /** A new identity is signed before anybody else sees it. */
  function Start(initial: Entries): Shared {
    var r := Record(1, initial);
    Shared(initial, 1, false, r, None, map[], [initial], [r], [])
  }

  function Now(s: Shared): Entries
    requires s.committed != []
  {
    s.committed[|s.committed| - 1]
  }

  predicate Enabled(s: Shared, a: Action) {
    s.committed != [] &&
    match a
    case CallSet(c, _, _) => c !in s.callers
    case CallGet(c) => c !in s.callers
    case Lock(c) => c in s.callers && s.lock.None? && (s.callers[c].SetWaiting? || s.callers[c].SignWaiting?)
    case Write(c) => c in s.callers && s.callers[c].SetLocked?
    case MarkDirty(c) => c in s.callers && s.callers[c].SetMarking?
    case ReadFlag(c) => c in s.callers && s.callers[c].GetReading?
    case LoadCache(c) => c in s.callers && s.callers[c].GetLoading?
    case Recheck(c) => c in s.callers && s.callers[c].SignLocked?
    case ClearDirty(c) => c in s.callers && s.callers[c].SignStored?
  }

  function Leave(s: Shared, c: nat): Shared {
    s.(callers := s.callers - {c}, lock := if s.lock == Some(c) then None else s.lock)
  }

  function Return(s: Shared, c: nat, r: Record, begun: nat): Shared {
    Leave(s, c).(returned := s.returned + [Returned(r, begun, |s.committed|)])
  }

  function Effect(s: Shared, a: Action): Shared
    requires Enabled(s, a)
  {
    match a
    case CallSet(c, k, v) => s.(callers := s.callers[c := SetWaiting(k, v)])
    case CallGet(c) => s.(callers := s.callers[c := GetReading(|s.committed|)])
    case Lock(c) =>
      s.(lock := Some(c), callers := s.callers[c := match s.callers[c]
                                                    case SetWaiting(k, v) => SetLocked(k, v)
                                                    case SignWaiting(begun) => SignLocked(begun)
                                                    case pc => pc])
    case Write(c) =>
      var k, v := s.callers[c].k, s.callers[c].v;
      if k in s.entries && s.entries[k] == v then Leave(s, c)
      else s.(entries := s.entries[k := v], callers := s.callers[c := SetMarking])
    case MarkDirty(c) => Leave(s.(dirty := true), c)
    case ReadFlag(c) =>
      s.(callers := s.callers[c := if s.dirty then SignWaiting(s.callers[c].begun) else GetLoading(s.callers[c].begun)])
    case LoadCache(c) => Return(s, c, s.cur, s.callers[c].begun)
    case Recheck(c) =>
      if !s.dirty then Return(s, c, s.cur, s.callers[c].begun)
      else
        var r := Record(s.number + 1, s.entries);
        s.(number := s.number + 1, cur := r, signed := s.signed + [r],
           callers := s.callers[c := SignStored(s.callers[c].begun, r)])
    case ClearDirty(c) => Return(s.(dirty := false), c, s.callers[c].r, s.callers[c].begun)
  }

  /** One step; the entries count as changed when the call that changed them is done. */
  function Apply(s: Shared, a: Action): Shared
    requires Enabled(s, a)
  {
    var r := Effect(s, a);
    r.(committed := s.committed + [if a.MarkDirty? then r.entries else Now(s)])
  }

  ghost predicate Reaches(s: Shared, actions: seq<Action>, r: Shared)
    decreases actions
  {
    if actions == [] then r == s
    else Enabled(s, actions[0]) && Reaches(Apply(s, actions[0]), actions[1..], r)
  }

  predicate Holds(pc: Pc) {
    pc.SetLocked? || pc.SetMarking? || pc.SignLocked? || pc.SignStored?
  }

  /** The entries `e` were current at some time from `begun` on. */
  ghost predicate CurrentSince(s: Shared, e: Entries, begun: nat) {
    exists t :: begun <= t < |s.committed| && s.committed[t] == e
  }

  ghost predicate CallerOk(s: Shared, c: nat, pc: Pc) {
    && (Holds(pc) <==> s.lock == Some(c))
    && (pc.GetReading? ==> pc.begun <= |s.committed|)
    && (pc.GetLoading? ==> pc.begun < |s.committed| && CurrentSince(s, s.cur.entries, pc.begun))
    && (pc.SignWaiting? ==> pc.begun < |s.committed|)
    && (pc.SignLocked? ==> pc.begun < |s.committed|)
    && (pc.SignStored? ==> pc.begun < |s.committed| && s.dirty && pc.r == s.cur && s.cur.entries == Now(s))
  }

  /** A returned record was signed, and its entries were current at some time of the call. */
  ghost predicate ReturnOk(s: Shared, x: Returned) {
    && x.r in s.signed
    && x.ended < |s.committed|
    && exists t :: x.begun <= t <= x.ended && s.committed[t] == x.r.entries
  }

  ghost predicate SharedInv(s: Shared) {
    && s.committed != []
    && (forall c :: c in s.callers ==> CallerOk(s, c, s.callers[c]))
    && (s.lock.Some? ==> s.lock.value in s.callers)
    && (s.lock.None? || !s.callers[s.lock.value].SetMarking? ==> s.entries == Now(s))
    && (!s.dirty ==> s.cur.entries == Now(s))
    && s.signed != [] && s.cur == s.signed[|s.signed| - 1] && s.number == |s.signed|
    && (forall i :: 0 <= i < |s.signed| ==> s.signed[i].number == i + 1)
    && (forall x :: x in s.returned ==> ReturnOk(s, x))
  }

  lemma CallersStep(s: Shared, a: Action)
    requires SharedInv(s) && Enabled(s, a)
    ensures var r := Apply(s, a); forall c :: c in r.callers ==> CallerOk(r, c, r.callers[c])
  {
    var r := Apply(s, a);
    forall c | c in r.callers
      ensures CallerOk(r, c, r.callers[c])
    {
      if c in s.callers {
        assert CallerOk(s, c, s.callers[c]);
      }
      if r.callers[c].GetLoading? {
        if c in s.callers && s.callers[c].GetLoading? && r.cur == s.cur {
          var t :| s.callers[c].begun <= t < |s.committed| && s.committed[t] == s.cur.entries;
          assert r.committed[t] == s.cur.entries;
        } else {
          assert r.committed[|s.committed|] == r.cur.entries;
        }
      }
    }
  }

  lemma ReturnsStep(s: Shared, a: Action)
    requires SharedInv(s) && Enabled(s, a)
    ensures forall x :: x in Apply(s, a).returned ==> ReturnOk(Apply(s, a), x)
  {
    var r := Apply(s, a);
    forall x | x in r.returned
      ensures ReturnOk(r, x)
    {
      if x in s.returned {
        assert ReturnOk(s, x);
        var t :| x.begun <= t <= x.ended && s.committed[t] == x.r.entries;
        assert r.committed[t] == x.r.entries;
      } else {
        var c := a.c;
        assert CallerOk(s, c, s.callers[c]);
        if a.LoadCache? {
          var t :| s.callers[c].begun <= t < |s.committed| && s.committed[t] == s.cur.entries;
          assert r.committed[t] == x.r.entries;
        } else {
          assert r.committed[x.ended] == x.r.entries;
        }
      }
    }
  }

  lemma SharedStep(s: Shared, a: Action)
    requires SharedInv(s) && Enabled(s, a)
    ensures SharedInv(Apply(s, a))
  {
    CallersStep(s, a);
    ReturnsStep(s, a);
    if a.c in s.callers {
      assert CallerOk(s, a.c, s.callers[a.c]);
    }
    if s.lock.Some? {
      assert CallerOk(s, s.lock.value, s.callers[s.lock.value]);
    }
  }

  lemma {:induction false} SharedOfRun(s: Shared, actions: seq<Action>, r: Shared)
    requires SharedInv(s) && Reaches(s, actions, r)
    ensures SharedInv(r)
    decreases actions
  {
    if actions != [] {
      SharedStep(s, actions[0]);
      SharedOfRun(Apply(s, actions[0]), actions[1..], r);
    }
  }

  // ---------- the calls of a run take effect ----------

  /** The entries after the calls of a run, read from its actions: a `Write` writes what its
      caller last asked for. */
  function Written(actions: seq<Action>, asked: map<nat, (Key, Value)>, entries: Entries): Entries
    decreases actions
  {
    if actions == [] then entries
    else
      match actions[0]
      case CallSet(c, k, v) => Written(actions[1..], asked[c := (k, v)], entries)
      case Write(c) => Written(actions[1..], asked, if c in asked then entries[asked[c].0 := asked[c].1] else entries)
      case _ => Written(actions[1..], asked, entries)
  }

  /** A caller that sets an entry sets the one it asked for. */
  ghost predicate AskedOk(s: Shared, asked: map<nat, (Key, Value)>) {
    && (forall c :: c in s.callers && s.callers[c].SetWaiting? ==> c in asked && asked[c] == (s.callers[c].k, s.callers[c].v))
    && (forall c :: c in s.callers && s.callers[c].SetLocked? ==> c in asked && asked[c] == (s.callers[c].k, s.callers[c].v))
  }

  lemma WriteStep(s: Shared, a: Action, asked: map<nat, (Key, Value)>)
    requires Enabled(s, a) && AskedOk(s, asked)
    ensures AskedOk(Apply(s, a), if a.CallSet? then asked[a.c := (a.k, a.v)] else asked)
    ensures Apply(s, a).entries == if a.Write? then s.entries[asked[a.c].0 := asked[a.c].1] else s.entries
  {
    if a.Write? {
      var k, v := s.callers[a.c].k, s.callers[a.c].v;
      assert k in s.entries && s.entries[k] == v ==> s.entries[k := v] == s.entries;
    }
  }

  lemma {:induction false} WrittenFrom(s: Shared, actions: seq<Action>, r: Shared, asked: map<nat, (Key, Value)>)
    requires AskedOk(s, asked) && Reaches(s, actions, r)
    ensures r.entries == Written(actions, asked, s.entries)
    decreases actions
  {
    if actions != [] {
      var a := actions[0];
      WriteStep(s, a, asked);
      assert a.Write? ==> a.c in asked;
      hide Apply, AskedOk, Enabled;
      WrittenFrom(Apply(s, a), actions[1..], r, if a.CallSet? then asked[a.c := (a.k, a.v)] else asked);
    }
  }

  predicate Getting(pc: Pc) {
    !pc.SetWaiting? && !pc.SetLocked? && !pc.SetMarking?
  }

  /** A caller of `GetNode` that leaves returns the record that is cached then, with the times
      its call began and ended; nobody else returns anything. */
  lemma GetReturns(s: Shared, a: Action)
    requires SharedInv(s) && Enabled(s, a)
    ensures var r := Apply(s, a);
      if a.c in s.callers && Getting(s.callers[a.c]) && a.c !in r.callers
      then r.returned == s.returned + [Returned(s.cur, s.callers[a.c].begun, |s.committed|)]
      else r.returned == s.returned
  {
    if a.c in s.callers {
      assert CallerOk(s, a.c, s.callers[a.c]);
    }
  }

  /** Whether a change was marked since the last signing was done, read from the actions. */
  function Unsigned(actions: seq<Action>, before: bool): bool
    decreases actions
  {
    if actions == [] then before
    else Unsigned(actions[1..], actions[0].MarkDirty? || (before && !actions[0].ClearDirty?))
  }

  lemma FlagStep(s: Shared, a: Action)
    requires Enabled(s, a)
    ensures Apply(s, a).dirty <==> a.MarkDirty? || (s.dirty && !a.ClearDirty?)
    ensures Apply(s, a).signed == s.signed || (a.Recheck? && |Apply(s, a).signed| == |s.signed| + 1)
    ensures a.Recheck? ==> |Apply(s, a).signed| == |s.signed| + if s.dirty then 1 else 0
  {
  }

  lemma {:induction false} FlagFrom(s: Shared, actions: seq<Action>, r: Shared)
    requires Reaches(s, actions, r)
    ensures r.dirty == Unsigned(actions, s.dirty)
    decreases actions
  {
    hide Apply, Enabled;
    if actions != [] {
      FlagStep(s, actions[0]);
      FlagFrom(Apply(s, actions[0]), actions[1..], r);
    }
  }

  /** In every interleaving the flag says whether a change was marked since the last signing was
      done, and a record is signed exactly by a recheck that finds it so. */
  lemma SignedForChanges(initial: Entries, actions: seq<Action>, s: Shared, a: Action)
    requires Reaches(Start(initial), actions, s) && Enabled(s, a)
    ensures s.dirty == Unsigned(actions, false)
    ensures |Apply(s, a).signed| == |s.signed| + if a.Recheck? && Unsigned(actions, false) then 1 else 0
  {
    FlagFrom(Start(initial), actions, s);
    FlagStep(s, a);
  }

  /** In every interleaving: the entries are what the calls wrote, in the order in which they
      got the lock; as long as no call is between writing and marking, these are the current
      entries; and each call that gets the node begins now and returns once, when it leaves. */
  lemma CallsTakeEffect(initial: Entries, actions: seq<Action>, s: Shared, a: Action)
    requires Reaches(Start(initial), actions, s) && Enabled(s, a)
    ensures s.entries == Written(actions, map[], initial)
    ensures (forall c :: c in s.callers ==> !s.callers[c].SetMarking?) ==> Now(s) == s.entries
    ensures a.CallGet? ==> a.c in Apply(s, a).callers && Apply(s, a).callers[a.c] == GetReading(|s.committed|)
    ensures var r := Apply(s, a);
      if a.c in s.callers && Getting(s.callers[a.c]) && a.c !in r.callers
      then r.returned == s.returned + [Returned(s.cur, s.callers[a.c].begun, |s.committed|)]
      else r.returned == s.returned
  {
    WrittenFrom(Start(initial), actions, s, map[]);
    SharedOfRun(Start(initial), actions, s);
    GetReturns(s, a);
  }

  /** In every interleaving of callers, although the flag and the cache are read without the
      lock: a call returns a record whose entries were current at some moment of the call;
      every signing takes the next sequence number, so records with equal numbers are equal. */
  lemma CacheIsCurrent(initial: Entries, actions: seq<Action>, s: Shared)
    requires Reaches(Start(initial), actions, s)
    ensures forall x :: x in s.returned ==> ReturnOk(s, x)
    ensures forall x, y :: x in s.returned && y in s.returned && x.r.number == y.r.number ==> x.r == y.r
    ensures forall i :: 0 <= i < |s.signed| ==> s.signed[i].number == i + 1
    ensures s.committed != [] && (!s.dirty ==> s.cur.entries == Now(s))
  {
    SharedOfRun(Start(initial), actions, s);
    assert forall x :: x in s.returned ==> ReturnOk(s, x);
  }
}
