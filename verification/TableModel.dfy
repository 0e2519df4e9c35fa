/** The node table on values: what each operation does to buckets and address counters,
    and the invariant all of them keep. */
module TableModel {
  import opened Distance
  import opened Nodes

  const BUCKET_SIZE: nat := 16
  const MAX_REPLACEMENTS: nat := 10
  const N_BUCKETS: nat := ID_BITS / 15
  const BUCKET_MIN_DISTANCE: nat := ID_BITS - N_BUCKETS

  datatype Bucket = Bucket(entries: seq<Node>, replacements: seq<Node>, ips: multiset<Subnet>)

  /** How many addresses of one subnet a bucket and the whole table accept. */
  datatype Limits = Limits(bucket: nat, table: nat)

  datatype Table = Table(self: Id, limits: Limits, buckets: seq<Bucket>, ips: multiset<Subnet>)

  /** A bucket together with the table-wide counter: all that a bucket operation touches. */
  datatype Cell = Cell(b: Bucket, total: multiset<Subnet>)

  /** The bucket an id belongs to. */
  function BucketIndex(self: Id, id: Id): (k: nat)
    ensures k < N_BUCKETS
  {
    var d := LogDist(self, id);
    if d <= BUCKET_MIN_DISTANCE then 0 else d - BUCKET_MIN_DISTANCE - 1
  }

  // ---------- list operations ----------

  /** The first position with the id, or the length of the list. */
  function IndexOf(list: seq<Node>, id: Id): (i: nat)
    ensures i <= |list|
    ensures i < |list| ==> list[i].id == id
    ensures forall j :: 0 <= j < i ==> list[j].id != id
  {
    if list == [] || list[0].id == id then 0 else 1 + IndexOf(list[1..], id)
  }

  predicate HasId(list: seq<Node>, id: Id) {
    IndexOf(list, id) < |list|
  }

  function RemoveAt(list: seq<Node>, i: nat): seq<Node>
    requires i < |list|
  {
    list[..i] + list[i + 1..]
  }

  /** The list without the first node that has the id. */
  function Without(list: seq<Node>, id: Id): seq<Node> {
    if HasId(list, id) then RemoveAt(list, IndexOf(list, id)) else list
  }

  function PushFront(list: seq<Node>, n: Node, max: nat): (seq<Node>, Option<Node>)
    requires 0 < max
  {
    if |list| < max then ([n] + list, None) else ([n] + list[..|list| - 1], Some(list[|list| - 1]))
  }

  // ---------- address accounting ----------

  /** The counter entry an address takes up; LAN addresses are not limited. */
  function ChargeOf(ip: IP): multiset<Subnet> {
    if ip.NoIP? || ip.lan then multiset{} else multiset{ip.subnet}
  }

  function AddIP(c: Cell, lim: Limits, ip: IP): Option<Cell> {
    if ip.NoIP? then None
    else if ip.lan then Some(c)
    else if c.total[ip.subnet] >= lim.table || c.b.ips[ip.subnet] >= lim.bucket then None
    else Some(Cell(c.b.(ips := c.b.ips + ChargeOf(ip)), c.total + ChargeOf(ip)))
  }

  function RemoveIP(c: Cell, ip: IP): Cell {
    Cell(c.b.(ips := c.b.ips - ChargeOf(ip)), c.total - ChargeOf(ip))
  }

  // ---------- bucket operations ----------

  function AddReplacement(c: Cell, lim: Limits, n: Node): Cell {
    if HasId(c.b.replacements, n.id) then c
    else match AddIP(c, lim, n.ip)
      case None => c
      case Some(c1) =>
        var (list, removed) := PushFront(c1.b.replacements, n, MAX_REPLACEMENTS);
        var c2 := Cell(c1.b.(replacements := list), c1.total);
        if removed.Some? then RemoveIP(c2, removed.value.ip) else c2
  }

  function DeleteInBucket(c: Cell, n: Node): Cell {
    RemoveIP(Cell(c.b.(entries := Without(c.b.entries, n.id)), c.total), n.ip)
  }

  predicate IsLast(b: Bucket, id: Id) {
    b.entries != [] && b.entries[|b.entries| - 1].id == id
  }

  /** Replaces a dead last entry by the replacement number `choice`, or deletes it. */
  function Replace(c: Cell, last: Node, choice: nat): Cell
    requires c.b.replacements != [] ==> choice < |c.b.replacements|
  {
    if !IsLast(c.b, last.id) then c
    else if c.b.replacements == [] then DeleteInBucket(c, last)
    else
      var r := c.b.replacements[choice];
      var list := Without(c.b.replacements, r.id);
      RemoveIP(Cell(c.b.(entries := c.b.entries[|c.b.entries| - 1 := r], replacements := list), c.total), last.ip)
  }

  /** Swaps the address of entry `i` for the one of `n`, if the limits allow it. */
  function Readdress(c: Cell, lim: Limits, i: nat, n: Node): Option<Cell>
    requires i < |c.b.entries|
  {
    if n.ip == c.b.entries[i].ip then Some(c) else AddIP(RemoveIP(c, c.b.entries[i].ip), lim, n.ip)
  }

  /** Moves the entry with the id of `n` to the front, taking over the record `n`. A new
      endpoint that does not fit leaves everything as it was. */
  function Bump(c: Cell, lim: Limits, n: Node): (Cell, bool) {
    var i := IndexOf(c.b.entries, n.id);
    if i == |c.b.entries| then (c, false)
    else match Readdress(c, lim, i, n)
      case None => (c, false)
      case Some(c1) => (Cell(c1.b.(entries := [n] + RemoveAt(c.b.entries, i)), c1.total), true)
  }

  /** Adds a node that was heard of: to the end of the entries, or as a replacement. */
  function AddSeen(c: Cell, lim: Limits, n: Node, now: int): Cell {
    if HasId(c.b.entries, n.id) then c
    else if |c.b.entries| >= BUCKET_SIZE then AddReplacement(c, lim, n)
    else match AddIP(c, lim, n.ip)
      case None => c
      case Some(c1) =>
        Cell(c1.b.(entries := c1.b.entries + [n.(addedAt := now)],
                   replacements := Without(c1.b.replacements, n.id)), c1.total)
  }

  /** Adds a node whose endpoint was verified: to the front of the entries. */
  function AddVerified(c: Cell, lim: Limits, n: Node, now: int): Cell {
    var (c0, bumped) := Bump(c, lim, n);
    if bumped then c0
    else if |c.b.entries| >= BUCKET_SIZE then AddReplacement(c, lim, n)
    else match AddIP(c, lim, n.ip)
      case None => c
      case Some(c1) =>
        Cell(c1.b.(entries := PushFront(c1.b.entries, n.(addedAt := now), BUCKET_SIZE).0,
                   replacements := Without(c1.b.replacements, n.id)), c1.total)
  }

  // ---------- the table ----------

  function CellAt(t: Table, k: nat): Cell
    requires k < |t.buckets|
  {
    Cell(t.buckets[k], t.ips)
  }

  function WithCell(t: Table, k: nat, c: Cell): Table
    requires k < |t.buckets|
  {
    t.(buckets := t.buckets[k := c.b], ips := c.total)
  }

  function EmptyTable(self: Id, limits: Limits): Table {
    Table(self, limits, seq(N_BUCKETS, _ => Bucket([], [], multiset{})), multiset{})
  }

  function TableAddSeen(t: Table, n: Node, now: int): Table
    requires |t.buckets| == N_BUCKETS
  {
    if n.id == t.self then t
    else
      var k := BucketIndex(t.self, n.id);
      WithCell(t, k, AddSeen(CellAt(t, k), t.limits, n, now))
  }

  function TableAddVerified(t: Table, n: Node, now: int, initDone: bool): Table
    requires |t.buckets| == N_BUCKETS
  {
    if !initDone || n.id == t.self then t
    else
      var k := BucketIndex(t.self, n.id);
      WithCell(t, k, AddVerified(CellAt(t, k), t.limits, n, now))
  }

  /** How the network calls of one revalidation turned out: the ping was not answered, or
      it was and the record to keep is the given one. */
  datatype Outcome = NoReply | Alive(record: Node)

  /** The outcome of the network calls of a revalidation: a fetched newer record replaces
      the known one but keeps its age and checks. */
  function OutcomeOf(last: Node, reply: Option<nat>, fetched: Option<Node>): Outcome {
    if reply.None? then NoReply
    else if last.recordSeq < reply.value && fetched.Some?
    then Alive(fetched.value.(addedAt := last.addedAt, checks := last.checks))
    else Alive(last)
  }

  function RevalidatedCell(c: Cell, lim: Limits, last: Node, outcome: Outcome, choice: nat): Cell
    requires outcome.NoReply? && c.b.replacements != [] ==> choice < |c.b.replacements|
  {
    match outcome
    case Alive(record) => Bump(c, lim, record.(checks := record.checks + 1)).0
    case NoReply => Replace(c, last, choice)
  }

  function Revalidated(t: Table, k: nat, last: Node, outcome: Outcome, choice: nat): Table
    requires k < |t.buckets|
    requires outcome.NoReply? && t.buckets[k].replacements != [] ==> choice < |t.buckets[k].replacements|
  {
    WithCell(t, k, RevalidatedCell(CellAt(t, k), t.limits, last, outcome, choice))
  }

  // ---------- the invariant ----------

  /** The counter entries of a list of nodes. */
  function Charges(ns: seq<Node>): multiset<Subnet> {
    if ns == [] then multiset{} else ChargeOf(ns[0].ip) + Charges(ns[1..])
  }

  ghost predicate Within(m: multiset<Subnet>, limit: nat) {
    forall s: Subnet :: m[s] <= limit
  }

  /** The counters of a cell stand for the entries `m`; the other buckets account for `rest`. */
  ghost predicate Counters(c: Cell, m: multiset<Subnet>, rest: multiset<Subnet>, lim: Limits) {
    && c.b.ips == m
    && c.total == m + rest
    && Within(c.b.ips, lim.bucket)
    && Within(c.total, lim.table)
  }

  /** A node that may be stored in bucket `k`. */
  predicate Belongs(n: Node, k: nat, self: Id) {
    n.id != self && BucketIndex(self, n.id) == k && n.ip != NoIP
  }

  ghost predicate Shape(b: Bucket, k: nat, self: Id) {
    && |b.entries| <= BUCKET_SIZE
    && |b.replacements| <= MAX_REPLACEMENTS
    && (b.replacements != [] ==> |b.entries| == BUCKET_SIZE)
    && DistinctIds(b.entries)
    && DistinctIds(b.replacements)
    && (forall i, j :: 0 <= i < |b.entries| && 0 <= j < |b.replacements| ==>
          b.entries[i].id != b.replacements[j].id)
    && (forall i :: 0 <= i < |b.entries| ==> Belongs(b.entries[i], k, self))
    && (forall i :: 0 <= i < |b.replacements| ==> Belongs(b.replacements[i], k, self))
  }

  ghost predicate CellOk(c: Cell, k: nat, self: Id, rest: multiset<Subnet>, lim: Limits) {
    && Shape(c.b, k, self)
    && Counters(c, Charges(c.b.entries) + Charges(c.b.replacements), rest, lim)
  }

  function SumIps(bs: seq<Bucket>): multiset<Subnet> {
    if bs == [] then multiset{} else bs[0].ips + SumIps(bs[1..])
  }

  /** The invariant of the table: bounded lists, ids unique and in their bucket, never the
      local node, replacements only behind full entries, and both layers of counters equal
      to what the lists hold and within the limits. */
  ghost predicate TableInv(t: Table) {
    && |t.buckets| == N_BUCKETS
    && (forall k :: 0 <= k < N_BUCKETS ==> Shape(t.buckets[k], k, t.self))
    && (forall k :: 0 <= k < N_BUCKETS ==>
          && t.buckets[k].ips == Charges(t.buckets[k].entries) + Charges(t.buckets[k].replacements)
          && Within(t.buckets[k].ips, t.limits.bucket))
    && t.ips == SumIps(t.buckets)
    && Within(t.ips, t.limits.table)
  }

  // ---------- accounting lemmas ----------

  lemma {:induction false} ChargesConcat(a: seq<Node>, b: seq<Node>)
    ensures Charges(a + b) == Charges(a) + Charges(b)
  {
    if a == [] {
      assert a + b == b;
    } else {
      assert (a + b)[1..] == a[1..] + b;
      ChargesConcat(a[1..], b);
    }
  }

  /** Sums of multisets in another order. */
  lemma Reordered<T>(x: multiset<T>, y: multiset<T>, z: multiset<T>)
    ensures x + (y + z) == (x + y) + z
    ensures (x + y) + z == (x + z) + y
    ensures x + (y + z) == y + (x + z)
  {
  }

  lemma ChargesEnds(ns: seq<Node>, n: Node)
    ensures Charges([n] + ns) == Charges(ns) + ChargeOf(n.ip)
    ensures Charges(ns + [n]) == Charges(ns) + ChargeOf(n.ip)
  {
    ChargesConcat(ns, [n]);
    assert ([n] + ns)[1..] == ns;
  }

  lemma SplitAt<T>(s: seq<T>, i: nat)
    requires i < |s|
    ensures s == s[..i] + ([s[i]] + s[i + 1..])
  {
  }

  lemma ChargesRemoveAt(ns: seq<Node>, i: nat)
    requires i < |ns|
    ensures Charges(ns) == Charges(RemoveAt(ns, i)) + ChargeOf(ns[i].ip)
  {
    hide Charges, ChargeOf;
    var a, n, b := ns[..i], ns[i], ns[i + 1..];
    SplitAt(ns, i);
    ChargesConcat(a, [n] + b);
    ChargesEnds(b, n);
    ChargesConcat(a, b);
    Reordered(Charges(a), Charges(b), ChargeOf(n.ip));
  }

  lemma ChargesUpdate(ns: seq<Node>, i: nat, n: Node)
    requires i < |ns|
    ensures Charges(ns[i := n]) + ChargeOf(ns[i].ip) == Charges(ns) + ChargeOf(n.ip)
  {
    ChargesRemoveAt(ns, i);
    ChargesRemoveAt(ns[i := n], i);
    assert RemoveAt(ns, i) == RemoveAt(ns[i := n], i);
  }

  predicate Limited(n: Node, s: Subnet) {
    n.ip.Addr? && !n.ip.lan && n.ip.subnet == s
  }

  /** Where a list uses up the limit of a subnet. */
  function Positions(ns: seq<Node>, s: Subnet): set<int> {
    set i | 0 <= i < |ns| && Limited(ns[i], s)
  }

  lemma PositionsSnoc(ns: seq<Node>, n: Node, s: Subnet)
    ensures Positions(ns + [n], s) == Positions(ns, s) + if Limited(n, s) then {|ns|} else {}
  {
    hide Limited;
    var r := ns + [n];
    assert forall i :: 0 <= i < |ns| ==> r[i] == ns[i];
  }

  /** The multiplicity of a subnet is the number of positions with a limited address of it. */
  lemma {:induction false} ChargesCount(ns: seq<Node>, s: Subnet)
    ensures Charges(ns)[s] == |Positions(ns, s)|
  {
    if ns == [] {
      assert Positions(ns, s) == {};
    } else {
      var front, n := ns[..|ns| - 1], ns[|ns| - 1];
      ChargesCount(front, s);
      assert ns == front + [n];
      ChargesEnds(front, n);
      PositionsSnoc(front, n, s);
      assert |front| !in Positions(front, s);
      hide Positions, Charges;
      assert ChargeOf(n.ip)[s] == if Limited(n, s) then 1 else 0;
    }
  }

  lemma AddIPCounters(c: Cell, m: multiset<Subnet>, rest: multiset<Subnet>, lim: Limits, ip: IP)
    requires Counters(c, m, rest, lim)
    requires AddIP(c, lim, ip).Some?
    ensures var c1 := AddIP(c, lim, ip).value;
      && Counters(c1, m + ChargeOf(ip), rest, lim)
      && c1.b.entries == c.b.entries && c1.b.replacements == c.b.replacements
    ensures ip != NoIP
  {
    var c1 := AddIP(c, lim, ip).value;
    assert c1.total == m + ChargeOf(ip) + rest;
    assert c1.b.ips == m + ChargeOf(ip);
  }

  lemma RemoveIPCounters(c: Cell, m: multiset<Subnet>, rest: multiset<Subnet>, lim: Limits, ip: IP)
    requires Counters(c, m + ChargeOf(ip), rest, lim)
    ensures Counters(RemoveIP(c, ip), m, rest, lim)
  {
    assert RemoveIP(c, ip).total == m + rest;
    assert RemoveIP(c, ip).b.ips == m;
    forall s: Subnet
      ensures m[s] <= lim.bucket && (m + rest)[s] <= lim.table
    {
      assert c.b.ips[s] <= lim.bucket && c.total[s] <= lim.table;
    }
  }

  /** After a stored address was released and another one refused, taking the first one
      back always succeeds and restores both counters; the refused one is refused again. */
  lemma Rollback(c: Cell, lim: Limits, was: IP, ip: IP)
    requires was != NoIP
    requires ChargeOf(was) <= c.b.ips && ChargeOf(was) <= c.total
    requires Within(c.b.ips, lim.bucket) && Within(c.total, lim.table)
    requires AddIP(RemoveIP(c, was), lim, ip).None?
    ensures AddIP(RemoveIP(c, was), lim, was) == Some(c)
    ensures AddIP(c, lim, ip).None?
  {
    var r := RemoveIP(c, was);
    assert r.total + ChargeOf(was) == c.total;
    assert r.b.ips + ChargeOf(was) == c.b.ips;
    if was.lan {
      assert r.total == c.total && r.b.ips == c.b.ips;
    } else {
      StillFits(c, lim, was);
    }
    RefusedAgain(c, lim, was, ip);
  }

  /** A counted address leaves room for itself when it is released. */
  lemma StillFits(c: Cell, lim: Limits, was: IP)
    requires was.Addr? && !was.lan
    requires was.subnet in c.total && was.subnet in c.b.ips
    requires Within(c.b.ips, lim.bucket) && Within(c.total, lim.table)
    ensures AddIP(RemoveIP(c, was), lim, was).Some?
  {
    assert c.total[was.subnet] <= lim.table;
    assert c.b.ips[was.subnet] <= lim.bucket;
  }

  /** Counting more addresses cannot make a refused one fit. */
  lemma RefusedAgain(c: Cell, lim: Limits, was: IP, ip: IP)
    requires AddIP(RemoveIP(c, was), lim, ip).None?
    ensures AddIP(c, lim, ip).None?
  {
    if ip.Addr? && !ip.lan {
      assert RemoveIP(c, was).total[ip.subnet] <= c.total[ip.subnet];
      assert RemoveIP(c, was).b.ips[ip.subnet] <= c.b.ips[ip.subnet];
    }
  }

  // ---------- every bucket operation keeps its cell in order ----------

  lemma RemoveAtDistinct(ns: seq<Node>, i: nat)
    requires i < |ns| && DistinctIds(ns)
    ensures DistinctIds(RemoveAt(ns, i))
    ensures forall j :: 0 <= j < |RemoveAt(ns, i)| ==> RemoveAt(ns, i)[j] == ns[if j < i then j else j + 1]
    ensures forall j :: 0 <= j < |RemoveAt(ns, i)| ==> RemoveAt(ns, i)[j].id != ns[i].id
  {
    var r := RemoveAt(ns, i);
    forall j | 0 <= j < |r|
      ensures r[j] == ns[if j < i then j else j + 1]
    {
    }
  }

  lemma AppendShape(b: Bucket, k: nat, self: Id, n: Node)
    requires Shape(b, k, self) && |b.entries| < BUCKET_SIZE
    requires !HasId(b.entries, n.id) && Belongs(n, k, self)
    ensures Shape(b.(entries := b.entries + [n]), k, self)
    ensures Shape(b.(entries := [n] + b.entries), k, self)
  {
    hide BucketIndex;
  }

  lemma ReplacementShape(b: Bucket, k: nat, self: Id, n: Node)
    requires Shape(b, k, self) && |b.entries| == BUCKET_SIZE
    requires !HasId(b.entries, n.id) && !HasId(b.replacements, n.id) && Belongs(n, k, self)
    ensures Shape(b.(replacements := PushFront(b.replacements, n, MAX_REPLACEMENTS).0), k, self)
  {
    hide BucketIndex;
    var list := PushFront(b.replacements, n, MAX_REPLACEMENTS).0;
    assert list[0] == n;
    assert forall j :: 0 < j < |list| ==> list[j] == b.replacements[j - 1];
    assert |list| <= MAX_REPLACEMENTS;
    PushedDistinct(b.replacements, n, list);
    forall i, j | 0 <= i < |b.entries| && 0 <= j < |list|
      ensures b.entries[i].id != list[j].id
    {
      if j > 0 {
        assert b.entries[i].id != b.replacements[j - 1].id;
      }
    }
    forall j | 0 <= j < |list|
      ensures Belongs(list[j], k, self)
    {
      if j > 0 {
        assert Belongs(b.replacements[j - 1], k, self);
      }
    }
  }

  lemma PushedDistinct(ns: seq<Node>, n: Node, list: seq<Node>)
    requires DistinctIds(ns) && !HasId(ns, n.id)
    requires 0 < |list| <= |ns| + 1 && list[0] == n
    requires forall j :: 0 < j < |list| ==> list[j] == ns[j - 1]
    ensures DistinctIds(list)
  {
  }

  /** The counters after a replacement went to the front and possibly one fell off the end. */
  lemma PushFrontCounters(c: Cell, m: multiset<Subnet>, rest: multiset<Subnet>, lim: Limits, n: Node)
    requires Counters(c, m + Charges(c.b.replacements) + ChargeOf(n.ip), rest, lim)
    ensures var (list, removed) := PushFront(c.b.replacements, n, MAX_REPLACEMENTS);
      Counters(if removed.Some? then RemoveIP(c, removed.value.ip) else c, m + Charges(list), rest, lim)
  {
    hide Charges, ChargeOf, Counters, AddIP, RemoveIP;
    var reps, w := c.b.replacements, ChargeOf(n.ip);
    var (list, removed) := PushFront(reps, n, MAX_REPLACEMENTS);
    if removed.None? {
      ChargesEnds(reps, n);
      Reordered(m, Charges(reps), w);
    } else {
      var kept, gone := reps[..|reps| - 1], removed.value;
      assert reps == kept + [gone];
      ChargesEnds(kept, gone);
      ChargesEnds(kept, n);
      Reordered(m, Charges(kept), ChargeOf(gone.ip));
      Reordered(m + Charges(kept), ChargeOf(gone.ip), w);
      Reordered(m, Charges(kept), w);
      RemoveIPCounters(c, m + Charges(list), rest, lim, gone.ip);
    }
  }

  lemma AddReplacementOk(c: Cell, k: nat, self: Id, rest: multiset<Subnet>, lim: Limits, n: Node)
    requires CellOk(c, k, self, rest, lim)
    requires |c.b.entries| == BUCKET_SIZE && !HasId(c.b.entries, n.id)
    requires n.id != self && BucketIndex(self, n.id) == k
    ensures CellOk(AddReplacement(c, lim, n), k, self, rest, lim)
  {
    var m := Charges(c.b.entries);
    if !HasId(c.b.replacements, n.id) && AddIP(c, lim, n.ip).Some? {
      AddIPCounters(c, m + Charges(c.b.replacements), rest, lim, n.ip);
      PushFrontCounters(AddIP(c, lim, n.ip).value, m, rest, lim, n);
      ReplacementShape(c.b, k, self, n);
    }
  }

  /** A new entry at either end of a bucket with room, once its address was accepted. */
  lemma NewEntryOk(c: Cell, k: nat, self: Id, rest: multiset<Subnet>, lim: Limits, n: Node)
    requires CellOk(c, k, self, rest, lim) && |c.b.entries| < BUCKET_SIZE
    requires !HasId(c.b.entries, n.id) && n.id != self && BucketIndex(self, n.id) == k
    requires AddIP(c, lim, n.ip).Some?
    ensures var c1 := AddIP(c, lim, n.ip).value;
      && c1.b.replacements == []
      && CellOk(Cell(c1.b.(entries := c1.b.entries + [n]), c1.total), k, self, rest, lim)
      && CellOk(Cell(c1.b.(entries := [n] + c1.b.entries), c1.total), k, self, rest, lim)
  {
    var e := c.b.entries;
    AddIPCounters(c, Charges(e) + Charges(c.b.replacements), rest, lim, n.ip);
    ChargesEnds(e, n);
    AppendShape(c.b, k, self, n);
    assert Charges([]) == multiset{};
    assert Charges(e + [n]) + multiset{} == Charges(e) + multiset{} + ChargeOf(n.ip);
    assert Charges([n] + e) + multiset{} == Charges(e) + multiset{} + ChargeOf(n.ip);
  }

  lemma AddSeenOk(c: Cell, k: nat, self: Id, rest: multiset<Subnet>, lim: Limits, n: Node, now: int)
    requires CellOk(c, k, self, rest, lim)
    requires n.id != self && BucketIndex(self, n.id) == k
    ensures CellOk(AddSeen(c, lim, n, now), k, self, rest, lim)
  {
    hide BucketIndex, AddIP, AddReplacement, DistinctIds;
    if HasId(c.b.entries, n.id) {
    } else if |c.b.entries| >= BUCKET_SIZE {
      AddReplacementOk(c, k, self, rest, lim, n);
    } else if AddIP(c, lim, n.ip).Some? {
      NewEntryOk(c, k, self, rest, lim, n.(addedAt := now));
    }
  }

  /** A bump that finds the entry but refuses its new address changes nothing, and the new
      address does not fit afterwards either. */
  lemma RefusedBump(c: Cell, k: nat, self: Id, rest: multiset<Subnet>, lim: Limits, n: Node)
    requires CellOk(c, k, self, rest, lim)
    requires HasId(c.b.entries, n.id) && !Bump(c, lim, n).1
    ensures Bump(c, lim, n).0 == c
    ensures var was := c.b.entries[IndexOf(c.b.entries, n.id)].ip;
      AddIP(RemoveIP(c, was), lim, was) == Some(c)
    ensures AddIP(c, lim, n.ip).None?
  {
    var i := IndexOf(c.b.entries, n.id);
    ChargesRemoveAt(c.b.entries, i);
    var m := Charges(RemoveAt(c.b.entries, i)) + Charges(c.b.replacements);
    assert Charges(c.b.entries) + Charges(c.b.replacements) == m + ChargeOf(c.b.entries[i].ip);
    Rollback(c, lim, c.b.entries[i].ip, n.ip);
  }

  lemma NotBumped(c: Cell, lim: Limits, n: Node)
    ensures !Bump(c, lim, n).1 ==> Bump(c, lim, n).0 == c
  {
  }

  lemma BumpOk(c: Cell, k: nat, self: Id, rest: multiset<Subnet>, lim: Limits, n: Node)
    requires CellOk(c, k, self, rest, lim)
    ensures CellOk(Bump(c, lim, n).0, k, self, rest, lim)
  {
    hide BucketIndex, Counters, Readdress, RemoveAt, Charges;
    var e := c.b.entries;
    var i := IndexOf(e, n.id);
    if i < |e| && Readdress(c, lim, i, n).Some? {
      ReaddressCounters(c, rest, lim, i, n);
      BumpShape(c.b, k, self, i, n);
      SameCounters(Readdress(c, lim, i, n).value, Bump(c, lim, n).0,
                   Charges([n] + RemoveAt(e, i)) + Charges(c.b.replacements), rest, lim);
    }
  }

  /** The counters do not depend on the lists. */
  lemma SameCounters(c: Cell, d: Cell, m: multiset<Subnet>, rest: multiset<Subnet>, lim: Limits)
    requires Counters(c, m, rest, lim) && d.b.ips == c.b.ips && d.total == c.total
    ensures Counters(d, m, rest, lim)
  {
  }

  /** After an accepted change of address the counters stand for the entries with `n` in
      place of entry `i`. */
  lemma ReaddressCounters(c: Cell, rest: multiset<Subnet>, lim: Limits, i: nat, n: Node)
    requires i < |c.b.entries| && c.b.entries[i].ip != NoIP && Readdress(c, lim, i, n).Some?
    requires Counters(c, Charges(c.b.entries) + Charges(c.b.replacements), rest, lim)
    ensures Counters(Readdress(c, lim, i, n).value,
                     Charges([n] + RemoveAt(c.b.entries, i)) + Charges(c.b.replacements), rest, lim)
    ensures n.ip != NoIP
    ensures Readdress(c, lim, i, n).value.b.replacements == c.b.replacements
  {
    hide Counters, Charges, ChargeOf, RemoveAt, AddIP, RemoveIP;
    var e, reps, was := c.b.entries, Charges(c.b.replacements), c.b.entries[i].ip;
    var left := Charges(RemoveAt(e, i));
    ChargesRemoveAt(e, i);
    ChargesEnds(RemoveAt(e, i), n);
    Reordered(left, ChargeOf(was), reps);
    Reordered(left, ChargeOf(n.ip), reps);
    if n.ip != was {
      RemoveIPCounters(c, left + reps, rest, lim, was);
      AddIPCounters(RemoveIP(c, was), left + reps, rest, lim, n.ip);
      RemovedLists(c, was);
    }
  }

  lemma RemovedLists(c: Cell, ip: IP)
    ensures RemoveIP(c, ip).b.entries == c.b.entries && RemoveIP(c, ip).b.replacements == c.b.replacements
  {
  }

  lemma BumpShape(b: Bucket, k: nat, self: Id, i: nat, n: Node)
    requires Shape(b, k, self) && i < |b.entries| && b.entries[i].id == n.id && n.ip != NoIP
    ensures Shape(b.(entries := [n] + RemoveAt(b.entries, i)), k, self)
  {
    hide BucketIndex;
    RemoveAtDistinct(b.entries, i);
    var r := [n] + RemoveAt(b.entries, i);
    assert Belongs(b.entries[i], k, self);
    forall j | 0 <= j < |r|
      ensures Belongs(r[j], k, self)
      ensures forall l :: 0 <= l < |b.replacements| ==> r[j].id != b.replacements[l].id
    {
      assert r[j].id == b.entries[if j == 0 then i else if j - 1 < i then j - 1 else j].id;
    }
  }

  lemma NothingAdded(c: Cell, lim: Limits, n: Node, now: int)
    requires !Bump(c, lim, n).1 && AddIP(c, lim, n.ip).None?
    ensures AddVerified(c, lim, n, now) == c
  {
    hide AddIP, Bump;
  }

  lemma AddVerifiedOk(c: Cell, k: nat, self: Id, rest: multiset<Subnet>, lim: Limits, n: Node, now: int)
    requires CellOk(c, k, self, rest, lim)
    requires n.id != self && BucketIndex(self, n.id) == k
    ensures CellOk(AddVerified(c, lim, n, now), k, self, rest, lim)
    ensures HasId(c.b.entries, n.id) && !Bump(c, lim, n).1 ==> AddVerified(c, lim, n, now) == c
  {
    hide BucketIndex, AddIP, Readdress, AddReplacement, DistinctIds;
    BumpOk(c, k, self, rest, lim, n);
    if HasId(c.b.entries, n.id) {
      if !Bump(c, lim, n).1 {
        RefusedBump(c, k, self, rest, lim, n);
        NothingAdded(c, lim, n, now);
      }
    } else if |c.b.entries| >= BUCKET_SIZE {
      AddReplacementOk(c, k, self, rest, lim, n);
    } else if AddIP(c, lim, n.ip).Some? {
      NewEntryOk(c, k, self, rest, lim, n.(addedAt := now));
    }
  }

  lemma DeleteShape(b: Bucket, k: nat, self: Id, i: nat)
    requires Shape(b, k, self) && b.replacements == [] && i < |b.entries|
    ensures Shape(b.(entries := RemoveAt(b.entries, i)), k, self)
  {
    RemoveAtDistinct(b.entries, i);
  }

  lemma DeleteOk(c: Cell, k: nat, self: Id, rest: multiset<Subnet>, lim: Limits, n: Node, i: nat)
    requires CellOk(c, k, self, rest, lim)
    requires c.b.replacements == []
    requires i < |c.b.entries| && c.b.entries[i].id == n.id && c.b.entries[i].ip == n.ip
    ensures CellOk(DeleteInBucket(c, n), k, self, rest, lim)
  {
    var e := c.b.entries;
    assert IndexOf(e, n.id) == i;
    ChargesRemoveAt(e, i);
    DeleteShape(c.b, k, self, i);
    var m := Charges(RemoveAt(e, i)) + Charges(c.b.replacements);
    assert Charges(e) + Charges(c.b.replacements) == m + ChargeOf(n.ip);
    RemoveIPCounters(Cell(c.b.(entries := RemoveAt(e, i)), c.total), m, rest, lim, n.ip);
  }

  lemma ReplaceShape(b: Bucket, k: nat, self: Id, choice: nat)
    requires Shape(b, k, self) && choice < |b.replacements|
    ensures Shape(b.(entries := b.entries[|b.entries| - 1 := b.replacements[choice]],
                     replacements := RemoveAt(b.replacements, choice)), k, self)
  {
    hide BucketIndex;
    RemoveAtDistinct(b.replacements, choice);
  }

  lemma Exchange<T>(a: multiset<T>, a': multiset<T>, b: multiset<T>, b': multiset<T>, x: multiset<T>, y: multiset<T>)
    requires a' + y == a + x && b == b' + x
    ensures a + b == a' + b' + y
  {
    assert a + b == (a + x) + b';
  }

  lemma ReplaceCharges(e: seq<Node>, reps: seq<Node>, choice: nat)
    requires e != [] && choice < |reps|
    ensures Charges(e) + Charges(reps)
         == Charges(e[|e| - 1 := reps[choice]]) + Charges(RemoveAt(reps, choice)) + ChargeOf(e[|e| - 1].ip)
  {
    ChargesUpdate(e, |e| - 1, reps[choice]);
    ChargesRemoveAt(reps, choice);
    Exchange(Charges(e), Charges(e[|e| - 1 := reps[choice]]), Charges(reps), Charges(RemoveAt(reps, choice)),
             ChargeOf(reps[choice].ip), ChargeOf(e[|e| - 1].ip));
  }

  lemma ReplaceOk(c: Cell, k: nat, self: Id, rest: multiset<Subnet>, lim: Limits, last: Node, choice: nat)
    requires CellOk(c, k, self, rest, lim)
    requires c.b.replacements != [] ==> choice < |c.b.replacements|
    requires IsLast(c.b, last.id) ==> c.b.entries[|c.b.entries| - 1].ip == last.ip
    ensures CellOk(Replace(c, last, choice), k, self, rest, lim)
  {
    hide BucketIndex, Belongs;
    var e, reps := c.b.entries, c.b.replacements;
    if IsLast(c.b, last.id) {
      if reps == [] {
        DeleteOk(c, k, self, rest, lim, last, |e| - 1);
      } else {
        var e', list := e[|e| - 1 := reps[choice]], RemoveAt(reps, choice);
        assert Without(reps, reps[choice].id) == list by {
          assert IndexOf(reps, reps[choice].id) == choice;
        }
        ReplaceShape(c.b, k, self, choice);
        ReplaceCharges(e, reps, choice);
        var c1 := Cell(c.b.(entries := e', replacements := list), c.total);
        RemoveIPCounters(c1, Charges(e') + Charges(list), rest, lim, last.ip);
        assert Replace(c, last, choice) == RemoveIP(c1, last.ip);
      }
    }
  }

  // ---------- from buckets to the table ----------

  lemma {:induction false} SumConcat(a: seq<Bucket>, b: seq<Bucket>)
    ensures SumIps(a + b) == SumIps(a) + SumIps(b)
  {
    if a == [] {
      assert a + b == b;
    } else {
      assert (a + b)[1..] == a[1..] + b;
      SumConcat(a[1..], b);
    }
  }

  /** What the buckets other than `k` account for. */
  function RestOf(bs: seq<Bucket>, k: nat): multiset<Subnet>
    requires k < |bs|
  {
    SumIps(bs[..k]) + SumIps(bs[k + 1..])
  }

  lemma SumHead(b: Bucket, bs: seq<Bucket>)
    ensures SumIps([b] + bs) == b.ips + SumIps(bs)
  {
    assert ([b] + bs)[1..] == bs;
  }

  lemma SumSplit(bs: seq<Bucket>, k: nat)
    requires k < |bs|
    ensures SumIps(bs) == bs[k].ips + RestOf(bs, k)
  {
    hide SumIps;
    var a, b := bs[..k], bs[k + 1..];
    SplitAt(bs, k);
    SumConcat(a, [bs[k]] + b);
    SumHead(bs[k], b);
    Reordered(SumIps(a), bs[k].ips, SumIps(b));
  }

  lemma CellOfTable(t: Table, k: nat)
    requires TableInv(t) && k < N_BUCKETS
    ensures CellOk(CellAt(t, k), k, t.self, RestOf(t.buckets, k), t.limits)
  {
    SumSplit(t.buckets, k);
  }

  /** A cell put back in order puts the table back in order. */
  lemma TableOfCell(t: Table, k: nat, c: Cell)
    requires TableInv(t) && k < N_BUCKETS
    requires CellOk(c, k, t.self, RestOf(t.buckets, k), t.limits)
    ensures TableInv(WithCell(t, k, c))
  {
    var bs := t.buckets[k := c.b];
    SumSplit(bs, k);
    assert bs[..k] == t.buckets[..k] && bs[k + 1..] == t.buckets[k + 1..];
  }

  lemma {:induction false} EmptySum(bs: seq<Bucket>)
    requires forall i :: 0 <= i < |bs| ==> bs[i].ips == multiset{}
    ensures SumIps(bs) == multiset{}
  {
    if bs != [] {
      EmptySum(bs[1..]);
    }
  }

  lemma EmptyTableInv(self: Id, limits: Limits)
    ensures TableInv(EmptyTable(self, limits))
  {
    EmptySum(EmptyTable(self, limits).buckets);
  }

  lemma AddSeenKeepsInv(t: Table, n: Node, now: int)
    requires TableInv(t)
    ensures TableInv(TableAddSeen(t, n, now))
  {
    if n.id != t.self {
      var k := BucketIndex(t.self, n.id);
      CellOfTable(t, k);
      AddSeenOk(CellAt(t, k), k, t.self, RestOf(t.buckets, k), t.limits, n, now);
      TableOfCell(t, k, AddSeen(CellAt(t, k), t.limits, n, now));
    }
  }

  lemma AddVerifiedKeepsInv(t: Table, n: Node, now: int, initDone: bool)
    requires TableInv(t)
    ensures TableInv(TableAddVerified(t, n, now, initDone))
  {
    if n.id != t.self {
      var k := BucketIndex(t.self, n.id);
      CellOfTable(t, k);
      AddVerifiedOk(CellAt(t, k), k, t.self, RestOf(t.buckets, k), t.limits, n, now);
      TableOfCell(t, k, AddVerified(CellAt(t, k), t.limits, n, now));
    }
  }

  /** A known node whose new endpoint does not fit leaves the whole table as it was, whether
      its bucket is full or not. */
  lemma RefusedEndpointChange(t: Table, n: Node, now: int, initDone: bool)
    requires TableInv(t)
    requires HasId(t.buckets[BucketIndex(t.self, n.id)].entries, n.id)
    requires !Bump(CellAt(t, BucketIndex(t.self, n.id)), t.limits, n).1
    ensures TableAddVerified(t, n, now, initDone) == t
  {
    var k := BucketIndex(t.self, n.id);
    CellOfTable(t, k);
    if n.id != t.self {
      AddVerifiedOk(CellAt(t, k), k, t.self, RestOf(t.buckets, k), t.limits, n, now);
    }
    assert t.buckets[k := t.buckets[k]] == t.buckets;
  }

  lemma AliveKeepsInv(t: Table, k: nat, record: Node)
    requires TableInv(t) && k < N_BUCKETS
    ensures TableInv(WithCell(t, k, Bump(CellAt(t, k), t.limits, record).0))
  {
    CellOfTable(t, k);
    BumpOk(CellAt(t, k), k, t.self, RestOf(t.buckets, k), t.limits, record);
    TableOfCell(t, k, Bump(CellAt(t, k), t.limits, record).0);
  }

  lemma DeadKeepsInv(t: Table, k: nat, last: Node, choice: nat)
    requires TableInv(t) && k < N_BUCKETS
    requires t.buckets[k].replacements != [] ==> choice < |t.buckets[k].replacements|
    requires IsLast(t.buckets[k], last.id) ==> t.buckets[k].entries[|t.buckets[k].entries| - 1].ip == last.ip
    ensures TableInv(WithCell(t, k, Replace(CellAt(t, k), last, choice)))
  {
    hide BucketIndex;
    CellOfTable(t, k);
    ReplaceOk(CellAt(t, k), k, t.self, RestOf(t.buckets, k), t.limits, last, choice);
    TableOfCell(t, k, Replace(CellAt(t, k), last, choice));
  }

  lemma SameIdSameEntry(ns: seq<Node>, n: Node, i: nat)
    requires DistinctIds(ns) && n in ns && i < |ns| && ns[i].id == n.id
    ensures ns[i] == n
  {
    var w :| 0 <= w < |ns| && ns[w] == n;
    assert w == i;
  }

  /** The last step of a revalidation keeps the invariant as long as the bucket still holds
      the picked entry with the address it was picked with. */
  lemma RevalidatedKeepsInv(t: Table, k: nat, last: Node, outcome: Outcome, choice: nat)
    requires TableInv(t) && k < N_BUCKETS
    requires last in t.buckets[k].entries
    requires outcome.NoReply? && t.buckets[k].replacements != [] ==> choice < |t.buckets[k].replacements|
    ensures TableInv(Revalidated(t, k, last, outcome, choice))
  {
    hide Bump, Replace, Shape, Charges, SumIps, Within, WithCell, CellAt;
    RevalidatedIs(t, k, last, outcome, choice);
    if outcome.Alive? {
      AliveKeepsInv(t, k, outcome.record.(checks := outcome.record.checks + 1));
    } else {
      PickedDeadKeepsInv(t, k, last, choice);
    }
  }

  lemma PickedDeadKeepsInv(t: Table, k: nat, last: Node, choice: nat)
    requires TableInv(t) && k < N_BUCKETS && last in t.buckets[k].entries
    requires t.buckets[k].replacements != [] ==> choice < |t.buckets[k].replacements|
    ensures TableInv(WithCell(t, k, Replace(CellAt(t, k), last, choice)))
  {
    hide Replace, Shape, Charges, SumIps, Within, WithCell, CellAt;
    EntriesDistinct(t, k);
    LastAsPicked(t.buckets[k], last);
    DeadKeepsInv(t, k, last, choice);
  }

  lemma RevalidatedIs(t: Table, k: nat, last: Node, outcome: Outcome, choice: nat)
    requires k < |t.buckets|
    requires outcome.NoReply? && t.buckets[k].replacements != [] ==> choice < |t.buckets[k].replacements|
    ensures var r := Revalidated(t, k, last, outcome, choice);
      && (outcome.Alive? ==>
            r == WithCell(t, k, Bump(CellAt(t, k), t.limits, outcome.record.(checks := outcome.record.checks + 1)).0))
      && (outcome.NoReply? ==> r == WithCell(t, k, Replace(CellAt(t, k), last, choice)))
  {
    hide Bump, Replace;
  }

  /** The picked entry still has its address if it is last. */
  lemma LastAsPicked(b: Bucket, last: Node)
    requires DistinctIds(b.entries) && last in b.entries
    ensures IsLast(b, last.id) ==> b.entries[|b.entries| - 1].ip == last.ip
  {
    if IsLast(b, last.id) {
      SameIdSameEntry(b.entries, last, |b.entries| - 1);
    }
  }

  lemma EntriesDistinct(t: Table, k: nat)
    requires TableInv(t) && k < N_BUCKETS
    ensures |t.buckets| == N_BUCKETS && DistinctIds(t.buckets[k].entries)
  {
    hide BucketIndex, Belongs;
    assert Shape(t.buckets[k], k, t.self);
  }
}
