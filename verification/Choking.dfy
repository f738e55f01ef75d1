/**
 * The choking manager as a value: regular slots for the best-ranked interested peers and one optimistic
 * slot that rotates, its steps, and what every run keeps.
 */
module Choking {
  import opened Bytes
  import opened Modular
  import opened Wire

  // ----- ranking ------------------------------------------------------------------------------------

  datatype Contender = Contender(addr: Addr, rate: nat)

  /** One step of a stable descending sort: x comes from before every entry already placed. */
  function Insert(x: Contender, sorted: seq<Contender>): seq<Contender> {
    if sorted == [] || sorted[0].rate <= x.rate then [x] + sorted
    else [sorted[0]] + Insert(x, sorted[1..])
  }

  /** `interested.sort(key=rate, reverse=True)`, which leaves ties in place. */
  function SortDown(cs: seq<Contender>): seq<Contender> {
    if cs == [] then [] else Insert(cs[0], SortDown(cs[1..]))
  }

  function Addrs(cs: seq<Contender>): set<Addr> {
    set c | c in cs :: c.addr
  }

  /** How many of cs have a higher rate. */
  function Above(cs: seq<Contender>, rate: nat): nat {
    if cs == [] then 0 else (if cs[0].rate > rate then 1 else 0) + Above(cs[1..], rate)
  }

  /** How many of cs go before its i-th: a higher rate, or the same rate and an older registration. */
  function Ahead(cs: seq<Contender>, i: nat): nat
    requires i < |cs|
  {
    if i == 0 then Above(cs[1..], cs[0].rate)
    else (if cs[0].rate >= cs[i].rate then 1 else 0) + Ahead(cs[1..], i - 1)
  }

  predicate Descends(cs: seq<Contender>) {
    forall i, j :: 0 <= i < j < |cs| ==> cs[i].rate >= cs[j].rate
  }

  lemma {:induction false} AboveInSorted(s: seq<Contender>, rate: nat)
    requires Descends(s)
    ensures Above(s, rate) <= |s|
    ensures forall i :: 0 <= i < |s| ==> (i < Above(s, rate) <==> s[i].rate > rate)
  {
    if s != [] { AboveInSorted(s[1..], rate); }
  }

  lemma InsertHead(x: Contender, s: seq<Contender>, k: nat)
    requires s != [] && 0 < k <= |s|
    requires Insert(x, s[1..]) == s[1..][..k - 1] + [x] + s[1..][k - 1..]
    ensures [s[0]] + Insert(x, s[1..]) == s[..k] + [x] + s[k..]
  {}

  /** Insert puts x behind exactly those of a higher rate. */
  lemma {:induction false} InsertSplits(x: Contender, s: seq<Contender>)
    requires Descends(s)
    ensures Above(s, x.rate) <= |s|
    ensures Insert(x, s) == s[..Above(s, x.rate)] + [x] + s[Above(s, x.rate)..]
  {
    hide Descends;
    AboveInSorted(s, x.rate);
    if s != [] && s[0].rate > x.rate {
      TailDescends(s);
      InsertSplits(x, s[1..]);
      InsertHead(x, s, Above(s, x.rate));
    } else if s != [] {
      assert Above(s, x.rate) == 0;
    }
  }

  lemma TailDescends(s: seq<Contender>)
    requires s != [] && Descends(s)
    ensures Descends(s[1..])
  {}

  lemma InsertDescends(x: Contender, s: seq<Contender>)
    requires Descends(s)
    ensures Descends(Insert(x, s))
  {
    hide Insert, Above;
    InsertSplits(x, s);
    AboveInSorted(s, x.rate);
  }

  lemma {:induction false} AboveInsert(x: Contender, s: seq<Contender>, rate: nat)
    ensures Above(Insert(x, s), rate) == Above([x], rate) + Above(s, rate)
  {
    if s != [] && s[0].rate > x.rate {
      AboveInsert(x, s[1..], rate);
      assert Insert(x, s)[1..] == Insert(x, s[1..]);
    } else {
      assert Insert(x, s)[1..] == s;
    }
  }

  lemma {:induction false} AboveSort(cs: seq<Contender>, rate: nat)
    ensures Above(SortDown(cs), rate) == Above(cs, rate)
  {
    if cs != [] {
      AboveSort(cs[1..], rate);
      AboveInsert(cs[0], SortDown(cs[1..]), rate);
      assert [cs[0]][1..] == [];
    }
  }

  predicate Distinct(cs: seq<Contender>) {
    forall i, j :: 0 <= i < j < |cs| ==> cs[i].addr != cs[j].addr
  }

  lemma SplitKeeps(x: Contender, s: seq<Contender>, k: nat)
    requires k <= |s|
    ensures forall c :: c in s[..k] + [x] + s[k..] <==> c == x || c in s
  {
    var r := s[..k] + [x] + s[k..];
    assert r[k] == x;
    forall c | c in s ensures c in r {
      var i :| 0 <= i < |s| && s[i] == c;
      assert r[if i < k then i else i + 1] == c;
    }
  }

  lemma SplitDistinct(x: Contender, s: seq<Contender>, k: nat)
    requires k <= |s| && Distinct(s) && forall i :: 0 <= i < |s| ==> s[i].addr != x.addr
    ensures Distinct(s[..k] + [x] + s[k..])
  {}

  lemma InsertKeeps(x: Contender, s: seq<Contender>)
    requires Descends(s)
    ensures |Insert(x, s)| == |s| + 1
    ensures forall c :: c in Insert(x, s) <==> c == x || c in s
    ensures Distinct(s) && (forall c :: c in s ==> c.addr != x.addr) ==> Distinct(Insert(x, s))
  {
    hide Insert, Above, Descends, Distinct;
    InsertSplits(x, s);
    var k := Above(s, x.rate);
    SplitKeeps(x, s, k);
    if Distinct(s) && forall c :: c in s ==> c.addr != x.addr { SplitDistinct(x, s, k); }
  }

  lemma {:induction false} SortDescends(cs: seq<Contender>)
    ensures |SortDown(cs)| == |cs| && Descends(SortDown(cs))
    ensures forall c :: c in SortDown(cs) <==> c in cs
    ensures Distinct(cs) ==> Distinct(SortDown(cs))
  {
    if cs != [] {
      SortDescends(cs[1..]);
      InsertDescends(cs[0], SortDown(cs[1..]));
      InsertKeeps(cs[0], SortDown(cs[1..]));
      assert cs == [cs[0]] + cs[1..];
    }
  }

  /** The stable sort puts each contender behind exactly those ahead of it. */
  lemma {:induction false} SortRanks(cs: seq<Contender>, i: nat)
    requires i < |cs|
    ensures Ahead(cs, i) < |cs| == |SortDown(cs)|
    ensures SortDown(cs)[Ahead(cs, i)] == cs[i]
  {
    var x, rest := cs[0], SortDown(cs[1..]);
    SortDescends(cs);
    SortDescends(cs[1..]);
    InsertSplits(x, rest);
    AboveSort(cs[1..], x.rate);
    if i > 0 {
      SortRanks(cs[1..], i - 1);
      AboveInSorted(rest, x.rate);
    }
  }

  /** The addresses of the first `slots` in rank. */
  function Regular(cs: seq<Contender>, slots: nat): set<Addr> {
    var sorted := SortDown(cs);
    Addrs(sorted[..Min(slots, |sorted|)])
  }

  /** A contender holds a regular slot exactly when fewer than `slots` others go before it. */
  lemma RegularIffRank(cs: seq<Contender>, slots: nat, i: nat)
    requires Distinct(cs) && i < |cs|
    ensures cs[i].addr in Regular(cs, slots) <==> Ahead(cs, i) < slots
  {
    SortRanks(cs, i);
    SortDescends(cs);
    var sorted := SortDown(cs);
    var top := sorted[..Min(slots, |sorted|)];
    if Ahead(cs, i) < slots { assert top[Ahead(cs, i)] in top; }
    if cs[i].addr in Addrs(top) {
      var c :| c in top && c.addr == cs[i].addr;
      var p :| 0 <= p < |top| && top[p] == c;
      assert sorted[p].addr == sorted[Ahead(cs, i)].addr;
    }
  }

  lemma {:induction false} AddrsCount(cs: seq<Contender>)
    requires Distinct(cs)
    ensures |Addrs(cs)| == |cs|
  {
    if cs != [] {
      AddrsCount(cs[1..]);
      assert Addrs(cs) == {cs[0].addr} + Addrs(cs[1..]);
      assert cs[0].addr !in Addrs(cs[1..]);
    }
  }

  lemma PlaceInTop(sorted: seq<Contender>, k: nat, c: Contender) returns (p: nat)
    requires Distinct(sorted) && k <= |sorted| && c in sorted
    ensures p < |sorted| && sorted[p] == c
    ensures c.addr in Addrs(sorted[..k]) <==> p < k
  {
    p :| p < |sorted| && sorted[p] == c;
    var top := sorted[..k];
    if p < k { assert top[p] in top; }
    if c.addr in Addrs(top) {
      var d :| d in top && d.addr == c.addr;
      var r :| 0 <= r < |top| && top[r] == d;
      assert sorted[r].addr == sorted[p].addr;
    }
  }

  /** The slots are all filled, or everyone has one; nobody left out outranks a holder. */
  lemma RegularAreTop(cs: seq<Contender>, slots: nat)
    requires Distinct(cs)
    ensures |Regular(cs, slots)| == Min(slots, |cs|)
    ensures forall a, b :: a in cs && b in cs && a.addr in Regular(cs, slots) && b.addr !in Regular(cs, slots)
              ==> a.rate >= b.rate
  {
    SortDescends(cs);
    var sorted := SortDown(cs);
    var k := Min(slots, |sorted|);
    AddrsCount(sorted[..k]);
    forall a, b | a in cs && b in cs && a.addr in Regular(cs, slots) && b.addr !in Regular(cs, slots)
      ensures a.rate >= b.rate
    {
      var p := PlaceInTop(sorted, k, a);
      var q := PlaceInTop(sorted, k, b);
    }
  }

  lemma RegularAreContenders(cs: seq<Contender>, slots: nat)
    ensures Regular(cs, slots) <= Addrs(cs) == Addrs(SortDown(cs))
  {
    SortDescends(cs);
  }

  // ----- the manager as a value ---------------------------------------------------------------------

  /** One registered connection; `attempts` lists the messages the manager tried to send it. */
  datatype Entry = Entry(addr: Addr, down: nat, up: nat, amChoking: bool, interested: bool, connected: bool,
                         attempts: seq<Message>)
  {
    predicate Contends() { interested && connected }

    predicate Unchoked() { connected && !amChoking }

    function Rate(seeding: bool): nat { if seeding then up else down }

    /** One turn of the loop that applies the decisions. */
    function Decide(chosen: set<Addr>): Entry {
      if connected && addr in chosen && amChoking then
        this.(amChoking := false, attempts := attempts + [Message.Unchoke])
      else if connected && addr !in chosen && !amChoking then
        this.(amChoking := true, attempts := attempts + [Message.Choke])
      else this
    }

    function Reset(): Entry { this.(down := 0, up := 0) }
  }

  function Fresh(addr: Addr, connected: bool): Entry {
    Entry(addr, 0, 0, true, false, connected, [])
  }

  /** What sessions and connections do to a registered entry between rechokes. */
  datatype Change = Interest(interested: bool) | Sent(n: nat) | Received(n: nat) | Lost

  function Changed(e: Entry, c: Change): Entry {
    match c
    case Interest(interested) => e.(interested := interested)
    case Sent(n) => e.(up := e.up + n)
    case Received(n) => e.(down := e.down + n)
    case Lost => e.(connected := false)
  }

  /** Assignment to a dict: an existing key keeps its place, a new one goes last. */
  function Put(entries: seq<Entry>, e: Entry): seq<Entry> {
    if entries == [] then [e]
    else if entries[0].addr == e.addr then [e] + entries[1..]
    else [entries[0]] + Put(entries[1..], e)
  }

  function Drop(entries: seq<Entry>, addr: Addr): seq<Entry> {
    if entries == [] then []
    else if entries[0].addr == addr then entries[1..]
    else [entries[0]] + Drop(entries[1..], addr)
  }

  /** What the dict holds under an address, as a list of at most one. */
  function Under(entries: seq<Entry>, addr: Addr): seq<Entry> {
    if entries == [] then []
    else if entries[0].addr == addr then [entries[0]]
    else Under(entries[1..], addr)
  }

  function Contenders(entries: seq<Entry>, seeding: bool): seq<Contender> {
    if entries == [] then []
    else
      var last := entries[|entries| - 1];
      Contenders(entries[..|entries| - 1], seeding) +
      if last.Contends() then [Contender(last.addr, last.Rate(seeding))] else []
  }

  /** Those of the ranking without a regular slot, in rank order. */
  function Rest(sorted: seq<Contender>, regular: set<Addr>): seq<Addr> {
    if sorted == [] then []
    else
      var last := sorted[|sorted| - 1];
      Rest(sorted[..|sorted| - 1], regular) + if last.addr !in regular then [last.addr] else []
  }

  /** `random.choice` over a list, None for an empty one; `pick` stands for the random number. */
  function Choice(pool: seq<Addr>, pick: nat): Option<Addr> {
    if pool == [] then None else Some(pool[pick % |pool|])
  }

  function Slots(regular: set<Addr>, optimistic: Option<Addr>): set<Addr> {
    regular + if optimistic.Some? then {optimistic.value} else {}
  }

  /** The decisions applied and the counters reset. */
  function Settled(entries: seq<Entry>, chosen: set<Addr>): seq<Entry> {
    seq(|entries|, i requires 0 <= i < |entries| => entries[i].Decide(chosen).Reset())
  }

  /**
   * `entries` is the dict of trackers in insertion order.  `strays` are the trackers that left it, because
   * their address was registered again or unregistered; a session whose connection is up still uses its own.
   */
  datatype Manager = Manager(maxUnchoked: nat, every: nat, entries: seq<Entry>, optimistic: Option<Addr>,
                             ticks: nat, seeding: bool, strays: seq<Entry>)
  {
    function Register(addr: Addr, connected: bool): Manager {
      this.(entries := Put(entries, Fresh(addr, connected)), strays := strays + Under(entries, addr))
    }

    function Unregister(addr: Addr): Manager {
      this.(entries := Drop(entries, addr), optimistic := if optimistic == Some(addr) then None else optimistic,
            strays := strays + Under(entries, addr))
    }

    /** The session of the i-th stray still updates its tracker. */
    function AlterStray(i: nat, c: Change): Manager {
      if i < |strays| then this.(strays := strays[i := Changed(strays[i], c)]) else this
    }

    function Alter(addr: Addr, c: Change): Manager {
      this.(entries := seq(|entries|, i requires 0 <= i < |entries| =>
                         if entries[i].addr == addr then Changed(entries[i], c) else entries[i]))
    }

    predicate Rotates() { ticks + 1 >= every }

    function NextTicks(): nat { if Rotates() then 0 else ticks + 1 }

    function Contending(): seq<Contender> { Contenders(entries, seeding) }

    function RegularSlots(): set<Addr> { Regular(Contending(), maxUnchoked) }

    function NextOptimistic(pick: nat): Option<Addr> {
      if Rotates() then Choice(Rest(SortDown(Contending()), RegularSlots()), pick) else optimistic
    }

    function Chosen(pick: nat): set<Addr> { Slots(RegularSlots(), NextOptimistic(pick)) }

    /** One rechoke; when nobody contends it only counts the tick. */
    function Rechoke(pick: nat): Manager {
      if Contending() == [] then this.(ticks := NextTicks())
      else
        this.(entries := Settled(entries, Chosen(pick)), optimistic := NextOptimistic(pick), ticks := NextTicks())
    }

    function UnchokedPeers(): set<Addr> { set e | e in entries && e.Unchoked() :: e.addr }

    function Connected(): set<Addr> { set e | e in entries && e.connected :: e.addr }
  }

  datatype Event =
    | Registering(addr: Addr, connected: bool)
    | Unregistering(addr: Addr)
    | Altering(addr: Addr, change: Change)
    | Straying(i: nat, change: Change)
    | Seeding(on: bool)
    | Rechoking(pick: nat)

  function Step(m: Manager, e: Event): Manager {
    match e
    case Registering(addr, connected) => m.Register(addr, connected)
    case Unregistering(addr) => m.Unregister(addr)
    case Altering(addr, change) => m.Alter(addr, change)
    case Straying(i, change) => m.AlterStray(i, change)
    case Seeding(on) => m.(seeding := on)
    case Rechoking(pick) => m.Rechoke(pick)
  }

  function Initial(maxUnchoked: nat, every: nat): Manager {
    Manager(maxUnchoked, every, [], None, 0, false, [])
  }

  function Run(m: Manager, events: seq<Event>): Manager {
    if events == [] then m else Step(Run(m, events[..|events| - 1]), events[|events| - 1])
  }

  // ----- what every run keeps -----------------------------------------------------------------------

  /** The attempts alternate from Unchoke on, and the flag mirrors the last of them. */
  predicate Alternating(e: Entry) {
    && (forall k :: 0 <= k < |e.attempts| ==> e.attempts[k] == if k % 2 == 0 then Message.Unchoke else Message.Choke)
    && (e.amChoking <==> |e.attempts| % 2 == 0)
  }

  predicate DistinctEntries(entries: seq<Entry>) {
    forall i, j :: 0 <= i < j < |entries| ==> entries[i].addr != entries[j].addr
  }

  ghost predicate Inv(m: Manager) {
    && m.every > 0 && m.ticks < m.every
    && DistinctEntries(m.entries)
    && (forall e :: e in m.entries || e in m.strays ==> Alternating(e))
    && |m.UnchokedPeers()| <= m.maxUnchoked + 1
  }

  lemma {:induction false} PutEffect(entries: seq<Entry>, e: Entry)
    requires DistinctEntries(entries)
    ensures DistinctEntries(Put(entries, e))
    ensures forall x :: x in Put(entries, e) <==> x == e || (x in entries && x.addr != e.addr)
  {
    if entries != [] && entries[0].addr != e.addr {
      PutEffect(entries[1..], e);
    }
  }

  lemma {:induction false} PutNew(entries: seq<Entry>, e: Entry)
    requires forall i :: 0 <= i < |entries| ==> entries[i].addr != e.addr
    ensures Put(entries, e) == entries + [e]
  {
    if entries != [] {
      PutNew(entries[1..], e);
      assert entries == [entries[0]] + entries[1..];
    }
  }

  lemma {:induction false} DropEffect(entries: seq<Entry>, addr: Addr)
    requires DistinctEntries(entries)
    ensures DistinctEntries(Drop(entries, addr))
    ensures forall x :: x in Drop(entries, addr) <==> x in entries && x.addr != addr
  {
    if entries != [] && entries[0].addr != addr {
      DropEffect(entries[1..], addr);
    }
  }

  lemma {:induction false} UnderEffect(entries: seq<Entry>, addr: Addr)
    requires DistinctEntries(entries)
    ensures |Under(entries, addr)| <= 1
    ensures forall x :: x in Under(entries, addr) <==> x in entries && x.addr == addr
  {
    if entries != [] && entries[0].addr != addr {
      UnderEffect(entries[1..], addr);
    }
  }

  lemma {:induction false} ContendersOf(entries: seq<Entry>, seeding: bool)
    ensures forall c :: c in Contenders(entries, seeding) <==>
              exists e :: e in entries && e.Contends() && c == Contender(e.addr, e.Rate(seeding))
  {
    if entries != [] {
      var front, last := entries[..|entries| - 1], entries[|entries| - 1];
      ContendersOf(front, seeding);
      assert entries == front + [last];
    }
  }

  lemma {:induction false} ContendersDistinct(entries: seq<Entry>, seeding: bool)
    requires DistinctEntries(entries)
    ensures Distinct(Contenders(entries, seeding))
  {
    if entries != [] {
      var front, last := entries[..|entries| - 1], entries[|entries| - 1];
      ContendersDistinct(front, seeding);
      ContendersOf(front, seeding);
      var cs := Contenders(front, seeding);
      forall i | 0 <= i < |cs| ensures cs[i].addr != last.addr {
        assert cs[i] in cs;
        var e :| e in front && e.Contends() && cs[i] == Contender(e.addr, e.Rate(seeding));
        var k :| 0 <= k < |front| && front[k] == e;
        assert entries[k].addr != entries[|entries| - 1].addr;
      }
    }
  }

  lemma {:induction false} RestOf(sorted: seq<Contender>, regular: set<Addr>)
    ensures forall a :: a in Rest(sorted, regular) <==> a in Addrs(sorted) && a !in regular
  {
    if sorted != [] {
      RestOf(sorted[..|sorted| - 1], regular);
      assert sorted == sorted[..|sorted| - 1] + [sorted[|sorted| - 1]];
    }
  }

  /** The slots of a rechoke: at most one more than the regular ones, which are all filled or enough. */
  lemma SlotsBounded(m: Manager, pick: nat)
    requires DistinctEntries(m.entries)
    ensures |m.RegularSlots()| == Min(m.maxUnchoked, |m.Contending()|)
    ensures |m.Chosen(pick)| <= m.maxUnchoked + 1
  {
    ContendersDistinct(m.entries, m.seeding);
    RegularAreTop(m.Contending(), m.maxUnchoked);
  }

  lemma SettledUnchoked(m: Manager, after: Manager, chosen: set<Addr>)
    requires DistinctEntries(m.entries) && after.entries == Settled(m.entries, chosen)
    ensures after.UnchokedPeers() == chosen * m.Connected()
    ensures DistinctEntries(after.entries)
  {
    forall a | a in chosen * m.Connected() ensures a in after.UnchokedPeers() {
      var e :| e in m.entries && e.connected && e.addr == a;
      var i :| 0 <= i < |m.entries| && m.entries[i] == e;
      assert after.entries[i] in after.entries;
    }
    forall a | a in after.UnchokedPeers() ensures a in chosen * m.Connected() {
      var e :| e in after.entries && e.Unchoked() && e.addr == a;
      var i :| 0 <= i < |m.entries| && after.entries[i] == e;
      assert m.entries[i] in m.entries;
    }
  }

  /**
   * A rechoke with somebody contending leaves unchoked exactly the connected peers that hold a slot,
   * and zeroes the counters; with nobody contending it changes no peer.
   */
  lemma RechokeSettles(m: Manager, pick: nat)
    requires DistinctEntries(m.entries)
    ensures m.Contending() == [] ==> m.Rechoke(pick).entries == m.entries
    ensures m.Contending() != [] ==>
              && m.Rechoke(pick).UnchokedPeers() == m.Chosen(pick) * m.Connected()
              && forall e :: e in m.Rechoke(pick).entries ==> e.down == 0 && e.up == 0
    ensures DistinctEntries(m.Rechoke(pick).entries)
  {
    if m.Contending() != [] { SettledUnchoked(m, m.Rechoke(pick), m.Chosen(pick)); }
  }

  lemma DecideAlternates(e: Entry, chosen: set<Addr>)
    requires Alternating(e)
    ensures Alternating(e.Decide(chosen).Reset())
  {}

  lemma RechokeKeeps(m: Manager, pick: nat)
    requires Inv(m)
    ensures Inv(m.Rechoke(pick))
  {
    var after := m.Rechoke(pick);
    RechokeSettles(m, pick);
    SlotsBounded(m, pick);
    if m.Contending() != [] {
      SubsetSize(after.UnchokedPeers(), m.Chosen(pick));
      forall e | e in after.entries ensures Alternating(e) {
        var i :| 0 <= i < |m.entries| && after.entries[i] == e;
        assert m.entries[i] in m.entries;
        DecideAlternates(m.entries[i], m.Chosen(pick));
      }
    } else {
      assert after.UnchokedPeers() == m.UnchokedPeers();
    }
  }

  lemma AlterKeeps(m: Manager, addr: Addr, c: Change)
    requires Inv(m)
    ensures Inv(m.Alter(addr, c))
    ensures m.Alter(addr, c).UnchokedPeers() <= m.UnchokedPeers()
  {
    var after := m.Alter(addr, c);
    forall e | e in after.entries
      ensures Alternating(e) && (e.Unchoked() ==> e.addr in m.UnchokedPeers())
    {
      var i :| 0 <= i < |m.entries| && after.entries[i] == e;
      assert m.entries[i] in m.entries;
    }
    SubsetSize(after.UnchokedPeers(), m.UnchokedPeers());
  }

  lemma StrayKeeps(m: Manager, i: nat, c: Change)
    requires Inv(m)
    ensures Inv(m.AlterStray(i, c))
  {
    assert m.AlterStray(i, c).UnchokedPeers() == m.UnchokedPeers();
    forall e | e in m.AlterStray(i, c).strays ensures Alternating(e) {
      var k :| 0 <= k < |m.strays| && m.AlterStray(i, c).strays[k] == e;
      assert m.strays[k] in m.strays;
    }
  }

  lemma StepKeeps(m: Manager, e: Event)
    requires Inv(m)
    ensures Inv(Step(m, e))
  {
    match e
    case Registering(addr, connected) =>
      PutEffect(m.entries, Fresh(addr, connected));
      UnderEffect(m.entries, addr);
      SubsetSize(Step(m, e).UnchokedPeers(), m.UnchokedPeers());
    case Unregistering(addr) =>
      DropEffect(m.entries, addr);
      UnderEffect(m.entries, addr);
      SubsetSize(Step(m, e).UnchokedPeers(), m.UnchokedPeers());
    case Altering(addr, c) => AlterKeeps(m, addr, c);
    case Straying(i, c) => StrayKeeps(m, i, c);
    case Seeding(on) => assert Step(m, e).UnchokedPeers() == m.UnchokedPeers();
    case Rechoking(pick) => RechokeKeeps(m, pick);
  }

  function Rechokes(events: seq<Event>): nat {
    if events == [] then 0
    else Rechokes(events[..|events| - 1]) + if events[|events| - 1].Rechoking? then 1 else 0
  }

  lemma NextModulo(n: nat, every: nat)
    requires every > 0
    ensures (n + 1) % every == if n % every + 1 >= every then 0 else n % every + 1
  {
    var q, r := n / every, n % every;
    assert n == q * every + r;
    if r + 1 == every {
      assert (q + 1) * every == q * every + every;
      RemainderIsUnique(n + 1, q + 1, 0, every);
    } else {
      RemainderIsUnique(n + 1, q, r + 1, every);
    }
  }

  lemma InitialInv(maxUnchoked: nat, every: nat)
    requires every > 0
    ensures Inv(Initial(maxUnchoked, every))
  {}

  /** One more event, after n rechokes. */
  lemma StepTicks(m: Manager, e: Event, n: nat)
    requires m.every > 0 && m.ticks == n % m.every
    ensures Step(m, e).maxUnchoked == m.maxUnchoked && Step(m, e).every == m.every
    ensures Step(m, e).ticks == (n + if e.Rechoking? then 1 else 0) % m.every
  {
    hide Settled, Put, Drop, Under, Contenders;
    NextModulo(n, m.every);
  }

  /**
   * Over every run: never more than the regular slots and one are unchoked among the connected peers of
   * the dict (Strays counts the others), the attempts to each connection alternate from Unchoke on with
   * `am_choking` mirroring the last, and the optimistic slot comes up for rotation at every `every`-th
   * rechoke.
   */
  lemma {:induction false} ChokingOverRuns(maxUnchoked: nat, every: nat, events: seq<Event>)
    requires every > 0
    ensures Inv(Run(Initial(maxUnchoked, every), events))
    ensures var m := Run(Initial(maxUnchoked, every), events);
            m.maxUnchoked == maxUnchoked && m.every == every && m.ticks == Rechokes(events) % every
  {
    hide Step, Inv;
    if events == [] {
      InitialInv(maxUnchoked, every);
    } else {
      ChokingOverRuns(maxUnchoked, every, events[..|events| - 1]);
      StepKeeps(Run(Initial(maxUnchoked, every), events[..|events| - 1]), events[|events| - 1]);
      StepTicks(Run(Initial(maxUnchoked, every), events[..|events| - 1]), events[|events| - 1],
                Rechokes(events[..|events| - 1]));
    }
  }

  lemma ContenderOf(m: Manager, e: Entry)
    requires e in m.entries && e.Contends()
    ensures Contender(e.addr, e.Rate(m.seeding)) in m.Contending()
  {
    ContendersOf(m.entries, m.seeding);
  }

  lemma RegularOutrank(m: Manager)
    requires DistinctEntries(m.entries)
    ensures forall a :: a in m.RegularSlots() ==> exists e :: e in m.entries && e.Contends() && e.addr == a
    ensures forall x, y | x in m.entries && y in m.entries && x.Contends() && y.Contends() ::
              x.addr in m.RegularSlots() && y.addr !in m.RegularSlots() ==>
                if m.seeding then x.up >= y.up else x.down >= y.down
  {
    hide Regular, Contenders;
    ContendersDistinct(m.entries, m.seeding);
    RegularAreTop(m.Contending(), m.maxUnchoked);
    RegularAreContenders(m.Contending(), m.maxUnchoked);
    forall a | a in m.RegularSlots() ensures exists e :: e in m.entries && e.Contends() && e.addr == a {
      var c :| c in m.Contending() && c.addr == a;
      ContendersOf(m.entries, m.seeding);
      assert exists e :: e in m.entries && e.Contends() && c == Contender(e.addr, e.Rate(m.seeding));
    }
    forall x, y | x in m.entries && y in m.entries && x.Contends() && y.Contends()
                  && x.addr in m.RegularSlots() && y.addr !in m.RegularSlots()
      ensures if m.seeding then x.up >= y.up else x.down >= y.down
    {
      ContenderOf(m, x);
      ContenderOf(m, y);
    }
  }

  /**
   * A rechoke in any reachable state with somebody contending: the unchoked are the connected slot
   * holders, the regular slots are full or suffice for everybody, and no contender left choked had a
   * strictly higher rate, for the current mode, than one with a regular slot.
   */
  lemma TitForTat(maxUnchoked: nat, every: nat, events: seq<Event>, pick: nat)
    requires every > 0
    requires Run(Initial(maxUnchoked, every), events).Contending() != []
    ensures var m := Run(Initial(maxUnchoked, every), events);
            var after := m.Rechoke(pick);
            && after.UnchokedPeers() == m.Chosen(pick) * m.Connected()
            && |m.RegularSlots()| == Min(maxUnchoked, |m.Contending()|)
            && (forall a :: a in m.RegularSlots() ==> exists e :: e in m.entries && e.Contends() && e.addr == a)
            && forall x, y | x in m.entries && y in m.entries && x.Contends() && y.Contends() ::
                 x.addr in m.RegularSlots() && y.addr !in after.UnchokedPeers() ==>
                   if m.seeding then x.up >= y.up else x.down >= y.down
  {
    var m := Run(Initial(maxUnchoked, every), events);
    ChokingOverRuns(maxUnchoked, every, events);
    RechokeSettles(m, pick);
    SlotsBounded(m, pick);
    ContendersDistinct(m.entries, m.seeding);
    RegularOutrank(m);
  }

  /** The pool for the optimistic slot: everybody without a regular one. */
  lemma PoolIsTheLeftOut(cs: seq<Contender>, slots: nat)
    requires Distinct(cs)
    ensures var pool := Rest(SortDown(cs), Regular(cs, slots));
            && (forall a :: a in pool <==> a in Addrs(cs) - Regular(cs, slots))
            && (pool == [] <==> |cs| <= slots)
  {
    hide Regular, Addrs, SortDown, Rest, Distinct;
    var regular := Regular(cs, slots);
    var pool := Rest(SortDown(cs), regular);
    RegularAreContenders(cs, slots);
    RestOf(SortDown(cs), regular);
    RegularAreTop(cs, slots);
    AddrsCount(cs);
    if pool == [] {
      assert regular == Addrs(cs);
    } else {
      SubsetSize(regular + {pool[0]}, Addrs(cs));
    }
  }

  lemma ChoiceInPool(pool: seq<Addr>, pick: nat)
    ensures Choice(pool, pick).None? <==> pool == []
    ensures Choice(pool, pick).Some? ==> Choice(pool, pick).value in pool
  {}

  /** A rotation gives the slot to a contender without a regular one, or to nobody if all have one. */
  lemma RotationPicksTheLeftOut(m: Manager, pick: nat)
    requires DistinctEntries(m.entries) && m.Rotates()
    ensures m.NextOptimistic(pick).None? <==> |m.Contending()| <= m.maxUnchoked
    ensures m.NextOptimistic(pick).Some? ==>
              m.NextOptimistic(pick).value in Addrs(m.Contending()) - m.RegularSlots()
  {
    hide Regular, Addrs, SortDown, Rest, Distinct, Choice, DistinctEntries;
    ContendersDistinct(m.entries, m.seeding);
    PoolIsTheLeftOut(m.Contending(), m.maxUnchoked);
    ChoiceInPool(Rest(SortDown(m.Contending()), m.RegularSlots()), pick);
  }

  /** The optimistic slot is kept for a peer that no longer asks for anything. */
  predicate KeepsIdleHolder(m: Manager) {
    && !m.Rotates() && m.optimistic.Some?
    && exists e :: e in m.entries && e.addr == m.optimistic.value && e.connected && !e.interested
  }

  lemma SameAddr(entries: seq<Entry>, d: Entry, e: Entry)
    requires DistinctEntries(entries) && d in entries && e in entries && d.addr == e.addr
    ensures d == e
  {}

  lemma SlotHoldersContend(m: Manager, pick: nat, e: Entry)
    requires DistinctEntries(m.entries) && e in m.entries && e.addr in m.Chosen(pick) && !e.Contends()
    ensures !m.Rotates() && m.optimistic == Some(e.addr)
  {
    var a := e.addr;
    SortDescends(m.Contending());
    if m.Rotates() && m.NextOptimistic(pick) == Some(a) { RotationPicksTheLeftOut(m, pick); }
    if a in Addrs(m.Contending()) {
      var c :| c in m.Contending() && c.addr == a;
      ContendersOf(m.entries, m.seeding);
      var d :| d in m.entries && d.Contends() && c == Contender(d.addr, d.Rate(m.seeding));
      SameAddr(m.entries, d, e);
    }
    assert m.RegularSlots() <= Addrs(m.Contending());
  }

  /**
   * The unchoked are all interested after a rechoke exactly when the optimistic slot does not stay,
   * between rotations, with a connected peer that lost interest.
   */
  lemma UnchokedAreInterestedIff(m: Manager, pick: nat)
    requires DistinctEntries(m.entries) && m.Contending() != []
    ensures (forall e :: e in m.Rechoke(pick).entries && e.Unchoked() ==> e.interested) <==> !KeepsIdleHolder(m)
  {
    var after := m.Rechoke(pick);
    forall i | 0 <= i < |m.entries| && after.entries[i].Unchoked() && !m.entries[i].interested
      ensures KeepsIdleHolder(m)
    {
      var e := m.entries[i];
      assert e in m.entries;
      SlotHoldersContend(m, pick, e);
    }
    if KeepsIdleHolder(m) {
      var e :| e in m.entries && e.addr == m.optimistic.value && e.connected && !e.interested;
      var k :| 0 <= k < |m.entries| && m.entries[k] == e;
      assert after.entries[k] in after.entries;
      assert after.entries[k].Unchoked() && !after.entries[k].interested;
    }
  }
}
