/**
 * Trackers that left the manager's dict while their connection goes on, because their address was
 * registered again or unregistered: how many connections are unchoked in all, exactly when the bound on
 * the dict bounds them too, and reachable managers that show where the choking rules end.
 */
module Strays {
  import opened Bytes
  import opened Wire
  import opened Choking

  /** How many connections of a list are served: up and not choked. */
  function Served(es: seq<Entry>): nat {
    if es == [] then 0 else (if es[0].Unchoked() then 1 else 0) + Served(es[1..])
  }

  /** All live connections that are not choked, whether the dict still has their tracker or not. */
  function Live(m: Manager): nat { Served(m.entries) + Served(m.strays) }

  /** The event takes the tracker of a connected, unchoked peer out of the dict. */
  predicate Strands(m: Manager, e: Event) {
    && (e.Registering? || e.Unregistering?)
    && exists x :: x in m.entries && x.addr == e.addr && x.Unchoked()
  }

  /** The event ends the connection of an unchoked stray. */
  predicate Frees(m: Manager, e: Event) {
    e.Straying? && e.change.Lost? && e.i < |m.strays| && m.strays[e.i].Unchoked()
  }

  function Stranded(m: Manager, events: seq<Event>): nat {
    if events == [] then 0
    else
      var front, last := events[..|events| - 1], events[|events| - 1];
      Stranded(m, front) + if Strands(Run(m, front), last) then 1 else 0
  }

  function Freed(m: Manager, events: seq<Event>): nat {
    if events == [] then 0
    else
      var front, last := events[..|events| - 1], events[|events| - 1];
      Freed(m, front) + if Frees(Run(m, front), last) then 1 else 0
  }

  // ----- the count ----------------------------------------------------------------------------------

  lemma {:induction false} ServedConcat(a: seq<Entry>, b: seq<Entry>)
    ensures Served(a + b) == Served(a) + Served(b)
  {
    if a == [] {
      assert a + b == b;
    } else {
      ServedConcat(a[1..], b);
      assert (a + b)[1..] == a[1..] + b;
    }
  }

  lemma {:induction false} ServedUpdate(es: seq<Entry>, i: nat, x: Entry)
    requires i < |es|
    ensures Served(es[i := x]) + (if es[i].Unchoked() then 1 else 0) == Served(es) + if x.Unchoked() then 1 else 0
  {
    if i > 0 {
      ServedUpdate(es[1..], i - 1, x);
      assert es[i := x][1..] == es[1..][i - 1 := x];
    } else {
      assert es[i := x][1..] == es[1..];
    }
  }

  function ServedAddrs(es: seq<Entry>): set<Addr> { set e | e in es && e.Unchoked() :: e.addr }

  lemma {:induction false} ServedCounts(es: seq<Entry>)
    requires DistinctEntries(es)
    ensures Served(es) == |ServedAddrs(es)|
  {
    if es != [] {
      ServedCounts(es[1..]);
      var rest := ServedAddrs(es[1..]);
      if es[0].Unchoked() {
        assert ServedAddrs(es) == {es[0].addr} + rest;
        assert es[0].addr !in rest;
      } else {
        assert ServedAddrs(es) == rest;
      }
    }
  }

  lemma ServedUnder(m: Manager, addr: Addr)
    requires DistinctEntries(m.entries)
    ensures Served(Under(m.entries, addr))
         == if exists x :: x in m.entries && x.addr == addr && x.Unchoked() then 1 else 0
  {
    UnderEffect(m.entries, addr);
    var u := Under(m.entries, addr);
    if u == [] {
      assert forall x :: x in m.entries && x.addr == addr ==> x in u;
    } else {
      assert u[0] in u && u[1..] == [];
      assert forall x :: x in m.entries && x.addr == addr ==> x in u;
    }
  }

  /**
   * One event: the unchoked strays gain exactly what it strands and lose exactly the connection it ends.
   * No event chokes a stray or sends it a message, and none takes it back.
   */
  lemma StrayStep(m: Manager, e: Event)
    requires DistinctEntries(m.entries)
    ensures Served(Step(m, e).strays) + (if Frees(m, e) then 1 else 0)
         == Served(m.strays) + if Strands(m, e) then 1 else 0
    ensures |m.strays| <= |Step(m, e).strays|
    ensures forall i :: 0 <= i < |m.strays| ==>
              && Step(m, e).strays[i].amChoking == m.strays[i].amChoking
              && Step(m, e).strays[i].attempts == m.strays[i].attempts
  {
    hide Served, Put, Drop, DistinctEntries, Under;
    if e.Registering? || e.Unregistering? {
      ServedUnder(m, e.addr);
      ServedConcat(m.strays, Under(m.entries, e.addr));
    } else if e.Straying? && e.i < |m.strays| {
      ServedUpdate(m.strays, e.i, Changed(m.strays[e.i], e.change));
    }
  }

  /**
   * Over every run: the dict's bound of max_unchoked + 1 is exceeded, over all live connections, by no
   * more than the unchoked strays, and these number the trackers the run took out of the dict while
   * connected and unchoked, less the strays whose connection it ended since.
   */
  lemma {:induction false} LiveOverRuns(maxUnchoked: nat, every: nat, events: seq<Event>)
    requires every > 0
    ensures var start := Initial(maxUnchoked, every);
            && Live(Run(start, events)) <= maxUnchoked + 1 + Served(Run(start, events).strays)
            && Served(Run(start, events).strays) + Freed(start, events) == Stranded(start, events)
  {
    hide Step, Strands, Frees, Served;
    var start := Initial(maxUnchoked, every);
    var m := Run(start, events);
    ChokingOverRuns(maxUnchoked, every, events);
    DictServes(m);
    if events == [] {
      ServedNone();
    } else {
      var front := events[..|events| - 1];
      LiveOverRuns(maxUnchoked, every, front);
      ChokingOverRuns(maxUnchoked, every, front);
      StrayStep(Run(start, front), events[|events| - 1]);
    }
  }

  lemma ServedNone()
    ensures Served([]) == 0
  {}

  lemma DictServes(m: Manager)
    requires Inv(m)
    ensures Served(m.entries) <= m.maxUnchoked + 1
  {
    ServedCounts(m.entries);
    assert ServedAddrs(m.entries) == m.UnchokedPeers();
  }

  /** No stray is served at any point of a run exactly when the run strands no tracker. */
  lemma {:induction false} NobodyStrayIff(maxUnchoked: nat, every: nat, events: seq<Event>)
    requires every > 0
    ensures var start := Initial(maxUnchoked, every);
            (forall k :: 0 <= k <= |events| ==> Served(Run(start, events[..k]).strays) == 0)
            <==> Stranded(start, events) == 0
  {
    hide Run, Initial, Served;
    var start := Initial(maxUnchoked, every);
    forall k | 0 <= k <= |events|
      ensures Served(Run(start, events[..k]).strays) <= Stranded(start, events)
    {
      LiveOverRuns(maxUnchoked, every, events[..k]);
      StrandedGrows(start, events, k);
    }
    if Stranded(start, events) > 0 { FirstStranded(maxUnchoked, every, events); }
  }

  lemma {:induction false} StrandedGrows(m: Manager, events: seq<Event>, k: nat)
    requires k <= |events|
    ensures Stranded(m, events[..k]) <= Stranded(m, events)
  {
    if k == |events| {
      assert events[..k] == events;
    } else {
      StrandedGrows(m, events[..|events| - 1], k);
      assert events[..|events| - 1][..k] == events[..k];
    }
  }

  lemma {:induction false} FirstStranded(maxUnchoked: nat, every: nat, events: seq<Event>)
    requires every > 0 && Stranded(Initial(maxUnchoked, every), events) > 0
    ensures exists k :: 0 <= k <= |events| && Served(Run(Initial(maxUnchoked, every), events[..k]).strays) > 0
  {
    hide Initial, Served, Step, Strands;
    var start := Initial(maxUnchoked, every);
    var front, last := events[..|events| - 1], events[|events| - 1];
    if Stranded(start, front) > 0 {
      FirstStranded(maxUnchoked, every, front);
      var k :| 0 <= k <= |front| && Served(Run(start, front[..k]).strays) > 0;
      assert front[..k] == events[..k];
    } else {
      ChokingOverRuns(maxUnchoked, every, front);
      StrayStep(Run(start, front), last);
      LastStrands(Run(start, front), last);
      assert events[..|events|] == events;
    }
  }

  lemma LastStrands(m: Manager, e: Event)
    requires Strands(m, e)
    ensures !Frees(m, e)
  {}

  // ----- the bound is exact -------------------------------------------------------------------------

  lemma RunAppend(m: Manager, events: seq<Event>, e: Event)
    ensures Run(m, events + [e]) == Step(Run(m, events), e)
    ensures Stranded(m, events + [e]) == Stranded(m, events) + if Strands(Run(m, events), e) then 1 else 0
  {
    assert (events + [e])[..|events|] == events;
  }

  function LongestHost(entries: seq<Entry>): nat {
    if entries == [] then 0 else Max(|entries[0].addr.host|, LongestHost(entries[1..]))
  }

  lemma {:induction false} HostsAreShorter(entries: seq<Entry>)
    ensures forall e :: e in entries ==> |e.addr.host| <= LongestHost(entries)
  {
    if entries != [] { HostsAreShorter(entries[1..]); }
  }

  /** A peer that the dict does not know. */
  function Newcomer(entries: seq<Entry>): Addr { Addr(seq(LongestHost(entries) + 1, _ => 0), 1) }

  /** A peer that is new registers and asks: one more contender, and nobody strays. */
  lemma Join(m: Manager)
    requires DistinctEntries(m.entries)
    ensures var a := Newcomer(m.entries);
            var after := m.Register(a, true).Alter(a, Interest(true));
            && !Strands(m, Registering(a, true))
            && after == m.(entries := m.entries + [Entry(a, 0, 0, true, true, true, [])])
            && |after.Contending()| == |m.Contending()| + 1
  {
    var a := Newcomer(m.entries);
    HostsAreShorter(m.entries);
    PutNew(m.entries, Fresh(a, true));
    NobodyUnder(m.entries, a);
    var es := m.entries + [Entry(a, 0, 0, true, true, true, [])];
    assert m.Register(a, true).Alter(a, Interest(true)).entries == es;
    assert es[..|m.entries|] == m.entries;
    assert m.strays + [] == m.strays;
  }

  lemma {:induction false} NobodyUnder(entries: seq<Entry>, addr: Addr)
    requires forall e :: e in entries ==> e.addr != addr
    ensures Under(entries, addr) == []
  {
    if entries != [] { NobodyUnder(entries[1..], addr); }
  }

  /** A rechoke changes neither who contends nor the strays. */
  lemma RechokeContenders(m: Manager, pick: nat)
    ensures |m.Rechoke(pick).Contending()| == |m.Contending()|
    ensures m.Rechoke(pick).strays == m.strays
  {
    if m.Contending() != [] { SettledContenders(m.entries, m.Chosen(pick), m.seeding); }
  }

  lemma {:induction false} SettledContenders(entries: seq<Entry>, chosen: set<Addr>, seeding: bool)
    ensures |Contenders(Settled(entries, chosen), seeding)| == |Contenders(entries, seeding)|
  {
    if entries != [] {
      var front := entries[..|entries| - 1];
      SettledContenders(front, chosen, seeding);
      assert Settled(entries, chosen)[..|entries| - 1] == Settled(front, chosen);
    }
  }

  /** A rotating rechoke with more contenders than regular slots serves one more than those. */
  lemma RotationFills(m: Manager, pick: nat)
    requires Inv(m) && m.Rotates() && |m.Contending()| > m.maxUnchoked
    ensures Served(m.Rechoke(pick).entries) == m.maxUnchoked + 1
  {
    hide Contenders, Regular, SortDown, Rest, Served, Settled, DistinctEntries;
    ContendersDistinct(m.entries, m.seeding);
    RegularAreTop(m.Contending(), m.maxUnchoked);
    RegularAreContenders(m.Contending(), m.maxUnchoked);
    RotationPicksTheLeftOut(m, pick);
    ContendersConnected(m);
    assert m.Chosen(pick) * m.Connected() == m.Chosen(pick);
    RechokeSettles(m, pick);
    ServedCounts(m.Rechoke(pick).entries);
    assert ServedAddrs(m.Rechoke(pick).entries) == m.Rechoke(pick).UnchokedPeers();
  }

  lemma ContendersConnected(m: Manager)
    ensures Addrs(m.Contending()) <= m.Connected()
  {
    ContendersOf(m.entries, m.seeding);
  }

  /** From any manager a run that strands nobody serves max_unchoked + 1 peers besides the strays. */
  lemma Fill(m: Manager) returns (events: seq<Event>)
    requires Inv(m)
    ensures Stranded(m, events) == 0
    ensures Live(Run(m, events)) == m.maxUnchoked + 1 + Served(m.strays)
  {
    hide Step, Strands, Served, Inv;
    events := [];
    var s := m;
    while |s.Contending()| <= s.maxUnchoked
      invariant s == Run(m, events) && Stranded(m, events) == 0 && Inv(s)
      invariant s.strays == m.strays && s.maxUnchoked == m.maxUnchoked
      decreases s.maxUnchoked + 1 - |s.Contending()|
    {
      events := JoinNext(m, events);
      s := Run(m, events);
    }
    while !s.Rotates()
      invariant s == Run(m, events) && Stranded(m, events) == 0 && Inv(s)
      invariant s.strays == m.strays && s.maxUnchoked == m.maxUnchoked && |s.Contending()| > s.maxUnchoked
      decreases s.every - s.ticks
    {
      events := RechokeNext(m, events);
      s := Run(m, events);
    }
    RotationFills(s, 0);
    events := RechokeNext(m, events);
  }

  lemma JoinNext(m: Manager, events: seq<Event>) returns (more: seq<Event>)
    requires Inv(Run(m, events))
    ensures var s, t := Run(m, events), Run(m, more);
            && Inv(t) && t.strays == s.strays && t.maxUnchoked == s.maxUnchoked
            && |t.Contending()| == |s.Contending()| + 1
    ensures Stranded(m, more) == Stranded(m, events)
  {
    var s := Run(m, events);
    var a := Newcomer(s.entries);
    hide Newcomer, Contenders, Run, Stranded;
    Join(s);
    RunAppend(m, events, Registering(a, true));
    RunAppend(m, events + [Registering(a, true)], Altering(a, Interest(true)));
    StepKeeps(s, Registering(a, true));
    StepKeeps(s.Register(a, true), Altering(a, Interest(true)));
    more := events + [Registering(a, true)] + [Altering(a, Interest(true))];
  }

  lemma RechokeNext(m: Manager, events: seq<Event>) returns (more: seq<Event>)
    requires Inv(Run(m, events))
    ensures var s, t := Run(m, events), Run(m, more);
            && Inv(t) && t == s.Rechoke(0) && t.strays == s.strays && t.maxUnchoked == s.maxUnchoked
            && t.every == s.every && |t.Contending()| == |s.Contending()| && t.ticks == s.NextTicks()
    ensures Stranded(m, more) == Stranded(m, events)
  {
    var s := Run(m, events);
    hide Contenders, Run, Stranded, Settled;
    RunAppend(m, events, Rechoking(0));
    StepKeeps(s, Rechoking(0));
    RechokeContenders(s, 0);
    more := events + [Rechoking(0)];
  }

  /**
   * From any manager with the invariant, so from any reachable one: max_unchoked + 1 bounds all live
   * connections through every further run that strands nobody exactly when no stray is served now.
   */
  lemma BoundIff(m: Manager)
    requires Inv(m)
    ensures (forall events :: Stranded(m, events) == 0 ==> Live(Run(m, events)) <= m.maxUnchoked + 1)
            <==> Served(m.strays) == 0
  {
    hide Served, Run, Stranded, Inv;
    if Served(m.strays) == 0 {
      forall events | Stranded(m, events) == 0 ensures Live(Run(m, events)) <= m.maxUnchoked + 1 {
        StraysOnlyLeave(m, events);
      }
    } else {
      var events := Fill(m);
      assert Live(Run(m, events)) > m.maxUnchoked + 1;
    }
  }

  lemma {:induction false} StraysOnlyLeave(m: Manager, events: seq<Event>)
    requires Inv(m) && Stranded(m, events) == 0
    ensures Served(Run(m, events).strays) <= Served(m.strays)
    ensures Live(Run(m, events)) <= m.maxUnchoked + 1 + Served(m.strays)
    ensures Inv(Run(m, events)) && Run(m, events).maxUnchoked == m.maxUnchoked
  {
    hide Served, Step, Strands, Frees, Inv;
    if events != [] {
      var front, last := events[..|events| - 1], events[|events| - 1];
      StraysOnlyLeave(m, front);
      StepKeeps(Run(m, front), last);
      StepMax(Run(m, front), last);
      InvDistinct(Run(m, front));
      StrayStep(Run(m, front), last);
    }
    DictServes(Run(m, events));
  }

  lemma StepMax(m: Manager, e: Event)
    ensures Step(m, e).maxUnchoked == m.maxUnchoked
  {}

  lemma InvDistinct(m: Manager)
    requires Inv(m)
    ensures DistinctEntries(m.entries)
  {}

  // ----- reachable managers -------------------------------------------------------------------------

  ghost predicate Reachable(m: Manager, maxUnchoked: nat, every: nat) {
    exists events :: m == Run(Initial(maxUnchoked, every), events)
  }

  lemma ReachableStep(m: Manager, e: Event, maxUnchoked: nat, every: nat)
    requires Reachable(m, maxUnchoked, every)
    ensures Reachable(Step(m, e), maxUnchoked, every)
  {
    var events :| m == Run(Initial(maxUnchoked, every), events);
    assert (events + [e])[..|events|] == events;
    assert Step(m, e) == Run(Initial(maxUnchoked, every), events + [e]);
  }

  /** A peer that has been asking since it was registered, and one that was given a slot. */
  function Asking(a: Addr): Entry { Entry(a, 0, 0, true, true, true, []) }

  function Given(a: Addr): Entry { Entry(a, 0, 0, false, true, true, [Message.Unchoke]) }

  lemma Taken(a: Addr, chosen: set<Addr>)
    requires a in chosen
    ensures Asking(a).Decide(chosen).Reset() == Given(a)
  {
    assert [] + [Message.Unchoke] == [Message.Unchoke];
  }

  lemma OnlyChoice(a: Addr)
    ensures Choice([a], 0) == Some(a)
  {
    assert 0 % 1 == 0;
  }

  lemma TwoContenders(m: Manager, first: Entry, second: Entry)
    requires m.entries == [first, second] && m.maxUnchoked == 1 && first.addr != second.addr
    requires first.Contends() && second.Contends() && first.Rate(m.seeding) == second.Rate(m.seeding)
    ensures m.Contending() == [Contender(first.addr, first.Rate(m.seeding)),
                               Contender(second.addr, second.Rate(m.seeding))]
    ensures m.RegularSlots() == {first.addr} && Rest(SortDown(m.Contending()), {first.addr}) == [second.addr]
  {
    var x, y := Contender(first.addr, first.Rate(m.seeding)), Contender(second.addr, second.Rate(m.seeding));
    assert m.entries[..1] == [first] && [first][..0] == [];
    assert Contenders([], m.seeding) == [];
    assert Contenders([first], m.seeding) == [x];
    var cs := m.Contending();
    assert cs == [x] + [y] == [x, y];
    assert [y][1..] == [] && cs[1..] == [y];
    assert SortDown([]) == [] && SortDown([y]) == [y];
    assert SortDown(cs) == [x] + [y] == cs;
    assert cs[..1] == [x] && Addrs([x]) == {first.addr};
    assert [x][..0] == [] && Rest([], {first.addr}) == [] && Rest([x], {first.addr}) == [];
    assert Rest(cs, {first.addr}) == [] + [second.addr];
  }

  /** One regular slot, two peers asking: the older one takes it, the other gets the optimistic slot. */
  lemma BothUnchoked(m: Manager, a: Addr, b: Addr)
    requires a != b && m.maxUnchoked == 1 && m.entries == [Asking(a), Asking(b)] && m.Rotates()
    ensures m.Rechoke(0) == m.(entries := [Given(a), Given(b)], optimistic := Some(b), ticks := 0)
  {
    hide Contenders, SortDown, Regular, Rest;
    TwoContenders(m, Asking(a), Asking(b));
    OnlyChoice(b);
    assert m.NextOptimistic(0) == Some(b);
    assert m.Chosen(0) == {a, b};
    Taken(a, {a, b});
    Taken(b, {a, b});
    assert Settled(m.entries, {a, b}) == [Given(a), Given(b)];
  }

  /** One peer asking takes the regular slot, and there is nobody for the optimistic one. */
  lemma OneUnchoked(m: Manager, a: Addr)
    requires m.maxUnchoked == 1 && m.entries == [Asking(a)] && m.Rotates()
    ensures m.Rechoke(0) == m.(entries := [Given(a)], optimistic := None, ticks := 0)
  {
    var c := Contender(a, 0);
    assert m.entries[..0] == [] && Contenders([], m.seeding) == [];
    assert m.Contending() == [] + [c] == [c];
    assert [c][1..] == [] && SortDown([]) == [] && SortDown([c]) == [c];
    assert [c][..1] == [c] && Addrs([c]) == {a} && m.RegularSlots() == {a};
    assert [c][..0] == [] && Rest([], {a}) == [] && Rest([c], {a}) == [];
    assert m.Chosen(0) == {a};
    Taken(a, {a});
    assert Settled(m.entries, {a}) == [Given(a)];
  }

  /** A first peer registers and asks. */
  lemma FirstAsks(every: nat, a: Addr, s: Manager)
    requires s == Initial(1, every) || s == Initial(1, every).(ticks := 1)
    requires Reachable(s, 1, every)
    ensures Reachable(s.(entries := [Asking(a)]), 1, every)
  {
    ReachableStep(s, Registering(a, true), 1, every);
    var t := s.Register(a, true);
    assert t == s.(entries := [Fresh(a, true)]);
    ReachableStep(t, Altering(a, Interest(true)), 1, every);
    assert t.Alter(a, Interest(true)) == s.(entries := [Asking(a)]);
  }

  /** A second one joins the first, which may be new as well. */
  lemma SecondAsks(every: nat, a: Addr, b: Addr, s: Manager, first: Entry)
    requires a != b && (first == Fresh(a, true) || first == Asking(a))
    requires Reachable(s, 1, every) && s.entries == [first]
    ensures Reachable(s.(entries := [Asking(a), Asking(b)]), 1, every)
  {
    ReachableStep(s, Registering(b, true), 1, every);
    var t := s.Register(b, true);
    assert s.entries[1..] == [] && Put([], Fresh(b, true)) == [Fresh(b, true)];
    assert Under([], b) == [] && s.strays + [] == s.strays;
    assert t == s.(entries := [first, Fresh(b, true)]);
    ReachableStep(t, Altering(a, Interest(true)), 1, every);
    var u := t.Alter(a, Interest(true));
    assert u == s.(entries := [Asking(a), Fresh(b, true)]);
    ReachableStep(u, Altering(b, Interest(true)), 1, every);
    assert u.Alter(b, Interest(true)) == s.(entries := [Asking(a), Asking(b)]);
  }

  /** A reachable manager with a regular slot whose next rechoke leaves an uninterested peer unchoked. */
  lemma IdleHolderExample() returns (m: Manager)
    ensures Reachable(m, 1, 2) && m.Contending() != [] && KeepsIdleHolder(m)
  {
    var a, b := Addr([1], 1), Addr([2], 2);
    var s := Initial(1, 2);
    assert s == Run(s, []);
    ReachableStep(s, Rechoking(0), 1, 2);
    s := s.Rechoke(0);
    assert s == Initial(1, 2).(ticks := 1);
    FirstAsks(2, a, s);
    SecondAsks(2, a, b, s.(entries := [Asking(a)]), Asking(a));
    s := s.(entries := [Asking(a), Asking(b)]);
    BothUnchoked(s, a, b);
    ReachableStep(s, Rechoking(0), 1, 2);
    s := s.Rechoke(0);
    ReachableStep(s, Altering(b, Interest(false)), 1, 2);
    m := s.Alter(b, Interest(false));
    assert m.entries[0] == Given(a) && m.entries[0] in m.entries && m.entries[1] in m.entries;
    ContenderOf(m, m.entries[0]);
  }

  lemma OneGiven(a: Addr)
    ensures Reachable(Initial(1, 1).(entries := [Given(a)]), 1, 1)
  {
    var s := Initial(1, 1);
    assert s == Run(s, []);
    FirstAsks(1, a, s);
    OneUnchoked(s.(entries := [Asking(a)]), a);
    ReachableStep(s.(entries := [Asking(a)]), Rechoking(0), 1, 1);
  }

  /**
   * A reachable manager that keeps a peer unchoked because nobody contends: its only peer lost interest
   * after it was given a slot, and no rechoke takes the slot from it.
   */
  lemma NobodyContendsExample() returns (m: Manager)
    ensures Reachable(m, 1, 1) && m.Contending() == []
    ensures exists e :: e in m.entries && e.Unchoked() && !e.interested
    ensures forall pick :: m.Rechoke(pick).entries == m.entries
  {
    var a := Addr([1], 1);
    OneGiven(a);
    var s := Initial(1, 1).(entries := [Given(a)]);
    ReachableStep(s, Altering(a, Interest(false)), 1, 1);
    m := s.Alter(a, Interest(false));
    assert m.entries[0] in m.entries && m.entries[..0] == [];
    assert Contenders([], m.seeding) == [];
    assert m.Contending() == [];
  }

  /**
   * A reachable manager with one regular slot and three connections unchoked at once: two tasks
   * registered one address, and the tracker of the first connection left the dict unchoked.
   */
  lemma ThreeUnchokedExample() returns (m: Manager)
    ensures Reachable(m, 1, 1) && Live(m) == 3
  {
    var a, b := Addr([1], 1), Addr([2], 2);
    OneGiven(a);
    var s := Initial(1, 1).(entries := [Given(a)]);
    ReachableStep(s, Registering(a, true), 1, 1);
    s := s.Register(a, true);
    assert s == Initial(1, 1).(entries := [Fresh(a, true)], strays := [Given(a)]);
    SecondAsks(1, a, b, s, Fresh(a, true));
    s := s.(entries := [Asking(a), Asking(b)]);
    BothUnchoked(s, a, b);
    ReachableStep(s, Rechoking(0), 1, 1);
    m := s.Rechoke(0);
    assert m.strays[1..] == [] && m.entries[1..] == [Given(b)] && [Given(b)][1..] == [];
    assert Served([]) == 0 && Served([Given(b)]) == 1;
  }
}
