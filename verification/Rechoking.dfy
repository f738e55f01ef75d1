/** The choking manager in place: mutable rate trackers in an insertion-ordered dict. */
module Rechoking {
  import opened Bytes
  import opened Wire
  import opened Choking

  /** The per-peer tracker; the session updates the rates and the interest, the manager the rest. */
  class PeerRates {
    var bytesDown: nat
    var bytesUp: nat
    var amChoking: bool
    var interested: bool
    var connected: bool
    var attempts: seq<Message>

    function AsEntry(addr: Addr): Entry
      reads this
    {
      Entry(addr, bytesDown, bytesUp, amChoking, interested, connected, attempts)
    }

    constructor (connected: bool)
      ensures forall addr :: AsEntry(addr) == Fresh(addr, connected)
    {
      bytesDown, bytesUp, amChoking, interested := 0, 0, true, false;
      this.connected, attempts := connected, [];
    }

    /** What a session does to its tracker, and a broken connection to the peer. */
    method Update(c: Change)
      modifies this
      ensures forall addr :: AsEntry(addr) == Changed(old(AsEntry(addr)), c)
    {
      match c
      case Interest(b) => interested := b;
      case Sent(n) => bytesUp := bytesUp + n;
      case Received(n) => bytesDown := bytesDown + n;
      case Lost => connected := false;
    }

    method ResetInterval()
      modifies this
      ensures forall addr :: AsEntry(addr) == old(AsEntry(addr)).Reset()
    {
      bytesDown, bytesUp := 0, 0;
    }

    /** The decision for one peer: a message is attempted only when the flag changes. */
    method Decide(unchoke: bool)
      modifies this
      ensures forall addr, chosen: set<Addr> :: (addr in chosen <==> unchoke) ==>
                AsEntry(addr) == old(AsEntry(addr)).Decide(chosen)
    {
      if !connected { return; }
      if unchoke && amChoking {
        amChoking := false;
        attempts := attempts + [Message.Unchoke];
      } else if !unchoke && !amChoking {
        amChoking := true;
        attempts := attempts + [Message.Choke];
      }
    }
  }

  /** `del xs[p]`. */
  function Without<T>(xs: seq<T>, p: nat): (r: seq<T>)
    requires p < |xs|
  {
    xs[..p] + xs[p + 1..]
  }

  lemma {:induction false} PutAt(entries: seq<Entry>, e: Entry, p: nat)
    requires DistinctEntries(entries)
    requires p < |entries| && entries[p].addr == e.addr
    ensures Put(entries, e) == entries[p := e]
  {
    if p > 0 { PutAt(entries[1..], e, p - 1); }
  }

  lemma {:induction false} UnderAt(entries: seq<Entry>, addr: Addr, p: nat)
    requires p <= |entries|
    requires forall i :: 0 <= i < p ==> entries[i].addr != addr
    requires p < |entries| ==> entries[p].addr == addr
    ensures Under(entries, addr) == if p < |entries| then [entries[p]] else []
  {
    if p > 0 { UnderAt(entries[1..], addr, p - 1); }
  }

  lemma {:induction false} DropAt(entries: seq<Entry>, addr: Addr, p: nat)
    requires p <= |entries|
    requires forall i :: 0 <= i < p ==> entries[i].addr != addr
    requires p < |entries| ==> entries[p].addr == addr
    ensures Drop(entries, addr) == if p < |entries| then Without(entries, p) else entries
  {
    hide Without;
    if p > 0 {
      DropAt(entries[1..], addr, p - 1);
      if p < |entries| { WithoutLater(entries, p); } else { assert entries == [entries[0]] + entries[1..]; }
    } else if entries != [] {
      WithoutFirst(entries);
    }
  }

  lemma WithoutFirst<T>(xs: seq<T>)
    requires xs != []
    ensures Without(xs, 0) == xs[1..]
  {}

  lemma WithoutLater<T>(xs: seq<T>, p: nat)
    requires 0 < p < |xs|
    ensures Without(xs, p) == [xs[0]] + Without(xs[1..], p - 1)
  {}

  predicate Pairwise<T(==)>(xs: seq<T>) {
    forall i, j :: 0 <= i < j < |xs| ==> xs[i] != xs[j]
  }

  /** The dict's items as values, in insertion order. */
  ghost function EntriesOf(order: seq<Addr>, peers: seq<PeerRates>): (es: seq<Entry>)
    requires |order| == |peers|
    reads peers
  {
    seq(|order|, i requires 0 <= i < |order| reads peers => peers[i].AsEntry(order[i]))
  }

  lemma PairwiseWithout<T>(xs: seq<T>, p: nat)
    requires Pairwise(xs) && p < |xs|
    ensures Pairwise(Without(xs, p)) && |Without(xs, p)| == |xs| - 1
    ensures forall x :: x in Without(xs, p) ==> x in xs && x != xs[p]
  {}

  lemma AddrsOfEntries(order: seq<Addr>, peers: seq<PeerRates>)
    requires |order| == |peers|
    ensures |EntriesOf(order, peers)| == |order|
    ensures forall i :: 0 <= i < |order| ==> EntriesOf(order, peers)[i].addr == order[i]
  {}

  lemma EntriesDistinct(order: seq<Addr>, peers: seq<PeerRates>)
    requires |order| == |peers| && Pairwise(order)
    ensures DistinctEntries(EntriesOf(order, peers))
  {
    AddrsOfEntries(order, peers);
  }

  lemma EntryAt(order: seq<Addr>, peers: seq<PeerRates>, p: nat)
    requires |order| == |peers| && p < |order|
    ensures EntriesOf(order, peers)[p] == peers[p].AsEntry(order[p])
  {}

  lemma PairwiseAppended<T>(xs: seq<T>, x: T)
    requires Pairwise(xs) && x !in xs
    ensures Pairwise(xs + [x])
  {}

  predicate Apart<T(==)>(xs: seq<T>, ys: seq<T>) {
    forall x :: x in xs ==> x !in ys
  }

  lemma ApartAppended<T>(xs: seq<T>, ys: seq<T>, y: T)
    requires Apart(xs, ys) && y !in xs
    ensures Apart(xs, ys + [y])
  {}

  /** A new tracker takes the p-th place, the old one joins the strays. */
  lemma StrayReplaced<T>(strays: seq<T>, peers: seq<T>, p: nat, x: T)
    requires Pairwise(strays) && Pairwise(peers) && Apart(strays, peers)
    requires p < |peers| && x !in peers && x !in strays
    ensures Pairwise(strays + [peers[p]]) && Pairwise(peers[p := x])
    ensures Apart(strays + [peers[p]], peers[p := x])
  {
    PairwiseAppended(strays, peers[p]);
  }

  /** The p-th tracker is removed and joins the strays. */
  lemma StrayRemoved<T>(strays: seq<T>, peers: seq<T>, p: nat)
    requires Pairwise(strays) && Pairwise(peers) && Apart(strays, peers) && p < |peers|
    ensures Pairwise(strays + [peers[p]]) && Pairwise(Without(peers, p))
    ensures |Without(peers, p)| == |peers| - 1
    ensures Apart(strays + [peers[p]], Without(peers, p))
  {
    PairwiseAppended(strays, peers[p]);
    PairwiseWithout(peers, p);
  }

  lemma EntriesReplaced(order: seq<Addr>, peers: seq<PeerRates>, p: nat, r: PeerRates)
    requires |order| == |peers| && p < |order|
    ensures EntriesOf(order, peers[p := r]) == EntriesOf(order, peers)[p := r.AsEntry(order[p])]
  {}

  lemma EntriesAppended(order: seq<Addr>, peers: seq<PeerRates>, addr: Addr, r: PeerRates)
    requires |order| == |peers|
    ensures EntriesOf(order + [addr], peers + [r]) == EntriesOf(order, peers) + [r.AsEntry(addr)]
  {}

  lemma EntriesWithout(order: seq<Addr>, peers: seq<PeerRates>, p: nat)
    requires |order| == |peers| && p < |order|
    ensures |Without(order, p)| == |Without(peers, p)|
    ensures EntriesOf(Without(order, p), Without(peers, p)) == Without(EntriesOf(order, peers), p)
  {
    var a, b := EntriesOf(Without(order, p), Without(peers, p)), Without(EntriesOf(order, peers), p);
    forall i | 0 <= i < |a| ensures a[i] == b[i] {
      if i < p { assert a[i] == EntriesOf(order, peers)[i]; } else { assert a[i] == EntriesOf(order, peers)[i + 1]; }
    }
  }

  class ChokingManager {
    const maxUnchoked: nat
    const optimisticEvery: nat
    /** The dict of trackers: its keys in insertion order, and the tracker of each. */
    var order: seq<Addr>
    var peers: seq<PeerRates>
    var optimistic: Option<Addr>
    var ticks: nat
    var seeding: bool
    /** The trackers that left the dict; their sessions still hold them. */
    ghost var strayOrder: seq<Addr>
    ghost var strays: seq<PeerRates>

    ghost predicate Valid()
      reads this
    {
      && optimisticEvery > 0 && |order| == |peers| && Pairwise(order) && Pairwise(peers)
      && |strayOrder| == |strays| && Pairwise(strays) && Apart(strays, peers)
    }

    ghost function State(): Manager
      requires Valid()
      reads this, peers, strays
    {
      Manager(maxUnchoked, optimisticEvery, EntriesOf(order, peers), optimistic, ticks, seeding,
              EntriesOf(strayOrder, strays))
    }

    /** `ratio` is the rounded quotient of the optimistic and the rechoke interval. */
    constructor (maxUnchoked: nat, ratio: nat)
      ensures Valid() && peers == [] && strays == []
      ensures State() == Initial(maxUnchoked, if ratio < 1 then 1 else ratio)
    {
      this.maxUnchoked, optimisticEvery := maxUnchoked, if ratio < 1 then 1 else ratio;
      order, peers, optimistic, ticks, seeding := [], [], None, 0, false;
      strayOrder, strays := [], [];
    }

    method Find(addr: Addr) returns (p: nat)
      requires Valid()
      ensures p <= |order| && (p < |order| ==> order[p] == addr)
      ensures forall i :: 0 <= i < p ==> order[i] != addr
    {
      p := 0;
      while p < |order| && order[p] != addr
        invariant p <= |order| && forall i :: 0 <= i < p ==> order[i] != addr
      {
        p := p + 1;
      }
    }

    method Register(addr: Addr, connected: bool) returns (r: PeerRates)
      requires Valid()
      modifies this
      ensures Valid() && fresh(r) && r in peers && forall q :: q in peers ==> q == r || q in old(peers)
      ensures forall q :: q in strays ==> q in old(strays) || q in old(peers)
      ensures State() == old(State()).Register(addr, connected)
    {
      hide EntriesOf, Pairwise, Apart, Put, Under, DistinctEntries;
      r := new PeerRates(connected);
      assert r !in peers && r !in strays;
      var p := Find(addr);
      AddrsOfEntries(order, peers);
      EntriesDistinct(order, peers);
      UnderAt(EntriesOf(order, peers), addr, p);
      if p < |order| {
        EntriesReplaced(order, peers, p, r);
        PutAt(EntriesOf(order, peers), r.AsEntry(addr), p);
        EntryAt(order, peers, p);
        EntriesAppended(strayOrder, strays, addr, peers[p]);
        StrayReplaced(strays, peers, p, r);
        strayOrder, strays := strayOrder + [addr], strays + [peers[p]];
        peers := peers[p := r];
        assert peers[p] == r;
      } else {
        EntriesAppended(order, peers, addr, r);
        PutNew(EntriesOf(order, peers), r.AsEntry(addr));
        PairwiseAppended(order, addr);
        PairwiseAppended(peers, r);
        ApartAppended(strays, peers, r);
        order, peers := order + [addr], peers + [r];
        assert peers[|peers| - 1] == r;
      }
    }

    method Unregister(addr: Addr)
      requires Valid()
      modifies this
      ensures Valid() && forall q :: q in peers ==> q in old(peers)
      ensures forall q :: q in strays ==> q in old(strays) || q in old(peers)
      ensures State() == old(State()).Unregister(addr)
    {
      hide Without, EntriesOf, Pairwise, Apart, Drop, Under;
      var p := Find(addr);
      AddrsOfEntries(order, peers);
      DropAt(State().entries, addr, p);
      UnderAt(State().entries, addr, p);
      if p < |order| {
        EntryAt(order, peers, p);
        EntriesAppended(strayOrder, strays, addr, peers[p]);
        StrayRemoved(strays, peers, p);
        strayOrder, strays := strayOrder + [addr], strays + [peers[p]];
        EntriesWithout(order, peers, p);
        PairwiseWithout(order, p);
        PairwiseWithout(peers, p);
        order, peers := Without(order, p), Without(peers, p);
      }
      if optimistic == Some(addr) { optimistic := None; }
    }

    /** The interested, connected peers in the order of the dict. */
    method ListContenders() returns (cs: seq<Contender>)
      requires Valid()
      ensures cs == State().Contending()
    {
      cs := [];
      ghost var es := State().entries;
      for i := 0 to |order|
        invariant cs == Contenders(es[..i], seeding)
      {
        var r := peers[i];
        assert es[..i + 1][..i] == es[..i];
        if r.interested && r.connected {
          cs := cs + [Contender(order[i], if seeding then r.bytesUp else r.bytesDown)];
        }
      }
      assert es[..|order|] == es;
    }

    method TopOf(sorted: seq<Contender>) returns (top: set<Addr>)
      ensures top == Addrs(sorted[..Min(maxUnchoked, |sorted|)])
    {
      top := {};
      for i := 0 to Min(maxUnchoked, |sorted|)
        invariant top == Addrs(sorted[..i])
      {
        assert sorted[..i + 1] == sorted[..i] + [sorted[i]];
        top := top + {sorted[i].addr};
      }
    }

    static method LeftOut(sorted: seq<Contender>, regular: set<Addr>) returns (pool: seq<Addr>)
      ensures pool == Rest(sorted, regular)
    {
      pool := [];
      for i := 0 to |sorted|
        invariant pool == Rest(sorted[..i], regular)
      {
        assert sorted[..i + 1][..i] == sorted[..i];
        if sorted[i].addr !in regular { pool := pool + [sorted[i].addr]; }
      }
      assert sorted[..|sorted|] == sorted;
    }

    method Apply(chosen: set<Addr>)
      requires Valid()
      modifies peers
      ensures forall i :: 0 <= i < |peers| ==>
                peers[i].AsEntry(order[i]) == old(peers[i].AsEntry(order[i])).Decide(chosen)
    {
      for i := 0 to |order|
        invariant forall k :: 0 <= k < i ==>
                    peers[k].AsEntry(order[k]) == old(peers[k].AsEntry(order[k])).Decide(chosen)
        invariant forall k :: i <= k < |peers| ==> peers[k].AsEntry(order[k]) == old(peers[k].AsEntry(order[k]))
      {
        peers[i].Decide(order[i] in chosen);
      }
    }

    method ResetAll()
      requires Valid()
      modifies peers
      ensures forall i :: 0 <= i < |peers| ==> peers[i].AsEntry(order[i]) == old(peers[i].AsEntry(order[i])).Reset()
    {
      for i := 0 to |order|
        invariant forall k :: 0 <= k < i ==> peers[k].AsEntry(order[k]) == old(peers[k].AsEntry(order[k])).Reset()
        invariant forall k :: i <= k < |peers| ==> peers[k].AsEntry(order[k]) == old(peers[k].AsEntry(order[k]))
      {
        peers[i].ResetInterval();
      }
    }

    method Settle(chosen: set<Addr>)
      requires Valid()
      modifies peers
      ensures EntriesOf(order, peers) == Settled(old(EntriesOf(order, peers)), chosen)
      ensures EntriesOf(strayOrder, strays) == old(EntriesOf(strayOrder, strays))
    {
      Apply(chosen);
      ResetAll();
      assert forall i :: 0 <= i < |strays| ==> strays[i] in strays;
    }

    /** `_rechoke`; `pick` is the random number behind the optimistic choice. */
    method Rechoke(pick: nat)
      requires Valid()
      modifies `ticks, `optimistic, peers
      ensures Valid() && State() == old(State()).Rechoke(pick)
    {
      hide EntriesOf, Settled, SortDown, Contenders, Rest;
      ghost var before := State();
      ticks := ticks + 1;
      var rotate := ticks >= optimisticEvery;
      if rotate { ticks := 0; }
      var interested := ListContenders();
      if interested == [] { return; }
      interested := SortDown(interested);
      var toUnchoke := TopOf(interested);
      if rotate {
        var pool := LeftOut(interested, toUnchoke);
        optimistic := Choice(pool, pick);
      }
      if optimistic.Some? { toUnchoke := toUnchoke + {optimistic.value}; }
      assert toUnchoke == before.Chosen(pick);
      Settle(toUnchoke);
    }
  }

  /** A session's update of its tracker is the manager's Alter step. */
  twostate lemma TrackerUpdated(m: ChokingManager, p: nat, c: Change)
    requires old(m.Valid()) && m.Valid() && p < |m.order|
    requires unchanged(m) && forall i :: 0 <= i < |m.peers| && i != p ==> unchanged(m.peers[i])
    requires forall i :: 0 <= i < |m.strays| ==> unchanged(m.strays[i])
    requires m.peers[p].AsEntry(m.order[p]) == Changed(old(m.peers[p].AsEntry(m.order[p])), c)
    ensures m.State() == old(m.State()).Alter(m.order[p], c)
  {
    assert m.State().entries == old(m.State()).Alter(m.order[p], c).entries;
    assert m.State().strays == old(m.State().strays);
  }

  /** So is a session's update of a tracker that left the dict: it changes no registered peer. */
  twostate lemma StrayUpdated(m: ChokingManager, i: nat, c: Change)
    requires old(m.Valid()) && m.Valid() && i < |m.strays|
    requires unchanged(m) && forall k :: 0 <= k < |m.strays| && k != i ==> unchanged(m.strays[k])
    requires forall k :: 0 <= k < |m.peers| ==> unchanged(m.peers[k])
    requires m.strays[i].AsEntry(m.strayOrder[i]) == Changed(old(m.strays[i].AsEntry(m.strayOrder[i])), c)
    ensures m.State() == old(m.State()).AlterStray(i, c)
  {
    assert m.State().entries == old(m.State().entries);
    assert m.State().strays == old(m.State()).AlterStray(i, c).strays;
  }
}
