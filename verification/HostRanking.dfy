/**
 The ranking of advertised hosts (`rank_advertised_hosts` in `operations.rs`): the
 closest routable peers that are not excluded, nearest first.

 Socket addresses are numbered in their own order.  A peer's location is a function of
 its address (`ring/peer_key_location.rs`), so that function is a parameter.
 */
module HostRanking {
  import opened Reals
  import opened Wrappers
  import opened StableSort

  /** A point of the ring, whose ends 0 and 1 are the same point. */
  type Location = x: real | 0.0 <= x <= 1.0

  datatype Peer<K> = Peer(key: K, addr: Option<nat>)

  datatype Candidate<K> = Candidate(peer: Peer<K>, addr: nat, loc: Location)

  /** What a ranking depends on besides the advertised peers. */
  datatype Query = Query(target: Location, maxHosts: nat, locate: nat -> Location, excluded: nat -> bool)

  // ----- Distance on the ring -----

  function FoldDistance(value: real): real {
    if value <= 0.5 then value else 1.0 - value
  }

  function RingDistance(a: Location, b: Location): (d: real)
    ensures 0.0 <= d <= 0.5
    ensures d == 0.0 <==> a == b || {a, b} == {0.0, 1.0}
    ensures d <= Abs(a - b) && d <= 1.0 - Abs(a - b)
    ensures d == Abs(a - b) || d == 1.0 - Abs(a - b)
  {
    var d := Abs(a - b);
    if d < 0.5 then FoldDistance(d) else FoldDistance(1.0 - d)
  }

  lemma RingDistanceIsMetric(a: Location, b: Location, c: Location)
    ensures RingDistance(a, b) == RingDistance(b, a)
    ensures RingDistance(a, c) <= RingDistance(a, b) + RingDistance(b, c)
  {
  }

  // ----- Ranking -----

  predicate Eligible<K>(q: Query, p: Peer<K>) {
    p.addr.Some? && !q.excluded(p.addr.value)
  }

  function IsEligible<K>(q: Query): Peer<K> -> bool {
    (p: Peer<K>) => Eligible(q, p)
  }

  function ToCandidate<K>(q: Query): Peer<K> -> Candidate<K> {
    (p: Peer<K>) => var addr := if p.addr.Some? then p.addr.value else 0; Candidate(p, addr, q.locate(addr))
  }

  function Candidates<K>(q: Query, advertised: seq<Peer<K>>): seq<Candidate<K>> {
    Map(ToCandidate(q), Filter(IsEligible(q), advertised))
  }

  /** Nearer first, then by address. */
  predicate NoFarther(q: Query, aLoc: Location, aAddr: nat, bLoc: Location, bAddr: nat) {
    var da, db := RingDistance(aLoc, q.target), RingDistance(bLoc, q.target);
    da < db || (da == db && aAddr <= bAddr)
  }

  function ByDistance<K>(q: Query): (Candidate<K>, Candidate<K>) -> bool {
    (a: Candidate<K>, b: Candidate<K>) => NoFarther(q, a.loc, a.addr, b.loc, b.addr)
  }

  /** The same order on bare addresses. */
  function ByAddress(q: Query): (nat, nat) -> bool {
    (a: nat, b: nat) => NoFarther(q, q.locate(a), a, q.locate(b), b)
  }

  function HostOf<K>(): Candidate<K> -> (Peer<K>, nat) {
    (c: Candidate<K>) => (c.peer, c.addr)
  }

  function AddrOf<K>(): Candidate<K> -> nat {
    (c: Candidate<K>) => c.addr
  }

  function Sorted<K>(q: Query, advertised: seq<Peer<K>>): (r: seq<Candidate<K>>)
    ensures |r| == |Filter(IsEligible(q), advertised)|
  {
    SortContents(ByDistance(q), Candidates(q, advertised));
    Sort(ByDistance(q), Candidates(q, advertised))
  }

  function Kept<K>(q: Query, advertised: seq<Peer<K>>): (k: nat)
    ensures k <= |Sorted(q, advertised)|
  {
    var n := |Sorted(q, advertised)|;
    if q.maxHosts < n then q.maxHosts else n
  }

  function Rank<K>(q: Query, advertised: seq<Peer<K>>): seq<(Peer<K>, nat)> {
    Map(HostOf(), Sorted(q, advertised)[..Kept(q, advertised)])
  }

  function LeftOut<K>(q: Query, advertised: seq<Peer<K>>): seq<(Peer<K>, nat)> {
    Map(HostOf(), Sorted(q, advertised)[Kept(q, advertised)..])
  }

  method RankAdvertisedHosts<K>(q: Query, advertised: seq<Peer<K>>) returns (hosts: seq<(Peer<K>, nat)>)
    ensures hosts == Rank(q, advertised)
  {
    var candidates: seq<Candidate<K>> := [];
    for i := 0 to |advertised|
      invariant candidates == Candidates(q, advertised[..i])
    {
      var peer := advertised[i];
      CandidatesSnoc(q, advertised[..i], peer);
      assert advertised[..i + 1] == advertised[..i] + [peer];
      if peer.addr.Some? && !q.excluded(peer.addr.value) {
        candidates := candidates + [Candidate(peer, peer.addr.value, q.locate(peer.addr.value))];
      }
    }
    assert advertised[..|advertised|] == advertised;
    hosts := SortAndTruncate(q, advertised, candidates);
  }

  method SortAndTruncate<K>(q: Query, ghost advertised: seq<Peer<K>>, candidates: seq<Candidate<K>>)
    returns (hosts: seq<(Peer<K>, nat)>)
    requires candidates == Candidates(q, advertised)
    ensures hosts == Rank(q, advertised)
  {
    var buffer := new Candidate<K>[|candidates|](i requires 0 <= i < |candidates| => candidates[i]);
    assert buffer[..] == candidates;
    SortInPlace(buffer, ByDistance(q));
    var k := if q.maxHosts < buffer.Length then q.maxHosts else buffer.Length;
    var sorted := buffer[..];
    assert sorted == Sorted(q, advertised);
    hosts := seq(k, i requires 0 <= i < k => (sorted[i].peer, sorted[i].addr));
  }

  lemma CandidatesSnoc<K>(q: Query, advertised: seq<Peer<K>>, p: Peer<K>)
    ensures Candidates(q, advertised + [p])
         == Candidates(q, advertised) + (if Eligible(q, p) then [ToCandidate(q)(p)] else [])
  {
    assert (advertised + [p])[..|advertised|] == advertised;
    var kept := Filter(IsEligible(q), advertised);
    assert Map(ToCandidate(q), kept + [p]) == Map(ToCandidate(q), kept) + [ToCandidate(q)(p)];
  }

  // ----- What is returned, and what is left out -----

  lemma DistanceOrder<K(!new)>(q: Query)
    ensures TotalPreorder(ByDistance<K>(q))
    ensures TotalPreorder(ByAddress(q)) && Antisymmetric(ByAddress(q))
  {
    hide RingDistance;
  }

  lemma CandidateIsPeer<K>(q: Query, advertised: seq<Peer<K>>, c: Candidate<K>)
    requires c in Candidates(q, advertised)
    ensures c == ToCandidate(q)(c.peer) && c.peer in advertised && Eligible(q, c.peer)
  {
    var kept := Filter(IsEligible(q), advertised);
    var i :| 0 <= i < |kept| && c == ToCandidate(q)(kept[i]);
    FilterMember(IsEligible(q), advertised, kept[i]);
  }

  lemma SortedIsCandidate<K>(q: Query, advertised: seq<Peer<K>>, i: nat)
    requires i < |Sorted(q, advertised)|
    ensures var c := Sorted(q, advertised)[i];
      c == ToCandidate(q)(c.peer) && c.peer in advertised && Eligible(q, c.peer)
  {
    SortContents(ByDistance(q), Candidates(q, advertised));
    hide Sort, Candidates, Eligible;
    var c := Sorted(q, advertised)[i];
    assert c in multiset(Sorted(q, advertised));
    CandidateIsPeer(q, advertised, c);
  }

  /**
   The result is the top of the eligible peers: as many as asked for or all there are,
   nearest first, each with its own address, and nothing eligible that was left out is
   nearer than anything returned.
   */
  lemma RankIsTopK<K(!new)>(q: Query, advertised: seq<Peer<K>>)
    ensures var r, eligible := Rank(q, advertised), Filter(IsEligible(q), advertised);
      && |r| == (if q.maxHosts < |eligible| then q.maxHosts else |eligible|)
      && |r| + |LeftOut(q, advertised)| == |eligible|
    ensures forall i :: 0 <= i < |Rank(q, advertised)| ==>
      var h := Rank(q, advertised)[i]; h.0 in advertised && h.0.addr == Some(h.1) && !q.excluded(h.1)
    ensures forall i, j :: 0 <= i < j < |Rank(q, advertised)| ==>
      InOrder(q, Rank(q, advertised)[i].1, Rank(q, advertised)[j].1)
    ensures forall i, j :: 0 <= i < |Rank(q, advertised)| && 0 <= j < |LeftOut(q, advertised)| ==>
      InOrder(q, Rank(q, advertised)[i].1, LeftOut(q, advertised)[j].1)
  {
    DistanceOrder<K>(q);
    SortOrdered(ByDistance(q), Candidates(q, advertised));
    hide Sort, NoFarther, Candidates, Eligible, TotalPreorder, Antisymmetric, InOrder;
    var s := Sorted(q, advertised);
    forall i: nat | i < |s|
      ensures s[i] == ToCandidate(q)(s[i].peer) && s[i].peer in advertised && Eligible(q, s[i].peer)
      ensures s[i].peer.addr.Some?
    {
      SortedIsCandidate(q, advertised, i);
      EligibleHasAddress(q, s[i].peer);
    }
    forall i: nat, j: nat | i < j < |s| ensures InOrder(q, s[i].addr, s[j].addr) {
      assert ByDistance(q)(s[i], s[j]);
      OrderIsDistance(q, s[i].addr, s[j].addr);
    }
  }

  function DistanceTo(q: Query, addr: nat): real {
    RingDistance(q.locate(addr), q.target)
  }

  /** The host at `a` may come before the one at `b`: no farther away, and by address at the same distance. */
  predicate InOrder(q: Query, a: nat, b: nat) {
    DistanceTo(q, a) <= DistanceTo(q, b) && (DistanceTo(q, a) == DistanceTo(q, b) ==> a <= b)
  }

  lemma OrderIsDistance(q: Query, a: nat, b: nat)
    ensures NoFarther(q, q.locate(a), a, q.locate(b), b) <==> InOrder(q, a, b)
  {
    hide RingDistance;
  }

  lemma EligibleHasAddress<K>(q: Query, p: Peer<K>)
    requires Eligible(q, p)
    ensures p.addr.Some?
  {
  }

  /** Nothing eligible is lost or made up. */
  lemma RankConserves<K>(q: Query, advertised: seq<Peer<K>>)
    ensures multiset(Rank(q, advertised)) + multiset(LeftOut(q, advertised))
         == multiset(Map(HostOf(), Candidates(q, advertised)))
  {
    SortedContents(q, advertised);
    hide Candidates, Sorted, Kept;
    var s, k := Sorted(q, advertised), Kept(q, advertised);
    MapRearranged(HostOf(), Candidates(q, advertised), s);
    assert Map(HostOf(), s) == Rank(q, advertised) + LeftOut(q, advertised);
  }

  /** Who is ranked at all: exactly the advertised peers with a known address that is not excluded. */
  lemma RankedExactly<K>(q: Query, advertised: seq<Peer<K>>, p: Peer<K>, addr: nat)
    ensures (p, addr) in Rank(q, advertised) || (p, addr) in LeftOut(q, advertised) <==>
      p in advertised && p.addr == Some(addr) && !q.excluded(addr)
  {
    RankConserves(q, advertised);
    hide Sorted, Rank, LeftOut;
    var hosts := Map(HostOf(), Candidates(q, advertised));
    var peers := Filter(IsEligible(q), advertised);
    FilterMember(IsEligible(q), advertised, p);
    assert (p, addr) in multiset(Rank(q, advertised)) + multiset(LeftOut(q, advertised)) <==> (p, addr) in multiset(hosts);
    assert forall k :: 0 <= k < |peers| ==> hosts[k] == HostOf()(ToCandidate(q)(peers[k]));
    if (p, addr) in hosts {
      var k :| 0 <= k < |hosts| && hosts[k] == (p, addr);
      FilterMember(IsEligible(q), advertised, peers[k]);
    }
    if p in advertised && p.addr == Some(addr) && !q.excluded(addr) {
      var k :| 0 <= k < |peers| && peers[k] == p;
      assert hosts[k] == (p, addr);
    }
  }

  lemma SortedContents<K>(q: Query, advertised: seq<Peer<K>>)
    ensures multiset(Sorted(q, advertised)) == multiset(Candidates(q, advertised))
  {
    SortContents(ByDistance(q), Candidates(q, advertised));
  }

  // ----- Independence of the order in which hosts are advertised -----

  /** The addresses returned, in order, never depend on the order of the input. */
  lemma AddressesIndependent<K(!new)>(q: Query, s: seq<Peer<K>>, r: seq<Peer<K>>)
    requires multiset(s) == multiset(r)
    ensures |Sorted(q, s)| == |Sorted(q, r)| && Kept(q, s) == Kept(q, r)
    ensures Map(AddrOf(), Sorted(q, s)) == Map(AddrOf(), Sorted(q, r))
  {
    AddressesSorted(q, s);
    AddressesSorted(q, r);
    FilterRearranged(IsEligible(q), s, r);
    var fs, fr := Filter(IsEligible(q), s), Filter(IsEligible(q), r);
    hide Sorted, Sort, Filter;
    MapRearranged(AddressOfPeer(), fs, fr);
    DistanceOrder<K>(q);
    SortRearranged(ByAddress(q), Map(AddressOfPeer(), fs), Map(AddressOfPeer(), fr));
    assert |fs| == |multiset(fs)| == |multiset(fr)| == |fr|;
  }

  function AddressOfPeer<K>(): Peer<K> -> nat {
    (p: Peer<K>) => if p.addr.Some? then p.addr.value else 0
  }

  /** Sorting candidates sorts their addresses. */
  lemma AddressesSorted<K(!new)>(q: Query, s: seq<Peer<K>>)
    ensures Map(AddrOf(), Sorted(q, s)) == Sort(ByAddress(q), Map(AddressOfPeer(), Filter(IsEligible(q), s)))
  {
    var peers := Filter(IsEligible(q), s);
    hide Filter, Sort;
    PeersSorted(q, peers);
    SortMap(ByPeerAddress<K>(q), ByAddress(q), AddressOfPeer<K>(), peers);
    assert Map(AddrOf(), Map(ToCandidate(q), Sort(ByPeerAddress(q), peers)))
        == Map(AddressOfPeer(), Sort(ByPeerAddress(q), peers));
  }

  function ByPeerAddress<K>(q: Query): (Peer<K>, Peer<K>) -> bool {
    (a: Peer<K>, b: Peer<K>) => ByAddress(q)(AddressOfPeer()(a), AddressOfPeer()(b))
  }

  lemma PeersSorted<K(!new)>(q: Query, peers: seq<Peer<K>>)
    ensures Sort(ByDistance(q), Map(ToCandidate(q), peers)) == Map(ToCandidate(q), Sort(ByPeerAddress(q), peers))
  {
    forall x: Peer<K>, y: Peer<K>
      ensures ByDistance<K>(q)(ToCandidate<K>(q)(x), ToCandidate<K>(q)(y)) == ByPeerAddress<K>(q)(x, y)
    {
      PeerOrder(q, x, y);
    }
    SortMap(ByPeerAddress<K>(q), ByDistance<K>(q), ToCandidate<K>(q), peers);
  }

  lemma PeerOrder<K>(q: Query, x: Peer<K>, y: Peer<K>)
    ensures ByDistance<K>(q)(ToCandidate<K>(q)(x), ToCandidate<K>(q)(y)) == ByPeerAddress<K>(q)(x, y)
  {
    hide NoFarther;
    var a, b := AddressOfPeer<K>()(x), AddressOfPeer<K>()(y);
    assert ToCandidate<K>(q)(x) == Candidate(x, a, q.locate(a));
    assert ToCandidate<K>(q)(y) == Candidate(y, b, q.locate(b));
    assert ByAddress(q)(a, b) == NoFarther(q, q.locate(a), a, q.locate(b), b);
    assert ByPeerAddress<K>(q)(x, y) == ByAddress(q)(a, b);
    assert ByDistance<K>(q)(Candidate(x, a, q.locate(a)), Candidate(y, b, q.locate(b)))
        == NoFarther(q, q.locate(a), a, q.locate(b), b);
  }

  /** The eligible peers strictly nearer than an address, or at the same distance with a smaller one. */
  function StrictlyNearer<K>(q: Query, addr: nat): Peer<K> -> bool {
    (p: Peer<K>) =>
      && Eligible(q, p)
      && var d, own := DistanceTo(q, p.addr.value), DistanceTo(q, addr);
         d < own || (d == own && p.addr.value < addr)
  }

  lemma NearerIsBefore<K>(q: Query, addr: nat, p: Peer<K>)
    ensures StrictlyNearer<K>(q, addr)(p) ==
      (Eligible(q, p) && StrictlyBefore(ByAddress(q), addr)(AddressOfPeer<K>()(p)))
  {
    if p.addr.Some? { OrderIsDistance(q, addr, p.addr.value); }
    hide RingDistance, NoFarther;
  }

  /** The addresses in rank order, and how many of them come before a given one. */
  lemma AddressesRanked<K(!new)>(q: Query, s: seq<Peer<K>>, x: Peer<K>)
    requires x in s && Eligible(q, x)
    ensures var ranked := Map(AddrOf(), Sorted(q, s));
      && x.addr.value in ranked
      && Ordered(ByAddress(q), ranked)
      && Count(StrictlyBefore(ByAddress(q), x.addr.value), ranked) == Count(StrictlyNearer(q, x.addr.value), s)
  {
    var a := x.addr.value;
    var peers := Filter(IsEligible(q), s);
    var addrs := Map(AddressOfPeer(), peers);
    AddressesSorted(q, s);
    FilterMember(IsEligible(q), s, x);
    hide Sorted, Sort, Filter, Count, ByAddress, StrictlyBefore;
    DistanceOrder<K>(q);
    SortOrdered(ByAddress(q), addrs);
    SortContents(ByAddress(q), addrs);
    var i :| 0 <= i < |peers| && peers[i] == x;
    assert addrs[i] == a;
    assert a in multiset(addrs);
    var before := StrictlyBefore(ByAddress(q), a);
    SortCount(ByAddress(q), addrs, before);
    var near := (p: Peer<K>) => before(AddressOfPeer<K>()(p));
    CountSame(AddressOfPeer<K>(), near, before, peers);
    forall i | 0 <= i < |s| ensures StrictlyNearer<K>(q, a)(s[i]) == (IsEligible<K>(q)(s[i]) && near(s[i])) {
      NearerIsBefore(q, a, s[i]);
    }
    CountFilter(IsEligible<K>(q), near, StrictlyNearer<K>(q, a), s);
  }

  /** An eligible peer's address is returned exactly when fewer than `maxHosts` eligible peers are strictly nearer. */
  lemma ReturnedExactly<K(!new)>(q: Query, s: seq<Peer<K>>, x: Peer<K>)
    requires x in s && Eligible(q, x)
    ensures (exists i :: 0 <= i < |Rank(q, s)| && Rank(q, s)[i].1 == x.addr.value) <==>
      Count(StrictlyNearer(q, x.addr.value), s) < q.maxHosts
  {
    hide Sorted, Count, ByAddress, StrictlyBefore, StrictlyNearer;
    AddressesRanked(q, s, x);
    DistanceOrder<K>(q);
    var sorted := Sorted(q, s);
    var ranked := Map(AddrOf(), sorted);
    FirstPosition(ByAddress(q), ranked, x.addr.value);
    var c := Count(StrictlyBefore(ByAddress(q), x.addr.value), ranked);
    assert forall i :: 0 <= i < |Rank(q, s)| ==> Rank(q, s)[i].1 == ranked[i];
    if c < q.maxHosts { assert Rank(q, s)[c].1 == x.addr.value; }
  }

  /** Eligible peers under one address that is near enough to be returned are the same peer. */
  ghost predicate NoVisibleTies<K(!new)>(q: Query, s: seq<Peer<K>>) {
    forall x, y ::
      && x in s && y in s && Eligible(q, x) && Eligible(q, y) && x.addr == y.addr
      && Count(StrictlyNearer(q, x.addr.value), s) < q.maxHosts
      ==> x == y
  }

  ghost predicate OrderIndependent<K(!new)>(q: Query, s: seq<Peer<K>>) {
    forall r: seq<Peer<K>> :: multiset(r) == multiset(s) ==> Rank(q, r) == Rank(q, s)
  }

  lemma NoTiesIndependent<K(!new)>(q: Query, s: seq<Peer<K>>, r: seq<Peer<K>>)
    requires NoVisibleTies(q, s) && multiset(r) == multiset(s)
    ensures Rank(q, r) == Rank(q, s)
  {
    AddressesIndependent(q, s, r);
    hide Sorted, Sort;
    var a, b := Sorted(q, s), Sorted(q, r);
    forall i: nat | i < Kept(q, s) ensures a[i] == b[i] {
      SortedIsCandidate(q, s, i);
      SortedIsCandidate(q, r, i);
      assert Map(AddrOf(), a)[i] == Map(AddrOf(), b)[i];
      assert Rank(q, s)[i].1 == a[i].addr;
      assert b[i].peer in multiset(r);
      ReturnedExactly(q, s, a[i].peer);
    }
  }

  /** With `x` in front, `x` is the first of its address in the result. */
  lemma FrontComesFirst<K(!new)>(q: Query, x: Peer<K>, rest: seq<Peer<K>>, i: nat)
    requires Eligible(q, x)
    requires i < |Rank(q, [x] + rest)| && Rank(q, [x] + rest)[i].1 == x.addr.value
    ensures var c, top := ToCandidate(q)(x), Sorted(q, [x] + rest)[..Kept(q, [x] + rest)];
      Ties(ByDistance(q), c, top) != [] && Ties(ByDistance(q), c, top)[0] == c
  {
    var s := [x] + rest;
    var c, sorted, k := ToCandidate(q)(x), Sorted(q, s), Kept(q, s);
    DistanceOrder<K>(q);
    SortStable(ByDistance(q), Candidates(q, s), c);
    TiesOfFront(q, x, rest);
    SortedIsCandidate(q, s, i);
    var tied := (y: Candidate<K>) => Tied(ByDistance(q), c, y);
    hide Sort, Candidates;
    FilterPrefix(tied, sorted, k);
    FilterMember(tied, sorted[..k], sorted[i]);
    assert sorted[i] in sorted[..k];
  }

  lemma TiesOfFront<K>(q: Query, x: Peer<K>, rest: seq<Peer<K>>)
    requires Eligible(q, x)
    ensures var c := ToCandidate(q)(x);
      var ties := Ties(ByDistance(q), c, Candidates(q, [x] + rest));
      ties != [] && ties[0] == c
  {
    var c := ToCandidate(q)(x);
    FilterAppend(IsEligible(q), [x], rest);
    var others := Filter(IsEligible(q), rest);
    assert Candidates(q, [x] + rest) == [c] + Map(ToCandidate(q), others);
    FilterAppend((y: Candidate<K>) => Tied(ByDistance(q), c, y), [c], Map(ToCandidate(q), others));
  }

  lemma MoveToFront<T>(s: seq<T>, x: T) returns (rest: seq<T>)
    requires x in s
    ensures multiset([x] + rest) == multiset(s)
  {
    var i :| 0 <= i < |s| && s[i] == x;
    TakeOut(s, i);
    rest := s[..i] + s[i + 1..];
  }

  lemma SameRankSameTop<K>(q: Query, s: seq<Peer<K>>, r: seq<Peer<K>>)
    requires Rank(q, s) == Rank(q, r)
    ensures Sorted(q, s)[..Kept(q, s)] == Sorted(q, r)[..Kept(q, r)]
  {
    hide Sorted;
    var a, b := Sorted(q, s)[..Kept(q, s)], Sorted(q, r)[..Kept(q, r)];
    assert |a| == |Rank(q, s)| == |Rank(q, r)| == |b|;
    forall i: nat | i < |a| ensures a[i] == b[i] {
      SortedIsCandidate(q, s, i);
      SortedIsCandidate(q, r, i);
      assert Rank(q, s)[i].0 == a[i].peer && Rank(q, r)[i].0 == b[i].peer;
    }
  }

  lemma IndependentNoTies<K(!new)>(q: Query, s: seq<Peer<K>>, x: Peer<K>, y: Peer<K>, i: nat)
    requires OrderIndependent(q, s)
    requires x in s && y in s && Eligible(q, x) && Eligible(q, y) && x.addr == y.addr
    requires i < |Rank(q, s)| && Rank(q, s)[i].1 == x.addr.value
    ensures x == y
  {
    var restX := MoveToFront(s, x);
    var restY := MoveToFront(s, y);
    hide Rank, Sorted;
    assert Rank(q, [x] + restX) == Rank(q, s) == Rank(q, [y] + restY);
    FrontComesFirst(q, x, restX, i);
    FrontComesFirst(q, y, restY, i);
    SameRankSameTop(q, [x] + restX, [y] + restY);
    var top := Sorted(q, [x] + restX)[..Kept(q, [x] + restX)];
    SameTies(q, x, y, top);
  }

  lemma {:induction false} SameTies<K>(q: Query, x: Peer<K>, y: Peer<K>, s: seq<Candidate<K>>)
    requires x.addr == y.addr
    ensures Ties(ByDistance(q), ToCandidate(q)(x), s) == Ties(ByDistance(q), ToCandidate(q)(y), s)
  {
    if s == [] {
    } else {
      SameTies(q, x, y, s[..|s| - 1]);
    }
  }

  /**
   The result is the same for every order of the advertised peers exactly when no two
   different eligible peers share an address to which fewer than `maxHosts` eligible
   peers are strictly nearer; in particular when addresses are distinct.
   */
  lemma OrderIndependentExactly<K(!new)>(q: Query, s: seq<Peer<K>>)
    ensures OrderIndependent(q, s) <==> NoVisibleTies(q, s)
  {
    hide Rank;
    if NoVisibleTies(q, s) {
      forall r: seq<Peer<K>> | multiset(r) == multiset(s) ensures Rank(q, r) == Rank(q, s) {
        NoTiesIndependent(q, s, r);
      }
    }
    if OrderIndependent(q, s) {
      forall x, y |
        && x in s && y in s && Eligible(q, x) && Eligible(q, y) && x.addr == y.addr
        && Count(StrictlyNearer(q, x.addr.value), s) < q.maxHosts
        ensures x == y
      {
        ReturnedExactly(q, s, x);
        var i :| 0 <= i < |Rank(q, s)| && Rank(q, s)[i].1 == x.addr.value;
        IndependentNoTies(q, s, x, y, i);
      }
    }
  }

  lemma DistinctAddressesIndependent<K(!new)>(q: Query, s: seq<Peer<K>>)
    requires forall i, j :: 0 <= i < j < |s| && s[i].addr.Some? ==> s[i].addr != s[j].addr
    ensures OrderIndependent(q, s)
  {
    hide Rank;
    OrderIndependentExactly(q, s);
  }

  /** Two different peers advertised under one address: who is returned depends on who comes first. */
  lemma SharedAddressDependsOnOrder<K(!new)>(q: Query, x: Peer<K>, y: Peer<K>)
    requires Eligible(q, x) && Eligible(q, y) && x.addr == y.addr && x != y && q.maxHosts > 0
    ensures !OrderIndependent(q, [x, y])
  {
    hide Rank, LeftOut, OrderIndependent, InOrder, StrictlyNearer;
    var s := [x, y];
    assert x in s && y in s;
    BothEligible(q, x, y);
    RankIsTopK(q, s);
    hide Filter;
    assert Rank(q, s)[0].1 == x.addr.value;
    ReturnedExactly(q, s, x);
    OrderIndependentExactly(q, s);
  }

  lemma BothEligible<K>(q: Query, x: Peer<K>, y: Peer<K>)
    requires Eligible(q, x) && Eligible(q, y)
    ensures Filter(IsEligible(q), [x, y]) == [x, y]
  {
    FilterAppend(IsEligible(q), [x], [y]);
    assert [x, y] == [x] + [y];
  }
}
