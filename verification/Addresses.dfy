/** The addresses that a setup link is shown for (orderAddresses). */
module Addresses {
  import opened Basics

  /** An IPv4 address, or an IPv6 address by its first byte and its others. */
  datatype Address = V4(a: byte, b: byte, c: byte, d: byte) | V6(first: byte, others: seq<byte>)

  datatype Candidate = Candidate(name: string, address: Address)

  const MOST: nat := 6

  const VIRTUAL: seq<string> := ["docker", "br-", "veth", "virbr", "cni", "flannel", "podman", "lxcbr", "lxdbr"]

  /** A private range of RFC 1918, the shared range 100.64.0.0/10 of RFC 6598, or fc00::/7 of RFC 4193. */
  predicate Private(address: Address) {
    match address
    case V4(a, b, _, _) => a == 10 || (a == 172 && 16 <= b < 32) || (a == 192 && b == 168)
      || (a == 100 && 64 <= b < 128)
    case V6(first, _) => 252 <= first < 254
  }

  /** A private range of RFC 1918 or RFC 4193. */
  predicate OwnNetwork(address: Address) {
    Private(address) && !(address.V4? && address.a == 100)
  }

  predicate VirtualInterface(name: string) {
    exists i :: 0 <= i < |VIRTUAL| && StartsWith(name, VIRTUAL[i])
  }

  function Rank(preferred: Option<Address>, address: Address): nat {
    if preferred == Some(address) then 0
    else if address.V4? && OwnNetwork(address) then 1
    else if address.V4? then 2
    else 3
  }

  predicate Keeps(candidate: Candidate) {
    Private(candidate.address) && !VirtualInterface(candidate.name)
  }

  /** The addresses of the candidates that are kept, in their order. */
  function Kept(candidates: seq<Candidate>): seq<Address> {
    if candidates == [] then []
    else
      var last := candidates[|candidates| - 1];
      Kept(candidates[..|candidates| - 1]) + if Keeps(last) then [last.address] else []
  }

  function OfRank(preferred: Option<Address>, s: seq<Address>, rank: nat): seq<Address> {
    if s == [] then []
    else (if Rank(preferred, s[0]) == rank then [s[0]] else []) + OfRank(preferred, s[1..], rank)
  }

  /** The stable sort by rank: those of each rank in their order. */
  function ByRank(preferred: Option<Address>, s: seq<Address>): seq<Address> {
    OfRank(preferred, s, 0) + OfRank(preferred, s, 1) + OfRank(preferred, s, 2) + OfRank(preferred, s, 3)
  }

  /** The addresses of s that are not in ordered, after it, while there is room. */
  function Distinct(ordered: seq<Address>, s: seq<Address>): seq<Address>
    decreases |s|
  {
    if s == [] then ordered
    else Distinct(if s[0] !in ordered && |ordered| < MOST then ordered + [s[0]] else ordered, s[1..])
  }

  method OrderAddresses(preferred: Option<Address>, candidates: seq<Candidate>) returns (ordered: seq<Address>)
    ensures ordered == Distinct([], ByRank(preferred, Kept(candidates)))
  {
    var kept: seq<Address> := [];
    var i := 0;
    while i < |candidates|
      invariant 0 <= i <= |candidates|
      invariant kept == Kept(candidates[..i])
    {
      assert candidates[..i + 1][..i] == candidates[..i];
      if Keeps(candidates[i]) {
        kept := kept + [candidates[i].address];
      }
      i := i + 1;
    }
    assert candidates[..|candidates|] == candidates;
    kept := ByRank(preferred, kept);
    ordered := [];
    var j := 0;
    assert kept[0..] == kept;
    while j < |kept|
      invariant 0 <= j <= |kept|
      invariant Distinct(ordered, kept[j..]) == Distinct([], kept)
    {
      assert kept[j..][1..] == kept[j + 1..];
      if kept[j] !in ordered && |ordered| < MOST {
        ordered := ordered + [kept[j]];
      }
      j := j + 1;
    }
  }

  // ---------------------------------------------------------------- order

  /** The index of the first occurrence, or the length. */
  function First(s: seq<Address>, a: Address): (i: nat)
    ensures i <= |s| && (i < |s| ==> s[i] == a) && (a in s <==> i < |s|)
    ensures forall j :: 0 <= j < i ==> s[j] != a
  {
    if s == [] || s[0] == a then 0 else 1 + First(s[1..], a)
  }

  /** a comes before b: by rank, and for equal ranks by its first occurrence. */
  ghost predicate Before(preferred: Option<Address>, s: seq<Address>, a: Address, b: Address) {
    || Rank(preferred, a) < Rank(preferred, b)
    || (Rank(preferred, a) == Rank(preferred, b) && First(s, a) < First(s, b))
  }

  lemma {:induction false} OfRankHolds(preferred: Option<Address>, s: seq<Address>, rank: nat, a: Address)
    ensures a in OfRank(preferred, s, rank) <==> a in s && Rank(preferred, a) == rank
  {
    if s != [] {
      OfRankHolds(preferred, s[1..], rank, a);
      assert a in s <==> a == s[0] || a in s[1..];
    }
  }

  /** Within one rank the order of first occurrences stays. */
  lemma {:induction false} OfRankKeepsOrder(preferred: Option<Address>, s: seq<Address>, a: Address, b: Address)
    requires a in s && b in s && Rank(preferred, a) == Rank(preferred, b)
    ensures var group := OfRank(preferred, s, Rank(preferred, a));
      First(group, a) < First(group, b) <==> First(s, a) < First(s, b)
  {
    var rank, rest := Rank(preferred, a), s[1..];
    var group := OfRank(preferred, rest, rank);
    OfRankHolds(preferred, rest, rank, a);
    OfRankHolds(preferred, rest, rank, b);
    FirstOf(s, a);
    FirstOf(s, b);
    if Rank(preferred, s[0]) == rank {
      assert OfRank(preferred, s, rank) == [s[0]] + group;
      assert ([s[0]] + group)[1..] == group;
      FirstOf([s[0]] + group, a);
      FirstOf([s[0]] + group, b);
    } else {
      assert OfRank(preferred, s, rank) == group;
    }
    hide *;
    if a != s[0] && b != s[0] {
      OfRankKeepsOrder(preferred, rest, a, b);
    }
  }

  lemma FirstOf(s: seq<Address>, a: Address)
    requires s != []
    ensures First(s, a) == if s[0] == a then 0 else 1 + First(s[1..], a)
  {
  }

  lemma FirstInConcat(s: seq<Address>, t: seq<Address>, a: Address)
    ensures First(s + t, a) == if a in s then First(s, a) else |s| + First(t, a)
  {
    var i := if a in s then First(s, a) else |s| + First(t, a);
    assert i < |s + t| ==> (s + t)[i] == a;
    assert forall j :: 0 <= j < i ==> (s + t)[j] != a;
    FirstIs(s + t, a, i);
  }

  lemma FirstIs(s: seq<Address>, a: Address, i: nat)
    requires i <= |s| && (i < |s| ==> s[i] == a) && forall j :: 0 <= j < i ==> s[j] != a
    ensures First(s, a) == i
  {
  }

  ghost function Start(preferred: Option<Address>, s: seq<Address>, rank: nat): nat {
    (if rank > 0 then |OfRank(preferred, s, 0)| else 0) +
    (if rank > 1 then |OfRank(preferred, s, 1)| else 0) +
    (if rank > 2 then |OfRank(preferred, s, 2)| else 0)
  }

  lemma FirstInByRank(preferred: Option<Address>, s: seq<Address>, a: Address)
    requires a in s
    ensures var rank := Rank(preferred, a); var group := OfRank(preferred, s, rank);
      && a in group
      && First(ByRank(preferred, s), a) == Start(preferred, s, rank) + First(group, a)
  {
    assert Rank(preferred, a) < 4;
    var g0, g1, g2, g3 :=
      OfRank(preferred, s, 0), OfRank(preferred, s, 1), OfRank(preferred, s, 2), OfRank(preferred, s, 3);
    OfRankHolds(preferred, s, 0, a);
    OfRankHolds(preferred, s, 1, a);
    OfRankHolds(preferred, s, 2, a);
    OfRankHolds(preferred, s, 3, a);
    FirstInConcat(g0 + g1 + g2, g3, a);
    FirstInConcat(g0 + g1, g2, a);
    FirstInConcat(g0, g1, a);
  }

  /** Groups of other ranks do not overlap. */
  lemma StartsApart(preferred: Option<Address>, s: seq<Address>, a: nat, b: nat)
    requires a < b < 4
    ensures Start(preferred, s, a) + |OfRank(preferred, s, a)| <= Start(preferred, s, b)
  {
    hide OfRank;
  }

  lemma LowerRankFirst(preferred: Option<Address>, s: seq<Address>, a: Address, b: Address)
    requires a in s && b in s && Rank(preferred, a) < Rank(preferred, b)
    ensures First(ByRank(preferred, s), a) < First(ByRank(preferred, s), b)
  {
    FirstInByRank(preferred, s, a);
    FirstInByRank(preferred, s, b);
    assert Rank(preferred, b) < 4;
    hide *;
    StartsApart(preferred, s, Rank(preferred, a), Rank(preferred, b));
  }

  lemma SameRankInOrder(preferred: Option<Address>, s: seq<Address>, a: Address, b: Address)
    requires a in s && b in s && Rank(preferred, a) == Rank(preferred, b)
    ensures First(ByRank(preferred, s), a) < First(ByRank(preferred, s), b) <==> First(s, a) < First(s, b)
  {
    FirstInByRank(preferred, s, a);
    FirstInByRank(preferred, s, b);
    OfRankKeepsOrder(preferred, s, a, b);
    hide *;
  }

  /** The sorted addresses come in the order of ranks and first occurrences. */
  lemma ByRankOrders(preferred: Option<Address>, s: seq<Address>, a: Address, b: Address)
    requires a in s && b in s
    ensures First(ByRank(preferred, s), a) < First(ByRank(preferred, s), b) <==> Before(preferred, s, a, b)
  {
    hide Rank, First, OfRank, ByRank;
    if Rank(preferred, a) < Rank(preferred, b) {
      LowerRankFirst(preferred, s, a, b);
    } else if Rank(preferred, b) < Rank(preferred, a) {
      LowerRankFirst(preferred, s, b, a);
    } else {
      SameRankInOrder(preferred, s, a, b);
    }
  }

  lemma ByRankHolds(preferred: Option<Address>, s: seq<Address>, a: Address)
    ensures a in ByRank(preferred, s) <==> a in s
  {
    OfRankHolds(preferred, s, 0, a);
    OfRankHolds(preferred, s, 1, a);
    OfRankHolds(preferred, s, 2, a);
    OfRankHolds(preferred, s, 3, a);
  }

  /** The distinct addresses of s: in the order of their first occurrences, at most six, and
      all of them while there are fewer. */
  ghost predicate IsFirst(r: seq<Address>, s: seq<Address>) {
    && |r| <= MOST
    && (forall i :: 0 <= i < |r| ==> r[i] in s)
    && (forall i, j :: 0 <= i < j < |r| ==> First(s, r[i]) < First(s, r[j]))
    && (forall a :: a in s && a !in r ==> |r| == MOST && forall i :: 0 <= i < |r| ==> First(s, r[i]) < First(s, a))
  }

  lemma {:induction false} DistinctIsFirst(s: seq<Address>, n: nat, ordered: seq<Address>)
    requires n <= |s| && IsFirst(ordered, s[..n])
    ensures IsFirst(Distinct(ordered, s[n..]), s)
    decreases |s| - n
  {
    hide IsFirst, First;
    if n == |s| {
      assert s[..n] == s && s[n..] == [];
    } else {
      OneMoreIsFirst(s[..n], ordered, s[n]);
      assert s[..n + 1] == s[..n] + [s[n]];
      assert s[n..][1..] == s[n + 1..];
      var next := if s[n] !in ordered && |ordered| < MOST then ordered + [s[n]] else ordered;
      assert Distinct(ordered, s[n..]) == Distinct(next, s[n + 1..]);
      DistinctIsFirst(s, n + 1, next);
    }
  }

  lemma FirstWithOneMore(done: seq<Address>, a: Address, b: Address)
    requires b in done + [a]
    ensures First(done + [a], b) == if b in done then First(done, b) else |done|
    ensures b in done ==> First(done, b) < |done|
  {
    FirstInConcat(done, [a], b);
  }

  lemma AddedIsFirst(done: seq<Address>, ordered: seq<Address>, a: Address)
    requires IsFirst(ordered, done) && a !in ordered && |ordered| < MOST
    ensures IsFirst(ordered + [a], done + [a])
  {
    assert a !in done;
    assert forall b :: b in done ==> b in ordered;
    forall b | b in done + [a] ensures First(done + [a], b) == if b in done then First(done, b) else |done| {
      FirstWithOneMore(done, a, b);
    }
    hide First;
  }

  lemma UnaddedIsFirst(done: seq<Address>, ordered: seq<Address>, a: Address)
    requires IsFirst(ordered, done) && (a in ordered || |ordered| == MOST)
    ensures IsFirst(ordered, done + [a])
  {
    forall b | b in done + [a] ensures First(done + [a], b) == if b in done then First(done, b) else |done| {
      FirstWithOneMore(done, a, b);
    }
    hide First;
  }

  lemma OneMoreIsFirst(done: seq<Address>, ordered: seq<Address>, a: Address)
    requires IsFirst(ordered, done)
    ensures IsFirst(if a !in ordered && |ordered| < MOST then ordered + [a] else ordered, done + [a])
  {
    if a !in ordered && |ordered| < MOST {
      AddedIsFirst(done, ordered, a);
    } else {
      UnaddedIsFirst(done, ordered, a);
    }
    hide First;
  }

  /** The result is the first six distinct kept addresses, in the order of ranks and, within one, of the
      candidates: every result comes before every later one and before every kept address left out. */
  lemma ResultIsFirstSix(preferred: Option<Address>, candidates: seq<Candidate>)
    ensures var kept := Kept(candidates); var r := Distinct([], ByRank(preferred, kept));
      && |r| <= 6
      && (forall i :: 0 <= i < |r| ==> r[i] in kept)
      && (forall i, j :: 0 <= i < j < |r| ==> Before(preferred, kept, r[i], r[j]) && r[i] != r[j])
      && (forall a :: a in kept && a !in r ==>
            |r| == 6 && forall i :: 0 <= i < |r| ==> Before(preferred, kept, r[i], a))
  {
    var kept := Kept(candidates);
    var s := ByRank(preferred, kept);
    var r := Distinct([], s);
    assert s[..0] == [] && s[0..] == s;
    DistinctIsFirst(s, 0, []);
    hide ByRank, Distinct, Kept, Rank;
    forall a ensures a in s <==> a in kept {
      ByRankHolds(preferred, kept, a);
    }
    forall a, b | a in kept && b in kept ensures First(s, a) < First(s, b) <==> Before(preferred, kept, a, b) {
      ByRankOrders(preferred, kept, a, b);
    }
  }

  function Number(a: byte, b: byte, c: byte, d: byte): nat {
    0x100_0000 * a + 0x1_0000 * b + 0x100 * c + d
  }

  /** The ranges by their first and last address: 10.0.0.0/8, 172.16.0.0/12, 192.168.0.0/16 and
      100.64.0.0/10; and the IPv6 addresses whose first seven bits are those of fc00::/7. */
  predicate InPrivateRange(address: Address) {
    match address
    case V4(a, b, c, d) =>
      var n := Number(a, b, c, d);
      || 0x0A00_0000 <= n <= 0x0AFF_FFFF || 0xAC10_0000 <= n <= 0xAC1F_FFFF
      || 0xC0A8_0000 <= n <= 0xC0A8_FFFF || 0x6440_0000 <= n <= 0x647F_FFFF
    case V6(first, _) => first / 2 == 0x7E
  }

  lemma PrivateIsARange(address: Address)
    ensures Private(address) <==> InPrivateRange(address)
  {
    match address
    case V4(a, b, c, d) =>
      assert 0x1_0000 * b + 0x100 * c + d < 0x100_0000 && 0x100 * c + d < 0x1_0000;
    case V6(first, _) =>
  }

  /** The interfaces of containers and virtual machines, by the start of their names. */
  lemma VirtualNames(name: string)
    ensures VirtualInterface(name) <==>
      || StartsWith(name, "docker") || StartsWith(name, "br-") || StartsWith(name, "veth")
      || StartsWith(name, "virbr") || StartsWith(name, "cni") || StartsWith(name, "flannel")
      || StartsWith(name, "podman") || StartsWith(name, "lxcbr") || StartsWith(name, "lxdbr")
  {
    hide StartsWith;
    assert StartsWith(name, VIRTUAL[0]) || !StartsWith(name, "docker");
    assert StartsWith(name, VIRTUAL[1]) || !StartsWith(name, "br-");
    assert StartsWith(name, VIRTUAL[2]) || !StartsWith(name, "veth");
    assert StartsWith(name, VIRTUAL[3]) || !StartsWith(name, "virbr");
    assert StartsWith(name, VIRTUAL[4]) || !StartsWith(name, "cni");
    assert StartsWith(name, VIRTUAL[5]) || !StartsWith(name, "flannel");
    assert StartsWith(name, VIRTUAL[6]) || !StartsWith(name, "podman");
    assert StartsWith(name, VIRTUAL[7]) || !StartsWith(name, "lxcbr");
    assert StartsWith(name, VIRTUAL[8]) || !StartsWith(name, "lxdbr");
  }

  predicate Shared(address: Address) {
    address.V4? && 0x6440_0000 <= Number(address.a, address.b, address.c, address.d) <= 0x647F_FFFF
  }

  lemma RankInWords(preferred: Option<Address>, a: Address)
    requires InPrivateRange(a)
    ensures Rank(preferred, a) ==
      if preferred == Some(a) then 0 else if a.V6? then 3 else if Shared(a) then 2 else 1
  {
    PrivateIsARange(a);
    match a
    case V4(x, y, z, w) =>
      assert 0x1_0000 * y + 0x100 * z + w < 0x100_0000 && 0x100 * z + w < 0x1_0000;
    case V6(_, _) =>
  }

  /** Of two kept addresses, the preferred one comes first; else one of an own IPv4 network, which is not
      in the shared range, before one that is, and both before an IPv6 address; and else the one whose
      candidate came first. */
  lemma OrderInWords(preferred: Option<Address>, candidates: seq<Candidate>, x: Address, y: Address)
    requires x in Kept(candidates) && y in Kept(candidates) && x != y && preferred != Some(y)
    ensures var s := Kept(candidates); var sorted := ByRank(preferred, s);
      && (preferred == Some(x) ==> First(sorted, x) < First(sorted, y))
      && (x.V4? && !Shared(x) && Shared(y) ==> First(sorted, x) < First(sorted, y))
      && (x.V4? && y.V6? ==> First(sorted, x) < First(sorted, y))
      && (preferred != Some(x) && x.V4? == y.V4? && Shared(x) == Shared(y) ==>
           (First(sorted, x) < First(sorted, y) <==> First(s, x) < First(s, y)))
  {
    ByRankOrders(preferred, Kept(candidates), x, y);
    KeptMeans(candidates, x);
    KeptMeans(candidates, y);
    RankInWords(preferred, x);
    RankInWords(preferred, y);
    hide ByRank, First, Kept, VirtualInterface, InPrivateRange, Shared, Rank;
  }

  /** An address is kept exactly when some candidate on no virtual interface has it and it is private. */
  lemma {:induction false} KeptMeans(candidates: seq<Candidate>, a: Address)
    ensures a in Kept(candidates) <==>
      InPrivateRange(a) && exists i ::
        0 <= i < |candidates| && candidates[i].address == a && !VirtualInterface(candidates[i].name)
  {
    if candidates != [] {
      var n := |candidates| - 1;
      KeptMeans(candidates[..n], a);
      assert forall i :: 0 <= i < n ==> candidates[..n][i] == candidates[i];
      PrivateIsARange(candidates[n].address);
      hide VirtualInterface, Private, InPrivateRange;
    }
  }
}
