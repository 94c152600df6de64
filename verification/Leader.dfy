/**
Stake-weighted slot leaders and their backups, drawn without replacement
(`slot_leader_at_rank` and `slot_leader_excluding` of `src/consensus/mod.rs`).
*/
module Leader {
  import opened Common
  import opened Hashing
  import opened Finality

  type Address = Hash

  /** The bytes of "curs3d-slot-leader-v1". */
  const SLOT_LEADER_DOMAIN: Bytes :=
    [0x63, 0x75, 0x72, 0x73, 0x33, 0x64, 0x2d, 0x73, 0x6c, 0x6f, 0x74, 0x2d, 0x6c, 0x65, 0x61, 0x64, 0x65, 0x72, 0x2d, 0x76, 0x31]

  /** The validators not yet excluded, in snapshot order. */
  function Candidates(vs: seq<Validator>, excluded: set<Address>): seq<Validator>
  {
    if vs == [] then []
    else (if vs[0].address in excluded then [] else [vs[0]]) + Candidates(vs[1..], excluded)
  }

  function Total(cs: seq<Validator>): nat
  {
    if cs == [] then 0 else cs[0].stake + Total(cs[1..])
  }

  /** The 128-bit number drawn for a slot and rank: the first 16 bytes of its domain-separated digest. */
  function Ticket(h: Sha3, height: nat, parent: Hash, rank: nat): nat
    requires Digest32(h)
  {
    FromLittleEndian(h(DomainInput(SLOT_LEADER_DOMAIN,
                                   [LittleEndian(height, 8), parent, LittleEndian(rank, 4)]))[..16])
  }

  /** A draw gives each rank and total stake a ticket. */
  type Draw = (nat, nat) -> nat

  /** Tickets are below the total stake they are drawn for. */
  ghost predicate Bounded(draw: Draw)
  {
    forall rank, total :: total > 0 ==> draw(rank, total) < total
  }

  /** The draw of the source for one slot: the ticket number modulo the total stake. */
  function SlotDraw(h: Sha3, height: nat, parent: Hash): Draw
    requires Digest32(h)
  {
    (rank: nat, total: nat) => if total == 0 then 0 else Ticket(h, height, parent, rank) % total
  }

  lemma SlotDrawBounded(h: Sha3, height: nat, parent: Hash)
    requires Digest32(h)
    ensures Bounded(SlotDraw(h, height, parent))
  {
  }

  /** The candidate whose stake range holds the ticket, counting ranges from the front; none past the last range. */
  function Pick(cs: seq<Validator>, ticket: nat): Option<Address>
  {
    if cs == [] then None
    else if ticket < cs[0].stake then Some(cs[0].address)
    else Pick(cs[1..], ticket - cs[0].stake)
  }

  /** `slot_leader_excluding`, with the fallback of the source when no range holds the ticket. */
  function LeaderExcluding(draw: Draw, rank: nat, vs: seq<Validator>, excluded: set<Address>): Option<Address>
  {
    var cs := Candidates(vs, excluded);
    if cs == [] || Total(cs) == 0 then None
    else
      match Pick(cs, draw(rank, Total(cs)))
      case Some(a) => Some(a)
      case None => Some(cs[|cs| - 1].address)
  }

  function Members(s: seq<Address>): set<Address>
  {
    set a | a in s
  }

  lemma MembersAppend(s: seq<Address>, a: Address)
    ensures Members(s + [a]) == Members(s) + {a}
  {
  }

  /** The leaders drawn by the first `k` ranks, in order. */
  function Elected(draw: Draw, vs: seq<Validator>, k: nat): seq<Address>
  {
    if k == 0 then []
    else
      var before := Elected(draw, vs, k - 1);
      match LeaderExcluding(draw, k - 1, vs, Members(before))
      case Some(a) => before + [a]
      case None => before
  }

  /** The leader of a rank: the last one drawn up to it. */
  function LeaderAtRank(draw: Draw, vs: seq<Validator>, rank: nat): Option<Address>
  {
    Last(Elected(draw, vs, rank + 1))
  }

  function Last(s: seq<Address>): Option<Address>
  {
    if s == [] then None else Some(s[|s| - 1])
  }

  /** The leader of a slot at a rank. */
  function SlotLeader(h: Sha3, vs: seq<Validator>, height: nat, parent: Hash, rank: nat): Option<Address>
    requires Digest32(h)
  {
    LeaderAtRank(SlotDraw(h, height, parent), vs, rank)
  }

  /** `slot_leader_excluding` as a loop lowering the ticket by each stake it passes. */
  method SlotLeaderExcluding(h: Sha3, snap: Snapshot, height: nat, parent: Hash, rank: nat, excluded: set<Address>)
    returns (r: Option<Address>)
    requires Digest32(h)
    ensures r == LeaderExcluding(SlotDraw(h, height, parent), rank, snap.validators, excluded)
  {
    var cs := Candidates(snap.validators, excluded);
    if cs == [] {
      return None;
    }
    var total := Total(cs);
    if total == 0 {
      return None;
    }
    var selector := Ticket(h, height, parent, rank) % total;
    ghost var ticket := selector;
    for i := 0 to |cs|
      invariant selector >= 0
      invariant Pick(cs, ticket) == Pick(cs[i..], selector)
    {
      if selector < cs[i].stake {
        return Some(cs[i].address);
      }
      selector := selector - cs[i].stake;
    }
    r := Some(cs[|cs| - 1].address);
  }

  /** `slot_leader_at_rank`. */
  method SlotLeaderAtRank(h: Sha3, snap: Snapshot, height: nat, parent: Hash, rank: nat) returns (last: Option<Address>)
    requires Digest32(h)
    ensures last == SlotLeader(h, snap.validators, height, parent, rank)
  {
    if snap.validators == [] {
      NoValidators(SlotDraw(h, height, parent), rank + 1);
      return None;
    }
    var excluded: set<Address> := {};
    ghost var draw := SlotDraw(h, height, parent);
    ghost var drawn: seq<Address> := [];
    last := None;
    for k := 0 to rank + 1
      invariant drawn == Elected(draw, snap.validators, k)
      invariant excluded == Members(drawn)
      invariant last == Last(drawn)
    {
      var chosen := SlotLeaderExcluding(h, snap, height, parent, k, excluded);
      if chosen.None? {
        Exhausted(draw, snap.validators, k, rank + 1);
        return;
      }
      MembersAppend(drawn, chosen.value);
      assert Elected(draw, snap.validators, k + 1) == drawn + [chosen.value];
      drawn := drawn + [chosen.value];
      excluded := excluded + {chosen.value};
      last := chosen;
    }
  }

  lemma {:induction false} NoValidators(draw: Draw, k: nat)
    ensures Elected(draw, [], k) == []
  {
    if k > 0 { NoValidators(draw, k - 1); }
  }

  /** Once a draw finds nobody, no later draw does. */
  lemma {:induction false} Exhausted(draw: Draw, vs: seq<Validator>, k: nat, m: nat)
    requires k <= m
    requires LeaderExcluding(draw, k, vs, Members(Elected(draw, vs, k))).None?
    ensures Elected(draw, vs, m) == Elected(draw, vs, k)
  {
    if k < m { Exhausted(draw, vs, k, m - 1); }
  }

  // ---------------------------------------------------------------------------
  // One draw

  lemma {:induction false} CandidateMembers(vs: seq<Validator>, excluded: set<Address>, v: Validator)
    ensures v in Candidates(vs, excluded) <==> v in vs && v.address !in excluded
  {
    if vs != [] { CandidateMembers(vs[1..], excluded, v); }
  }

  lemma {:induction false} TotalPositive(cs: seq<Validator>)
    ensures Total(cs) > 0 <==> exists v :: v in cs && v.stake > 0
  {
    if cs != [] {
      TotalPositive(cs[1..]);
      assert forall v :: v in cs <==> v == cs[0] || v in cs[1..];
    }
  }

  /** A ticket below the total always falls in the range of a candidate with stake, so the fallback is never reached. */
  lemma {:induction false} PickFinds(cs: seq<Validator>, ticket: nat)
    requires ticket < Total(cs)
    ensures Pick(cs, ticket).Some?
    ensures exists v :: v in cs && v.stake > 0 && v.address == Pick(cs, ticket).value
  {
    if ticket < cs[0].stake {
      assert cs[0] in cs;
    } else {
      PickFinds(cs[1..], ticket - cs[0].stake);
      var v :| v in cs[1..] && v.stake > 0 && v.address == Pick(cs, ticket).value;
      assert v in cs;
    }
  }

  ghost predicate DistinctAddresses(vs: seq<Validator>)
  {
    forall i, j :: 0 <= i < j < |vs| ==> vs[i].address != vs[j].address
  }

  /** The tickets that select candidate `i` are one interval, as long as its stake. */
  lemma {:induction false} TicketRange(cs: seq<Validator>, i: nat, ticket: nat)
    requires DistinctAddresses(cs) && i < |cs| && ticket < Total(cs)
    ensures Pick(cs, ticket) == Some(cs[i].address) <==>
            Total(cs[..i]) <= ticket < Total(cs[..i]) + cs[i].stake
  {
    if i > 0 {
      assert cs[..i][1..] == cs[1..][..i - 1];
      if ticket >= cs[0].stake {
        TicketRange(cs[1..], i - 1, ticket - cs[0].stake);
      }
    } else if ticket >= cs[0].stake {
      PickFinds(cs[1..], ticket - cs[0].stake);
      var v :| v in cs[1..] && v.address == Pick(cs, ticket).value;
    }
  }

  ghost function TicketsFor(cs: seq<Validator>, a: Address): set<nat>
  {
    set t: nat | t < Total(cs) && Pick(cs, t) == Some(a)
  }

  /** Exactly `stake` of the `total` tickets select a given candidate. */
  lemma StakeManyTickets(cs: seq<Validator>, i: nat)
    requires DistinctAddresses(cs) && i < |cs|
    ensures |TicketsFor(cs, cs[i].address)| == cs[i].stake
  {
    var lo := Total(cs[..i]);
    PrefixTotal(cs, i);
    var range := Interval(lo, cs[i].stake);
    forall t: nat | t < Total(cs)
      ensures Pick(cs, t) == Some(cs[i].address) <==> t in range
    { TicketRange(cs, i, t); }
    assert TicketsFor(cs, cs[i].address) == range;
  }

  lemma {:induction false} PrefixTotal(cs: seq<Validator>, i: nat)
    requires i < |cs|
    ensures Total(cs[..i]) + cs[i].stake <= Total(cs)
  {
    if i > 0 {
      assert cs[..i][1..] == cs[1..][..i - 1];
      PrefixTotal(cs[1..], i - 1);
    }
  }

  ghost function Interval(lo: nat, n: nat): (s: set<nat>)
    ensures |s| == n
    ensures forall t :: t in s <==> lo <= t < lo + n
  {
    if n == 0 then {} else Interval(lo, n - 1) + {lo + n - 1}
  }

  // ---------------------------------------------------------------------------
  // All ranks

  ghost function Staked(vs: seq<Validator>): set<Address>
  {
    set i | 0 <= i < |vs| && vs[i].stake > 0 :: vs[i].address
  }

  ghost predicate NoRepeats(s: seq<Address>)
  {
    forall i, j :: 0 <= i < j < |s| ==> s[i] != s[j]
  }

  /** A draw finds a validator with stake outside `excluded`, or there is none left. */
  lemma DrawIsFresh(draw: Draw, rank: nat, vs: seq<Validator>, excluded: set<Address>)
    requires DistinctAddresses(vs) && Bounded(draw)
    ensures var r := LeaderExcluding(draw, rank, vs, excluded);
            if Staked(vs) <= excluded then r.None? else r.Some? && r.value in Staked(vs) - excluded
  {
    var cs := Candidates(vs, excluded);
    TotalPositive(cs);
    forall v
      ensures v in cs <==> v in vs && v.address !in excluded
    { CandidateMembers(vs, excluded, v); }
    if Staked(vs) <= excluded {
      assert forall i :: 0 <= i < |vs| && vs[i].stake > 0 ==> vs[i].address in Staked(vs);
      assert Total(cs) == 0;
    } else {
      var a :| a in Staked(vs) && a !in excluded;
      var i :| 0 <= i < |vs| && vs[i].stake > 0 && vs[i].address == a;
      assert vs[i] in cs;
      PickFinds(cs, draw(rank, Total(cs)));
    }
  }

  /** Up to the number of staked validators each draw adds a new one; after that nothing changes. */
  lemma {:induction false} ElectedAreDistinct(draw: Draw, vs: seq<Validator>, k: nat)
    requires DistinctAddresses(vs) && Bounded(draw)
    ensures var e := Elected(draw, vs, k);
            && |e| == Min(k, |Staked(vs)|) && NoRepeats(e)
            && Members(e) <= Staked(vs) && |Members(e)| == |e|
  {
    if k > 0 {
      ElectedAreDistinct(draw, vs, k - 1);
      var before := Elected(draw, vs, k - 1);
      var used := Members(before);
      DrawIsFresh(draw, k - 1, vs, used);
      if Staked(vs) <= used {
        assert used == Staked(vs);
      } else {
        AddDrawn(before, LeaderExcluding(draw, k - 1, vs, used).value, Staked(vs));
      }
    }
  }

  lemma AddDrawn(before: seq<Address>, a: Address, staked: set<Address>)
    requires NoRepeats(before) && Members(before) <= staked && |Members(before)| == |before|
    requires a in staked - Members(before)
    ensures var e := before + [a];
            NoRepeats(e) && Members(e) <= staked && |Members(e)| == |e| <= |staked|
  {
    MembersAppend(before, a);
    SubsetSmaller(Members(before), staked);
  }

  lemma SubsetSmaller(a: set<Address>, b: set<Address>)
    requires a <= b && a != b
    ensures |a| < |b|
  {
    assert b == a + (b - a);
    assert b - a != {};
  }

  lemma {:induction false} ElectedPrefix(draw: Draw, vs: seq<Validator>, k: nat, m: nat)
    requires k <= m
    ensures Elected(draw, vs, k) <= Elected(draw, vs, m)
  {
    if k < m { ElectedPrefix(draw, vs, k, m - 1); }
  }

  /**
  Leader ranks form a permutation: with distinct addresses, ranks 0 to n-1 name each of the n
  validators with stake exactly once, and every higher rank repeats rank n-1.
  */
  lemma RanksArePermutation(draw: Draw, vs: seq<Validator>)
    requires DistinctAddresses(vs) && Bounded(draw)
    ensures var n := |Staked(vs)|;
            var order := Elected(draw, vs, n);
            && |order| == n && NoRepeats(order) && Members(order) == Staked(vs)
            && (forall k: nat :: LeaderAtRank(draw, vs, k) ==
                                 if n == 0 then None else Some(order[Min(k, n - 1)]))
  {
    var n := |Staked(vs)|;
    var order := Elected(draw, vs, n);
    ElectedAreDistinct(draw, vs, n);
    if Members(order) != Staked(vs) { SubsetSmaller(Members(order), Staked(vs)); }
    forall k: nat
      ensures LeaderAtRank(draw, vs, k) == if n == 0 then None else Some(order[Min(k, n - 1)])
    { RankIsPosition(draw, vs, k); }
  }

  /** The same for the draw of the source, at every slot. */
  lemma SlotRanksArePermutation(h: Sha3, height: nat, parent: Hash, vs: seq<Validator>)
    requires Digest32(h) && DistinctAddresses(vs)
    ensures var draw, n := SlotDraw(h, height, parent), |Staked(vs)|;
            var order := Elected(draw, vs, n);
            && |order| == n && NoRepeats(order) && Members(order) == Staked(vs)
            && (forall k: nat :: LeaderAtRank(draw, vs, k) ==
                                 if n == 0 then None else Some(order[Min(k, n - 1)]))
  {
    SlotDrawBounded(h, height, parent);
    RanksArePermutation(SlotDraw(h, height, parent), vs);
  }

  lemma RankIsPosition(draw: Draw, vs: seq<Validator>, k: nat)
    requires DistinctAddresses(vs) && Bounded(draw)
    ensures var n := |Staked(vs)|;
            var order := Elected(draw, vs, n);
            && |order| == n
            && LeaderAtRank(draw, vs, k) == if n == 0 then None else Some(order[Min(k, n - 1)])
  {
    var n := |Staked(vs)|;
    ElectedAreDistinct(draw, vs, n);
    ElectedAreDistinct(draw, vs, k + 1);
    if k < n {
      ElectedPrefix(draw, vs, k + 1, n);
    } else {
      ElectedPrefix(draw, vs, n, k + 1);
    }
    LastDrawn(Elected(draw, vs, k + 1), Elected(draw, vs, n), k, n);
  }

  lemma LastDrawn(drawn: seq<Address>, order: seq<Address>, k: nat, n: nat)
    requires |order| == n && |drawn| == Min(k + 1, n)
    requires if k < n then drawn <= order else order <= drawn
    ensures Last(drawn) == if n == 0 then None else Some(order[Min(k, n - 1)])
  {
  }
}
