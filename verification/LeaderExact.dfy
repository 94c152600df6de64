/**
Exactly who leads a slot (`slot_leader_at_rank` of `src/consensus/mod.rs`): the digest of one
string, which spells out the slot and the rank, falls into the leader's share of the stake left.
*/
module LeaderExact {
  import opened Common
  import opened Hashing
  import opened Finality
  import opened Leader

  /** The stake of the first `n` validators, without those already chosen. */
  function StakeLeft(vs: seq<Validator>, chosen: set<Address>, n: nat): nat
    requires n <= |vs|
  {
    if n == 0 then 0
    else StakeLeft(vs, chosen, n - 1) + (if vs[n - 1].address in chosen then 0 else vs[n - 1].stake)
  }

  lemma {:induction false} StakeLeftTail(vs: seq<Validator>, chosen: set<Address>, n: nat)
    requires 0 < n <= |vs|
    ensures StakeLeft(vs, chosen, n)
         == (if vs[0].address in chosen then 0 else vs[0].stake) + StakeLeft(vs[1..], chosen, n - 1)
  {
    if n > 1 { StakeLeftTail(vs, chosen, n - 1); }
  }

  lemma {:induction false} TotalIsStakeLeft(vs: seq<Validator>, chosen: set<Address>)
    ensures Total(Candidates(vs, chosen)) == StakeLeft(vs, chosen, |vs|)
  {
    if vs != [] {
      var rest := Candidates(vs[1..], chosen);
      TotalIsStakeLeft(vs[1..], chosen);
      StakeLeftTail(vs, chosen, |vs|);
      HeadCandidate(vs, chosen);
      assert vs[0].address !in chosen ==> ([vs[0]] + rest)[1..] == rest;
    }
  }

  lemma HeadCandidate(vs: seq<Validator>, chosen: set<Address>)
    requires vs != []
    ensures Candidates(vs, chosen)
         == if vs[0].address in chosen then Candidates(vs[1..], chosen) else [vs[0]] + Candidates(vs[1..], chosen)
  {
    assert [] + Candidates(vs[1..], chosen) == Candidates(vs[1..], chosen);
  }

  /** A ticket picks validator `i` exactly when it falls into that validator's share. */
  lemma {:induction false} PickIff(vs: seq<Validator>, chosen: set<Address>, i: nat, ticket: nat)
    requires DistinctAddresses(vs) && i < |vs| && vs[i].address !in chosen && ticket < StakeLeft(vs, chosen, |vs|)
    ensures Pick(Candidates(vs, chosen), ticket) == Some(vs[i].address) <==>
            StakeLeft(vs, chosen, i) <= ticket < StakeLeft(vs, chosen, i + 1)
  {
    var tail := vs[1..];
    StakeLeftTail(vs, chosen, i + 1);
    StakeLeftTail(vs, chosen, |vs|);
    HeadCandidate(vs, chosen);
    DistinctTail(vs);
    if i > 0 {
      StakeLeftTail(vs, chosen, i);
      assert tail[i - 1] == vs[i];
    }
    if vs[0].address in chosen {
      PickIff(tail, chosen, i - 1, ticket);
    } else {
      PickFromHead(vs[0], Candidates(tail, chosen), ticket);
      if ticket >= vs[0].stake {
        if i > 0 {
          PickIff(tail, chosen, i - 1, ticket - vs[0].stake);
        } else {
          PickedElsewhere(vs, chosen, ticket - vs[0].stake);
        }
      }
    }
  }

  lemma DistinctTail(vs: seq<Validator>)
    requires DistinctAddresses(vs) && vs != []
    ensures DistinctAddresses(vs[1..]) && |vs[1..]| == |vs| - 1
  {
  }

  lemma PickFromHead(v: Validator, cs: seq<Validator>, ticket: nat)
    ensures Pick([v] + cs, ticket) == if ticket < v.stake then Some(v.address) else Pick(cs, ticket - v.stake)
  {
    assert ([v] + cs)[1..] == cs;
  }

  /** A draw among the others never names the first. */
  lemma PickedElsewhere(vs: seq<Validator>, chosen: set<Address>, ticket: nat)
    requires DistinctAddresses(vs) && vs != [] && ticket < StakeLeft(vs[1..], chosen, |vs| - 1)
    ensures Pick(Candidates(vs[1..], chosen), ticket) != Some(vs[0].address)
  {
    var cs := Candidates(vs[1..], chosen);
    TotalIsStakeLeft(vs[1..], chosen);
    PickFinds(cs, ticket);
    var v :| v in cs && v.address == Pick(cs, ticket).value;
    CandidateMembers(vs[1..], chosen, v);
  }

  /** The string hashed for a slot and rank: the length and the bytes of "curs3d-slot-leader-v1", the height, the parent and the rank. */
  function Spelled(height: nat, parent: Hash, rank: nat): Bytes
  {
    [21, 0, 0, 0]
    + [0x63, 0x75, 0x72, 0x73, 0x33, 0x64, 0x2d, 0x73, 0x6c, 0x6f, 0x74, 0x2d, 0x6c, 0x65, 0x61, 0x64, 0x65, 0x72, 0x2d, 0x76, 0x31]
    + LittleEndian(height, 8) + parent + LittleEndian(rank, 4)
  }

  lemma TicketInput(height: nat, parent: Hash, rank: nat)
    ensures DomainInput(SLOT_LEADER_DOMAIN, [LittleEndian(height, 8), parent, LittleEndian(rank, 4)]) == Spelled(height, parent, rank)
  {
    var a, c := LittleEndian(height, 8), LittleEndian(rank, 4);
    ConcatThree(a, parent, c);
    FourBytes();
    var d := SLOT_LEADER_DOMAIN;
    assert DomainPrefix(d) == [21, 0, 0, 0] + d;
    assert ([21, 0, 0, 0] + d) + (a + parent + c) == [21, 0, 0, 0] + d + a + parent + c;
  }

  lemma ConcatThree(a: Bytes, b: Bytes, c: Bytes)
    ensures Concat([a, b, c]) == a + b + c
  {
    assert [a, b, c][1..] == [b, c];
    ConcatTwo(b, c);
    assert a + (b + c) == a + b + c;
  }

  lemma FourBytes()
    ensures LittleEndian(21, 4) == [21, 0, 0, 0]
  {
    assert LittleEndian(0, 1) == [0] && LittleEndian(0, 2) == [0, 0] && LittleEndian(0, 3) == [0, 0, 0];
  }

  /** Whom one draw chooses, given who was chosen before. */
  lemma DrawIff(h: Sha3, vs: seq<Validator>, height: nat, parent: Hash, rank: nat, chosen: set<Address>, i: nat)
    requires Digest32(h) && DistinctAddresses(vs) && i < |vs| && vs[i].address !in chosen
    requires StakeLeft(vs, chosen, |vs|) > 0
    ensures var number := FromLittleEndian(h(Spelled(height, parent, rank))[..16]);
            LeaderExcluding(SlotDraw(h, height, parent), rank, vs, chosen) == Some(vs[i].address) <==>
            StakeLeft(vs, chosen, i) <= number % StakeLeft(vs, chosen, |vs|) < StakeLeft(vs, chosen, i + 1)
  {
    var cs, total := Candidates(vs, chosen), StakeLeft(vs, chosen, |vs|);
    TotalIsStakeLeft(vs, chosen);
    SlotNumber(h, height, parent, rank, total);
    var ticket := SlotDraw(h, height, parent)(rank, total);
    PickFinds(cs, ticket);
    PickIff(vs, chosen, i, ticket);
  }

  lemma SlotNumber(h: Sha3, height: nat, parent: Hash, rank: nat, total: nat)
    requires Digest32(h) && total > 0
    ensures SlotDraw(h, height, parent)(rank, total) == FromLittleEndian(h(Spelled(height, parent, rank))[..16]) % total
  {
    TicketInput(height, parent, rank);
    assert Ticket(h, height, parent, rank) == FromLittleEndian(h(Spelled(height, parent, rank))[..16]);
  }

  lemma ElectedBefore(draw: Draw, vs: seq<Validator>, before: seq<Address>)
    requires DistinctAddresses(vs) && Bounded(draw) && |before| <= |Staked(vs)|
    requires forall j :: 0 <= j < |before| ==> LeaderAtRank(draw, vs, j) == Some(before[j])
    ensures Elected(draw, vs, |before|) == before
  {
    var n, k := |Staked(vs)|, |before|;
    var order, e := Elected(draw, vs, n), Elected(draw, vs, k);
    ElectedAreDistinct(draw, vs, k);
    ElectedPrefix(draw, vs, k, n);
    forall j | 0 <= j < k
      ensures before[j] == e[j]
    { RankIsPosition(draw, vs, j); }
  }

  /**
  The leader of every slot at every rank below the number of staked validators: with the leaders of
  the lower ranks taken out, it is validator `i` exactly when the little-endian value of the first
  16 bytes of the digest of the spelled-out string, modulo the stake left, lies in `i`'s share.
  */
  lemma LeaderIff(h: Sha3, vs: seq<Validator>, height: nat, parent: Hash, before: seq<Address>, i: nat)
    requires Digest32(h) && DistinctAddresses(vs) && |before| < |Staked(vs)|
    requires forall j :: 0 <= j < |before| ==> SlotLeader(h, vs, height, parent, j) == Some(before[j])
    requires i < |vs| && vs[i].address !in before
    ensures var chosen, rank := Members(before), |before|;
            && StakeLeft(vs, chosen, |vs|) > 0
            && var number := FromLittleEndian(h(Spelled(height, parent, rank))[..16]);
               (SlotLeader(h, vs, height, parent, rank) == Some(vs[i].address) <==>
                StakeLeft(vs, chosen, i) <= number % StakeLeft(vs, chosen, |vs|) < StakeLeft(vs, chosen, i + 1))
  {
    var draw, chosen, rank := SlotDraw(h, height, parent), Members(before), |before|;
    SlotDrawBounded(h, height, parent);
    ElectedBefore(draw, vs, before);
    SomeoneIsLeft(vs, before);
    TotalIsStakeLeft(vs, chosen);
    DrawIsFresh(draw, rank, vs, chosen);
    DrawIff(h, vs, height, parent, rank, chosen, i);
  }

  lemma SomeoneIsLeft(vs: seq<Validator>, before: seq<Address>)
    requires DistinctAddresses(vs) && |before| < |Staked(vs)|
    ensures !(Staked(vs) <= Members(before)) && Total(Candidates(vs, Members(before))) > 0
  {
    MembersCount(before);
    if Staked(vs) <= Members(before) { SubsetCount(Staked(vs), Members(before)); }
    var a :| a in Staked(vs) && a !in Members(before);
    var i :| 0 <= i < |vs| && vs[i].stake > 0 && vs[i].address == a;
    CandidateMembers(vs, Members(before), vs[i]);
    TotalPositive(Candidates(vs, Members(before)));
  }

  lemma {:induction false} MembersCount(s: seq<Address>)
    ensures |Members(s)| <= |s|
  {
    if s != [] {
      var n := |s| - 1;
      MembersCount(s[..n]);
      MembersAppend(s[..n], s[n]);
      assert s == s[..n] + [s[n]];
    } else {
      assert Members(s) == {};
    }
  }

  lemma SubsetCount(a: set<Address>, b: set<Address>)
    requires a <= b
    ensures |a| <= |b|
  {
    assert b == a + (b - a);
  }

  /** The primary leader, rank 0: the digest modulo the total stake lies in its share. */
  lemma PrimaryLeaderIff(h: Sha3, vs: seq<Validator>, height: nat, parent: Hash, i: nat)
    requires Digest32(h) && DistinctAddresses(vs) && i < |vs| && StakeLeft(vs, {}, |vs|) > 0
    ensures var number := FromLittleEndian(h(Spelled(height, parent, 0))[..16]);
            SlotLeader(h, vs, height, parent, 0) == Some(vs[i].address) <==>
            StakeLeft(vs, {}, i) <= number % StakeLeft(vs, {}, |vs|) < StakeLeft(vs, {}, i + 1)
  {
    var none: seq<Address> := [];
    var draw := SlotDraw(h, height, parent);
    assert Members(none) == {};
    assert Elected(draw, vs, 0) == none;
    DrawIff(h, vs, height, parent, 0, {}, i);
  }

  /** The function that differs from `h` at one string only. */
  function With(h: Sha3, input: Bytes, digest: Bytes): Sha3
  {
    x => if x == input then digest else h(x)
  }

  /** Every staked validator can lead every slot: changing the digest of that slot's string alone makes it the leader, and changes no slot with another string. */
  lemma EveryoneCanLead(h: Sha3, vs: seq<Validator>, height: nat, parent: Hash, i: nat)
    requires Digest32(h) && DistinctAddresses(vs) && i < |vs| && vs[i].stake > 0 && StakeLeft(vs, {}, |vs|) <= U64_MAX
    ensures var input := Spelled(height, parent, 0);
            var h' := With(h, input, LittleEndian(StakeLeft(vs, {}, i), 32));
            && Digest32(h') && SlotLeader(h', vs, height, parent, 0) == Some(vs[i].address)
            && (forall x, y :: Spelled(x, y, 0) != input ==> SlotLeader(h', vs, x, y, 0) == SlotLeader(h, vs, x, y, 0))
  {
    var input, low := Spelled(height, parent, 0), StakeLeft(vs, {}, i);
    var digest := LittleEndian(low, 32);
    var h' := With(h, input, digest);
    StakeLeftGrows(vs, {}, i);
    LowBytes(low);
    assert Digest32(h') && h'(input) == digest;
    NumberLeads(h', vs, height, parent, i);
    forall x, y | Spelled(x, y, 0) != input
      ensures SlotLeader(h', vs, x, y, 0) == SlotLeader(h, vs, x, y, 0)
    { SameDigestSameLeader(h', h, vs, x, y); }
  }

  lemma NumberLeads(h: Sha3, vs: seq<Validator>, height: nat, parent: Hash, i: nat)
    requires Digest32(h) && DistinctAddresses(vs) && i < |vs| && vs[i].stake > 0
    requires FromLittleEndian(h(Spelled(height, parent, 0))[..16]) == StakeLeft(vs, {}, i)
    ensures SlotLeader(h, vs, height, parent, 0) == Some(vs[i].address)
  {
    StakeLeftGrows(vs, {}, i);
    PrimaryLeaderIff(h, vs, height, parent, i);
    SmallRemainder(StakeLeft(vs, {}, i), StakeLeft(vs, {}, |vs|));
  }

  lemma SmallRemainder(n: nat, d: nat)
    requires n < d
    ensures n % d == n
  {
  }

  lemma {:induction false} StakeLeftGrows(vs: seq<Validator>, chosen: set<Address>, i: nat)
    requires i < |vs| && vs[i].address !in chosen
    ensures StakeLeft(vs, chosen, i) + vs[i].stake <= StakeLeft(vs, chosen, |vs|)
    decreases |vs| - i
  {
    StakeLeftMonotone(vs, chosen, i + 1, |vs|);
  }

  lemma {:induction false} StakeLeftMonotone(vs: seq<Validator>, chosen: set<Address>, i: nat, j: nat)
    requires i <= j <= |vs|
    ensures StakeLeft(vs, chosen, i) <= StakeLeft(vs, chosen, j)
  {
    if i < j { StakeLeftMonotone(vs, chosen, i, j - 1); }
  }

  /** A 64-bit number fits the first 16 of 32 bytes. */
  lemma LowBytes(n: nat)
    requires n <= U64_MAX
    ensures FromLittleEndian(LittleEndian(n, 32)[..16]) == n
  {
    LittleEndianPrefix(n, 32, 16);
    assert ByteRange(4) == 0x1_0000_0000;
    assert ByteRange(8) == U64_MAX + 1;
    ByteRangeGrows(8, 16);
    LittleEndianInverse(n, 16);
  }

  lemma {:induction false} ByteRangeGrows(a: nat, b: nat)
    requires a <= b
    ensures ByteRange(a) <= ByteRange(b) && ByteRange(a) >= 1
    decreases b
  {
    if a < b { ByteRangeGrows(a, b - 1); } else if a > 0 { ByteRangeGrows(a - 1, a - 1); }
  }

  lemma {:induction false} LittleEndianPrefix(n: nat, width: nat, k: nat)
    requires k <= width
    ensures LittleEndian(n, width)[..k] == LittleEndian(n, k)
  {
    if k > 0 {
      var rest := LittleEndian(n / 256, width - 1);
      LittleEndianPrefix(n / 256, width - 1, k - 1);
      assert LittleEndian(n, width)[..k] == [(n % 256) as bv8] + rest[..k - 1];
    }
  }

  lemma SameDigestSameLeader(h: Sha3, h': Sha3, vs: seq<Validator>, height: nat, parent: Hash)
    requires Digest32(h) && Digest32(h') && h(Spelled(height, parent, 0)) == h'(Spelled(height, parent, 0))
    ensures SlotLeader(h, vs, height, parent, 0) == SlotLeader(h', vs, height, parent, 0)
  {
    var draw, draw' := SlotDraw(h, height, parent), SlotDraw(h', height, parent);
    var total := Total(Candidates(vs, {}));
    if total > 0 {
      SlotNumber(h, height, parent, 0, total);
      SlotNumber(h', height, parent, 0, total);
    }
    assert Members([]) == {};
    assert Elected(draw, vs, 0) == [] && Elected(draw', vs, 0) == [];
    assert LeaderExcluding(draw, 0, vs, {}) == LeaderExcluding(draw', 0, vs, {});
    assert Elected(draw, vs, 1) == Elected(draw', vs, 1);
  }
}
