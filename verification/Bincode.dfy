/**
The leaf encodings of the source: version 1 of bincode writes integers and lengths as eight bytes,
least significant first, byte strings after their length, and an option after a one-byte tag. Each
kind of leaf can be read back; an account and a contract may nevertheless have one encoding.
*/
module Bincode {
  import opened Common
  import opened Hashing
  import opened StateRoot

  // ---------------------------------------------------------------------------
  // Writing

  function U64(n: nat): (b: Bytes)
    ensures |b| == 8
  {
    LittleEndian(n, 8)
  }

  function Str(b: Bytes): (e: Bytes)
    ensures |e| == 8 + |b|
  {
    U64(|b|) + b
  }

  function Unstakes(us: seq<PendingUnstake>): (e: Bytes)
    ensures |e| == 16 * |us|
  {
    if us == [] then [] else U64(us[0].amount) + U64(us[0].unlockHeight) + Unstakes(us[1..])
  }

  function Key(k: Option<Bytes>): Bytes
  {
    match k
    case None => [0]
    case Some(key) => [1] + Str(key)
  }

  /** The fields before the list of pending unstakes. */
  function Head(s: AccountState): (e: Bytes)
    ensures |e| == 32
  {
    U64(s.balance) + U64(s.nonce) + U64(s.stakedBalance) + U64(|s.pendingUnstakes|)
  }

  /** What follows it: two heights and the key. */
  function Tail(active: nat, jailed: nat, key: Option<Bytes>): Bytes
  {
    U64(active) + U64(jailed) + Key(key)
  }

  function AccountBody(s: AccountState): Bytes
  {
    Head(s) + Rest(s)
  }

  function Rest(s: AccountState): Bytes
  {
    Unstakes(s.pendingUnstakes) + Tail(s.validatorActiveFromHeight, s.jailedUntilHeight, s.publicKey)
  }

  function ContractBody(codeHash: Bytes, owner: Bytes, root: Bytes): (e: Bytes)
    ensures |e| == 24 + |codeHash| + |owner| + |root|
  {
    Str(codeHash) + (Str(owner) + Str(root))
  }

  /** The tuples `(address, state)`, `(key, value)` and `(address, code_hash, owner, storage_root)`. */
  function Encoding(): Codec
  {
    Codec((a: Bytes, s: AccountState) => Str(a) + AccountBody(s),
          (k: Bytes, v: Bytes) => Str(k) + Str(v),
          (a: Bytes, ch: Bytes, o: Bytes, r: Bytes) => Str(a) + ContractBody(ch, o, r))
  }

  // ---------------------------------------------------------------------------
  // Reading

  function ReadU64(x: Bytes, i: nat): nat
    requires i + 8 <= |x|
  {
    FromLittleEndian(x[i..i + 8])
  }

  /** A byte string and what follows it. */
  function ReadStr(x: Bytes): (r: Option<(Bytes, Bytes)>)
    ensures r.Some? ==> |r.value.1| + 8 <= |x|
  {
    if |x| < 8 then None
    else
      var n := ReadU64(x, 0);
      if |x| < 8 + n then None else Some((x[8..8 + n], x[8 + n..]))
  }

  function ReadUnstakes(x: Bytes, count: nat): (us: seq<PendingUnstake>)
    requires |x| == 16 * count
    ensures |us| == count
  {
    if count == 0 then []
    else [PendingUnstake(ReadU64(x, 0), ReadU64(x, 8))] + ReadUnstakes(x[16..], count - 1)
  }

  function ReadKey(x: Bytes): Option<Option<Bytes>>
  {
    if x == [0] then Some(None)
    else if x != [] && x[0] == 1 then
      var r := ReadStr(x[1..]);
      if r.Some? && r.value.1 == [] then Some(Some(r.value.0)) else None
    else None
  }

  function ReadTail(x: Bytes): Option<(nat, nat, Option<Bytes>)>
  {
    if |x| < 16 then None
    else
      var key := ReadKey(x[16..]);
      if key.None? then None else Some((ReadU64(x, 0), ReadU64(x, 8), key.value))
  }

  /** The list of pending unstakes of a known length, and what follows it. */
  function ReadRest(x: Bytes, count: nat): Option<(seq<PendingUnstake>, nat, nat, Option<Bytes>)>
  {
    var n := 16 * count;
    if |x| < n then None
    else
      var tail := ReadTail(x[n..]);
      if tail.None? then None else Some((ReadUnstakes(x[..n], count), tail.value.0, tail.value.1, tail.value.2))
  }

  /** The account state a body stands for, if it is one. */
  function ReadAccountBody(x: Bytes): Option<AccountState>
  {
    if |x| < 32 then None
    else
      var rest := ReadRest(x[32..], ReadU64(x, 24));
      if rest.None? then None
      else
        var (us, active, jailed, key) := rest.value;
        Some(AccountState(ReadU64(x, 0), ReadU64(x, 8), ReadU64(x, 16), us, active, jailed, key))
  }

  /** The code hash, owner and storage root a body stands for, if it is a contract's. */
  function ReadContractBody(x: Bytes): Option<(Bytes, Bytes, Bytes)>
  {
    var a := ReadStr(x);
    if a.None? then None
    else
      var b := ReadStr(a.value.1);
      if b.None? then None
      else
        var c := ReadStr(b.value.1);
        if c.Some? && c.value.1 == [] then Some((a.value.0, b.value.0, c.value.0)) else None
  }

  // ---------------------------------------------------------------------------
  // Integers

  lemma ByteBack(b: bv8)
    ensures (b as int) as bv8 == b && 0 <= b as int < 256
  {
  }

  lemma U64Range()
    ensures ByteRange(8) == U64_MAX + 1
  {
    assert ByteRange(4) == 0x1_0000_0000;
  }

  /** What is read is below the range of its bytes, and writing it again gives the bytes. */
  lemma {:induction false} FromLittleEndianInverse(b: Bytes)
    ensures FromLittleEndian(b) < ByteRange(|b|) && LittleEndian(FromLittleEndian(b), |b|) == b
  {
    if b != [] {
      var low, high := b[0] as int, FromLittleEndian(b[1..]);
      FromLittleEndianInverse(b[1..]);
      ByteBack(b[0]);
      var n := low + 256 * high;
      assert n % 256 == low && n / 256 == high;
      assert b == [b[0]] + b[1..];
    }
  }

  lemma U64Back(n: nat)
    requires n <= U64_MAX
    ensures FromLittleEndian(U64(n)) == n
  {
    U64Range();
    LittleEndianInverse(n, 8);
  }

  lemma BytesBack(b: Bytes)
    requires |b| == 8
    ensures FromLittleEndian(b) <= U64_MAX && U64(FromLittleEndian(b)) == b
  {
    U64Range();
    FromLittleEndianInverse(b);
  }

  // ---------------------------------------------------------------------------
  // Byte strings

  lemma StrBack(b: Bytes, rest: Bytes)
    requires |b| <= U64_MAX
    ensures ReadStr(Str(b) + rest) == Some((b, rest))
  {
    U64Back(|b|);
    var x := Str(b) + rest;
    assert x[0..8] == U64(|b|) && x[8..8 + |b|] == b && x[8 + |b|..] == rest;
  }

  lemma ReadStrBack(x: Bytes)
    requires ReadStr(x).Some?
    ensures var (b, rest) := ReadStr(x).value; x == Str(b) + rest && |b| <= U64_MAX
  {
    BytesBack(x[0..8]);
    var n := ReadU64(x, 0);
    assert x == x[0..8] + x[8..8 + n] + x[8 + n..];
  }

  predicate FitsUnstakes(us: seq<PendingUnstake>)
  {
    forall u :: u in us ==> u.amount <= U64_MAX && u.unlockHeight <= U64_MAX
  }

  lemma {:induction false} UnstakesBack(us: seq<PendingUnstake>)
    requires FitsUnstakes(us)
    ensures ReadUnstakes(Unstakes(us), |us|) == us
  {
    if us != [] {
      var x := Unstakes(us);
      U64Back(us[0].amount);
      U64Back(us[0].unlockHeight);
      assert x[0..8] == U64(us[0].amount) && x[8..16] == U64(us[0].unlockHeight) && x[16..] == Unstakes(us[1..]);
      UnstakesBack(us[1..]);
    }
  }

  lemma {:induction false} ReadUnstakesBack(x: Bytes, count: nat)
    requires |x| == 16 * count
    ensures Unstakes(ReadUnstakes(x, count)) == x && FitsUnstakes(ReadUnstakes(x, count))
  {
    if count > 0 {
      BytesBack(x[0..8]);
      BytesBack(x[8..16]);
      ReadUnstakesBack(x[16..], count - 1);
      assert x == x[0..8] + x[8..16] + x[16..];
      assert ReadUnstakes(x, count)[1..] == ReadUnstakes(x[16..], count - 1);
    }
  }

  lemma KeyBack(k: Option<Bytes>)
    requires k.Some? ==> |k.value| <= U64_MAX
    ensures ReadKey(Key(k)) == Some(k)
  {
    if k.Some? {
      StrBack(k.value, []);
      assert Str(k.value) + [] == Str(k.value);
      assert ([1] + Str(k.value))[1..] == Str(k.value);
    }
  }

  lemma ReadKeyBack(x: Bytes)
    requires ReadKey(x).Some?
    ensures var k := ReadKey(x).value; Key(k) == x && (k.Some? ==> |k.value| <= U64_MAX)
  {
    if x != [0] {
      ReadStrBack(x[1..]);
      assert x == [x[0]] + x[1..];
    }
  }

  // ---------------------------------------------------------------------------
  // Bodies

  lemma TailBack(active: nat, jailed: nat, key: Option<Bytes>)
    requires active <= U64_MAX && jailed <= U64_MAX && (key.Some? ==> |key.value| <= U64_MAX)
    ensures ReadTail(Tail(active, jailed, key)) == Some((active, jailed, key))
  {
    var x := Tail(active, jailed, key);
    assert x[0..8] == U64(active) && x[8..16] == U64(jailed) && x[16..] == Key(key);
    U64Back(active);
    U64Back(jailed);
    KeyBack(key);
  }

  lemma ReadTailBack(x: Bytes)
    requires ReadTail(x).Some?
    ensures var (active, jailed, key) := ReadTail(x).value;
            Tail(active, jailed, key) == x && active <= U64_MAX && jailed <= U64_MAX && (key.Some? ==> |key.value| <= U64_MAX)
  {
    BytesBack(x[0..8]);
    BytesBack(x[8..16]);
    ReadKeyBack(x[16..]);
    assert x == x[0..8] + x[8..16] + x[16..];
  }

  lemma RestBack(s: AccountState)
    requires FitsState(s)
    ensures ReadRest(Rest(s), |s.pendingUnstakes|)
         == Some((s.pendingUnstakes, s.validatorActiveFromHeight, s.jailedUntilHeight, s.publicKey))
  {
    var us, tail := Unstakes(s.pendingUnstakes), Tail(s.validatorActiveFromHeight, s.jailedUntilHeight, s.publicKey);
    assert (us + tail)[..|us|] == us && (us + tail)[|us|..] == tail;
    UnstakesBack(s.pendingUnstakes);
    TailBack(s.validatorActiveFromHeight, s.jailedUntilHeight, s.publicKey);
  }

  lemma ReadRestBack(x: Bytes, count: nat)
    requires ReadRest(x, count).Some?
    ensures var (us, active, jailed, key) := ReadRest(x, count).value;
            && Unstakes(us) + Tail(active, jailed, key) == x && |us| == count && FitsUnstakes(us)
            && active <= U64_MAX && jailed <= U64_MAX && (key.Some? ==> |key.value| <= U64_MAX)
  {
    var n := 16 * count;
    ReadUnstakesBack(x[..n], count);
    ReadTailBack(x[n..]);
    assert x == x[..n] + x[n..];
  }

  /** Reading a written account gives it back. */
  lemma AccountBodyBack(s: AccountState)
    requires FitsState(s)
    ensures ReadAccountBody(AccountBody(s)) == Some(s)
  {
    HeadBack(s, Rest(s));
    assert (Head(s) + Rest(s))[32..] == Rest(s);
    RestBack(s);
  }

  lemma HeadBack(s: AccountState, rest: Bytes)
    requires FitsState(s)
    ensures var x := Head(s) + rest;
            && ReadU64(x, 0) == s.balance && ReadU64(x, 8) == s.nonce
            && ReadU64(x, 16) == s.stakedBalance && ReadU64(x, 24) == |s.pendingUnstakes|
  {
    var x := Head(s) + rest;
    assert x[0..8] == U64(s.balance) && x[8..16] == U64(s.nonce);
    assert x[16..24] == U64(s.stakedBalance) && x[24..32] == U64(|s.pendingUnstakes|);
    U64Back(s.balance);
    U64Back(s.nonce);
    U64Back(s.stakedBalance);
    U64Back(|s.pendingUnstakes|);
  }

  /** Writing an account that was read gives the bytes back, and it fits. */
  lemma ReadAccountBodyBack(x: Bytes)
    requires ReadAccountBody(x).Some?
    ensures FitsState(ReadAccountBody(x).value) && AccountBody(ReadAccountBody(x).value) == x
  {
    var s := ReadAccountBody(x).value;
    ReadRestBack(x[32..], ReadU64(x, 24));
    ReadHeadBack(x, s);
    assert x == x[..32] + x[32..];
  }

  lemma ReadHeadBack(x: Bytes, s: AccountState)
    requires |x| >= 32
    requires s.balance == ReadU64(x, 0) && s.nonce == ReadU64(x, 8) && s.stakedBalance == ReadU64(x, 16)
    requires |s.pendingUnstakes| == ReadU64(x, 24)
    ensures Head(s) == x[..32]
    ensures s.balance <= U64_MAX && s.nonce <= U64_MAX && s.stakedBalance <= U64_MAX && |s.pendingUnstakes| <= U64_MAX
  {
    BytesBack(x[0..8]);
    BytesBack(x[8..16]);
    BytesBack(x[16..24]);
    BytesBack(x[24..32]);
    assert x[..32] == x[0..8] + x[8..16] + x[16..24] + x[24..32];
  }

  /** Reading a written contract gives its parts back. */
  lemma ContractBodyBack(codeHash: Bytes, owner: Bytes, root: Bytes)
    requires |codeHash| <= U64_MAX && |owner| <= U64_MAX && |root| <= U64_MAX
    ensures ReadContractBody(ContractBody(codeHash, owner, root)) == Some((codeHash, owner, root))
  {
    StrBack(codeHash, Str(owner) + Str(root));
    StrBack(owner, Str(root));
    StrBack(root, []);
    assert Str(root) + [] == Str(root);
  }

  lemma ReadContractBodyBack(x: Bytes)
    requires ReadContractBody(x).Some?
    ensures var (codeHash, owner, root) := ReadContractBody(x).value;
            && ContractBody(codeHash, owner, root) == x
            && |codeHash| <= U64_MAX && |owner| <= U64_MAX && |root| <= U64_MAX
  {
    var a := ReadStr(x).value;
    var b := ReadStr(a.1).value;
    var c := ReadStr(b.1).value;
    ReadStrBack(x);
    ReadStrBack(a.1);
    ReadStrBack(b.1);
    assert Str(c.0) + [] == Str(c.0);
  }

  // ---------------------------------------------------------------------------
  // Encodings determine what they encode

  lemma SameStr(a: Bytes, x: Bytes, b: Bytes, y: Bytes)
    requires |a| <= U64_MAX && |b| <= U64_MAX && Str(a) + x == Str(b) + y
    ensures a == b && x == y
  {
    StrBack(a, x);
    StrBack(b, y);
  }

  /** The source's encodings are injective on everything that fits its types. */
  lemma EncodingInjective()
    ensures Injective(Encoding())
  {
    var c := Encoding();
    forall a, s, a', s' | FitsAccount(a, s) && FitsAccount(a', s') && c.account(a, s) == c.account(a', s')
      ensures a == a' && s == s'
    {
      SameStr(a, AccountBody(s), a', AccountBody(s'));
      AccountBodyBack(s);
      AccountBodyBack(s');
    }
    forall k, v, k', v' | FitsSlot(k, v) && FitsSlot(k', v') && c.slot(k, v) == c.slot(k', v')
      ensures k == k' && v == v'
    {
      SameStr(k, Str(v), k', Str(v'));
      assert Str(v) + [] == Str(v) && Str(v') + [] == Str(v');
      SameStr(v, [], v', []);
    }
    forall a, ch, o, r, a', ch', o', r' | FitsParts(a, ch, o, r) && FitsParts(a', ch', o', r')
                                          && c.contract(a, ch, o, r) == c.contract(a', ch', o', r')
      ensures a == a' && ch == ch' && o == o' && r == r'
    {
      SameStr(a, ContractBody(ch, o, r), a', ContractBody(ch', o', r'));
      ContractBodyBack(ch, o, r);
      ContractBodyBack(ch', o', r');
    }
  }
}
