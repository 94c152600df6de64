/**
The CUR-20 token registry (`src/token/mod.rs`): token records, balances and allowances updated in
place. The derivation of a token's address is the parameter `derive`.
*/
module Token {
  import opened Common

  type Address = Bytes

  datatype Deployment = Deployment(name: Bytes, symbol: Bytes, decimals: nat, totalSupply: nat)

  datatype Info = Info(
    contract: Address, name: Bytes, symbol: Bytes, decimals: nat, totalSupply: nat, creator: Address, createdAt: nat)

  datatype Error =
    | TokenNotFound | InvalidName | InvalidSymbol | InvalidDecimals | InvalidSupply | AlreadyExists
    | InsufficientBalance | InsufficientAllowance | SelfTransfer | ZeroAmount

  /** Balances by token and owner; allowances by token, owner and spender. */
  datatype Ledger = Ledger(
    tokens: map<Address, Info>, balances: map<(Address, Address), nat>, allowances: map<(Address, Address, Address), nat>)

  datatype Op =
    | Deploy(deployer: Address, nonce: nat, params: Deployment, height: nat)
    | Transfer(token: Address, owner: Address, to: Address, amount: nat)
    | Approve(token: Address, owner: Address, spender: Address, amount: nat)
    | TransferFrom(token: Address, spender: Address, owner: Address, to: Address, amount: nat)

  type Deriver = (Address, nat) -> Address

  function BalanceOf(balances: map<(Address, Address), nat>, token: Address, owner: Address): nat
  {
    var k := (token, owner);
    if k in balances then balances[k] else 0
  }

  function AllowanceOf(l: Ledger, token: Address, owner: Address, spender: Address): nat
  {
    var k := (token, owner, spender);
    if k in l.allowances then l.allowances[k] else 0
  }

  /** Why an operation is refused, if it is; the tests come in this order. */
  function Refusal(derive: Deriver, l: Ledger, op: Op): Option<Error>
  {
    match op
    case Deploy(deployer, nonce, params, _) =>
      if params.name == [] || |params.name| > 64 then Some(InvalidName)
      else if params.symbol == [] || |params.symbol| > 12 then Some(InvalidSymbol)
      else if params.decimals > 18 then Some(InvalidDecimals)
      else if params.totalSupply == 0 then Some(InvalidSupply)
      else if derive(deployer, nonce) in l.tokens then Some(AlreadyExists)
      else None
    case Transfer(token, owner, to, amount) =>
      if token !in l.tokens then Some(TokenNotFound)
      else if owner == to then Some(SelfTransfer)
      else if amount == 0 then Some(ZeroAmount)
      else if BalanceOf(l.balances, token, owner) < amount then Some(InsufficientBalance)
      else None
    case Approve(token, _, _, _) =>
      if token !in l.tokens then Some(TokenNotFound) else None
    case TransferFrom(token, spender, owner, _, amount) =>
      if token !in l.tokens then Some(TokenNotFound)
      else if amount == 0 then Some(ZeroAmount)
      else if AllowanceOf(l, token, owner, spender) < amount then Some(InsufficientAllowance)
      else if BalanceOf(l.balances, token, owner) < amount then Some(InsufficientBalance)
      else None
  }

  /** The debit is written before the credit is read, so a payment to oneself changes nothing. */
  function Move(balances: map<(Address, Address), nat>, token: Address, owner: Address, to: Address, amount: nat)
    : map<(Address, Address), nat>
    requires BalanceOf(balances, token, owner) >= amount
  {
    var debited := balances[(token, owner) := BalanceOf(balances, token, owner) - amount];
    debited[(token, to) := BalanceOf(debited, token, to) + amount]
  }

  /** The ledger after an operation; a refused one changes nothing. */
  function Apply(derive: Deriver, l: Ledger, op: Op): Ledger
  {
    if Refusal(derive, l, op).Some? then l
    else
      match op
      case Deploy(deployer, nonce, params, height) =>
        var a := derive(deployer, nonce);
        var info := Info(a, params.name, params.symbol, params.decimals, params.totalSupply, deployer, height);
        l.(tokens := l.tokens[a := info], balances := l.balances[(a, deployer) := params.totalSupply])
      case Transfer(token, owner, to, amount) =>
        l.(balances := Move(l.balances, token, owner, to, amount))
      case Approve(token, owner, spender, amount) =>
        l.(allowances := l.allowances[(token, owner, spender) := amount])
      case TransferFrom(token, spender, owner, to, amount) =>
        l.(balances := Move(l.balances, token, owner, to, amount),
           allowances := l.allowances[(token, owner, spender) := AllowanceOf(l, token, owner, spender) - amount])
  }

  /** The registry of the source. */
  class TokenRegistry {
    var tokens: map<Address, Info>
    var balances: map<(Address, Address), nat>
    var allowances: map<(Address, Address, Address), nat>

    function View(): Ledger
      reads this
    {
      Ledger(tokens, balances, allowances)
    }

    constructor ()
      ensures View() == Ledger(map[], map[], map[])
    {
      tokens, balances, allowances := map[], map[], map[];
    }

    method DeployToken(derive: Deriver, deployer: Address, nonce: nat, params: Deployment, height: nat)
      returns (error: Option<Error>, address: Address)
      modifies this
      ensures error == Refusal(derive, old(View()), Deploy(deployer, nonce, params, height))
      ensures View() == Apply(derive, old(View()), Deploy(deployer, nonce, params, height))
      ensures error.None? ==> address == derive(deployer, nonce)
    {
      address := [];
      if params.name == [] || |params.name| > 64 {
        return Some(InvalidName), address;
      }
      if params.symbol == [] || |params.symbol| > 12 {
        return Some(InvalidSymbol), address;
      }
      if params.decimals > 18 {
        return Some(InvalidDecimals), address;
      }
      if params.totalSupply == 0 {
        return Some(InvalidSupply), address;
      }
      address := derive(deployer, nonce);
      if address in tokens {
        return Some(AlreadyExists), address;
      }
      var info := Info(address, params.name, params.symbol, params.decimals, params.totalSupply, deployer, height);
      tokens := tokens[address := info];
      balances := balances[(address, deployer) := params.totalSupply];
      error := None;
    }

    method TransferTokens(ghost derive: Deriver, token: Address, owner: Address, to: Address, amount: nat)
      returns (error: Option<Error>)
      modifies this`balances
      ensures error == Refusal(derive, old(View()), Transfer(token, owner, to, amount))
      ensures View() == Apply(derive, old(View()), Transfer(token, owner, to, amount))
    {
      if token !in tokens {
        return Some(TokenNotFound);
      }
      if owner == to {
        return Some(SelfTransfer);
      }
      if amount == 0 {
        return Some(ZeroAmount);
      }
      var held := BalanceOf(balances, token, owner);
      if held < amount {
        return Some(InsufficientBalance);
      }
      balances := balances[(token, owner) := held - amount];
      var credited := BalanceOf(balances, token, to);
      balances := balances[(token, to) := credited + amount];
      return None;
    }

    method ApproveSpender(ghost derive: Deriver, token: Address, owner: Address, spender: Address, amount: nat)
      returns (error: Option<Error>)
      modifies this`allowances
      ensures error == Refusal(derive, old(View()), Approve(token, owner, spender, amount))
      ensures View() == Apply(derive, old(View()), Approve(token, owner, spender, amount))
    {
      if token !in tokens {
        return Some(TokenNotFound);
      }
      allowances := allowances[(token, owner, spender) := amount];
      return None;
    }

    method TransferTokensFrom(ghost derive: Deriver, token: Address, spender: Address, owner: Address, to: Address, amount: nat)
      returns (error: Option<Error>)
      modifies this`balances, this`allowances
      ensures error == Refusal(derive, old(View()), TransferFrom(token, spender, owner, to, amount))
      ensures View() == Apply(derive, old(View()), TransferFrom(token, spender, owner, to, amount))
    {
      if token !in tokens {
        return Some(TokenNotFound);
      }
      if amount == 0 {
        return Some(ZeroAmount);
      }
      var key := (token, owner, spender);
      var allowance := if key in allowances then allowances[key] else 0;
      if allowance < amount {
        return Some(InsufficientAllowance);
      }
      var held := BalanceOf(balances, token, owner);
      if held < amount {
        return Some(InsufficientBalance);
      }
      balances := balances[(token, owner) := held - amount];
      var credited := BalanceOf(balances, token, to);
      balances := balances[(token, to) := credited + amount];
      allowances := allowances[key := allowance - amount];
      return None;
    }
  }

  // ---------------------------------------------------------------------------
  // Conservation

  /** The sum of one token's balances. */
  ghost function Total(balances: map<(Address, Address), nat>, token: Address): nat
  {
    if balances == map[] then 0
    else
      var k :| k in balances;
      (if k.0 == token then balances[k] else 0) + Total(balances - {k}, token)
  }

  lemma {:induction false} TotalRemove(b: map<(Address, Address), nat>, token: Address, k: (Address, Address))
    requires k in b
    ensures Total(b, token) == (if k.0 == token then b[k] else 0) + Total(b - {k}, token)
    decreases |b|
  {
    var c :| c in b && Total(b, token) == (if c.0 == token then b[c] else 0) + Total(b - {c}, token);
    if c != k {
      assert (b - {c}).Keys == b.Keys - {c} && (b - {k}).Keys == b.Keys - {k};
      TotalRemove(b - {c}, token, k);
      TotalRemove(b - {k}, token, c);
      assert b - {c} - {k} == b - {k} - {c};
    }
  }

  /** Writing one balance changes its token's total by the difference and no other total. */
  lemma TotalWrite(b: map<(Address, Address), nat>, token: Address, t: Address, owner: Address, x: nat)
    ensures Total(b[(t, owner) := x], token)
         == Total(b, token) + (if t == token then x - BalanceOf(b, t, owner) else 0)
  {
    var k := (t, owner);
    var b' := b[k := x];
    TotalRemove(b', token, k);
    assert b' - {k} == b - {k};
    if k in b {
      TotalRemove(b, token, k);
    } else {
      assert b - {k} == b;
    }
  }

  lemma MoveKeepsTotals(b: map<(Address, Address), nat>, token: Address, t: Address, owner: Address, to: Address, amount: nat)
    requires BalanceOf(b, t, owner) >= amount
    ensures Total(Move(b, t, owner, to, amount), token) == Total(b, token)
  {
    var debited := b[(t, owner) := BalanceOf(b, t, owner) - amount];
    TotalWrite(b, token, t, owner, BalanceOf(b, t, owner) - amount);
    TotalWrite(debited, token, t, to, BalanceOf(debited, t, to) + amount);
  }

  /** No balance exceeds its token's total, nor do two owners' together. */
  lemma BalancesWithinTotal(b: map<(Address, Address), nat>, token: Address, x: Address, y: Address)
    ensures BalanceOf(b, token, x) <= Total(b, token)
    ensures x != y ==> BalanceOf(b, token, x) + BalanceOf(b, token, y) <= Total(b, token)
  {
    TotalWrite(b, token, token, x, 0);
    TotalWrite(b[(token, x) := 0], token, token, y, 0);
  }

  /** Every token's balances sum to its supply, which fits 64 bits, and only known tokens have balances. */
  ghost predicate Conserved(l: Ledger)
  {
    && (forall t :: t in l.tokens ==> Total(l.balances, t) == l.tokens[t].totalSupply <= U64_MAX)
    && (forall k :: k in l.balances ==> k.0 in l.tokens)
  }

  /** The `u64` argument of a call. */
  function Amount(op: Op): nat
  {
    if op.Deploy? then op.params.totalSupply else op.amount
  }

  lemma {:induction false} TotalOfUnknown(b: map<(Address, Address), nat>, token: Address)
    requires forall k :: k in b ==> k.0 != token
    ensures Total(b, token) == 0
    decreases |b|
  {
    if b != map[] {
      var k :| k in b;
      TotalRemove(b, token, k);
      assert (b - {k}).Keys == b.Keys - {k};
      TotalOfUnknown(b - {k}, token);
    }
  }

  lemma DeployConserves(derive: Deriver, l: Ledger, op: Op)
    requires Conserved(l) && op.Deploy? && Amount(op) <= U64_MAX && Refusal(derive, l, op).None?
    ensures Conserved(Apply(derive, l, op))
  {
    var a := derive(op.deployer, op.nonce);
    var l' := Apply(derive, l, op);
    TotalOfUnknown(l.balances, a);
    forall t | t in l'.tokens ensures Total(l'.balances, t) == l'.tokens[t].totalSupply <= U64_MAX {
      TotalWrite(l.balances, t, a, op.deployer, op.params.totalSupply);
    }
  }

  lemma MoveConserves(l: Ledger, l': Ledger, token: Address, owner: Address, to: Address, amount: nat)
    requires Conserved(l) && token in l.tokens && BalanceOf(l.balances, token, owner) >= amount
    requires l'.tokens == l.tokens && l'.balances == Move(l.balances, token, owner, to, amount)
    ensures Conserved(l')
  {
    forall t | t in l'.tokens ensures Total(l'.balances, t) == l'.tokens[t].totalSupply <= U64_MAX {
      MoveKeepsTotals(l.balances, t, token, owner, to, amount);
    }
  }

  lemma StepConserves(derive: Deriver, l: Ledger, op: Op)
    requires Conserved(l) && Amount(op) <= U64_MAX
    ensures Conserved(Apply(derive, l, op))
  {
    if Refusal(derive, l, op).None? {
      var l' := Apply(derive, l, op);
      match op
      case Deploy(_, _, _, _) => DeployConserves(derive, l, op);
      case Transfer(token, owner, to, amount) => MoveConserves(l, l', token, owner, to, amount);
      case Approve(_, _, _, _) =>
      case TransferFrom(token, _, owner, to, amount) => MoveConserves(l, l', token, owner, to, amount);
    }
  }

  /** The ledger after performing the operations on an empty one. */
  function Run(derive: Deriver, ops: seq<Op>): Ledger
  {
    if ops == [] then Ledger(map[], map[], map[])
    else Apply(derive, Run(derive, ops[..|ops| - 1]), ops[|ops| - 1])
  }

  ghost predicate Fits(ops: seq<Op>)
  {
    forall op :: op in ops ==> Amount(op) <= U64_MAX
  }

  /** Conservation: after any run, every token's balances sum to the supply it was deployed with. */
  lemma {:induction false} SupplyIsConserved(derive: Deriver, ops: seq<Op>)
    requires Fits(ops)
    ensures Conserved(Run(derive, ops))
  {
    if ops != [] {
      SupplyIsConserved(derive, ops[..|ops| - 1]);
      StepConserves(derive, Run(derive, ops[..|ops| - 1]), ops[|ops| - 1]);
    }
  }

  /** Hence the credit of an accepted payment, to anyone, never leaves 64 bits. */
  lemma CreditNeverOverflows(derive: Deriver, ops: seq<Op>, op: Op)
    requires Fits(ops) && (op.Transfer? || op.TransferFrom?)
    requires var l := Run(derive, ops); Refusal(derive, l, op).None?
    ensures var b := Run(derive, ops).balances;
            var debited := b[(op.token, op.owner) := BalanceOf(b, op.token, op.owner) - op.amount];
            BalanceOf(debited, op.token, op.to) + op.amount <= U64_MAX
  {
    SupplyIsConserved(derive, ops);
    var b := Run(derive, ops).balances;
    BalancesWithinTotal(b, op.token, op.owner, op.to);
  }
}
