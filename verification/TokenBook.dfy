/**
The token registry kept as a book (`src/token/mod.rs`): which operations of a history are accepted,
and what everyone then holds and may draw, computed from the operations alone. The registry agrees
with the book after every run and on the answer to every further operation.
*/
module TokenBook {
  import opened Common
  import opened Token

  // ---------------------------------------------------------------------------
  // The book: all of it looks at earlier operations only

  /** An accepted deployment among the first `n` operations gave the token this address. */
  predicate Deployed(derive: Deriver, ops: seq<Op>, n: nat, token: Address)
    requires n <= |ops|
    decreases n, 0
  {
    n > 0 && (Deployed(derive, ops, n - 1, token)
              || (ops[n - 1].Deploy? && derive(ops[n - 1].deployer, ops[n - 1].nonce) == token && Stands(derive, ops, n - 1)))
  }

  /** All that accepted deployments and payments have brought to an account. */
  function Received(derive: Deriver, ops: seq<Op>, n: nat, token: Address, who: Address): nat
    requires n <= |ops|
    decreases n, 0
  {
    if n == 0 then 0
    else
      var before := Received(derive, ops, n - 1, token, who);
      if !Stands(derive, ops, n - 1) then before else before + Credit(derive, ops[n - 1], token, who)
  }

  /** What an accepted operation brings to an account: a deployment's supply or a payment received. */
  function Credit(derive: Deriver, op: Op, token: Address, who: Address): nat
  {
    match op
    case Deploy(deployer, nonce, params, _) =>
      if derive(deployer, nonce) == token && deployer == who then params.totalSupply else 0
    case Approve(_, _, _, _) => 0
    case Transfer(t, _, to, amount) => if t == token && to == who then amount else 0
    case TransferFrom(t, _, _, to, amount) => if t == token && to == who then amount else 0
  }

  /** All that accepted payments have taken from it, payments to itself included. */
  function Paid(derive: Deriver, ops: seq<Op>, n: nat, token: Address, who: Address): nat
    requires n <= |ops|
    decreases n, 0
  {
    if n == 0 then 0
    else
      var before := Paid(derive, ops, n - 1, token, who);
      if !Stands(derive, ops, n - 1) then before else before + Debit(ops[n - 1], token, who)
  }

  /** What it takes away: a payment made. */
  function Debit(op: Op, token: Address, who: Address): nat
  {
    match op
    case Deploy(_, _, _, _) => 0
    case Approve(_, _, _, _) => 0
    case Transfer(t, owner, _, amount) => if t == token && owner == who then amount else 0
    case TransferFrom(t, _, owner, _, amount) => if t == token && owner == who then amount else 0
  }

  /** The amount of the last accepted approval. */
  function Approved(derive: Deriver, ops: seq<Op>, n: nat, token: Address, owner: Address, spender: Address): nat
    requires n <= |ops|
    decreases n, 0
  {
    if n == 0 then 0
    else
      var op := ops[n - 1];
      if op.Approve? && op.token == token && op.owner == owner && op.spender == spender && Stands(derive, ops, n - 1)
      then op.amount
      else Approved(derive, ops, n - 1, token, owner, spender)
  }

  /** What the spender has drawn since then. */
  function Drawn(derive: Deriver, ops: seq<Op>, n: nat, token: Address, owner: Address, spender: Address): nat
    requires n <= |ops|
    decreases n, 0
  {
    if n == 0 then 0
    else
      var before, op := Drawn(derive, ops, n - 1, token, owner, spender), ops[n - 1];
      if !Stands(derive, ops, n - 1) then before
      else if op.Approve? && op.token == token && op.owner == owner && op.spender == spender then 0
      else if op.TransferFrom? && op.token == token && op.owner == owner && op.spender == spender then before + op.amount
      else before
  }

  /** Operation `n` is accepted. */
  predicate Stands(derive: Deriver, ops: seq<Op>, n: nat)
    requires n < |ops|
    decreases n, 1
  {
    var op := ops[n];
    if op.Deploy? then
      && 1 <= |op.params.name| <= 64 && 1 <= |op.params.symbol| <= 12
      && op.params.decimals <= 18 && op.params.totalSupply >= 1
      && !Deployed(derive, ops, n, derive(op.deployer, op.nonce))
    else if op.Approve? then
      Deployed(derive, ops, n, op.token)
    else if op.Transfer? then
      && Deployed(derive, ops, n, op.token) && op.owner != op.to && op.amount >= 1
      && Paid(derive, ops, n, op.token, op.owner) + op.amount <= Received(derive, ops, n, op.token, op.owner)
    else
      && Deployed(derive, ops, n, op.token) && op.amount >= 1
      && Drawn(derive, ops, n, op.token, op.owner, op.spender) + op.amount
         <= Approved(derive, ops, n, op.token, op.owner, op.spender)
      && Paid(derive, ops, n, op.token, op.owner) + op.amount <= Received(derive, ops, n, op.token, op.owner)
  }

  // ---------------------------------------------------------------------------
  // The registry agrees

  ghost predicate TokensAgree(derive: Deriver, ops: seq<Op>, n: nat, l: Ledger)
    requires n <= |ops|
  {
    forall token {:trigger Deployed(derive, ops, n, token)} :: token in l.tokens <==> Deployed(derive, ops, n, token)
  }

  ghost predicate BalanceAgrees(derive: Deriver, ops: seq<Op>, n: nat, l: Ledger, token: Address, who: Address)
    requires n <= |ops|
  {
    BalanceOf(l.balances, token, who) + Paid(derive, ops, n, token, who) == Received(derive, ops, n, token, who)
  }

  ghost predicate AllowanceAgrees(derive: Deriver, ops: seq<Op>, n: nat, l: Ledger, token: Address, owner: Address, spender: Address)
    requires n <= |ops|
  {
    AllowanceOf(l, token, owner, spender) + Drawn(derive, ops, n, token, owner, spender)
    == Approved(derive, ops, n, token, owner, spender)
  }

  ghost predicate Agrees(derive: Deriver, ops: seq<Op>, n: nat, l: Ledger)
    requires n <= |ops|
  {
    && TokensAgree(derive, ops, n, l)
    && (forall token, who {:trigger BalanceAgrees(derive, ops, n, l, token, who)} :: BalanceAgrees(derive, ops, n, l, token, who))
    && (forall token, owner, spender {:trigger AllowanceAgrees(derive, ops, n, l, token, owner, spender)} ::
          AllowanceAgrees(derive, ops, n, l, token, owner, spender))
    && (forall k :: k in l.balances ==> k.0 in l.tokens)
  }

  /** An agreeing registry accepts exactly what stands. */
  lemma AcceptsWhatStands(derive: Deriver, ops: seq<Op>, n: nat, l: Ledger)
    requires n < |ops| && Agrees(derive, ops, n, l)
    ensures Refusal(derive, l, ops[n]).None? <==> Stands(derive, ops, n)
  {
    var op := ops[n];
    if op.Deploy? {
      var a := derive(op.deployer, op.nonce);
      assert Deployed(derive, ops, n, a) <==> a in l.tokens;
    } else {
      assert Deployed(derive, ops, n, op.token) <==> op.token in l.tokens;
      assert BalanceAgrees(derive, ops, n, l, op.token, op.owner);
      if !op.Transfer? { assert AllowanceAgrees(derive, ops, n, l, op.token, op.owner, op.spender); }
    }
  }

  lemma BalanceStep(derive: Deriver, ops: seq<Op>, n: nat, l: Ledger, token: Address, who: Address)
    requires n < |ops| && Agrees(derive, ops, n, l)
    ensures BalanceAgrees(derive, ops, n + 1, Apply(derive, l, ops[n]), token, who)
  {
    AcceptsWhatStands(derive, ops, n, l);
    assert BalanceAgrees(derive, ops, n, l, token, who);
  }

  lemma AllowanceStep(derive: Deriver, ops: seq<Op>, n: nat, l: Ledger, token: Address, owner: Address, spender: Address)
    requires n < |ops| && Agrees(derive, ops, n, l)
    ensures AllowanceAgrees(derive, ops, n + 1, Apply(derive, l, ops[n]), token, owner, spender)
  {
    AcceptsWhatStands(derive, ops, n, l);
    assert AllowanceAgrees(derive, ops, n, l, token, owner, spender);
  }

  lemma TokensStep(derive: Deriver, ops: seq<Op>, n: nat, l: Ledger)
    requires n < |ops| && Agrees(derive, ops, n, l)
    ensures var m, l' := n + 1, Apply(derive, l, ops[n]);
            TokensAgree(derive, ops, m, l') && forall k :: k in l'.balances ==> k.0 in l'.tokens
  {
    var m, l' := n + 1, Apply(derive, l, ops[n]);
    AcceptsWhatStands(derive, ops, n, l);
    forall token
      ensures token in l'.tokens <==> Deployed(derive, ops, m, token)
    { assert token in l.tokens <==> Deployed(derive, ops, n, token); }
  }

  lemma AgreesNext(derive: Deriver, ops: seq<Op>, n: nat, l: Ledger)
    requires n < |ops| && Agrees(derive, ops, n, l)
    ensures Agrees(derive, ops, n + 1, Apply(derive, l, ops[n]))
  {
    var m, l' := n + 1, Apply(derive, l, ops[n]);
    TokensStep(derive, ops, n, l);
    forall token, who
      ensures BalanceAgrees(derive, ops, m, l', token, who)
    { BalanceStep(derive, ops, n, l, token, who); }
    forall token, owner, spender
      ensures AllowanceAgrees(derive, ops, m, l', token, owner, spender)
    { AllowanceStep(derive, ops, n, l, token, owner, spender); }
  }

  lemma {:induction false} RunAgrees(derive: Deriver, ops: seq<Op>, n: nat)
    requires n <= |ops|
    ensures Agrees(derive, ops, n, Run(derive, ops[..n]))
  {
    if n > 0 {
      RunAgrees(derive, ops, n - 1);
      assert ops[..n][..n - 1] == ops[..n - 1];
      AgreesNext(derive, ops, n - 1, Run(derive, ops[..n - 1]));
    }
  }

  /**
  After every run the registry is what the book says: the tokens are the deployed ones, every
  balance is what came in less what was paid, and every allowance is the amount approved less what
  was drawn since.
  */
  lemma RegistryIsBook(derive: Deriver, ops: seq<Op>, token: Address, who: Address, spender: Address)
    ensures var l, n := Run(derive, ops), |ops|;
            && (token in l.tokens <==> Deployed(derive, ops, n, token))
            && BalanceOf(l.balances, token, who) == Received(derive, ops, n, token, who) - Paid(derive, ops, n, token, who)
            && AllowanceOf(l, token, who, spender)
               == Approved(derive, ops, n, token, who, spender) - Drawn(derive, ops, n, token, who, spender)
  {
    RunAgrees(derive, ops, |ops|);
    assert ops[..|ops|] == ops;
    assert BalanceAgrees(derive, ops, |ops|, Run(derive, ops), token, who);
    assert AllowanceAgrees(derive, ops, |ops|, Run(derive, ops), token, who, spender);
    assert token in Run(derive, ops).tokens <==> Deployed(derive, ops, |ops|, token);
  }

  /**
  What every operation is answered after every run: the first of these that applies, in terms of
  the history before it; it is accepted when none does.
  */
  lemma AnswersFromHistory(derive: Deriver, ops: seq<Op>, n: nat)
    requires n < |ops|
    ensures Refusal(derive, Run(derive, ops[..n]), ops[n]) == Answer(derive, ops, n)
  {
    var l, op := Run(derive, ops[..n]), ops[n];
    RunAgrees(derive, ops, n);
    if op.Deploy? {
      var a := derive(op.deployer, op.nonce);
      assert Deployed(derive, ops, n, a) <==> a in l.tokens;
    } else {
      assert Deployed(derive, ops, n, op.token) <==> op.token in l.tokens;
      assert BalanceAgrees(derive, ops, n, l, op.token, op.owner);
      if !op.Transfer? { assert AllowanceAgrees(derive, ops, n, l, op.token, op.owner, op.spender); }
    }
  }

  /** The first refusal that the history gives operation `n`. */
  function Answer(derive: Deriver, ops: seq<Op>, n: nat): Option<Error>
    requires n < |ops|
  {
    var op := ops[n];
    if op.Deploy? then
      if |op.params.name| == 0 || |op.params.name| >= 65 then Some(InvalidName)
      else if |op.params.symbol| == 0 || |op.params.symbol| >= 13 then Some(InvalidSymbol)
      else if op.params.decimals >= 19 then Some(InvalidDecimals)
      else if op.params.totalSupply == 0 then Some(InvalidSupply)
      else if Deployed(derive, ops, n, derive(op.deployer, op.nonce)) then Some(AlreadyExists)
      else None
    else if !Deployed(derive, ops, n, op.token) then Some(TokenNotFound)
    else if op.Approve? then None
    else if op.Transfer? && op.owner == op.to then Some(SelfTransfer)
    else if op.amount == 0 then Some(ZeroAmount)
    else if op.TransferFrom?
            && Approved(derive, ops, n, op.token, op.owner, op.spender)
               < Drawn(derive, ops, n, op.token, op.owner, op.spender) + op.amount
    then Some(InsufficientAllowance)
    else if Received(derive, ops, n, op.token, op.owner) < Paid(derive, ops, n, op.token, op.owner) + op.amount
    then Some(InsufficientBalance)
    else None
  }

  /** An operation changes the registry, as the book says, if and only if it stands. */
  lemma AcceptedIff(derive: Deriver, ops: seq<Op>, n: nat)
    requires n < |ops|
    ensures Refusal(derive, Run(derive, ops[..n]), ops[n]).None? <==> Stands(derive, ops, n)
    ensures !Stands(derive, ops, n) ==> Run(derive, ops[..n + 1]) == Run(derive, ops[..n])
  {
    RunAgrees(derive, ops, n);
    AcceptsWhatStands(derive, ops, n, Run(derive, ops[..n]));
    assert ops[..n + 1][..n] == ops[..n];
  }

  /** No balance falls but by its owner's own transfer or by a spender within what the owner approved. */
  lemma OnlyOwnerOrSpenderDebits(derive: Deriver, ops: seq<Op>, n: nat, token: Address, who: Address)
    requires n < |ops|
    requires BalanceOf(Run(derive, ops[..n + 1]).balances, token, who) < BalanceOf(Run(derive, ops[..n]).balances, token, who)
    ensures var op := ops[n];
            || (op.Transfer? && op.token == token && op.owner == who)
            || (op.TransferFrom? && op.token == token && op.owner == who
                && Drawn(derive, ops, n, token, who, op.spender) + op.amount <= Approved(derive, ops, n, token, who, op.spender))
  {
    RunAgrees(derive, ops, n);
    RunAgrees(derive, ops, n + 1);
    assert BalanceAgrees(derive, ops, n, Run(derive, ops[..n]), token, who);
    assert BalanceAgrees(derive, ops, n + 1, Run(derive, ops[..n + 1]), token, who);
    AcceptsWhatStands(derive, ops, n, Run(derive, ops[..n]));
    assert ops[..n + 1][..n] == ops[..n];
    assert Stands(derive, ops, n);
  }

  // ---------------------------------------------------------------------------
  // Token records

  /** The accepted deployment that gave the token its address. */
  function DeployedBy(derive: Deriver, ops: seq<Op>, n: nat, token: Address): (r: Option<nat>)
    requires n <= |ops|
    ensures r.Some? ==> r.value < n && ops[r.value].Deploy?
  {
    if n == 0 then None
    else if ops[n - 1].Deploy? && derive(ops[n - 1].deployer, ops[n - 1].nonce) == token && Stands(derive, ops, n - 1)
    then Some(n - 1)
    else DeployedBy(derive, ops, n - 1, token)
  }

  /** Every token's record is what its one accepted deployment said, for good. */
  lemma {:induction false} RecordIsDeployment(derive: Deriver, ops: seq<Op>, n: nat, token: Address)
    requires n <= |ops|
    ensures var l, k := Run(derive, ops[..n]), DeployedBy(derive, ops, n, token);
            && (token in l.tokens <==> k.Some?)
            && (k.Some? ==>
                  var op := ops[k.value];
                  l.tokens[token] == Info(token, op.params.name, op.params.symbol, op.params.decimals, op.params.totalSupply,
                                          op.deployer, op.height))
  {
    if n > 0 {
      RecordIsDeployment(derive, ops, n - 1, token);
      RunAgrees(derive, ops, n - 1);
      AcceptsWhatStands(derive, ops, n - 1, Run(derive, ops[..n - 1]));
      assert ops[..n][..n - 1] == ops[..n - 1];
    }
  }
}
