/** Pool and execution agree: what the pool takes as an account's next transaction passes every check of the state
    transition and can pay what it sends. */
module Executability {
  import opened Basics
  import opened Transactions
  import opened PoolState
  import opened Intrinsic
  import Admission
  import Gas

  /** The message a transaction becomes in a block. */
  function MessageOf(tx: Tx, to: Address): Gas.Message
    requires tx.value >= 0
  {
    Gas.Message(tx.sender, if tx.create then None else Some(to), tx.price, tx.gas, tx.value, tx.nonce, true, tx.data)
  }

  /** The pool's view of an account is that of the executed state. */
  ghost predicate Agrees(w: Gas.World, state: ChainState, a: Address) {
    Gas.BalanceOf(w, a) == state.Balance(a) && Gas.NonceOf(w, a) == state.Nonce(a)
  }

  /** After paying for its gas the sender still has what it sends. */
  ghost predicate Covered(w: Gas.World, msg: Gas.Message, rules: Gas.Rules) {
    msg.value <= Gas.BalanceOf(Gas.Presented(w, msg, rules).world, msg.from)
  }

  /** The pool's test of a pending transaction is exactly that its sender can buy its gas, in a block of that gas limit,
      and then pay what it sends. */
  lemma PayableMeans(tx: Tx, to: Address, w: Gas.World, state: ChainState, gasLimit: nat, rules: Gas.Rules)
    requires tx.value >= 0 && Agrees(w, state, tx.sender)
    ensures Payable(tx, state.Balance(tx.sender), gasLimit) <==>
              && tx.gas * tx.price <= Gas.BalanceOf(w, tx.sender) && tx.gas <= gasLimit
              && Covered(w, MessageOf(tx, to), rules)
  {
    Commute(tx.gas, tx.price);
  }

  lemma Commute(x: nat, y: nat)
    ensures x * y == y * x
  {
  }

  /** A transaction that the pool admits and whose turn it is passes every check in a block with room for its gas. */
  lemma AdmittedPasses(g: Admission.Gate, tx: Tx, local: bool, to: Address, w: Gas.World, available: nat,
                       rules: Gas.Rules)
    requires Admission.Admissible(g, tx, local) && Agrees(w, g.state, tx.sender)
    requires tx.nonce == g.state.Nonce(tx.sender) && tx.gas <= available
    requires rules.homestead && rules.istanbul == g.istanbul
    ensures Gas.Checked(w, MessageOf(tx, to), available, rules) && Covered(w, MessageOf(tx, to), rules)
  {
    PayableMeans(tx, to, w, g.state, g.maxGas, rules);
  }

  /** One whose turn has passed, or has not come, does not. */
  lemma OthersFail(tx: Tx, to: Address, w: Gas.World, state: ChainState, available: nat, rules: Gas.Rules)
    requires tx.value >= 0 && Agrees(w, state, tx.sender) && tx.nonce != state.Nonce(tx.sender)
    ensures !Gas.Checked(w, MessageOf(tx, to), available, rules)
  {
  }
}
