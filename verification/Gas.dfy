/** Gas and balances while a block's transactions are executed (section 6.2 of the Ethereum
    Yellow Paper). The virtual machine is any function that returns no more gas than it was
    given and moves balances without creating or destroying any. */
module Gas {
  import opened Basics
  import opened Transactions
  import opened Intrinsic

  datatype Message = Message(from: Address, to: Option<Address>, price: nat, gas: nat, value: nat,
                             nonce: nat, checkNonce: bool, data: seq<Byte>)
  {
    /** Gas limits are 64-bit. */
    predicate Fits() { gas <= MAX_UINT64 }
  }

  datatype Rules = Rules(homestead: bool, istanbul: bool)

  /** Account balances and nonces; an unknown account has zero of both. */
  datatype World = World(balances: map<Address, nat>, nonces: map<Address, nat>)

  function BalanceOf(w: World, a: Address): nat {
    if a in w.balances then w.balances[a] else 0
  }

  function WithBalance(w: World, a: Address, v: nat): World {
    w.(balances := w.balances[a := v])
  }

  function Credit(w: World, a: Address, v: nat): World {
    WithBalance(w, a, BalanceOf(w, a) + v)
  }

  function NonceOf(w: World, a: Address): nat {
    if a in w.nonces then w.nonces[a] else 0
  }

  function WithNonce(w: World, a: Address, n: nat): World {
    w.(nonces := w.nonces[a := n])
  }

  ghost function Sum(m: map<Address, nat>): nat {
    if m == map[] then 0
    else
      var k :| k in m;
      m[k] + Sum(m - {k})
  }

  /** The sum of all balances. */
  ghost function Total(w: World): nat { Sum(w.balances) }

  lemma {:induction false} SumPick(m: map<Address, nat>, k: Address)
    requires k in m
    ensures Sum(m) == m[k] + Sum(m - {k})
    decreases m
  {
    var j :| j in m && Sum(m) == m[j] + Sum(m - {j});
    if j != k {
      SumPick(m - {j}, k);
      SumPick(m - {k}, j);
      assert m - {j} - {k} == m - {k} - {j};
    }
  }

  lemma TotalUpdate(w: World, a: Address, v: nat)
    ensures Total(WithBalance(w, a, v)) == Total(w) - BalanceOf(w, a) + v
  {
    var m := w.balances;
    SumPick(m[a := v], a);
    assert m[a := v] - {a} == m - {a};
    if a in m {
      SumPick(m, a);
    } else {
      assert m - {a} == m;
    }
  }

  // ---- the virtual machine ----

  datatype Call = Call(msg: Message, gas: nat, world: World)

  datatype VmError = InsufficientBalance | OtherVmError

  datatype Execution = Execution(world: World, gasLeft: nat, refund: nat, err: Option<VmError>)

  datatype Vm = Vm(run: Call -> Execution)

  ghost predicate Honest(vm: Vm) {
    forall c: Call :: vm.run(c).gasLeft <= c.gas && Total(vm.run(c).world) == Total(c.world)
  }

  // ---- the block gas pool ----

  class GasPool {
    var gas: nat

    constructor ()
      ensures gas == 0
    {
      gas := 0;
    }

    /** The Go code panics when the sum leaves 64 bits; here that is a precondition, met by every call. */
    method AddGas(amount: nat)
      requires gas + amount <= MAX_UINT64
      modifies this
      ensures gas == old(gas) + amount
    {
      gas := gas + amount;
    }

    method SubGas(amount: nat) returns (ok: bool)
      modifies this
      ensures ok <==> amount <= old(gas)
      ensures gas == if ok then old(gas) - amount else old(gas)
    {
      ok := gas >= amount;
      if ok {
        gas := gas - amount;
      }
    }
  }

  // ---- one transaction ----

  datatype Failure = NonceTooHigh | NonceTooLow | InsufficientBalanceForGas | GasLimitReached | OutOfGas
                   | TransferFailed

  datatype Applied = Applied(usedGas: nat, failed: bool) | Rejected(reason: Failure)

  /** What a successful message costs: the sender buys `gas`, the machine leaves `left` of it, and at
      most half of what was used is refunded. */
  function UsedGas(gas: nat, left: nat, refund: nat): (used: nat)
    requires left <= gas
    ensures used <= gas - left <= 2 * used
    ensures 2 * refund <= gas - left ==> used + refund == gas - left
    ensures 2 * refund > gas - left ==> used == (gas - left + 1) / 2
  {
    var used := gas - left;
    used - (if used / 2 > refund then refund else used / 2)
  }

  function Minus(a: nat, b: nat): nat { if b <= a then a - b else 0 }

  function Fee(gas: nat, price: nat): nat { gas * price }

  lemma FeesAdd(x: nat, y: nat, price: nat)
    ensures Fee(x + y, price) == Fee(x, price) + Fee(y, price)
  {
  }

  /** The sender paid for its gas limit in advance. */
  function Charged(w: World, msg: Message): World {
    WithBalance(w, msg.from, Minus(BalanceOf(w, msg.from), Fee(msg.gas, msg.price)))
  }

  function IntrinsicCost(msg: Message, rules: Rules): nat {
    BaseGas(msg.to.None?, rules.homestead) + DataGas(msg.data, rules.istanbul)
  }

  /** What the virtual machine is given: the gas left after the intrinsic cost, and for a call (a creation
      does so itself) the sender's nonce already raised. */
  function Presented(w: World, msg: Message, rules: Rules): Call {
    var charged := Charged(w, msg);
    Call(msg, Minus(msg.gas, IntrinsicCost(msg, rules)),
         if msg.to.None? then charged else WithNonce(charged, msg.from, NonceOf(charged, msg.from) + 1))
  }

  /** Unused gas is paid back to the sender and used gas to the coinbase. */
  function Settled(w: World, msg: Message, coinbase: Address, used: nat): World {
    Credit(Credit(w, msg.from, Fee(Minus(msg.gas, used), msg.price)), coinbase, Fee(used, msg.price))
  }

  /** Does a message pass every check before the machine runs: nonce, funds, block gas and intrinsic cost. */
  ghost predicate Checked(w: World, msg: Message, available: nat, rules: Rules) {
    && (msg.checkNonce ==> NonceOf(w, msg.from) == msg.nonce)
    && msg.gas * msg.price <= BalanceOf(w, msg.from) && msg.gas <= available
    && IntrinsicCost(msg, rules) <= msg.gas
  }

  /** And the machine's first transfer too. */
  ghost predicate Passes(vm: Vm, w: World, msg: Message, available: nat, rules: Rules) {
    && Checked(w, msg, available, rules)
    && vm.run(Presented(w, msg, rules)).err != Some(InsufficientBalance)
  }

  /** The gas a message is charged for once it passed. */
  ghost function GasOf(vm: Vm, w: World, msg: Message, rules: Rules): nat {
    var run := vm.run(Presented(w, msg, rules));
    if run.gasLeft <= msg.gas then UsedGas(msg.gas, run.gasLeft, run.refund) else 0
  }

  /** The balances and nonces it leaves. */
  ghost function WorldAfter(vm: Vm, w: World, msg: Message, coinbase: Address, rules: Rules): World {
    Settled(vm.run(Presented(w, msg, rules)).world, msg, coinbase, GasOf(vm, w, msg, rules))
  }

  /** What the machine is handed, account by account: the sender has paid for its whole gas limit and, for a call, has
      the next nonce; the gas is what the intrinsic cost left of the limit; nothing else changed. */
  ghost predicate Handed(w: World, msg: Message, rules: Rules, c: Call) {
    && c.msg == msg && c.gas + IntrinsicCost(msg, rules) == msg.gas
    && (forall a :: BalanceOf(c.world, a) + (if a == msg.from then msg.gas * msg.price else 0) == BalanceOf(w, a))
    && (forall a :: NonceOf(c.world, a) == NonceOf(w, a) + if a == msg.from && msg.to.Some? then 1 else 0)
  }

  /** What it left is paid out, account by account: the sender gets back the price of the unused gas, the coinbase the
      price of the used gas, and nobody else anything. */
  ghost predicate PaidOut(w: World, msg: Message, coinbase: Address, used: nat, w': World) {
    && w'.nonces == w.nonces && used <= msg.gas
    && forall a :: BalanceOf(w', a) == BalanceOf(w, a) + (if a == msg.from then (msg.gas - used) * msg.price else 0) +
                                       (if a == coinbase then used * msg.price else 0)
  }

  lemma PresentedIsHanded(vm: Vm, w: World, msg: Message, available: nat, rules: Rules)
    requires Passes(vm, w, msg, available, rules)
    ensures Handed(w, msg, rules, Presented(w, msg, rules))
  {
  }

  lemma SettledIsPaidOut(w: World, msg: Message, coinbase: Address, used: nat)
    requires used <= msg.gas
    ensures PaidOut(w, msg, coinbase, used, Settled(w, msg, coinbase, used))
  {
  }

  class StateTransition {
    const gp: GasPool
    const msg: Message
    var world: World
    var gas: nat
    var initialGas: nat

    constructor (gp: GasPool, msg: Message, world: World)
      ensures this.gp == gp && this.msg == msg && this.world == world && gas == initialGas == 0
    {
      this.gp, this.msg, this.world := gp, msg, world;
      gas, initialGas := 0, 0;
    }

    function GasUsed(): nat
      requires gas <= initialGas
      reads this
    {
      initialGas - gas
    }

    method UseGas(amount: nat) returns (ok: bool)
      modifies this`gas
      ensures ok <==> amount <= old(gas)
      ensures gas == if ok then old(gas) - amount else old(gas)
    {
      ok := gas >= amount;
      if ok {
        gas := gas - amount;
      }
    }

    /** Takes the gas from the block's pool and pays for it in advance. */
    method BuyGas() returns (err: Option<Failure>)
      requires gas == 0
      modifies this`gas, this`initialGas, this`world, gp
      ensures err.None? <==> Fee(msg.gas, msg.price) <= BalanceOf(old(world), msg.from) && msg.gas <= old(gp.gas)
      ensures err == Some(InsufficientBalanceForGas) <==> BalanceOf(old(world), msg.from) < Fee(msg.gas, msg.price)
      ensures err.None? || err == Some(InsufficientBalanceForGas) || err == Some(GasLimitReached)
      ensures err.None? ==>
                && gas == initialGas == msg.gas && gp.gas == old(gp.gas) - msg.gas
                && world == Charged(old(world), msg) && Total(world) == old(Total(world)) - Fee(msg.gas, msg.price)
      ensures err.Some? ==> gp.gas == old(gp.gas) && world == old(world)
    {
      var cost := Fee(msg.gas, msg.price);
      var balance := BalanceOf(world, msg.from);
      if balance < cost {
        return Some(InsufficientBalanceForGas);
      }
      var ok := gp.SubGas(msg.gas);
      if !ok {
        return Some(GasLimitReached);
      }
      gas := gas + msg.gas;
      initialGas := msg.gas;
      TotalUpdate(world, msg.from, balance - cost);
      world := WithBalance(world, msg.from, balance - cost);
      return None;
    }

    method PreCheck() returns (err: Option<Failure>)
      requires gas == 0
      modifies this`gas, this`initialGas, this`world, gp
      ensures err.None? <==>
                && (msg.checkNonce ==> NonceOf(old(world), msg.from) == msg.nonce)
                && Fee(msg.gas, msg.price) <= BalanceOf(old(world), msg.from) && msg.gas <= old(gp.gas)
      ensures err == Some(NonceTooHigh) <==> msg.checkNonce && NonceOf(old(world), msg.from) < msg.nonce
      ensures err == Some(NonceTooLow) <==> msg.checkNonce && NonceOf(old(world), msg.from) > msg.nonce
      ensures err.None? ==>
                && gas == initialGas == msg.gas && gp.gas == old(gp.gas) - msg.gas
                && world == Charged(old(world), msg) && Total(world) == old(Total(world)) - Fee(msg.gas, msg.price)
      ensures err.Some? ==> gp.gas == old(gp.gas) && world == old(world)
    {
      if msg.checkNonce {
        var nonce := NonceOf(world, msg.from);
        if nonce < msg.nonce {
          return Some(NonceTooHigh);
        } else if nonce > msg.nonce {
          return Some(NonceTooLow);
        }
      }
      err := BuyGas();
    }

    /** Returns unused gas, with the capped refund, to the sender and to the block's pool. */
    method RefundGas(counter: nat)
      requires gas <= initialGas && gp.gas + initialGas <= MAX_UINT64
      modifies this`gas, this`world, gp
      ensures gas == initialGas - UsedGas(initialGas, old(gas), counter) && gp.gas == old(gp.gas) + gas
      ensures world == Credit(old(world), msg.from, Fee(gas, msg.price)) &&
              Total(world) == old(Total(world)) + Fee(gas, msg.price)
    {
      var refund := GasUsed() / 2;
      if refund > counter {
        refund := counter;
      }
      gas := gas + refund;
      TotalUpdate(world, msg.from, BalanceOf(world, msg.from) + Fee(gas, msg.price));
      world := Credit(world, msg.from, Fee(gas, msg.price));
      gp.AddGas(gas);
    }

    /** Pays the fee; with the refund that makes up what the sender paid in advance. */
    method Pay(coinbase: Address)
      requires gas <= initialGas
      modifies this`world
      ensures world == Credit(old(world), coinbase, Fee(GasUsed(), msg.price))
      ensures Total(world) + Fee(gas, msg.price) == old(Total(world)) + Fee(initialGas, msg.price)
    {
      FeesAdd(GasUsed(), gas, msg.price);
      TotalUpdate(world, coinbase, BalanceOf(world, coinbase) + Fee(GasUsed(), msg.price));
      world := Credit(world, coinbase, Fee(GasUsed(), msg.price));
    }

    /** The part of TransitionDb before the virtual machine runs. */
    method Prepare(rules: Rules) returns (err: Option<Failure>)
      requires gas == 0 && msg.Fits() && gp.gas <= MAX_UINT64
      modifies this, gp
      ensures err.None? <==> Checked(old(world), msg, old(gp.gas), rules)
      ensures err.None? ==>
                && Call(msg, gas, world) == Presented(old(world), msg, rules) && initialGas == msg.gas
                && gp.gas == old(gp.gas) - msg.gas && Total(world) == old(Total(world)) - Fee(msg.gas, msg.price)
      ensures gp.gas <= old(gp.gas)
    {
      err := PreCheck();
      if err.Some? {
        return;
      }
      var intrinsic := IntrinsicGas(msg.data, msg.to.None?, rules.homestead, rules.istanbul);
      if intrinsic.OutOfGas? {
        return Some(Failure.OutOfGas);
      }
      var ok := UseGas(intrinsic.amount);
      if !ok {
        return Some(Failure.OutOfGas);
      }
      if msg.to.Some? {
        world := WithNonce(world, msg.from, NonceOf(world, msg.from) + 1);
      }
    }

    /** Executes the message. A success leaves the sum of balances, and of pool and used gas, as they were;
        it happens exactly when the checks pass and the machine could make the first transfer. */
    method TransitionDb(vm: Vm, coinbase: Address, rules: Rules) returns (r: Applied)
      requires gas == 0 && msg.Fits() && gp.gas <= MAX_UINT64 && Honest(vm)
      modifies this, gp
      ensures r.Applied? <==> Passes(vm, old(world), msg, old(gp.gas), rules)
      ensures r.Applied? ==> gp.gas + r.usedGas == old(gp.gas) && Total(world) == old(Total(world))
      ensures r.Applied? ==> r.usedGas <= msg.gas && IntrinsicCost(msg, rules) <= 2 * r.usedGas
      ensures r.Applied? ==>
                && r.usedGas == GasOf(vm, old(world), msg, rules) &&
                   world == WorldAfter(vm, old(world), msg, coinbase, rules)
                && r.failed == vm.run(Presented(old(world), msg, rules)).err.Some?
      ensures r.Applied? ==>
                var c := Presented(old(world), msg, rules);
                Handed(old(world), msg, rules, c) && PaidOut(vm.run(c).world, msg, coinbase, r.usedGas, world)
    {
      var err := Prepare(rules);
      if err.Some? {
        return Rejected(err.value);
      }
      var run := vm.run(Call(msg, gas, world));
      world, gas := run.world, run.gasLeft;
      if run.err == Some(InsufficientBalance) {
        return Rejected(TransferFailed);
      }
      RefundGas(run.refund);
      Pay(coinbase);
      PresentedIsHanded(vm, old(world), msg, old(gp.gas), rules);
      SettledIsPaidOut(run.world, msg, coinbase, GasUsed());
      r := Applied(GasUsed(), run.err.Some?);
    }
  }

  // ---- a block ----

  datatype Receipt = Receipt(cumulative: nat, gasUsed: nat, failed: bool)

  /** The gas of the first k receipts together. */
  function GasSum(receipts: seq<Receipt>, k: nat): nat
    requires k <= |receipts|
  {
    if k == 0 then 0 else GasSum(receipts, k - 1) + receipts[k - 1].gasUsed
  }

  /** Each receipt carries the prefix sum up to and including its own gas. */
  ghost predicate PrefixSums(receipts: seq<Receipt>) {
    forall i :: 0 <= i < |receipts| ==> receipts[i].cumulative == GasSum(receipts, i + 1)
  }

  datatype Block = Block(gasLimit: nat, coinbase: Address, messages: seq<Message>)

  datatype Processed = Processed(receipts: seq<Receipt>, usedGas: nat, world: World) | Invalid(at: nat, reason: Failure)

  /** Applies one message on top of `usedGas`. */
  method ApplyTransaction(vm: Vm, gp: GasPool, msg: Message, world: World, usedGas: nat, block: Block, rules: Rules)
    returns (after: World, r: Option<Receipt>, reason: Failure)
    requires Honest(vm) && msg.Fits() && gp.gas + usedGas == block.gasLimit <= MAX_UINT64
    modifies gp
    ensures r.Some? ==> Moves(vm, rules, block, world, msg, usedGas, r.value, after)
    ensures r.None? ==> Stuck(vm, rules, block, world, msg, usedGas)
    ensures r.Some? ==> gp.gas + r.value.cumulative == block.gasLimit && Total(after) == Total(world)
    ensures r.Some? ==>
              var c := Presented(world, msg, rules);
              Handed(world, msg, rules, c) && PaidOut(vm.run(c).world, msg, block.coinbase, r.value.gasUsed, after)
  {
    var st := new StateTransition(gp, msg, world);
    var applied := st.TransitionDb(vm, block.coinbase, rules);
    after := st.world;
    match applied
    case Rejected(why) => return after, None, why;
    case Applied(gas, failed) => return after, Some(Receipt(usedGas + gas, gas, failed)), TransferFailed;
  }

  // ---- the DAO fork ----

  /** The accounts a fork drains, and the account it drains them into. */
  datatype DaoFork = DaoFork(drained: seq<Address>, refund: Address)

  function DrainOne(w: World, a: Address, refund: Address): World {
    WithBalance(Credit(w, refund, BalanceOf(w, a)), a, 0)
  }

  function Drain(w: World, drained: seq<Address>, refund: Address): World {
    if drained == [] then w else DrainOne(Drain(w, drained[..|drained| - 1], refund), drained[|drained| - 1], refund)
  }

  method ApplyDAOHardFork(state: World, fork: DaoFork) returns (w: World)
    ensures w == Drain(state, fork.drained, fork.refund)
  {
    w := state;
    for i := 0 to |fork.drained|
      invariant w == Drain(state, fork.drained[..i], fork.refund)
    {
      assert fork.drained[..i + 1][..i] == fork.drained[..i];
      w := Credit(w, fork.refund, BalanceOf(w, fork.drained[i]));
      w := WithBalance(w, fork.drained[i], 0);
    }
    assert fork.drained[..|fork.drained|] == fork.drained;
  }

  /** A refund account that is not drained itself receives everything; the others are left empty. */
  lemma {:induction false} DrainMoves(w: World, drained: seq<Address>, refund: Address)
    requires refund !in drained
    ensures var w' := Drain(w, drained, refund);
            && Total(w') == Total(w) && w'.nonces == w.nonces
            && (forall a :: a in drained ==> BalanceOf(w', a) == 0)
            && (forall a :: a !in drained && a != refund ==> BalanceOf(w', a) == BalanceOf(w, a))
  {
    if drained != [] {
      var n := |drained| - 1;
      var init, a := drained[..n], drained[n];
      assert drained == init + [a];
      DrainMoves(w, init, refund);
      var before := Drain(w, init, refund);
      TotalUpdate(before, refund, BalanceOf(before, refund) + BalanceOf(before, a));
      TotalUpdate(Credit(before, refund, BalanceOf(before, a)), a, 0);
    }
  }

  // ---- a whole block ----

  // Always true; folds the definition below.
  predicate OpenStep(key: int) { true }

  /** On top of `used` gas of the block, the message passes, leads from one world to the other and leaves this receipt.
      */
  ghost predicate Moves(vm: Vm, rules: Rules, block: Block, w: World, msg: Message, used: nat, receipt: Receipt,
                        w': World) {
    forall key {:trigger OpenStep(key)} :: OpenStep(key) ==>
      && used <= block.gasLimit && Passes(vm, w, msg, block.gasLimit - used, rules)
      && receipt == Receipt(used + GasOf(vm, w, msg, rules), GasOf(vm, w, msg, rules),
                            vm.run(Presented(w, msg, rules)).err.Some?)
      && w' == WorldAfter(vm, w, msg, block.coinbase, rules)
  }

  /** The message does not pass there. */
  ghost predicate Stuck(vm: Vm, rules: Rules, block: Block, w: World, msg: Message, used: nat) {
    forall key {:trigger OpenStep(key)} :: OpenStep(key) ==>
      used > block.gasLimit || !Passes(vm, w, msg, block.gasLimit - used, rules)
  }

  /** One message on its way through a block. */
  datatype Leg<W> = Leg(at: nat, from: W, used: nat, receipt: Receipt, to: W)

  /** What the messages of a block allow. */
  ghost function LawOf(vm: Vm, rules: Rules, block: Block): iset<Leg<World>> {
    iset leg: Leg<World> |
      leg.at < |block.messages| &&
          Moves(vm, rules, block, leg.from, block.messages[leg.at], leg.used, leg.receipt, leg.to)
  }

  /** Legs one after the other: each starts in the world and with the gas the one before left. */
  ghost predicate IsRun<W>(law: iset<Leg<W>>, start: W, legs: seq<Leg<W>>) {
    && (forall k :: 0 <= k < |legs| ==> legs[k] in law && legs[k].at == k)
    && (forall k :: 0 <= k < |legs| ==> Joined(start, legs, k))
  }

  ghost predicate Joined<W>(start: W, legs: seq<Leg<W>>, k: nat)
    requires k < |legs|
  {
    legs[k].from == WorldAt(start, legs, k) && legs[k].used == UsedAt(legs, k)
  }

  ghost function WorldAt<W>(start: W, legs: seq<Leg<W>>, k: nat): W
    requires k <= |legs|
  {
    if k == 0 then start else legs[k - 1].to
  }

  ghost function UsedAt<W>(legs: seq<Leg<W>>, k: nat): nat
    requires k <= |legs|
  {
    if k == 0 then 0 else legs[k - 1].receipt.cumulative
  }

  ghost function ReceiptsOf<W>(legs: seq<Leg<W>>): (receipts: seq<Receipt>)
    ensures |receipts| == |legs| && forall k :: 0 <= k < |legs| ==> receipts[k] == legs[k].receipt
  {
    if legs == [] then [] else ReceiptsOf(legs[..|legs| - 1]) + [legs[|legs| - 1].receipt]
  }

  /** Where a leg starts determines where it ends. */
  ghost predicate Functional<W(!new)>(law: iset<Leg<W>>) {
    forall x, y :: x in law && y in law && x.at == y.at && x.from == y.from && x.used == y.used ==> x == y
  }

  lemma LawIsFunctional(vm: Vm, rules: Rules, block: Block)
    ensures Functional(LawOf(vm, rules, block))
  {
    assert OpenStep(0);
  }

  /** Two runs of a block agree as far as both go. */
  lemma {:induction false} RunsAgree<W(!new)>(law: iset<Leg<W>>, start: W, legs: seq<Leg<W>>, legs': seq<Leg<W>>,
                                              k: nat)
    requires Functional(law) && IsRun(law, start, legs) && IsRun(law, start, legs') && k <= |legs| && k <= |legs'|
    ensures WorldAt(start, legs, k) == WorldAt(start, legs', k) && UsedAt(legs, k) == UsedAt(legs', k)
    ensures k > 0 ==> legs[k - 1] == legs'[k - 1]
  {
    if k > 0 {
      RunsAgree(law, start, legs, legs', k - 1);
      assert Joined(start, legs, k - 1) && Joined(start, legs', k - 1);
      SameLeg(law, legs[k - 1], legs'[k - 1]);
    }
  }

  lemma SameLeg<W(!new)>(law: iset<Leg<W>>, x: Leg<W>, y: Leg<W>)
    requires Functional(law) && x in law && y in law && x.at == y.at && x.from == y.from && x.used == y.used
    ensures x == y
  {
  }

  /** The block has a run of all its messages, with these receipts and this final world. */
  ghost predicate Completes(vm: Vm, rules: Rules, block: Block, start: World, receipts: seq<Receipt>, world: World) {
    exists legs :: IsRun(LawOf(vm, rules, block), start, legs) && |legs| == |block.messages| &&
                   receipts == ReceiptsOf(legs) && world == WorldAt(start, legs, |legs|)
  }

  /** The messages before this one have a run, but on top of them this one does not pass. */
  ghost predicate StuckAt(vm: Vm, rules: Rules, block: Block, start: World, at: nat) {
    && at < |block.messages|
    && exists legs :: IsRun(LawOf(vm, rules, block), start, legs) && |legs| == at &&
                      Stuck(vm, rules, block, WorldAt(start, legs, at), block.messages[at], UsedAt(legs, at))
  }

  /** A run that is stuck on a message goes no further. */
  lemma StuckEnds(vm: Vm, rules: Rules, block: Block, start: World, legs: seq<Leg<World>>, legs': seq<Leg<World>>)
    requires IsRun(LawOf(vm, rules, block), start, legs) && |legs| < |block.messages|
    requires Stuck(vm, rules, block, WorldAt(start, legs, |legs|), block.messages[|legs|], UsedAt(legs, |legs|))
    requires IsRun(LawOf(vm, rules, block), start, legs')
    ensures |legs'| <= |legs|
  {
    var n := |legs|;
    if |legs'| > n {
      LawIsFunctional(vm, rules, block);
      RunsAgree(LawOf(vm, rules, block), start, legs, legs', n);
      assert Joined(start, legs', n);
      NotBoth(vm, rules, block, legs'[n]);
    }
  }

  /** So a block either completes, and in one way only, or is stuck, and on one message only. */
  lemma OneOutcome(vm: Vm, rules: Rules, block: Block, start: World)
    ensures forall x, v, y, w ::
              Completes(vm, rules, block, start, x, v) && Completes(vm, rules, block, start, y, w) ==> x == y && v == w
    ensures forall k, x, v :: StuckAt(vm, rules, block, start, k) ==> !Completes(vm, rules, block, start, x, v)
    ensures forall j, k :: StuckAt(vm, rules, block, start, j) && StuckAt(vm, rules, block, start, k) ==> j == k
  {
    forall x, v, y, w | Completes(vm, rules, block, start, x, v) && Completes(vm, rules, block, start, y, w)
      ensures x == y && v == w
    {
      CompletesOnce(vm, rules, block, start, x, v, y, w);
    }
    forall k, x, v | StuckAt(vm, rules, block, start, k)
      ensures !Completes(vm, rules, block, start, x, v)
    {
      StuckIsNotWhole(vm, rules, block, start, k, x, v);
    }
    forall j, k | StuckAt(vm, rules, block, start, j) && StuckAt(vm, rules, block, start, k)
      ensures j == k
    {
      StuckOnce(vm, rules, block, start, j, k);
      StuckOnce(vm, rules, block, start, k, j);
    }
  }

  lemma CompletesOnce(vm: Vm, rules: Rules, block: Block, start: World, x: seq<Receipt>, v: World, y: seq<Receipt>,
                      w: World)
    requires Completes(vm, rules, block, start, x, v) && Completes(vm, rules, block, start, y, w)
    ensures x == y && v == w
  {
    var law := LawOf(vm, rules, block);
    var legs :| IsRun(law, start, legs) && |legs| == |block.messages| && x == ReceiptsOf(legs) &&
        v == WorldAt(start, legs, |legs|);
    var legs' :| IsRun(law, start, legs') && |legs'| == |block.messages| && y == ReceiptsOf(legs') &&
        w == WorldAt(start, legs', |legs'|);
    LawIsFunctional(vm, rules, block);
    SameRun(law, start, legs, legs');
  }

  lemma SameRun<W(!new)>(law: iset<Leg<W>>, start: W, legs: seq<Leg<W>>, legs': seq<Leg<W>>)
    requires Functional(law) && IsRun(law, start, legs) && IsRun(law, start, legs') && |legs| == |legs'|
    ensures legs == legs'
  {
    forall k | 0 <= k < |legs|
      ensures legs[k] == legs'[k]
    {
      RunsAgree(law, start, legs, legs', k + 1);
    }
  }

  lemma StuckIsNotWhole(vm: Vm, rules: Rules, block: Block, start: World, k: nat, x: seq<Receipt>, v: World)
    requires StuckAt(vm, rules, block, start, k)
    ensures !Completes(vm, rules, block, start, x, v)
  {
    var law := LawOf(vm, rules, block);
    var legs :| IsRun(law, start, legs) && |legs| == k &&
        Stuck(vm, rules, block, WorldAt(start, legs, k), block.messages[k], UsedAt(legs, k));
    forall legs' | IsRun(law, start, legs')
      ensures |legs'| <= k
    {
      StuckEnds(vm, rules, block, start, legs, legs');
    }
  }

  lemma StuckOnce(vm: Vm, rules: Rules, block: Block, start: World, j: nat, k: nat)
    requires StuckAt(vm, rules, block, start, j) && StuckAt(vm, rules, block, start, k)
    ensures k <= j
  {
    var law := LawOf(vm, rules, block);
    var legs :| IsRun(law, start, legs) && |legs| == j &&
        Stuck(vm, rules, block, WorldAt(start, legs, j), block.messages[j], UsedAt(legs, j));
    var legs' :| IsRun(law, start, legs') && |legs'| == k &&
        Stuck(vm, rules, block, WorldAt(start, legs', k), block.messages[k], UsedAt(legs', k));
    StuckEnds(vm, rules, block, start, legs, legs');
  }

  lemma NotBoth(vm: Vm, rules: Rules, block: Block, leg: Leg<World>)
    requires leg in LawOf(vm, rules, block)
    ensures leg.at < |block.messages| && !Stuck(vm, rules, block, leg.from, block.messages[leg.at], leg.used)
  {
    assert OpenStep(0);
  }

  lemma LegFits(vm: Vm, rules: Rules, block: Block, leg: Leg<World>)
    requires Honest(vm) && leg in LawOf(vm, rules, block)
    ensures leg.at < |block.messages|
    ensures leg.receipt.cumulative == leg.used + leg.receipt.gasUsed &&
            Fitted(leg.receipt, block.messages[leg.at].gas, block.gasLimit)
  {
    assert OpenStep(0);
  }

  /** In every step of a run the sender and the coinbase are charged and paid as by a single message. */
  lemma LegPays(vm: Vm, rules: Rules, block: Block, leg: Leg<World>)
    requires Honest(vm) && leg in LawOf(vm, rules, block)
    ensures leg.at < |block.messages|
    ensures var msg := block.messages[leg.at];
            var c := Presented(leg.from, msg, rules);
            && Handed(leg.from, msg, rules, c)
            && PaidOut(vm.run(c).world, msg, block.coinbase, leg.receipt.gasUsed, leg.to)
  {
    assert OpenStep(0);
    var msg := block.messages[leg.at];
    PresentedIsHanded(vm, leg.from, msg, block.gasLimit - leg.used, rules);
    SettledIsPaidOut(vm.run(Presented(leg.from, msg, rules)).world, msg, block.coinbase, leg.receipt.gasUsed);
  }

  lemma {:induction false} RunSums(vm: Vm, rules: Rules, block: Block, start: World, legs: seq<Leg<World>>, k: nat)
    requires Honest(vm) && IsRun(LawOf(vm, rules, block), start, legs) && k <= |legs|
    ensures GasSum(ReceiptsOf(legs), k) == UsedAt(legs, k)
  {
    if k > 0 {
      RunSums(vm, rules, block, start, legs, k - 1);
      assert Joined(start, legs, k - 1);
      LegFits(vm, rules, block, legs[k - 1]);
    }
  }

  lemma ReceiptFits(vm: Vm, rules: Rules, block: Block, start: World, legs: seq<Leg<World>>, k: nat)
    requires Honest(vm) && IsRun(LawOf(vm, rules, block), start, legs) && k < |legs|
    ensures k < |block.messages| && legs[k].receipt.cumulative == GasSum(ReceiptsOf(legs), k + 1)
    ensures Fitted(legs[k].receipt, block.messages[k].gas, block.gasLimit)
  {
    RunSums(vm, rules, block, start, legs, k + 1);
    LegFits(vm, rules, block, legs[k]);
  }

  /** In a run the receipts carry prefix sums, and every message fitted into what was left. */
  lemma RunFits(vm: Vm, rules: Rules, block: Block, start: World, legs: seq<Leg<World>>)
    requires Honest(vm) && IsRun(LawOf(vm, rules, block), start, legs)
    ensures |legs| <= |block.messages| && PrefixSums(ReceiptsOf(legs)) && WithinLimit(ReceiptsOf(legs), block)
    ensures UsedAt(legs, |legs|) <= block.gasLimit
  {
    forall k | 0 <= k < |legs|
      ensures k < |block.messages| && legs[k].receipt.cumulative == GasSum(ReceiptsOf(legs), k + 1)
      ensures Fitted(legs[k].receipt, block.messages[k].gas, block.gasLimit)
    {
      ReceiptFits(vm, rules, block, start, legs, k);
    }
    if |legs| > 0 {
      ReceiptFits(vm, rules, block, start, legs, |legs| - 1);
    }
  }

  /** The world a block starts from. */
  function StartOf(state: World, dao: Option<DaoFork>): World {
    match dao
    case None => state
    case Some(fork) => Drain(state, fork.drained, fork.refund)
  }

  /** Executes a block's messages in order up to, and not including, the engine's Finalize. */
  method Process(block: Block, vm: Vm, state: World, rules: Rules, dao: Option<DaoFork>) returns (r: Processed)
    requires block.gasLimit <= MAX_UINT64 && Honest(vm)
    requires forall m :: m in block.messages ==> m.Fits()
    ensures r.Processed? ==> Completes(vm, rules, block, StartOf(state, dao), r.receipts, r.world)
    ensures r.Processed? ==>
              && |r.receipts| == |block.messages| && PrefixSums(r.receipts) && WithinLimit(r.receipts, block)
              && r.usedGas == GasSum(r.receipts, |r.receipts|) <= block.gasLimit
              && Total(r.world) == Total(StartOf(state, dao))
    ensures r.Processed? && (dao.Some? ==> dao.value.refund !in dao.value.drained) ==> Total(r.world) == Total(state)
    ensures r.Invalid? ==> StuckAt(vm, rules, block, StartOf(state, dao), r.at)
  {
    var world := state;
    if dao.Some? {
      world := ApplyDAOHardFork(world, dao.value);
      if dao.value.refund !in dao.value.drained {
        DrainMoves(state, dao.value.drained, dao.value.refund);
      }
    }
    ghost var legs;
    r, legs := Execute(block, vm, world, rules);
    RunFits(vm, rules, block, world, legs);
    RunSums(vm, rules, block, world, legs, |legs|);
  }

  method Execute(block: Block, vm: Vm, start: World, rules: Rules) returns (r: Processed, ghost legs: seq<Leg<World>>)
    requires block.gasLimit <= MAX_UINT64 && Honest(vm)
    requires forall m :: m in block.messages ==> m.Fits()
    ensures IsRun(LawOf(vm, rules, block), start, legs)
    ensures r.Processed? ==>
              && |legs| == |block.messages| && r.receipts == ReceiptsOf(legs) && r.world == WorldAt(start, legs, |legs|)
              && r.usedGas == UsedAt(legs, |legs|) && Total(r.world) == Total(start)
    ensures r.Invalid? ==>
              && r.at == |legs| < |block.messages|
              && Stuck(vm, rules, block, WorldAt(start, legs, r.at), block.messages[r.at], UsedAt(legs, r.at))
  {
    var gp := new GasPool();
    gp.AddGas(block.gasLimit);
    var receipts: seq<Receipt>, usedGas, world := [], 0, start;
    legs := [];
    for i := 0 to |block.messages|
      invariant fresh(gp) && |legs| == i && gp.gas + usedGas == block.gasLimit && receipts == ReceiptsOf(legs)
      invariant IsRun(LawOf(vm, rules, block), start, legs)
      invariant world == WorldAt(start, legs, i) && usedGas == UsedAt(legs, i) && Total(world) == Total(start)
    {
      assert block.messages[i] in block.messages;
      var after, receipt, reason := ApplyTransaction(vm, gp, block.messages[i], world, usedGas, block, rules);
      if receipt.None? {
        return Invalid(i, reason), legs;
      }
      ghost var leg := Leg(i, world, usedGas, receipt.value, after);
      OneMoreLeg(LawOf(vm, rules, block), start, legs, leg);
      usedGas, world, receipts, legs := receipt.value.cumulative, after, receipts + [receipt.value], legs + [leg];
    }
    r := Processed(receipts, usedGas, world);
  }

  lemma OneMoreLeg<W>(law: iset<Leg<W>>, start: W, legs: seq<Leg<W>>, leg: Leg<W>)
    requires IsRun(law, start, legs) && leg in law && leg.at == |legs| && leg.from == WorldAt(start, legs, |legs|) &&
             leg.used == UsedAt(legs, |legs|)
    ensures IsRun(law, start, legs + [leg]) && ReceiptsOf(legs + [leg]) == ReceiptsOf(legs) + [leg.receipt]
  {
    var more := legs + [leg];
    assert more[..|legs|] == legs;
    forall k | 0 <= k < |more|
      ensures Joined(start, more, k)
    {
      assert k < |legs| ==> Joined(start, legs, k);
    }
  }

  /** Every message fitted into what the ones before it left, and used no more than it asked for. */
  ghost predicate WithinLimit(receipts: seq<Receipt>, block: Block)
    requires |receipts| <= |block.messages|
  {
    forall k :: 0 <= k < |receipts| ==> Fitted(receipts[k], block.messages[k].gas, block.gasLimit)
  }

  predicate Fitted(r: Receipt, gas: nat, limit: nat) {
    r.gasUsed <= gas && gas + (r.cumulative - r.gasUsed) <= limit && r.cumulative <= limit
  }
}
