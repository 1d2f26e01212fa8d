/** txNoncer: virtual account nonces on top of a state's nonces. */
module Noncer {
  import opened Basics
  import opened Transactions

  /** A value per account. */
  datatype Table<T> = Table(at: map<Address, T>)

  function Put<T>(t: Table<T>, a: Address, v: T): Table<T> { Table(t.at[a := v]) }

  function Drop<T>(t: Table<T>, a: Address): Table<T> { Table(t.at - {a}) }

  function Lookup<T>(t: Table<T>, a: Address, default: T): T {
    if a in t.at then t.at[a] else default
  }

  /** The nonce of an account in a state; an unknown account has nonce 0. */
  function NonceIn(state: Table<nat>, a: Address): nat {
    Lookup(state, a, 0)
  }

  /** The nonce in force: the overlay where there is one, the fallback state elsewhere. */
  function Virtual(nonces: Table<nat>, fallback: Table<nat>, a: Address): nat {
    Lookup(nonces, a, NonceIn(fallback, a))
  }

  class TxNoncer {
    const fallback: Table<nat>
    var nonces: Table<nat>

    function Nonce(a: Address): nat
      reads this
    {
      Virtual(nonces, fallback, a)
    }

    constructor (state: Table<nat>)
      ensures fallback == state && nonces == Table(map[])
    {
      fallback, nonces := state, Table(map[]);
    }

    /** Reading caches the fallback value, which changes no nonce in force. */
    method Get(addr: Address) returns (n: nat)
      modifies this
      ensures n == old(Nonce(addr)) && nonces == Put(old(nonces), addr, n)
      ensures forall a :: Nonce(a) == old(Nonce(a))
    {
      if addr !in nonces.at {
        nonces := Put(nonces, addr, NonceIn(fallback, addr));
      }
      n := nonces.at[addr];
      assert nonces.at[addr := n] == nonces.at;
    }

    method Set(addr: Address, nonce: nat)
      modifies this
      ensures nonces == Put(old(nonces), addr, nonce)
      ensures forall a :: Nonce(a) == if a == addr then nonce else old(Nonce(a))
    {
      nonces := Put(nonces, addr, nonce);
    }

    method SetIfLower(addr: Address, nonce: nat)
      modifies this
      ensures nonces == Put(old(nonces), addr, Lesser(nonce, old(Nonce(addr))))
    {
      if addr !in nonces.at {
        nonces := Put(nonces, addr, NonceIn(fallback, addr));
      }
      if nonces.at[addr] <= nonce {
        assert nonces.at[addr := nonces.at[addr]] == nonces.at;
        return;
      }
      nonces := Put(nonces, addr, nonce);
    }
  }
}
