/** Transactions, chain state and pool configuration, as far as the pool looks at them. */
module Transactions {
  type Address = nat
  type Hash = nat
  type Time = nat

  const TX_SLOT_SIZE: nat := 32 * 1024

  /** The gas that the plainest transaction needs before anything is executed. */
  const TX_GAS: nat := 21000

  type Positive = n: nat | n > 0 witness 1

  /**
   A signed transaction. `extraGas` is what its data, its access list and the creation of a contract
   cost on top of the plain transaction; `wellFormed` stands for the other checks on it alone.
   */
  datatype Tx = Tx(
    hash: Hash, sender: Address, nonce: nat, cost: nat, gas: nat,
    feeCap: nat, tipCap: nat, size: Positive, extraGas: nat, wellFormed: bool)
  {
    function Slots(): nat { (size + TX_SLOT_SIZE - 1) / TX_SLOT_SIZE }

    function IntrinsicGas(): nat { TX_GAS + extraGas }
  }

  /** Of the same sender with the same nonce. */
  predicate SameSlot(t: Tx, u: Tx) { t.sender == u.sender && t.nonce == u.nonce }

  /** The account state at a chain head, with the head's gas limit. */
  datatype Chain = Chain(nonces: map<Address, nat>, balances: map<Address, nat>, gasLimit: nat) {
    function Nonce(a: Address): nat { if a in nonces then nonces[a] else 0 }
    function Balance(a: Address): nat { if a in balances then balances[a] else 0 }
  }

  datatype Config = Config(
    priceLimit: nat, priceBump: nat, accountSlots: nat, globalSlots: nat,
    accountQueue: nat, globalQueue: nat, lifetime: nat)
  {
    predicate Sane() {
      && priceLimit >= 1 && priceBump >= 1 && accountSlots >= 1 && globalSlots >= 1
      && accountQueue >= 1 && globalQueue >= 1 && lifetime >= 1
    }

    /** Every limit that is set to zero falls back to its default. */
    function Sanitize(): (c: Config)
      ensures c.Sane()
      ensures Sane() ==> c == this
    {
      Config(
        if priceLimit < 1 then 1 else priceLimit,
        if priceBump < 1 then 10 else priceBump,
        if accountSlots < 1 then 16 else accountSlots,
        if globalSlots < 1 then 5120 else globalSlots,
        if accountQueue < 1 then 64 else accountQueue,
        if globalQueue < 1 then 1024 else globalQueue,
        if lifetime < 1 then 3 * 60 * 60 * 1_000_000_000 else lifetime)
    }
  }

  /** What every limit is, if it is set and if it is not; the lifetime is in nanoseconds. */
  lemma Defaults(c: Config, unset: nat)
    requires unset == 0
    ensures Config(unset, unset, unset, unset, unset, unset, unset).Sanitize() ==
      Config(1, 10, 16, 4096 + 1024, 64, 1024, 10_800_000_000_000)
    ensures var d := c.Sanitize();
      && (c.priceLimit > 0 ==> d.priceLimit == c.priceLimit) && (c.priceBump > 0 ==> d.priceBump == c.priceBump)
      && (c.accountSlots > 0 ==> d.accountSlots == c.accountSlots)
      && (c.globalSlots > 0 ==> d.globalSlots == c.globalSlots)
      && (c.accountQueue > 0 ==> d.accountQueue == c.accountQueue)
      && (c.globalQueue > 0 ==> d.globalQueue == c.globalQueue) && (c.lifetime > 0 ==> d.lifetime == c.lifetime)
  {
  }
}
