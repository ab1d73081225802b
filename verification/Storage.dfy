/** Storage keys, words and the state that all transactions share (multiversion/storage_key.go). */
module Storage {

  const TWO_256: int := 0x1_0000000000000000000000000000000000000000000000000000000000000000

  /** common.Hash, read as the 256-bit number it spells. */
  type Hash = x: int | 0 <= x < TWO_256

  const ZERO: Hash := 0

  datatype Option<+T> = None | Some(value: T)

  datatype StorageKey = StorageKey(address: nat, slot: Hash)

  /** common.BytesToHash of "balance" and of "nonce". */
  const BALANCE_SLOT: Hash := 0x62616c616e6365
  const NONCE_SLOT: Hash := 0x6e6f6e6365

  /** The order that sorting keys by their string puts them in; only its being total matters. */
  predicate KeyLess(a: StorageKey, b: StorageKey) {
    a.address < b.address || (a.address == b.address && a.slot < b.slot)
  }

  ghost predicate SortedKeys(ks: seq<StorageKey>) {
    forall p, q :: 0 <= p < q < |ks| ==> KeyLess(ks[p], ks[q])
  }

  /** Contents of the state: a key that was never written holds zero. */
  type State = map<StorageKey, Hash>

  function Lookup(s: State, k: StorageKey): Hash {
    if k in s then s[k] else ZERO
  }

  /** Two states no reader can tell apart. */
  ghost predicate SameState(a: State, b: State) {
    forall k :: Lookup(a, k) == Lookup(b, k)
  }

  /** The shared state object. It is written in place, between rounds only. `kv` is what the keys read
      through GetValue; `storage` is what GetState finds under the same address and slot. They differ
      for balances and nonces, which live in the account and not in its storage. */
  class StateDB {
    var kv: State
    var storage: State

    constructor (contents: State, storage: State)
      ensures kv == contents && this.storage == storage
    {
      kv, this.storage := contents, storage;
    }

    function GetValue(key: StorageKey): Hash
      reads this
    {
      Lookup(kv, key)
    }

    function GetState(key: StorageKey): Hash
      reads this
    {
      Lookup(storage, key)
    }

    method SetValue(key: StorageKey, value: Hash)
      modifies this
      ensures kv == old(kv)[key := value]
      ensures storage ==
              if key.slot == BALANCE_SLOT || key.slot == NONCE_SLOT then old(storage) else old(storage)[key := value]
    {
      kv := kv[key := value];
      if key.slot != BALANCE_SLOT && key.slot != NONCE_SLOT {
        storage := storage[key := value];
      }
    }
  }
}
