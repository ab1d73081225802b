/** What a storage key reads and writes in the accounts behind it (multiversion/storage_key.go), and
    which keys behave like the cells of a plain map, as the module Storage takes all of them to. */
module Accounts {
  import opened Storage
  import opened Fees

  /** common.BytesToHash of "codecopy", "codehash", "codesize" and "selfdestruct". */
  const CODE_COPY_SLOT: Hash := 0x636f6465636f7079
  const CODE_HASH_SLOT: Hash := 0x636f646568617368
  const CODE_SIZE_SLOT: Hash := 0x636f646573697a65
  const SELF_DESTRUCT_SLOT: Hash := 0x73656c666465737472756374

  const TWO_63: int := 0x8000_0000_0000_0000
  const TWO_64: int := 0x1_0000_0000_0000_0000

  type Word64 = x: int | 0 <= x < TWO_64

  /** The int64 with the same 64 bits. */
  function ToInt64(x: Word64): int {
    if x < TWO_63 then x else x - TWO_64
  }

  /** How a nonce of the account reads as a word: through int64, and by its magnitude. */
  function NonceWord(nonce: Word64): Hash {
    BigToHash(ToInt64(nonce))
  }

  /** How a word is stored as a nonce: its low 64 bits. */
  function WordNonce(value: Hash): Word64 {
    value % TWO_64
  }

  lemma NonceRoundTripsIffSmall(value: Hash)
    ensures NonceWord(WordNonce(value)) == value <==> value <= TWO_63
  {
    if value < TWO_64 {
      assert value % TWO_64 == value;
    }
  }

  /** Whether writing `value` under `key` and reading it back gives `value`, when the key now reads as
      `current`. Code keys and the self-destruct key cannot be written. */
  predicate RoundTrips(key: StorageKey, current: Hash, value: Hash) {
    if key.slot == NONCE_SLOT then value <= TWO_63
    else if key.slot in {CODE_COPY_SLOT, CODE_HASH_SLOT, CODE_SIZE_SLOT, SELF_DESTRUCT_SLOT} then value == current
    else true
  }

  class AccountState {
    var balances: map<nat, Hash>
    var nonces: map<nat, Word64>
    var slots: map<StorageKey, Hash>
    const codeHash: nat -> Hash
    const codeSize: nat -> Hash

    constructor (codeHash: nat -> Hash, codeSize: nat -> Hash)
      ensures this.codeHash == codeHash && this.codeSize == codeSize
      ensures balances == map[] && nonces == map[] && slots == map[]
    {
      this.codeHash, this.codeSize := codeHash, codeSize;
      balances, nonces, slots := map[], map[], map[];
    }

    function GetValue(key: StorageKey): Hash
      reads this
    {
      if key.slot == CODE_COPY_SLOT || key.slot == CODE_HASH_SLOT then codeHash(key.address)
      else if key.slot == CODE_SIZE_SLOT then codeSize(key.address)
      else if key.slot == BALANCE_SLOT then (if key.address in balances then balances[key.address] else ZERO)
      else if key.slot == NONCE_SLOT then (if key.address in nonces then NonceWord(nonces[key.address]) else ZERO)
      else if key.slot == SELF_DESTRUCT_SLOT then ZERO
      else if key in slots then slots[key] else ZERO
    }

    /** What an account shows under the slots named "codecopy", "codehash", "codesize",
        "selfdestruct", "balance" and "nonce": the first two both show the code hash. */
    lemma SpecialReads(address: nat)
      ensures GetValue(StorageKey(address, 0x636f6465636f7079)) == codeHash(address)
      ensures GetValue(StorageKey(address, 0x636f646568617368)) == codeHash(address)
      ensures GetValue(StorageKey(address, 0x636f646573697a65)) == codeSize(address)
      ensures GetValue(StorageKey(address, 0x73656c666465737472756374)) == 0
      ensures address in balances ==> GetValue(StorageKey(address, 0x62616c616e6365)) == balances[address]
      ensures address in nonces && nonces[address] <= TWO_63 ==>
                GetValue(StorageKey(address, 0x6e6f6e6365)) == nonces[address]
      ensures address !in balances ==> GetValue(StorageKey(address, 0x62616c616e6365)) == 0
      ensures address !in nonces ==> GetValue(StorageKey(address, 0x6e6f6e6365)) == 0
    {
    }

    /** Writing one key changes no other, and is read back exactly when the key round-trips the value. */
    method SetValue(key: StorageKey, value: Hash)
      modifies this
      ensures forall k :: k != key ==> GetValue(k) == old(GetValue(k))
      ensures GetValue(key) == value <==> RoundTrips(key, old(GetValue(key)), value)
    {
      NonceRoundTripsIffSmall(value);
      if key.slot == BALANCE_SLOT {
        balances := balances[key.address := value];
      } else if key.slot == NONCE_SLOT {
        nonces := nonces[key.address := WordNonce(value)];
      } else {
        slots := slots[key := value];
      }
    }
  }
}
