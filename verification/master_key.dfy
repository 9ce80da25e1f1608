/**
  The master-key ensure step that `app/_layout.tsx` runs when the app starts:
  read the `master_key` slot of the device's secret store and, when it holds
  nothing usable, write a freshly generated key there.
 */
module MasterKey {
  import opened Wrappers

  /** The device's secret store, as a map from slot names to stored strings. */
  type Store = map<string, string>

  /** The slot that holds the vault's symmetric key. */
  const Slot: string := "master_key"

  /** `getItemAsync`: the stored value, or null when the slot is empty. */
  function Get(store: Store, name: string): Option<string> {
    if name in store then Some(store[name]) else None
  }

  /** Whether the value read for the slot is truthy: JavaScript's `!key` holds
      both for null and for the empty string. */
  predicate HasKey(store: Store) {
    Get(store, Slot).Some? && Get(store, Slot).value != ""
  }

  /**
    The ensure step: keep the store as it is when the slot already holds a
    non-empty key, otherwise `setItemAsync` the `generated` key into the slot.
   */
  function EnsureKey(store: Store, generated: string): (after: Store)
    ensures HasKey(store) ==> after == store
    ensures !HasKey(store) ==> Get(after, Slot) == Some(generated)
    ensures forall name :: name != Slot ==> Get(after, name) == Get(store, name)
    ensures after.Keys == store.Keys + {Slot}
    ensures generated != "" ==> HasKey(after)
  {
    if HasKey(store) then store else store[Slot := generated]
  }

  /** Running the step again, with any newly generated key, changes nothing,
      provided the first generated key was non-empty. */
  lemma EnsureKeyIdempotent(store: Store, first: string, second: string)
    requires first != ""
    ensures EnsureKey(EnsureKey(store, first), second) == EnsureKey(store, first)
  {
  }

  /** Without that proviso idempotence fails: an empty generated key is falsy,
      so the next run overwrites it. */
  lemma EmptyGeneratedKeyIsReplaced(store: Store, second: string)
    requires !HasKey(store)
    requires second != ""
    ensures EnsureKey(EnsureKey(store, ""), second) != EnsureKey(store, "")
  {
    assert Get(EnsureKey(EnsureKey(store, ""), second), Slot) == Some(second);
  }
}
