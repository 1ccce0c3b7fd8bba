/** Looking up an entry of an ordered table by its key. */
module Lookup {
  /** Where the first entry with the key is, or how many entries there are. */
  function IndexOf<T, K(==)>(items: seq<T>, keyOf: T -> K, key: K): (k: nat)
    ensures k <= |items| && (k < |items| ==> keyOf(items[k]) == key)
    ensures forall j :: 0 <= j < k ==> keyOf(items[j]) != key
  {
    if items == [] || keyOf(items[0]) == key then 0 else 1 + IndexOf(items[1..], keyOf, key)
  }
}
