/**
 What every evidence report shares: 32-byte digests and sorted findings.
 */
module Evidence {
  import opened Sorting

  datatype Option<+T> = None | Some(value: T)

  datatype Result<+T, +E> = Ok(value: T) | Err(error: E)

  // A 32-byte digest, read as the 256-bit number its bytes spell: Rust's
  // lexicographic order on `[u8; 32]` is the order of these numbers.
  type Hash = h: nat |
    h < 0x1_0000_0000_0000_0000_0000_0000_0000_0000_0000_0000_0000_0000_0000_0000_0000_0000

  predicate HashLe(a: Hash, b: Hash) { a <= b }

  type Bytes = seq<nat>

  // An order read off an injective key is total. Derived `Ord` on an enum is such an
  // order: the key is the variant's rank followed by its fields.
  lemma KeyedTotalOrder<T(!new)>(le: (T, T) -> bool, key: T -> seq<nat>)
    requires forall a, b :: le(a, b) <==> BytesLe(key(a), key(b))
    requires forall a, b :: key(a) == key(b) ==> a == b
    ensures TotalOrder(le)
  {
    BytesTotalOrder();
    forall a, b ensures (le(a, b) || le(b, a)) && (le(a, b) && le(b, a) ==> a == b) {
      assert BytesLe(key(a), key(b)) || BytesLe(key(b), key(a));
    }
    forall a, b, c | le(a, b) && le(b, c) ensures le(a, c) {
      assert BytesLe(key(a), key(b)) && BytesLe(key(b), key(c));
    }
  }
}
