/** Equality and hashing of keys, memory/manager.c: memref_equal and memref_hash on integers and strings. */
module Keys {
  import opened MemRefs

  /** A string cell: the offset of its characters in the dynamic pool, and the characters. */
  datatype Str = Str(targetOffset: int, chars: string)
  type Strings = map<int, Str>

  /** Two cells with the same target share the characters. */
  ghost predicate Coherent(h: Strings) {
    forall a, b :: a in h && b in h && h[a].targetOffset == h[b].targetOffset ==> h[a].chars == h[b].chars
  }

  /** What a key means, apart from the cell that holds it. */
  datatype Key = IntKey(i: int) | StrKey(s: string)

  predicate IsKey(h: Strings, x: MemRef) {
    x.typ == INT32 || (x.typ == STRING && x.data in h)
  }

  function KeyOf(h: Strings, x: MemRef): Key
    requires IsKey(h, x)
  {
    if x.typ == INT32 then IntKey(x.data) else StrKey(h[x.data].chars)
  }

  /** memref_equal, in the order of its tests. */
  predicate MemrefEqual(h: Strings, x: MemRef, y: MemRef)
    requires IsKey(h, x) && IsKey(h, y)
  {
    if x.typ == y.typ && !IsValue(x) && x.data == y.data then true
    else if x.typ == INT32 then y.typ == INT32 && x.data == y.data
    else if y.typ != STRING then false
    else if h[x.data].targetOffset == h[y.data].targetOffset then true
    else if |h[x.data].chars| != |h[y.data].chars| then false
    else h[x.data].chars == h[y.data].chars
  }

  /** memref_hash: a 32-bit integer is reinterpreted as unsigned, a string goes through `fnv`. */
  function MemrefHash(h: Strings, fnv: string -> nat, x: MemRef): nat
    requires IsKey(h, x)
  {
    if x.typ == INT32 then x.data % 0x1_0000_0000 else fnv(h[x.data].chars)
  }

  function KeyHash(fnv: string -> nat, k: Key): nat {
    match k
    case IntKey(i) => i % 0x1_0000_0000
    case StrKey(s) => fnv(s)
  }

  /** memref_equal decides whether two keys mean the same, so it is an equivalence on them. */
  lemma EqualIsSameKey(h: Strings, x: MemRef, y: MemRef)
    requires Coherent(h) && IsKey(h, x) && IsKey(h, y)
    ensures MemrefEqual(h, x, y) <==> KeyOf(h, x) == KeyOf(h, y)
  {}

  /** Equal keys have equal hashes, whatever the string hash computes. */
  lemma EqualKeysHashEqually(h: Strings, fnv: string -> nat, x: MemRef, y: MemRef)
    requires Coherent(h) && IsKey(h, x) && IsKey(h, y) && MemrefEqual(h, x, y)
    ensures MemrefHash(h, fnv, x) == MemrefHash(h, fnv, y)
  {
    EqualIsSameKey(h, x, y);
    HashOfKey(h, fnv, x);
    HashOfKey(h, fnv, y);
  }

  lemma HashOfKey(h: Strings, fnv: string -> nat, x: MemRef)
    requires IsKey(h, x)
    ensures MemrefHash(h, fnv, x) == KeyHash(fnv, KeyOf(h, x))
  {}
}
