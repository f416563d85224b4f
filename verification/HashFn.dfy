/** The block hash lookup of the EVM: the closure that GetHashFn in core/evm.go returns, with its cache of
    ancestor hashes.
 */
module BlockHashes {
  import opened Words

  datatype Hash = Hash(value: nat)

  const NO_HASH := Hash(0)

  datatype Header = Header(parentHash: Hash, number: u64)

  type Lookup = (Hash, u64) -> Option<Header>

  const LAST: u64 := TWO_64 - 1

  // A header store answers with headers of the number asked for; no block has the number before the genesis,
  // which wraps around to the last one.
  ghost predicate Consistent(get: Lookup) {
    && (forall h, k: u64 {:trigger get(h, k)} :: get(h, k).Some? ==> get(h, k).value.number == k)
    && (forall h {:trigger get(h, LAST)} :: get(h, LAST).None?)
  }

  // The walk without a cache: from a hash and its block number along the parents to the number asked for.
  ghost function Walk(get: Lookup, hash: Hash, number: u64, n: u64): Hash
    requires Consistent(get)
    decreases if number == LAST then 0 else number + 1
  {
    if number == n then hash
    else match get(hash, number)
      case None => NO_HASH
      case Some(h) => Walk(get, h.parentHash, Wrap64(h.number - 1), n)
  }

  ghost function AncestorHash(get: Lookup, ref: Header, n: u64): Hash
    requires Consistent(get)
  {
    Walk(get, ref.parentHash, Wrap64(ref.number - 1), n)
  }

  // Entry i is the hash of the ancestor at height ref.number - 1 - i. The last possible entry is the parent
  // hash of the genesis block.
  ghost predicate Chained(get: Lookup, ref: Header, cache: seq<Hash>) {
    && |cache| <= ref.number + 1 && (cache != [] ==> cache[0] == ref.parentHash)
    && forall i :: 0 < i < |cache| ==> Parent(get, ref.number - i, cache[i - 1], cache[i])
  }

  // The header of the number and hash has the parent hash.
  ghost predicate Parent(get: Lookup, number: u64, hash: Hash, parent: Hash) {
    get(hash, number).Some? && get(hash, number).value.parentHash == parent
  }

  // The position of a number in the cache; numbers at or above the reference wrap around.
  function Index(ref: Header, n: u64): u64 { Wrap64(ref.number - n - 1) }

  lemma IndexNumber(ref: Header, n: u64, i: nat)
    requires i < TWO_64
    ensures Index(ref, n) == i <==> n == Wrap64(ref.number - 1 - i)
  {
  }

  // The walk passes through every cache entry before the one it looks for.
  lemma {:induction false} Passes(get: Lookup, ref: Header, cache: seq<Hash>, j: nat, n: u64)
    requires Consistent(get) && Chained(get, ref, cache) && j < |cache| && j <= Index(ref, n)
    ensures AncestorHash(get, ref, n) == Walk(get, cache[j], Wrap64(ref.number - 1 - j), n)
    decreases j
  {
    if j > 0 {
      hide Wrap64, Index;
      Passes(get, ref, cache, j - 1, n);
      IndexNumber(ref, n, j - 1);
      Wrap64Small(ref.number - j);
      assert Parent(get, ref.number - j, cache[j - 1], cache[j]);
    }
  }

  lemma Hit(get: Lookup, ref: Header, cache: seq<Hash>, n: u64)
    requires Consistent(get) && Chained(get, ref, cache) && Index(ref, n) < |cache|
    ensures AncestorHash(get, ref, n) == cache[Index(ref, n)]
  {
    Passes(get, ref, cache, Index(ref, n), n);
    IndexNumber(ref, n, Index(ref, n));
  }

  // Behind the genesis block nothing is found, so the cache is not full when a header is.
  lemma NotFull(get: Lookup, ref: Header, cache: seq<Hash>, hash: Hash)
    requires Consistent(get) && Chained(get, ref, cache) && get(hash, Wrap64(ref.number - |cache|)).Some?
    ensures |cache| <= ref.number && Wrap64(ref.number - |cache|) == ref.number - |cache|
    ensures get(hash, ref.number - |cache|).value.number == ref.number - |cache|
  {
  }

  lemma ChainedSnoc(get: Lookup, ref: Header, cache: seq<Hash>, hash: Hash)
    requires Chained(get, ref, cache) && 0 < |cache| <= ref.number
    requires Parent(get, ref.number - |cache|, cache[|cache| - 1], hash)
    ensures Chained(get, ref, cache + [hash])
  {
    hide Parent;
    var c := cache + [hash];
    forall i | 0 < i < |c|
      ensures Parent(get, ref.number - i, c[i - 1], c[i])
    {
      assert c[i - 1] == cache[i - 1] && (i < |cache| ==> c[i] == cache[i]);
    }
  }

  // One turn of the loop: the header that is looked up extends the cache, and ends the search if it should.
  lemma Turn(get: Lookup, ref: Header, cache: seq<Hash>, n: u64, header: Option<Header>)
    requires Consistent(get) && Chained(get, ref, cache) && 0 < |cache| <= Index(ref, n)
    requires header == get(cache[|cache| - 1], Wrap64(ref.number - |cache|))
    ensures header.None? ==> AncestorHash(get, ref, n) == NO_HASH
    ensures header.Some? ==> |cache| <= ref.number && Chained(get, ref, cache + [header.value.parentHash])
    ensures header.Some? ==> Wrap64(header.value.number - 1) == Wrap64(ref.number - |cache| - 1)
    ensures header.Some? && n == Wrap64(header.value.number - 1) ==>
              AncestorHash(get, ref, n) == header.value.parentHash && Index(ref, n) == |cache|
    ensures header.Some? && n != Wrap64(header.value.number - 1) ==> |cache| + 1 <= Index(ref, n)
  {
    hide Wrap64, Chained, Consistent, Index;
    Passes(get, ref, cache, |cache| - 1, n);
    IndexNumber(ref, n, |cache| - 1);
    if header.Some? {
      NotFull(get, ref, cache, cache[|cache| - 1]);
      ChainedSnoc(get, ref, cache, header.value.parentHash);
      IndexNumber(ref, n, |cache|);
    }
  }

  class HashFn {
    const ref: Header
    const get: Lookup
    var cache: seq<Hash>

    constructor (ref: Header, get: Lookup)
      ensures this.ref == ref && this.get == get && Chained(get, ref, cache)
    {
      this.ref, this.get, cache := ref, get, [];
    }

    // One call of the closure: what the walk without a cache finds, and from then on the cache holds it.
    method Query(n: u64) returns (hash: Hash)
      requires Consistent(get) && Chained(get, ref, cache)
      modifies this`cache
      ensures Chained(get, ref, cache) && |old(cache)| <= |cache|
      ensures hash == AncestorHash(get, ref, n) && (hash != NO_HASH ==> Index(ref, n) < |cache|)
    {
      hide Wrap64;
      if |cache| == 0 {
        cache := cache + [ref.parentHash];
      }
      var idx := Wrap64(ref.number - n - 1);
      if idx < |cache| {
        Hit(get, ref, cache, n);
        return cache[idx];
      }
      hash := Extend(n);
    }

    // The loop of the closure, from the last hash that is known.
    method Extend(n: u64) returns (hash: Hash)
      requires Consistent(get) && Chained(get, ref, cache) && 0 < |cache| <= Index(ref, n)
      modifies this`cache
      ensures Chained(get, ref, cache) && |old(cache)| <= |cache|
      ensures hash == AncestorHash(get, ref, n) && (hash != NO_HASH ==> Index(ref, n) < |cache|)
    {
      assert |cache| <= ref.number + 1;
      hide Wrap64, Index, AncestorHash, Chained, Consistent;
      var lastHash, lastNumber := cache[|cache| - 1], Wrap64(ref.number - |cache|);
      while true
        invariant Chained(get, ref, cache) && 0 < |cache| <= Index(ref, n) && |cache| <= ref.number + 1
        invariant |old(cache)| <= |cache|
        invariant lastHash == cache[|cache| - 1] && lastNumber == Wrap64(ref.number - |cache|)
        decreases ref.number + 1 - |cache|
      {
        var header := get(lastHash, lastNumber);
        Turn(get, ref, cache, n, header);
        if header.None? {
          break;
        }
        cache := cache + [header.value.parentHash];
        lastHash := header.value.parentHash;
        lastNumber := Wrap64(header.value.number - 1);
        if n == lastNumber {
          return lastHash;
        }
      }
      hash := NO_HASH;
    }
  }

  // Every sequence of queries on one closure: each answer is that of a fresh walk.
  method Queries(ref: Header, get: Lookup, ns: seq<u64>) returns (hashes: seq<Hash>)
    requires Consistent(get)
    ensures |hashes| == |ns| && forall i :: 0 <= i < |ns| ==> hashes[i] == AncestorHash(get, ref, ns[i])
  {
    hide Chained, AncestorHash;
    var f := new HashFn(ref, get);
    hashes := [];
    for i := 0 to |ns|
      invariant |hashes| == i && forall k :: 0 <= k < i ==> hashes[k] == AncestorHash(get, ref, ns[k])
      invariant f.ref == ref && f.get == get && Chained(get, ref, f.cache)
    {
      var hash := f.Query(ns[i]);
      hashes := hashes + [hash];
    }
  }

  // ----- What the walk finds -----

  // A chain of headers under a hash function, and the store that holds exactly this chain.
  ghost predicate Linked(chain: seq<Header>, hashOf: Header -> Hash) {
    && |chain| < TWO_64
    && (forall i {:trigger chain[i]} :: 0 <= i < |chain| ==> chain[i].number == i)
    && (forall i {:trigger chain[i]} :: 0 < i < |chain| ==> chain[i].parentHash == hashOf(chain[i - 1]))
  }

  ghost predicate Stores(get: Lookup, chain: seq<Header>, hashOf: Header -> Hash) {
    forall h, k: u64 {:trigger get(h, k)} ::
      get(h, k) == if k < |chain| && hashOf(chain[k]) == h then Some(chain[k]) else None
  }

  lemma StoresConsistent(get: Lookup, chain: seq<Header>, hashOf: Header -> Hash)
    requires Linked(chain, hashOf) && Stores(get, chain, hashOf)
    ensures Consistent(get)
  {
  }

  // The hash that belongs to a number, seen from a height: that of an ancestor, the parent hash of the genesis
  // block at the wrapped number, or none.
  ghost function HashAt(chain: seq<Header>, hashOf: Header -> Hash, at: nat, n: u64): Hash
    requires at < |chain|
  {
    if n < at then hashOf(chain[n]) else if n == LAST then chain[0].parentHash else NO_HASH
  }

  // On a chain the lookup finds exactly this.
  lemma OnChain(get: Lookup, chain: seq<Header>, hashOf: Header -> Hash, at: nat, n: u64)
    requires Linked(chain, hashOf) && Stores(get, chain, hashOf) && at < |chain|
    ensures Consistent(get)
    ensures AncestorHash(get, chain[at], n) == HashAt(chain, hashOf, at, n)
  {
    StoresConsistent(get, chain, hashOf);
    FromHeight(get, chain, hashOf, at, n);
  }

  lemma {:induction false} FromHeight(get: Lookup, chain: seq<Header>, hashOf: Header -> Hash, at: nat, n: u64)
    requires Consistent(get) && Linked(chain, hashOf) && Stores(get, chain, hashOf) && at < |chain|
    ensures Walk(get, chain[at].parentHash, Wrap64(chain[at].number - 1), n) == HashAt(chain, hashOf, at, n)
    decreases at
  {
    AtHeight(get, chain, hashOf, at);
    NumberBefore(at);
    HashStep(get, chain, hashOf, at, n);
    WalkOne(get, chain[at].parentHash, Wrap64(chain[at].number - 1), n);
    hide Linked, Stores, Consistent, Walk, Wrap64, HashAt;
    if at > 0 && n != at - 1 {
      FromHeight(get, chain, hashOf, at - 1, n);
    }
  }

  lemma NumberBefore(at: nat)
    requires at < TWO_64
    ensures Wrap64(at - 1) == if at == 0 then LAST else at - 1
  {
  }

  lemma HashStep(get: Lookup, chain: seq<Header>, hashOf: Header -> Hash, at: nat, n: u64)
    requires Consistent(get) && Linked(chain, hashOf) && Stores(get, chain, hashOf) && at < |chain|
    ensures at == 0 ==> HashAt(chain, hashOf, at, n) == if n == LAST then chain[at].parentHash else NO_HASH
    ensures at > 0 ==>
              HashAt(chain, hashOf, at, n) == if n == at - 1 then chain[at].parentHash else HashAt(chain, hashOf, at - 1, n)
  {
    hide Stores, Consistent;
    assert at > 0 ==> chain[at].parentHash == hashOf(chain[at - 1]);
  }

  // One step of the walk.
  lemma WalkOne(get: Lookup, hash: Hash, number: u64, n: u64)
    requires Consistent(get)
    ensures number == n ==> Walk(get, hash, number, n) == hash
    ensures number != n && get(hash, number).None? ==> Walk(get, hash, number, n) == NO_HASH
    ensures number != n && get(hash, number).Some? ==>
              Walk(get, hash, number, n) ==
              Walk(get, get(hash, number).value.parentHash, Wrap64(get(hash, number).value.number - 1), n)
  {
  }

  lemma AtHeight(get: Lookup, chain: seq<Header>, hashOf: Header -> Hash, at: nat)
    requires Consistent(get) && Linked(chain, hashOf) && Stores(get, chain, hashOf) && at < |chain|
    ensures at < TWO_64 && chain[at].number == at
    ensures at > 0 ==> chain[at].parentHash == hashOf(chain[at - 1])
                       && get(chain[at].parentHash, at - 1) == Some(chain[at - 1]) && chain[at - 1].number == at - 1
    ensures get(chain[at].parentHash, LAST).None?
  {
  }
}
