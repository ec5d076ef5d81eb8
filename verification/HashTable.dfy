/** The chained hash tables of synth-inject: one shape of node for sets of names, for lists of strings
    by name, and for lists of strings by number. */
module HashTable {
  import opened Wrappers

  const NB := 65536

  datatype Node<K> = Node(key: K, val: seq<string>)

  /** The position of a key in a chain, or its length. */
  function FindIn<K(==)>(chain: seq<Node<K>>, k: K): (i: nat)
    ensures i <= |chain|
    ensures forall j :: 0 <= j < i ==> chain[j].key != k
    ensures i < |chain| ==> chain[i].key == k
  {
    if chain == [] || chain[0].key == k then 0 else 1 + FindIn(chain[1..], k)
  }

  lemma FindInIs<K>(chain: seq<Node<K>>, k: K, i: nat)
    requires i <= |chain| && (forall j :: 0 <= j < i ==> chain[j].key != k) && (i < |chain| ==> chain[i].key == k)
    ensures FindIn(chain, k) == i
  {
  }

  predicate Different<K(==)>(chain: seq<Node<K>>) {
    forall i, j :: 0 <= i < j < |chain| ==> chain[i].key != chain[j].key
  }

  class Table<K(==,!new)> {
    const hash: K -> nat
    const buckets: array<seq<Node<K>>>
    ghost var content: map<K, seq<string>>

    /** Each key is in the bucket of its hash value, once, with its value. */
    ghost predicate Valid()
      reads this, buckets
    {
      && buckets.Length == NB
      && (forall k: K :: hash(k) < NB)
      && (forall k: K :: var chain := buckets[hash(k)]; var i := FindIn(chain, k);
           (k in content <==> i < |chain|) && (i < |chain| ==> chain[i].val == content[k]))
      && (forall b :: 0 <= b < NB ==> Different(buckets[b]) && InBucket(buckets[b], b))
    }

    ghost predicate InBucket(chain: seq<Node<K>>, b: nat)
    {
      forall i :: 0 <= i < |chain| ==> hash(chain[i].key) == b
    }

    constructor (hash: K -> nat)
      requires forall k: K :: hash(k) < NB
      ensures Valid() && content == map[] && fresh(buckets) && buckets.Length == NB && this.hash == hash
    {
      this.hash := hash;
      content := map[];
      buckets := new seq<Node<K>>[NB](_ => []);
    }

    /** set_has, map_find and sched_find. */
    method Find(k: K) returns (r: Option<seq<string>>)
      requires Valid()
      ensures r == if k in content then Some(content[k]) else None
    {
      var chain := buckets[hash(k)];
      var i := 0;
      while i < |chain|
        invariant i <= |chain| && forall j :: 0 <= j < i ==> chain[j].key != k
      {
        if chain[i].key == k {
          FindInIs(chain, k, i);
          return Some(chain[i].val);
        }
        i := i + 1;
      }
      FindInIs(chain, k, i);
      return None;
    }

    /** need_append and sched_append: a new node goes in front, an old one gets s at its end. */
    method Append(k: K, s: string)
      requires Valid()
      modifies this`content, buckets
      ensures Valid() && content == old(content)[k := (if k in old(content) then old(content)[k] else []) + [s]]
    {
      var b := hash(k);
      var chain := buckets[b];
      var i := 0;
      while i < |chain| && chain[i].key != k
        invariant i <= |chain| && forall j :: 0 <= j < i ==> chain[j].key != k
      {
        i := i + 1;
      }
      FindInIs(chain, k, i);
      hide Different, SameFor, FindIn;
      if i == |chain| {
        NewFinds(chain, k, [s]);
        assert [] + [s] == [s];
        Put(k, [Node(k, [s])] + chain, [s]);
      } else {
        ghost var v := chain[i].val + [s];
        ChangedFinds(chain, i, v);
        Put(k, chain[i := Node(k, chain[i].val + [s])], v);
      }
    }

    /** set_add */
    method Add(k: K)
      requires Valid()
      modifies this`content, buckets
      ensures Valid() && content == if k in old(content) then old(content) else old(content)[k := []]
    {
      hide Different, SameFor;
      var r := Find(k);
      if r.None? {
        NewFinds(buckets[hash(k)], k, []);
        Put(k, [Node(k, [])] + buckets[hash(k)], []);
      }
    }

    /** sched_delete */
    method Delete(k: K)
      requires Valid()
      modifies this`content, buckets
      ensures Valid() && content == old(content) - {k}
    {
      var b := hash(k);
      var chain := buckets[b];
      var i := 0;
      while i < |chain| && chain[i].key != k
        invariant i <= |chain| && forall j :: 0 <= j < i ==> chain[j].key != k
      {
        i := i + 1;
      }
      FindInIs(chain, k, i);
      hide Different, FindIn, SameFor;
      if i < |chain| {
        WithoutFinds(chain, i);
        Drop(k, chain[..i] + chain[i + 1..]);
      } else {
        assert content - {k} == content;
      }
    }

    /** The chain of one key without that key. */
    method Drop(k: K, chain: seq<Node<K>>)
      requires Valid() && Different(chain) && InBucket(chain, hash(k)) && FindIn(chain, k) == |chain|
      requires forall q: K :: q != k && hash(q) == hash(k) ==> SameFor(q, buckets[hash(k)], chain)
      modifies this`content, buckets
      ensures Valid() && content == old(content) - {k}
    {
      hide Different, FindIn;
      buckets[hash(k)] := chain;
      content := content - {k};
    }

    /** The chain of one key with a new value for that key. */
    method Put(k: K, chain: seq<Node<K>>, ghost v: seq<string>)
      requires Valid() && Different(chain) && InBucket(chain, hash(k))
      requires FindIn(chain, k) < |chain| && chain[FindIn(chain, k)].val == v
      requires forall q: K :: q != k && hash(q) == hash(k) ==> SameFor(q, buckets[hash(k)], chain)
      modifies this`content, buckets
      ensures Valid() && content == old(content)[k := v] && buckets[hash(k)] == chain
    {
      buckets[hash(k)] := chain;
      content := content[k := v];
    }
  }

  /** A key is found, or not, as before. */
  ghost predicate SameFor<K>(k: K, a: seq<Node<K>>, b: seq<Node<K>>) {
    var i, j := FindIn(a, k), FindIn(b, k);
    (i < |a| <==> j < |b|) && (i < |a| ==> a[i].val == b[j].val)
  }

  lemma NewFinds<K(!new)>(chain: seq<Node<K>>, k: K, v: seq<string>)
    requires Different(chain) && FindIn(chain, k) == |chain|
    ensures var c := [Node(k, v)] + chain;
      && Different(c) && FindIn(c, k) == 0 && forall q: K :: q != k ==> SameFor(q, chain, c)
  {
    var c := [Node(k, v)] + chain;
    FindInIs(c, k, 0);
    forall q: K | q != k
      ensures SameFor(q, chain, c)
    {
      FindInIs(c, q, FindIn(chain, q) + 1);
    }
  }

  lemma ChangedFinds<K(!new)>(chain: seq<Node<K>>, i: nat, v: seq<string>)
    requires i < |chain| && Different(chain)
    ensures var c := chain[i := Node(chain[i].key, v)];
      && Different(c) && FindIn(c, chain[i].key) == i && forall q: K :: q != chain[i].key ==> SameFor(q, chain, c)
  {
    var c := chain[i := Node(chain[i].key, v)];
    FindInIs(c, chain[i].key, i);
    forall q: K | q != chain[i].key
      ensures SameFor(q, chain, c)
    {
      FindInIs(c, q, FindIn(chain, q));
    }
  }

  lemma WithoutFinds<K(!new)>(chain: seq<Node<K>>, i: nat)
    requires i < |chain| && Different(chain)
    ensures var c := chain[..i] + chain[i + 1..];
      && Different(c) && FindIn(c, chain[i].key) == |c|
      && forall k: K :: k != chain[i].key ==> SameFor(k, chain, c)
  {
    var c := chain[..i] + chain[i + 1..];
    FindInIs(c, chain[i].key, |c|);
    forall k: K | k != chain[i].key
      ensures SameFor(k, chain, c)
    {
      var j := FindIn(chain, k);
      FindInIs(c, k, if j < i then j else j - 1);
    }
  }
}
