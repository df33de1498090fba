/** The growing table of names: open addressing with quadratic probing, and a shadow table that keeps
    the index given out for a name fixed when the names move. */
module HashTable {
  import opened Sets
  import opened Probing

  /** An entry of the table; backlink is the index given out for it. */
  datatype Bucket = Empty | Item(key: string, backlink: nat)

  /** An arbitrary hash function of table size and name. */
  type Hash = (nat, string) -> nat

  const NOT_PRESENT: int := -1

  function Start(hash: Hash, p: nat, key: string): (h: nat)
    requires p > 0
    ensures h < p
  {
    hash(p, key) % p
  }

  /** The bucket of the k-th probe for a name. */
  function At(es: seq<Bucket>, hash: Hash, key: string, k: nat): Bucket
    requires |es| > 0
  {
    es[Probe(Start(hash, |es|, key), k, |es|)]
  }

  /** The first k probes meet other names. */
  ghost predicate Passed(es: seq<Bucket>, hash: Hash, key: string, k: nat)
    requires |es| > 0
  {
    forall j {:trigger At(es, hash, key, j)} :: 0 <= j < k ==> At(es, hash, key, j).Item? && At(es, hash, key, j).key != key
  }

  /** The item in bucket i is met by probing for its name. */
  ghost predicate Met(es: seq<Bucket>, hash: Hash, i: nat)
    requires i < |es|
  {
    es[i].Item? ==> exists k: nat {:trigger MetAt(es, hash, es[i].key, i, k)} :: MetAt(es, hash, es[i].key, i, k)
  }

  ghost predicate MetAt(es: seq<Bucket>, hash: Hash, key: string, i: nat, k: nat)
    requires i < |es|
  {
    && 2 * k < |es| && i == Probe(Start(hash, |es|, key), k, |es|)
    && (forall j {:trigger At(es, hash, key, j)} :: 0 <= j < k ==> At(es, hash, key, j).Item?)
  }

  /** The names numbered in s are in the table, each where the shadow table says, and no others. */
  ghost predicate Holds(es: seq<Bucket>, sh: seq<int>, keys: seq<string>, s: set<nat>, hash: Hash) {
    && Distinct(keys) && |es| > 0
    && (forall j {:trigger j in s} :: j in s ==> j < |keys| && j < |sh| && 0 <= sh[j] < |es| && es[sh[j]] == Item(keys[j], j))
    && (forall i {:trigger es[i]} :: 0 <= i < |es| && es[i].Item? ==> es[i].backlink in s && sh[es[i].backlink] == i)
    && (forall i {:trigger Met(es, hash, i)} :: 0 <= i < |es| ==> Met(es, hash, i))
  }

  lemma PassedAt(es: seq<Bucket>, hash: Hash, key: string, k: nat, l: nat)
    requires |es| > 0 && Passed(es, hash, key, k)
    ensures l < k ==> At(es, hash, key, l).Item? && At(es, hash, key, l).key != key
  {
  }

  lemma MetBefore(es: seq<Bucket>, hash: Hash, key: string, i: nat, l: nat, k: nat)
    requires i < |es| && MetAt(es, hash, key, i, l)
    ensures k < l ==> At(es, hash, key, k).Item?
  {
  }

  /** A name that is met by no probe is not in the table. */
  lemma Absent(es: seq<Bucket>, sh: seq<int>, keys: seq<string>, s: set<nat>, hash: Hash, key: string, k: nat)
    requires Holds(es, sh, keys, s, hash) && Passed(es, hash, key, k)
    requires (2 * k < |es| && At(es, hash, key, k) == Empty) || |es| <= 2 * k
    ensures forall i {:trigger es[i]} :: 0 <= i < |es| && es[i].Item? ==> es[i].key != key
    ensures forall j {:trigger keys[j]} :: j in s ==> keys[j] != key
  {
    forall i {:trigger es[i]} | 0 <= i < |es| && es[i].Item?
      ensures es[i].key != key
    {
      assert Met(es, hash, i);
      var l: nat :| MetAt(es, hash, es[i].key, i, l);
      assert At(es, hash, es[i].key, l) == es[i];
      PassedAt(es, hash, key, k, l);
      MetBefore(es, hash, es[i].key, i, l, k);
    }
    forall j {:trigger keys[j]} | j in s
      ensures keys[j] != key
    {
      assert es[sh[j]].Item?;
    }
  }

  /** A name in the table is met. */
  lemma Present(es: seq<Bucket>, sh: seq<int>, keys: seq<string>, s: set<nat>, hash: Hash, i: nat)
    requires Holds(es, sh, keys, s, hash) && i < |es| && es[i].Item?
    ensures es[i].backlink in s && es[i].backlink < |keys| && keys[es[i].backlink] == es[i].key
  {
    assert sh[es[i].backlink] == i;
  }

  /** Storing a new item in the empty bucket its probing ends at. */
  lemma Stored(es: seq<Bucket>, sh: seq<int>, keys: seq<string>, s: set<nat>, hash: Hash, i: nat, j: nat, k: nat)
    requires Holds(es, sh, keys, s, hash) && i < |es| && es[i] == Empty && j < |keys| && j < |sh| && j !in s
    requires MetAt(es, hash, keys[j], i, k)
    ensures Holds(es[i := Item(keys[j], j)], sh[j := i], keys, s + {j}, hash)
  {
    var es', sh' := es[i := Item(keys[j], j)], sh[j := i];
    hide Distinct, Probe, Start;
    forall l | 0 <= l < |es'|
      ensures Met(es', hash, l)
    {
      if es'[l].Item? {
        var n := k;
        if l != i {
          assert Met(es, hash, l);
          n :| MetAt(es, hash, es[l].key, l, n);
        }
        StillMet(es, hash, es'[l].key, l, n, i, es'[i]);
      }
    }
    forall n | n in s + {j}
      ensures n < |keys| && n < |sh'| && 0 <= sh'[n] < |es'| && es'[sh'[n]] == Item(keys[n], n)
    {
      if n != j {
        assert n in s;
      }
    }
  }

  /** Filling a bucket leaves every item within reach of its probes. */
  lemma StillMet(es: seq<Bucket>, hash: Hash, key: string, l: nat, n: nat, i: nat, b: Bucket)
    requires l < |es| && i < |es| && b.Item? && MetAt(es, hash, key, l, n)
    ensures MetAt(es[i := b], hash, key, l, n)
  {
    hide Probe, Start;
    var es' := es[i := b];
    forall o {:trigger At(es', hash, key, o)} | 0 <= o < n
      ensures At(es', hash, key, o).Item?
    {
      assert At(es, hash, key, o).Item?;
    }
  }

  /** The indices of the items met by the first k probes. */
  ghost function MetIndices(es: seq<Bucket>, hash: Hash, key: string, k: nat): set<nat>
    requires |es| > 0
  {
    set j {:trigger At(es, hash, key, j)} | 0 <= j < k && At(es, hash, key, j).Item? :: At(es, hash, key, j).backlink
  }

  lemma MetNone(es: seq<Bucket>, hash: Hash, key: string)
    requires |es| > 0
    ensures MetIndices(es, hash, key, 0) == {}
  {
  }

  lemma MetLast(es: seq<Bucket>, hash: Hash, key: string, k: nat)
    requires |es| > 0 && k > 0 && At(es, hash, key, k - 1).Item?
    ensures MetIndices(es, hash, key, k) == MetIndices(es, hash, key, k - 1) + {At(es, hash, key, k - 1).backlink}
  {
  }

  /** Probes of different buckets meet different items. */
  lemma MetDiffer(es: seq<Bucket>, sh: seq<int>, keys: seq<string>, s: set<nat>, hash: Hash, key: string, j: nat, k: nat)
    requires Holds(es, sh, keys, s, hash) && Prime(|es|) && 2 * k < |es| && j < k
    requires At(es, hash, key, j).Item? && At(es, hash, key, k).Item?
    ensures At(es, hash, key, j).backlink != At(es, hash, key, k).backlink && At(es, hash, key, k).backlink in s
  {
    var h, p := Start(hash, |es|, key), |es|;
    ProbesDiffer(h, j, k, p);
    assert es[Probe(h, j, p)].Item? && es[Probe(h, k, p)].Item?;
  }

  lemma NotMet(es: seq<Bucket>, hash: Hash, key: string, k: nat, last: nat)
    requires |es| > 0 && forall j {:trigger At(es, hash, key, j)} :: 0 <= j < k && At(es, hash, key, j).Item? ==> At(es, hash, key, j).backlink != last
    ensures last !in MetIndices(es, hash, key, k)
  {
  }

  /** Different probes meet different items. */
  lemma {:induction false} MetCount(es: seq<Bucket>, sh: seq<int>, keys: seq<string>, s: set<nat>, hash: Hash, key: string, k: nat)
    requires Holds(es, sh, keys, s, hash) && Prime(|es|) && 2 * k < |es| + 2
    requires forall j {:trigger At(es, hash, key, j)} :: 0 <= j < k ==> At(es, hash, key, j).Item?
    ensures |MetIndices(es, hash, key, k)| == k && MetIndices(es, hash, key, k) <= s
  {
    hide MetIndices;
    if k > 0 {
      hide Holds, Prime, At;
      MetCount(es, sh, keys, s, hash, key, k - 1);
      var last := At(es, hash, key, k - 1).backlink;
      MetLast(es, hash, key, k);
      forall j | 0 <= j < k - 1
        ensures At(es, hash, key, j).backlink != last
      {
        assert At(es, hash, key, j).Item?;
        MetDiffer(es, sh, keys, s, hash, key, j, k - 1);
      }
      NotMet(es, hash, key, k - 1, last);
      LastIn(es, sh, keys, s, hash, key, k - 1);
    } else {
      MetNone(es, hash, key);
    }
  }

  lemma LastIn(es: seq<Bucket>, sh: seq<int>, keys: seq<string>, s: set<nat>, hash: Hash, key: string, k: nat)
    requires Holds(es, sh, keys, s, hash) && At(es, hash, key, k).Item?
    ensures At(es, hash, key, k).backlink in s
  {
    assert es[Probe(Start(hash, |es|, key), k, |es|)].Item?;
  }

  /** If no probe meets an empty bucket, there are at least half as many items as buckets. */
  lemma Crowded(es: seq<Bucket>, sh: seq<int>, keys: seq<string>, s: set<nat>, hash: Hash, key: string)
    requires Holds(es, sh, keys, s, hash) && Prime(|es|) && |es| % 2 == 1 && Passed(es, hash, key, (|es| + 1) / 2)
    ensures 2 * |s| >= |es| + 1
  {
    MetCount(es, sh, keys, s, hash, key, (|es| + 1) / 2);
    SubsetSize(MetIndices(es, hash, key, (|es| + 1) / 2), s);
  }

  /** The buckets of the first m names. */
  ghost function Buckets(sh: seq<int>, m: nat): (s: set<int>)
    requires m <= |sh|
    ensures forall i: int {:trigger i in s} :: i in s <==> exists j {:trigger sh[j]} :: 0 <= j < m && sh[j] == i
  {
    if m == 0 then {} else Buckets(sh, m - 1) + {sh[m - 1]}
  }

  ghost function Indices(n: nat): (s: set<int>)
    ensures |s| == n && forall i: int {:trigger i in s} :: i in s <==> 0 <= i < n
  {
    if n == 0 then {} else Indices(n - 1) + {n - 1}
  }

  lemma BucketsDiffer(es: seq<Bucket>, sh: seq<int>, keys: seq<string>, n: nat, hash: Hash, i: nat, j: nat)
    requires Holds(es, sh, keys, UpTo(n), hash) && i < j < n <= |sh|
    ensures sh[i] != sh[j]
  {
    assert i in UpTo(n) && j in UpTo(n);
  }

  lemma BucketsNext(sh: seq<int>, m: nat)
    requires m <= |sh|
    ensures m == 0 ==> Buckets(sh, m) == {}
    ensures m > 0 ==> Buckets(sh, m) == Buckets(sh, m - 1) + {sh[m - 1]}
  {
  }

  lemma BucketsNew(es: seq<Bucket>, sh: seq<int>, keys: seq<string>, n: nat, hash: Hash, m: nat)
    requires Holds(es, sh, keys, UpTo(n), hash) && 0 < m <= n <= |sh|
    ensures sh[m - 1] !in Buckets(sh, m - 1)
  {
    hide Holds;
    forall j | 0 <= j < m - 1
      ensures sh[j] != sh[m - 1]
    {
      BucketsDiffer(es, sh, keys, n, hash, j, m - 1);
    }
  }

  lemma AddOne(s: set<int>, x: int)
    requires x !in s
    ensures |s + {x}| == |s| + 1
  {
  }

  lemma {:induction false} BucketsSize(es: seq<Bucket>, sh: seq<int>, keys: seq<string>, n: nat, hash: Hash, m: nat)
    requires Holds(es, sh, keys, UpTo(n), hash) && m <= n <= |sh|
    ensures |Buckets(sh, m)| == m
  {
    hide Holds, Buckets, UpTo;
    BucketsNext(sh, m);
    if m > 0 {
      BucketsNew(es, sh, keys, n, hash, m);
      BucketsSize(es, sh, keys, n, hash, m - 1);
      AddOne(Buckets(sh, m - 1), sh[m - 1]);
    }
  }

  /** While a bucket is empty, fewer names than buckets are in the table. */
  lemma RoomLeft(es: seq<Bucket>, sh: seq<int>, keys: seq<string>, n: nat, hash: Hash, i: nat)
    requires Holds(es, sh, keys, UpTo(n), hash) && i < |es| && es[i] == Empty && n <= |sh|
    ensures n < |es|
  {
    BucketsSize(es, sh, keys, n, hash, n);
    forall b | b in Buckets(sh, n)
      ensures b != i && b in Indices(|es|)
    {
      var j :| 0 <= j < n && sh[j] == b;
      assert j in UpTo(n);
    }
    hide Holds;
    AddOne(Buckets(sh, n), i);
    SubsetSize(Buckets(sh, n) + {i}, Indices(|es|));
  }

  datatype Outcome = Hit | Vacant | Full

  lemma FirstProbe(hash: Hash, p: nat, key: string)
    requires p > 0
    ensures Probe(Start(hash, p, key), 0, p) == hash(p, key) % p
  {
  }

  /** The probing loop of lookup_1: until the name, an empty bucket, or the last probe. */
  method Search(entries: array<Bucket>, hash: Hash, key: string) returns (o: Outcome, h: nat, ghost k: nat)
    requires entries.Length % 2 == 1
    ensures h < entries.Length && 2 * k < entries.Length + 2
    ensures Passed(entries[..], hash, key, k)
    ensures o.Hit? ==> entries[h].Item? && entries[h].key == key
    ensures o.Vacant? ==> 2 * k < entries.Length && entries[h] == Empty && h == Probe(Start(hash, entries.Length, key), k, entries.Length)
    ensures o.Full? ==> k == (entries.Length + 1) / 2
  {
    hide Probe, Start;
    ghost var es, p := entries[..], entries.Length;
    FirstProbe(hash, p, key);
    h := hash(entries.Length, key) % entries.Length;
    k := 0;
    var d := 1;
    while true
      invariant 2 * k < p && d == 2 * k + 1 && h == Probe(Start(hash, p, key), k, p)
      invariant Passed(es, hash, key, k)
      decreases p - k
    {
      assert At(es, hash, key, k) == entries[h];
      if entries[h] == Empty {
        return Vacant, h, k;
      }
      if entries[h].key == key {
        return Hit, h, k;
      }
      if d == entries.Length {
        return Full, h, k + 1;
      }
      NextProbe(Start(hash, p, key), k, p);
      h := h + d;
      d := d + 2;
      if h >= entries.Length {
        h := h - entries.Length;
      }
      k := k + 1;
    }
  }

  /** The table sizes to come: growing primes. */
  ghost predicate Sizes(primes: seq<nat>) {
    && (forall i {:trigger primes[i]} :: 0 <= i < |primes| ==> Prime(primes[i]))
    && (forall i, j :: 0 <= i < j < |primes| ==> primes[i] < primes[j])
  }

  lemma PrimeOdd(p: nat)
    requires Prime(p)
    ensures p % 2 == 1 && p > 2
  {
    assert p % 2 != 0;
  }

  /** Inserting a name into a table of n names cannot overflow in the middle of a rehash: there is room,
      or the next size has room for all the names that must move, and so on. */
  predicate Roomy(primes: seq<nat>, i: nat, n: nat)
    decreases |primes| - i
  {
    i < |primes| && (2 * n < primes[i] + 1 || (i + 1 < |primes| && 2 * n <= primes[i + 1] + 1 && Roomy(primes, i + 1, n)))
  }

  class HashTab {
    var entries: array<Bucket>
    var shadow: array<int>
    var items: nat
    var free: nat                // shadow_free_index
    var sizeIndex: nat           // primes_index
    const primes: seq<nat>
    const hash: Hash
    ghost var keys: seq<string>  // the names in the order of their insertion

    ghost predicate Valid()
      reads this, entries, shadow
    {
      && Sizes(primes) && sizeIndex < |primes| && entries.Length == shadow.Length == primes[sizeIndex]
      && items == free == |keys| && |keys| <= shadow.Length
      && Holds(entries[..], shadow[..], keys, UpTo(|keys|), hash)
    }

    /** make_hashtab */
    constructor (index: nat, primes: seq<nat>, hash: Hash)
      requires Sizes(primes) && index < |primes|
      ensures Valid() && keys == [] && sizeIndex == index && this.primes == primes && fresh(entries) && fresh(shadow)
    {
      sizeIndex, this.primes, this.hash := index, primes, hash;
      entries := new Bucket[primes[index]](_ => Empty);
      shadow := new int[primes[index]](_ => NOT_PRESENT);
      items, free, keys := 0, 0, [];
      new;
      NoItems(entries[..], shadow[..], [], hash);
    }

    /** The user-initiated insertion at an empty bucket. */
    method Store(key: string, h: nat, ghost k: nat)
      requires Valid() && h < entries.Length && entries[h] == Empty
      requires MetAt(entries[..], hash, key, h, k) && (forall j {:trigger keys[j]} :: 0 <= j < |keys| ==> keys[j] != key)
      modifies this, entries, shadow
      ensures Valid() && keys == old(keys) + [key] && sizeIndex == old(sizeIndex)
      ensures entries == old(entries) && shadow == old(shadow) && entries[h] == Item(key, old(|keys|))
    {
      hide Holds, Prime, UpTo, MetAt;
      ghost var es, sh, n := entries[..], shadow[..], |keys|;
      RoomLeft(es, sh, keys, n, hash, h);
      KeysMore(es, sh, keys, UpTo(n), hash, key);
      Stored(es, sh, keys + [key], UpTo(n), hash, h, n, k);
      UpToNext(n);
      entries[h] := Item(key, free);
      shadow[free] := h;
      free := free + 1;
      items := items + 1;
      keys := keys + [key];
      assert entries[..] == es[h := Item(key, n)] && shadow[..] == sh[n := h];
    }

    /** hashtab_full_handler: every entry moves to its place in the next larger table. An overflow while
        the entries move ends the method; what the code does from there on is not modelled. */
    method FullHandler() returns (overflow: bool)
      requires Valid() && sizeIndex + 1 < |primes|
      modifies this
      ensures Backlinks(old(entries[..]), primes[old(sizeIndex) + 1])
      ensures overflow == Moving(old(entries[..]), old(shadow[..]), primes[old(sizeIndex) + 1], hash, old(entries.Length)).Overflow?
      ensures !overflow ==> Valid() && keys == old(keys) && sizeIndex == old(sizeIndex) + 1 && fresh(entries) && fresh(shadow)
      ensures overflow ==> entries == old(entries) && shadow == old(shadow)
      ensures 2 * |old(keys)| <= primes[old(sizeIndex) + 1] + 1 ==> !overflow
    {
      hide Holds, Prime, UpTo, Moved, Moving;
      ghost var es, sh := entries[..], shadow[..];
      var newsize := primes[sizeIndex + 1];
      assert Prime(newsize) && primes[sizeIndex] < newsize;
      var bigger, longer := Allocate(newsize, shadow);
      HoldsDistinct(es, sh, keys, UpTo(|keys|), hash);
      BacklinksBelow(es, sh, keys, hash, newsize);
      overflow := MoveAll(entries, sh, keys, bigger, longer, hash);
      if !overflow {
        entries, shadow, sizeIndex := bigger, longer, sizeIndex + 1;
      }
    }

    /** The insertion of a new name that found no empty bucket. */
    method Enlarge(key: string) returns (index: int, overflow: bool)
      requires Valid() && key !in keys && 2 * |keys| >= primes[sizeIndex] + 1
      modifies this, entries, shadow
      ensures !overflow ==> Valid() && keys == old(keys) + [key] && 0 <= index < |keys| && keys[index] == key
      ensures overflow ==> !Roomy(primes, old(sizeIndex), |old(keys)|)
      ensures fresh(entries) || entries == old(entries)
      ensures fresh(shadow) || shadow == old(shadow)
      decreases |primes| - sizeIndex, 0
    {
      hide Holds, Sizes, UpTo;
      index, overflow := NOT_PRESENT, sizeIndex + 1 == |primes|;
      if !overflow {
        overflow := FullHandler();
        if !overflow {
          index, overflow := Lookup(key, true);
        }
      }
    }

    /** lookup: the index given out for the name, which it keeps forever; with insert, a new name gets the
        next index. It fails only if there is no larger size, or if the table overflows again while the
        entries move; not if the sizes to come are large enough. */
    method Lookup(key: string, insert: bool) returns (index: int, overflow: bool)
      requires Valid()
      modifies this, entries, shadow
      ensures !overflow ==> Valid() && keys == if insert && key !in old(keys) then old(keys) + [key] else old(keys)
      ensures !overflow ==> if key in keys then 0 <= index < |keys| && keys[index] == key else index == NOT_PRESENT
      ensures overflow ==> insert && key !in old(keys) && !Roomy(primes, old(sizeIndex), |old(keys)|)
      ensures !insert ==> entries == old(entries) && shadow == old(shadow)
      ensures fresh(entries) || entries == old(entries)
      ensures fresh(shadow) || shadow == old(shadow)
      decreases |primes| - sizeIndex, 1
    {
      ghost var es, sh, n := entries[..], shadow[..], |keys|;
      index, overflow := NOT_PRESENT, false;
      PrimeOdd(primes[sizeIndex]);
      var o, h;
      ghost var k;
      o, h, k := Search(entries, hash, key);
      if o == Hit {
        Present(es, sh, keys, UpTo(n), hash, h);
        return entries[h].backlink, false;
      }
      Absent(es, sh, keys, UpTo(n), hash, key, k) by {
        assert o == Vacant ==> At(es, hash, key, k) == es[h];
      }
      NotIn(keys, n, key);
      if !insert {
        return;
      }
      if o == Vacant {
        PassedMet(es, hash, key, h, k);
        Store(key, h, k);
        index := entries[h].backlink;
      } else {
        Crowded(es, sh, keys, UpTo(n), hash, key);
        index, overflow := Enlarge(key);
      }
    }
  }

  /** The new table while entries move, or the overflow that ends it. */
  datatype Stage = Overflow | Stage(es: seq<Bucket>, sh: seq<int>)

  function Start0(sh: seq<int>, p: nat): Stage {
    Stage(seq(p, _ => Empty), seq(p, i requires 0 <= i < p => if i < |sh| then sh[i] else NOT_PRESENT))
  }

  /** The number of buckets probing for a name passes before an empty one. */
  function Passing(es: seq<Bucket>, hash: Hash, key: string, k: nat): (n: nat)
    requires |es| > 0 && 2 * k <= |es| + 1
    ensures k <= n && 2 * n <= |es| + 1
    ensures forall j {:trigger At(es, hash, key, j)} :: k <= j < n ==> At(es, hash, key, j).Item?
    ensures 2 * n < |es| ==> At(es, hash, key, n) == Empty
    decreases |es| + 1 - 2 * k
  {
    if 2 * k >= |es| || At(es, hash, key, k) == Empty then k else Passing(es, hash, key, k + 1)
  }

  /** One entry moves to the first empty bucket its probing finds. */
  function MoveOne(st: Stage, e: Bucket, hash: Hash): Stage
    requires e.Item? && (st.Stage? ==> |st.es| > 0 && e.backlink < |st.sh|)
  {
    if st.Overflow? then Overflow
    else
      var p, k := |st.es|, Passing(st.es, hash, e.key, 0);
      if 2 * k >= p then Overflow
      else
        var h := Probe(Start(hash, p, e.key), k, p);
        Stage(st.es[h := e], st.sh[e.backlink := h])
  }

  /** Every index given out fits a table of size p. */
  ghost predicate Backlinks(es: seq<Bucket>, p: nat) {
    forall l {:trigger es[l]} :: 0 <= l < |es| && es[l].Item? ==> es[l].backlink < p
  }

  lemma BacklinksBelow(es: seq<Bucket>, sh: seq<int>, keys: seq<string>, hash: Hash, p: nat)
    requires Holds(es, sh, keys, UpTo(|keys|), hash) && |keys| <= p
    ensures Backlinks(es, p)
  {
  }

  /** The new table when the first i buckets of the old one have been moved. */
  ghost function Moving(es: seq<Bucket>, sh: seq<int>, p: nat, hash: Hash, i: nat): (st: Stage)
    requires p > 0 && i <= |es| && Backlinks(es, p)
    ensures st.Stage? ==> |st.es| == p == |st.sh|
  {
    if i == 0 then Start0(sh, p)
    else
      var st := Moving(es, sh, p, hash, i - 1);
      if es[i - 1] == Empty then st else MoveOne(st, es[i - 1], hash)
  }

  lemma {:induction false} MovingFails(es: seq<Bucket>, sh: seq<int>, p: nat, hash: Hash, i: nat, j: nat)
    requires p > 0 && i <= j <= |es| && Backlinks(es, p)
    ensures Moving(es, sh, p, hash, i).Overflow? ==> Moving(es, sh, p, hash, j).Overflow?
  {
    if i < j {
      MovingFails(es, sh, p, hash, i, j - 1);
    }
  }

  /** The larger arrays: an empty table, and the shadow table extended. */
  method Allocate(newsize: nat, shadow: array<int>) returns (bigger: array<Bucket>, longer: array<int>)
    requires newsize > 0
    ensures fresh(bigger) && fresh(longer) && bigger.Length == longer.Length == newsize
    ensures Stage(bigger[..], longer[..]) == Start0(shadow[..], newsize)
  {
    bigger := new Bucket[newsize](_ => Empty);
    longer := new int[newsize](i requires 0 <= i < newsize reads shadow =>
      if i < shadow.Length then shadow[i] else NOT_PRESENT);
    ghost var st := Start0(shadow[..], newsize);
    assert bigger[..] == st.es && longer[..] == st.sh;
  }

  lemma HoldsDistinct(es: seq<Bucket>, sh: seq<int>, keys: seq<string>, s: set<nat>, hash: Hash)
    requires Holds(es, sh, keys, s, hash)
    ensures Distinct(keys)
  {
  }

  /** The real rehashing: every occupied entry is inserted into the new table. */
  method MoveAll(entries: array<Bucket>, ghost sh: seq<int>, ghost keys: seq<string>, bigger: array<Bucket>, longer: array<int>, hash: Hash)
    returns (overflow: bool)
    requires entries != bigger && bigger.Length == longer.Length && Prime(bigger.Length) && |keys| <= entries.Length <= bigger.Length
    requires Holds(entries[..], sh, keys, UpTo(|keys|), hash) && Distinct(keys)
    requires Stage(bigger[..], longer[..]) == Start0(sh, bigger.Length)
    requires Backlinks(entries[..], bigger.Length)
    modifies bigger, longer
    ensures overflow == Moving(old(entries[..]), sh, bigger.Length, hash, entries.Length).Overflow?
    ensures !overflow ==> Holds(bigger[..], longer[..], keys, UpTo(|keys|), hash)
    ensures 2 * |keys| <= bigger.Length + 1 ==> !overflow
  {
    hide Holds, Prime, UpTo, Moved, Moving, Start0;
    ghost var es := entries[..];
    PrimeOdd(bigger.Length);
    NoneMoved(es, sh, bigger.Length, keys, hash, bigger[..], longer[..]);
    for i := 0 to entries.Length
      invariant entries[..] == es && Holds(bigger[..], longer[..], keys, Moved(es, i), hash)
      invariant Moving(es, sh, bigger.Length, hash, i) == Stage(bigger[..], longer[..])
    {
      if entries[i].Item? {
        MoveFacts(es, sh, keys, hash, i);
        MovingNext(es, sh, bigger.Length, hash, i);
        overflow := Move(bigger, longer, entries[i], hash, keys, Moved(es, i));
        if overflow {
          MovingFails(es, sh, bigger.Length, hash, i + 1, |es|);
          return;
        }
      } else {
        MovedSkip(es, sh, bigger.Length, hash, i);
      }
    }
    overflow := false;
    MovedAll(es, sh, keys, hash);
  }

  lemma UpToNext(n: nat)
    ensures n !in UpTo(n) && UpTo(n) + {n} == UpTo(n + 1)
  {
  }

  lemma NoneMoved(es: seq<Bucket>, sh: seq<int>, p: nat, keys: seq<string>, hash: Hash, bs: seq<Bucket>, ls: seq<int>)
    requires p > 0 && Distinct(keys) && Stage(bs, ls) == Start0(sh, p)
    requires Backlinks(es, p)
    ensures Moved(es, 0) == {} && Moving(es, sh, p, hash, 0) == Stage(bs, ls) && Holds(bs, ls, keys, {}, hash)
  {
    NoItems(bs, ls, keys, hash);
  }

  lemma MovedSkip(es: seq<Bucket>, sh: seq<int>, p: nat, hash: Hash, i: nat)
    requires p > 0 && i < |es| && es[i] == Empty
    requires Backlinks(es, p)
    ensures Moved(es, i + 1) == Moved(es, i) && Moving(es, sh, p, hash, i + 1) == Moving(es, sh, p, hash, i)
  {
  }

  lemma MovingNext(es: seq<Bucket>, sh: seq<int>, p: nat, hash: Hash, i: nat)
    requires p > 0 && i < |es| && es[i].Item?
    requires Backlinks(es, p)
    ensures Moving(es, sh, p, hash, i + 1) == MoveOne(Moving(es, sh, p, hash, i), es[i], hash)
  {
  }

  lemma NoItems(es: seq<Bucket>, sh: seq<int>, keys: seq<string>, hash: Hash)
    requires |es| > 0 && Distinct(keys) && forall i {:trigger es[i]} :: 0 <= i < |es| ==> es[i] == Empty
    ensures Holds(es, sh, keys, {}, hash) && UpTo(0) == {}
  {
  }

  lemma KeysMore(es: seq<Bucket>, sh: seq<int>, keys: seq<string>, s: set<nat>, hash: Hash, key: string)
    requires Holds(es, sh, keys, s, hash) && (forall j {:trigger keys[j]} :: 0 <= j < |keys| ==> keys[j] != key)
    ensures Holds(es, sh, keys + [key], s, hash)
  {
    forall j | j in s
      ensures j < |keys + [key]| && j < |sh| && 0 <= sh[j] < |es| && es[sh[j]] == Item((keys + [key])[j], j)
    {
    }
  }

  lemma PassedMet(es: seq<Bucket>, hash: Hash, key: string, h: nat, k: nat)
    requires |es| > 0 && Passed(es, hash, key, k) && 2 * k < |es| && h == Probe(Start(hash, |es|, key), k, |es|)
    ensures MetAt(es, hash, key, h, k)
  {
  }

  lemma NotIn(keys: seq<string>, n: nat, key: string)
    requires n == |keys| && forall j {:trigger keys[j]} :: j in UpTo(n) ==> keys[j] != key
    ensures key !in keys && forall j {:trigger keys[j]} :: 0 <= j < n ==> keys[j] != key
  {
    forall j | 0 <= j < n
      ensures keys[j] != key
    {
      assert j in UpTo(n);
    }
  }

  /** The indices of the items in the first i buckets. */
  ghost function Moved(es: seq<Bucket>, i: nat): set<nat>
    requires i <= |es|
  {
    if i == 0 then {} else Moved(es, i - 1) + if es[i - 1].Item? then {es[i - 1].backlink} else {}
  }

  lemma {:induction false} InMoved(es: seq<Bucket>, i: nat, j: nat)
    requires i <= |es|
    ensures j in Moved(es, i) <==> exists l {:trigger es[l]} :: 0 <= l < i && es[l].Item? && es[l].backlink == j
  {
    if i > 0 {
      InMoved(es, i - 1, j);
    }
  }

  /** An item that has not moved yet: its index is new, and fewer than all have moved. */
  lemma MoveFacts(es: seq<Bucket>, sh: seq<int>, keys: seq<string>, hash: Hash, i: nat)
    requires Holds(es, sh, keys, UpTo(|keys|), hash) && i < |es| && es[i].Item?
    ensures var j := es[i].backlink;
      && j < |keys| && keys[j] == es[i].key && j !in Moved(es, i) && |Moved(es, i)| < |keys|
      && Moved(es, i + 1) == Moved(es, i) + {j}
  {
    var j := es[i].backlink;
    Present(es, sh, keys, UpTo(|keys|), hash, i);
    InMoved(es, i, j);
    forall l | l in Moved(es, i)
      ensures l in UpTo(|keys|) && l != j
    {
      InMoved(es, i, l);
    }
    assert j in UpTo(|keys|);
    SubsetSize(Moved(es, i) + {j}, UpTo(|keys|));
  }

  lemma MovedAll(es: seq<Bucket>, sh: seq<int>, keys: seq<string>, hash: Hash)
    requires Holds(es, sh, keys, UpTo(|keys|), hash)
    ensures Moved(es, |es|) == UpTo(|keys|)
  {
    forall j: nat
      ensures j in Moved(es, |es|) <==> j in UpTo(|keys|)
    {
      InMoved(es, |es|, j);
      if j in UpTo(|keys|) {
        assert es[sh[j]] == Item(keys[j], j);
      }
    }
  }

  /** lookup_1 as the rehash uses it: the entry itself goes into the new table, and its shadow follows. */
  method Move(bigger: array<Bucket>, longer: array<int>, e: Bucket, hash: Hash, ghost keys: seq<string>, ghost s: set<nat>)
    returns (overflow: bool)
    requires e.Item? && bigger.Length == longer.Length && Prime(bigger.Length)
    requires Holds(bigger[..], longer[..], keys, s, hash)
    requires e.backlink < |keys| && e.backlink < longer.Length && keys[e.backlink] == e.key && e.backlink !in s && |s| < |keys|
    modifies bigger, longer
    ensures overflow == MoveOne(old(Stage(bigger[..], longer[..])), e, hash).Overflow?
    ensures !overflow ==> MoveOne(old(Stage(bigger[..], longer[..])), e, hash) == Stage(bigger[..], longer[..])
    ensures !overflow ==> Holds(bigger[..], longer[..], keys, s + {e.backlink}, hash)
    ensures 2 * |keys| <= bigger.Length + 1 ==> !overflow
  {
    hide Holds, Prime, MetAt, Passed, At, Probe, Start;
    ghost var es, sh := bigger[..], longer[..];
    PrimeOdd(bigger.Length);
    var o, h;
    ghost var k;
    o, h, k := Search(bigger, hash, e.key);
    NotHit(es, sh, keys, s, hash, e, o, h);
    VacantAt(es, hash, e.key, h, k);
    PassingIs(es, hash, e.key, k, 0);
    overflow := o == Full;
    if overflow {
      Crowded(es, sh, keys, s, hash, e.key);
    } else {
      PassedMet(es, hash, e.key, h, k);
      Stored(es, sh, keys, s, hash, h, e.backlink, k);
      bigger[h] := e;
      longer[e.backlink] := h;
      assert bigger[..] == es[h := e] && longer[..] == sh[e.backlink := h];
    }
  }

  /** In the larger table the name is not there yet. */
  lemma NotHit(es: seq<Bucket>, sh: seq<int>, keys: seq<string>, s: set<nat>, hash: Hash, e: Bucket, o: Outcome, h: nat)
    requires Holds(es, sh, keys, s, hash) && e.Item? && h < |es|
    requires e.backlink < |keys| && keys[e.backlink] == e.key && e.backlink !in s
    requires o.Hit? ==> es[h].Item? && es[h].key == e.key
    ensures !o.Hit?
  {
    if o.Hit? {
      Present(es, sh, keys, s, hash, h);
    }
  }

  lemma VacantAt(es: seq<Bucket>, hash: Hash, key: string, h: nat, k: nat)
    requires |es| > 0 && h < |es|
    ensures h == Probe(Start(hash, |es|, key), k, |es|) ==> At(es, hash, key, k) == es[h]
  {
  }

  /** The probing loop stops where the specification says. */
  lemma {:induction false} PassingIs(es: seq<Bucket>, hash: Hash, key: string, k: nat, j: nat)
    requires |es| > 0 && j <= k && 2 * k <= |es| + 1 && Passed(es, hash, key, k)
    requires 2 * k >= |es| || At(es, hash, key, k) == Empty
    ensures Passing(es, hash, key, j) == k
    decreases k - j
  {
    if j < k {
      assert At(es, hash, key, j).Item?;
      PassingIs(es, hash, key, k, j + 1);
    }
  }
}
