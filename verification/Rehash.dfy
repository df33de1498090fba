/** When the names of a full table can move to the next larger one under every hash function. The code
    has no answer to an overflow in the middle of a rehash, so this is what the sizes must provide. */
module Rehash {
  import opened Sets
  import opened Probing
  import opened HashTable

  /** A table of size q holding the given names, in the order of their insertion. */
  ghost predicate Holding(es: seq<Bucket>, sh: seq<int>, keys: seq<string>, q: nat, hash: Hash) {
    |es| == |sh| == q && Holds(es, sh, keys, UpTo(|keys|), hash)
  }

  /** All names of the table can move to size p, and all are there afterwards. */
  ghost predicate Moves(es: seq<Bucket>, sh: seq<int>, keys: seq<string>, p: nat, hash: Hash)
    requires p > 0
  {
    && Backlinks(es, p)
    && var st := Moving(es, sh, p, hash, |es|);
      && st.Stage? && Holds(st.es, st.sh, keys, UpTo(|keys|), hash)
  }

  /** Whatever the hash function and the n names are, they can move from size q to size p. */
  ghost predicate Fits(q: nat, p: nat, n: nat)
    requires p > 0
  {
    forall es, sh, keys, hash {:trigger Holding(es, sh, keys, q, hash), Moves(es, sh, keys, p, hash)} ::
      |keys| == n && Holding(es, sh, keys, q, hash) ==> Moves(es, sh, keys, p, hash)
  }

  /** n names always fit the next size p exactly if they are at most half of it, rounded up. */
  lemma FitsIff(q: nat, p: nat, n: nat)
    requires Prime(p) && n <= q < p
    ensures Fits(q, p, n) <==> 2 * n <= p + 1
  {
    if 2 * n <= p + 1 {
      forall es, sh, keys, hash | |keys| == n && Holding(es, sh, keys, q, hash)
        ensures Moves(es, sh, keys, p, hash)
      {
        MovingFits(es, sh, keys, p, hash);
      }
    } else {
      Collide(q, p, n);
      Unfit(Crafted(q, n), seq(q, i => i), Names(n), q, p, Colliding(p));
    }
  }

  /** The first two sizes of the code: a table of 53 that holds 52 names may not fit one of 101. */
  lemma FirstSizes()
    ensures Fits(53, 101, 51) && !Fits(53, 101, 52)
  {
    assert Prime(101);
    FitsIff(53, 101, 51);
    FitsIff(53, 101, 52);
  }

  lemma Unfit(es: seq<Bucket>, sh: seq<int>, keys: seq<string>, q: nat, p: nat, hash: Hash)
    requires p > 0 && Holding(es, sh, keys, q, hash) && !Moves(es, sh, keys, p, hash)
    ensures !Fits(q, p, |keys|)
  {
  }

  // ---- the sufficient half: an overflow needs half of the new table to be taken

  lemma MoveOneFits(st: Stage, e: Bucket, keys: seq<string>, s: set<nat>, hash: Hash)
    requires st.Stage? && Prime(|st.es|) && |st.sh| == |st.es| && Holds(st.es, st.sh, keys, s, hash)
    requires e.Item? && e.backlink < |keys| <= |st.es| && keys[e.backlink] == e.key && e.backlink !in s && |s| < |keys|
    requires 2 * |keys| <= |st.es| + 1
    ensures var st' := MoveOne(st, e, hash);
      st'.Stage? && Holds(st'.es, st'.sh, keys, s + {e.backlink}, hash)
  {
    hide Holds, Prime, Probe, Start;
    PrimeOdd(|st.es|);
    var k := Passing(st.es, hash, e.key, 0);
    PassedOthers(st.es, st.sh, keys, s, hash, e, k);
    if 2 * k >= |st.es| {
      Crowded(st.es, st.sh, keys, s, hash, e.key);
    } else {
      var h := Probe(Start(hash, |st.es|, e.key), k, |st.es|);
      PassedMet(st.es, hash, e.key, h, k);
      VacantAt(st.es, hash, e.key, h, k);
      Stored(st.es, st.sh, keys, s, hash, h, e.backlink, k);
    }
  }

  /** None of the items passed has the name that moves. */
  lemma PassedOthers(es: seq<Bucket>, sh: seq<int>, keys: seq<string>, s: set<nat>, hash: Hash, e: Bucket, k: nat)
    requires Holds(es, sh, keys, s, hash) && e.Item? && e.backlink < |keys| && keys[e.backlink] == e.key && e.backlink !in s
    requires forall j {:trigger At(es, hash, e.key, j)} :: 0 <= j < k ==> At(es, hash, e.key, j).Item?
    ensures Passed(es, hash, e.key, k)
  {
    forall j {:trigger At(es, hash, e.key, j)} | 0 <= j < k
      ensures At(es, hash, e.key, j).key != e.key
    {
      var h := Probe(Start(hash, |es|, e.key), j, |es|);
      assert At(es, hash, e.key, j).Item?;
      NotHit(es, sh, keys, s, hash, e, if es[h].key == e.key then Hit else Vacant, h);
    }
  }

  lemma {:induction false} MovingFitsTo(es: seq<Bucket>, sh: seq<int>, keys: seq<string>, p: nat, hash: Hash, i: nat)
    requires Prime(p) && |keys| <= p && 2 * |keys| <= p + 1 && i <= |es|
    requires Holds(es, sh, keys, UpTo(|keys|), hash) && Backlinks(es, p)
    ensures var st := Moving(es, sh, p, hash, i);
      st.Stage? && Holds(st.es, st.sh, keys, Moved(es, i), hash)
  {
    hide Holds, Prime, UpTo, Moved, Moving, Backlinks;
    PrimeOdd(p);
    HoldsDistinct(es, sh, keys, UpTo(|keys|), hash);
    if i == 0 {
      var st := Start0(sh, p);
      NoneMoved(es, sh, p, keys, hash, st.es, st.sh);
    } else {
      MovingFitsTo(es, sh, keys, p, hash, i - 1);
      if es[i - 1].Item? {
        MoveFacts(es, sh, keys, hash, i - 1);
        MovingNext(es, sh, p, hash, i - 1);
        MoveOneFits(Moving(es, sh, p, hash, i - 1), es[i - 1], keys, Moved(es, i - 1), hash);
      } else {
        MovedSkip(es, sh, p, hash, i - 1);
      }
    }
  }

  lemma MovingFits(es: seq<Bucket>, sh: seq<int>, keys: seq<string>, p: nat, hash: Hash)
    requires Prime(p) && |keys| <= p && 2 * |keys| <= p + 1
    requires Holds(es, sh, keys, UpTo(|keys|), hash)
    ensures Moves(es, sh, keys, p, hash)
  {
    hide Holds, Prime;
    BacklinksBelow(es, sh, keys, hash, p);
    MovingFitsTo(es, sh, keys, p, hash, |es|);
    MovedAll(es, sh, keys, hash);
  }

  // ---- the necessary half: names that all start at one bucket of the new table

  function Name(i: nat): string {
    seq(i, _ => 'x')
  }

  function Names(n: nat): seq<string> {
    seq(n, i requires 0 <= i < n => Name(i))
  }

  /** All names start at bucket 0 in a table of size p, and at different ones in others. */
  function Colliding(p: nat): Hash {
    (size, key) => if size == p then 0 else |key|
  }

  /** A table of size q holding n names, each at the bucket it starts at. */
  function Crafted(q: nat, n: nat): seq<Bucket> {
    seq(q, i requires 0 <= i < q => if i < n then Item(Name(i), i) else Empty)
  }

  lemma CraftedHolds(q: nat, p: nat, n: nat)
    requires n <= q < p && 0 < q
    ensures Holding(Crafted(q, n), seq(q, i => i), Names(n), q, Colliding(p))
  {
    var es, hash := Crafted(q, n), Colliding(p);
    hide Met, Name, Probe, Start;
    NamesDiffer(n);
    forall i | 0 <= i < q
      ensures Met(es, hash, i)
    {
      CraftedMet(q, p, n, i);
    }
  }

  lemma NamesDiffer(n: nat)
    ensures Distinct(Names(n))
  {
    forall i, j | 0 <= i < j < n
      ensures Names(n)[i] != Names(n)[j]
    {
      assert |Name(i)| == i && |Name(j)| == j;
    }
  }

  lemma CraftedMet(q: nat, p: nat, n: nat, i: nat)
    requires n <= q < p && i < q
    ensures Met(Crafted(q, n), Colliding(p), i)
  {
    if i < n {
      FirstProbe(Colliding(p), q, Name(i));
      SmallMod(i, q);
      assert MetAt(Crafted(q, n), Colliding(p), Name(i), i, 0);
    }
  }

  lemma SmallMod(i: nat, q: nat)
    requires i < q
    ensures i % q == i
  {
  }

  /** The first j names took the first j buckets of the one probe sequence. */
  ghost predicate Queued(st: Stage, p: nat, j: nat)
    requires p > 0
  {
    && st.Stage? && |st.es| == |st.sh| == p
    && forall m: nat {:trigger Probe(0, m, p)} :: 2 * m < p ==> st.es[Probe(0, m, p)] == if m < j then Item(Name(m), m) else Empty
  }

  lemma QueuedPasses(st: Stage, p: nat, j: nat)
    requires p > 0 && Queued(st, p, j) && 2 * j <= p + 1 && p % 2 == 1
    ensures Passing(st.es, Colliding(p), Name(j), 0) == j
  {
    var hash := Colliding(p);
    assert Start(hash, p, Name(j)) == 0;
    forall m {:trigger At(st.es, hash, Name(j), m)} | 0 <= m < j
      ensures At(st.es, hash, Name(j), m).Item? && At(st.es, hash, Name(j), m).key != Name(j)
    {
      assert At(st.es, hash, Name(j), m) == st.es[Probe(0, m, p)];
      assert |Name(m)| == m && |Name(j)| == j;
    }
    if 2 * j < p {
      assert At(st.es, hash, Name(j), j) == st.es[Probe(0, j, p)];
    }
    hide Probe, Queued, Colliding, Name;
    PassingIs(st.es, hash, Name(j), j, 0);
  }

  lemma QueueMore(es: seq<Bucket>, sh: seq<int>, sh': seq<int>, p: nat, j: nat)
    requires Prime(p) && Queued(Stage(es, sh), p, j) && 2 * j < p && |sh'| == p
    ensures Queued(Stage(es[Probe(0, j, p) := Item(Name(j), j)], sh'), p, j + 1)
  {
    hide Prime, Name;
    var es' := es[Probe(0, j, p) := Item(Name(j), j)];
    forall m: nat {:trigger Probe(0, m, p)} | 2 * m < p
      ensures es'[Probe(0, m, p)] == if m < j + 1 then Item(Name(m), m) else Empty
    {
      hide Probe;
      if m < j {
        ProbesDiffer(0, m, j, p);
      } else if j < m {
        ProbesDiffer(0, j, m, p);
      }
    }
  }

  /** One more name joins the queue, or finds all its probes taken. */
  lemma QueueOne(st: Stage, p: nat, j: nat)
    requires Prime(p) && p % 2 == 1 && Queued(st, p, j) && 2 * j <= p + 1 && j < p
    ensures 2 * j < p ==> Queued(MoveOne(st, Item(Name(j), j), Colliding(p)), p, j + 1)
    ensures 2 * j > p ==> MoveOne(st, Item(Name(j), j), Colliding(p)).Overflow?
  {
    hide Prime, Probe, Name, Passing, Queued;
    QueuedPasses(st, p, j);
    QueuedSizes(st, p, j);
    StartsAt(p, Name(j));
    if 2 * j < p {
      var h := Probe(0, j, p);
      QueueMore(st.es, st.sh, st.sh[j := h], p, j);
    }
  }

  lemma QueuedSizes(st: Stage, p: nat, j: nat)
    requires p > 0 && Queued(st, p, j)
    ensures st.Stage? && |st.es| == |st.sh| == p && st == Stage(st.es, st.sh)
  {
  }

  lemma StartsAt(p: nat, key: string)
    requires p > 0
    ensures Start(Colliding(p), p, key) == 0
  {
  }

  lemma {:induction false} Queue(q: nat, p: nat, n: nat, j: nat)
    requires Prime(p) && n <= q < p && j <= n && 2 * j <= p + 1
    requires Backlinks(Crafted(q, n), p)
    ensures Queued(Moving(Crafted(q, n), seq(q, i => i), p, Colliding(p), j), p, j)
  {
    hide Prime, Probe;
    PrimeOdd(p);
    var es, sh, hash := Crafted(q, n), seq(q, i => i), Colliding(p);
    if j == 0 {
      assert Moving(es, sh, p, hash, 0) == Start0(sh, p);
    } else {
      Queue(q, p, n, j - 1);
      MovingNext(es, sh, p, hash, j - 1);
      QueueOne(Moving(es, sh, p, hash, j - 1), p, j - 1);
    }
  }

  /** The name after the first (p + 1) / 2 ones overflows. */
  lemma Collide(q: nat, p: nat, n: nat)
    requires Prime(p) && n <= q < p && 2 * n > p + 1
    ensures Holding(Crafted(q, n), seq(q, i => i), Names(n), q, Colliding(p))
    ensures !Moves(Crafted(q, n), seq(q, i => i), Names(n), p, Colliding(p))
  {
    hide Prime, Holds;
    PrimeOdd(p);
    var es, sh, hash, j := Crafted(q, n), seq(q, i => i), Colliding(p), (p + 1) / 2;
    CraftedHolds(q, p, n);
    assert Backlinks(es, p);
    Queue(q, p, n, j);
    MovingNext(es, sh, p, hash, j);
    QueueOne(Moving(es, sh, p, hash, j), p, j);
    MovingFails(es, sh, p, hash, j + 1, q);
  }
}
