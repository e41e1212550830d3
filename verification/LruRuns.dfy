/** Theorems about runs of the response cache: what it holds, and how caches of different sizes
    compare when they serve the same requests. */
module LruRuns {
  import opened Wrappers
  import opened Subsequences
  import opened LruCache

  /** `Serve` is the discipline of the callers: look the key up and, on a miss, store `e`. */
  datatype Op =
    | Serve(k: Key, e: Entry, now: real)
    | Save(k: Key, e: Entry)
    | Look(k: Key, now: real)
    | Remove(k: Key)
    | Wipe

  function Next(maxSize: nat, c: Cache, op: Op): Cache {
    match op
    case Serve(k, e, now) =>
      var (found, c1) := Got(c, k, now);
      if found.Some? then c1 else Put(maxSize, c1, k, e)
    case Save(k, e) => Put(maxSize, c, k, e)
    case Look(k, now) => Got(c, k, now).1
    case Remove(k) => Dropped(c, k)
    case Wipe => EMPTY
  }

  predicate Hits(c: Cache, op: Op) {
    (op.Serve? || op.Look?) && Got(c, op.k, op.now).0.Some?
  }

  function After(maxSize: nat, c: Cache, ops: seq<Op>): Cache
    decreases |ops|
  {
    if ops == [] then c else After(maxSize, Next(maxSize, c, ops[0]), ops[1..])
  }

  function HitCount(maxSize: nat, c: Cache, ops: seq<Op>): nat
    decreases |ops|
  {
    if ops == [] then 0 else (if Hits(c, ops[0]) then 1 else 0) + HitCount(maxSize, Next(maxSize, c, ops[0]), ops[1..])
  }

  // ---------------------------------------------------------------------
  // The order
  // ---------------------------------------------------------------------

  /** The last `n` keys, or all of them if there are fewer. */
  function Recent(n: nat, order: seq<Key>): (r: seq<Key>)
    ensures |r| <= n && |r| <= |order| && (|order| <= n ==> r == order)
  {
    order[Overflow(n, |order|)..]
  }

  function Touched(order: seq<Key>, k: Key): seq<Key> {
    Without(order, k) + [k]
  }

  predicate IsSuffix(s: seq<Key>, l: seq<Key>) {
    |s| <= |l| && l[|l| - |s|..] == s
  }

  lemma {:induction false} EvictedIs(c: Cache, n: nat)
    requires n <= |c.order|
    ensures Evicted(c, n).order == c.order[n..]
    ensures forall k :: k in Evicted(c, n).entries <==> k in c.entries && k !in c.order[..n]
    ensures forall k :: k in Evicted(c, n).entries ==> Evicted(c, n).entries[k] == c.entries[k]
    decreases n
  {
    if n > 0 {
      var c1 := Cache(c.order[1..], c.entries - {c.order[0]});
      EvictedIs(c1, n - 1);
      assert c.order[..n] == [c.order[0]] + c.order[1..][..n - 1];
    }
  }

  /** `set` keeps exactly the entries of the most recently used keys. */
  lemma PutIs(maxSize: nat, c: Cache, k: Key, e: Entry)
    requires c.Valid(maxSize)
    ensures var r := Put(maxSize, c, k, e);
      && r.Valid(maxSize) && r.order == Recent(maxSize, Touched(c.order, k))
      && forall j :: j in r.entries ==> r.entries[j] == if j == k then e else c.entries[j]
  {
    var stored := Cache(Touched(c.order, k), c.entries[k := e]);
    WithoutDistinct(c.order, k);
    EvictionFits(maxSize, stored);
  }

  /** Eviction keeps the entries of the keys it keeps, and leaves a cache of the right size. */
  lemma EvictionFits(maxSize: nat, c: Cache)
    requires Distinct(c.order) && forall k :: k in c.order <==> k in c.entries
    ensures var r := Evicted(c, Overflow(maxSize, |c.order|));
      && r.Valid(maxSize) && r.order == Recent(maxSize, c.order)
      && forall k :: k in r.entries ==> k in c.entries && r.entries[k] == c.entries[k]
  {
    var n := Overflow(maxSize, |c.order|);
    EvictedIs(c, n);
    SplitDistinct(c.order, n);
    forall k ensures k in c.order[n..] <==> k in Evicted(c, n).entries {
      if k in c.order[n..] { assert k in c.order; }
    }
  }

  /** What holds of the entry stored and of all others before holds of all entries after. */
  lemma PutKeeps(maxSize: nat, c: Cache, k: Key, e: Entry, p: Entry -> bool)
    requires c.Valid(maxSize) && p(e) && forall j :: j in c.entries ==> p(c.entries[j])
    ensures var r := Put(maxSize, c, k, e); forall j :: j in r.entries ==> p(r.entries[j])
  {
    PutIs(maxSize, c, k, e);
    var r := Put(maxSize, c, k, e);
    forall j | j in r.entries ensures p(r.entries[j]) {
      if j != k { assert j in Touched(c.order, k); }
    }
  }

  lemma SplitDistinct(s: seq<Key>, n: nat)
    requires Distinct(s) && n <= |s|
    ensures forall k :: k in s ==> (k in s[n..] <==> k !in s[..n])
  {
    forall k | k in s ensures k in s[n..] <==> k !in s[..n] {
      var i :| 0 <= i < |s| && s[i] == k;
      if i < n {
        assert s[..n][i] == k;
      } else {
        assert s[n..][i - n] == k;
      }
    }
  }

  lemma NextIsValid(maxSize: nat, c: Cache, op: Op)
    requires c.Valid(maxSize)
    ensures Next(maxSize, c, op).Valid(maxSize)
  {
    match op
    case Serve(k, e, now) =>
      WithoutDistinct(c.order, k);
      if Got(c, k, now).0.None? { PutIs(maxSize, Got(c, k, now).1, k, e); }
    case Save(k, e) => PutIs(maxSize, c, k, e);
    case Look(k, now) => WithoutDistinct(c.order, k);
    case Remove(k) => WithoutDistinct(c.order, k);
    case Wipe =>
  }

  /** Serving and saving make the key the most recently used, whether it was there or not, and
      whether it had expired or not. */
  lemma TouchesOrder(maxSize: nat, c: Cache, op: Op)
    requires c.Valid(maxSize) && (op.Serve? || op.Save?)
    ensures Next(maxSize, c, op).order == Recent(maxSize, Touched(c.order, op.k))
  {
    WithoutDistinct(c.order, op.k);
    if op.Save? {
      PutIs(maxSize, c, op.k, op.e);
    } else if Got(c, op.k, op.now).0.None? {
      PutIs(maxSize, Got(c, op.k, op.now).1, op.k, op.e);
      WithoutAbsent(Without(c.order, op.k), op.k);
    }
  }

  // ---------------------------------------------------------------------
  // What the cache holds
  // ---------------------------------------------------------------------

  /** The keys of a sequence of uses, each at the place of its last use. */
  function Recency(ops: seq<Op>): seq<Key>
    requires forall op :: op in ops ==> op.Serve? || op.Save?
  {
    if ops == [] then [] else Touched(Recency(ops[..|ops| - 1]), ops[|ops| - 1].k)
  }

  lemma {:induction false} RecencyIsDistinct(ops: seq<Op>)
    requires forall op :: op in ops ==> op.Serve? || op.Save?
    ensures Distinct(Recency(ops))
  {
    if ops != [] {
      RecencyIsDistinct(ops[..|ops| - 1]);
      WithoutDistinct(Recency(ops[..|ops| - 1]), ops[|ops| - 1].k);
    }
  }

  lemma RecentOfRecent(n: nat, order: seq<Key>, k: Key)
    requires Distinct(order)
    ensures Recent(n, Touched(Recent(n, order), k)) == Recent(n, Touched(order, k))
  {
    var s := Recent(n, order);
    if |order| > n {
      var p := order[..|order| - n];
      assert order == p + s;
      WithoutJoined(p, s, k);
      SplitDistinct(order, |order| - n);
      WithoutDistinct(s, k);
      assert Touched(order, k) == Without(p, k) + Touched(s, k);
      if k in s {
        WithoutAbsent(p, k);
      } else {
        WithoutAbsent(s, k);
      }
    }
  }

  lemma {:induction false} AfterSnoc(maxSize: nat, c: Cache, ops: seq<Op>, op: Op)
    ensures After(maxSize, c, ops + [op]) == Next(maxSize, After(maxSize, c, ops), op)
    decreases |ops|
  {
    if ops == [] {
      assert ops + [op] == [op] && [op][1..] == [];
    } else {
      assert (ops + [op])[1..] == ops[1..] + [op];
      AfterSnoc(maxSize, Next(maxSize, c, ops[0]), ops[1..], op);
    }
  }

  /** Least recently used eviction: after any run of requests and stores, whatever expires, the cache
      holds exactly the last `maxSize` distinct keys used, in the order of their last use. */
  lemma {:induction false} HoldsMostRecentlyUsed(maxSize: nat, ops: seq<Op>)
    requires forall op :: op in ops ==> op.Serve? || op.Save?
    ensures After(maxSize, EMPTY, ops).Valid(maxSize)
    ensures After(maxSize, EMPTY, ops).order == Recent(maxSize, Recency(ops))
    decreases |ops|
  {
    if ops != [] {
      var init, op := ops[..|ops| - 1], ops[|ops| - 1];
      assert ops == init + [op];
      HoldsMostRecentlyUsed(maxSize, init);
      AfterSnoc(maxSize, EMPTY, init, op);
      NextIsValid(maxSize, After(maxSize, EMPTY, init), op);
      TouchesOrder(maxSize, After(maxSize, EMPTY, init), op);
      RecencyIsDistinct(init);
      RecentOfRecent(maxSize, Recency(init), op.k);
    }
  }

  /** The operation stores its entry. */
  predicate Stores(c: Cache, op: Op) {
    op.Save? || (op.Serve? && !Hits(c, op))
  }

  /** What a key stands for is what was last stored under it: an operation that stores under `k`
      makes it stand for the new entry, and any other leaves it what it was or removes it. */
  lemma OnlyStoresChangeEntries(maxSize: nat, c: Cache, op: Op, k: Key)
    requires c.Valid(maxSize)
    ensures var r := Next(maxSize, c, op);
      if Stores(c, op) && op.k == k then (maxSize > 0 <==> k in r.entries) && (k in r.entries ==> r.entries[k] == op.e)
      else k in r.entries ==> k in c.entries && r.entries[k] == c.entries[k]
  {
    WithoutDistinct(c.order, k);
    if op.Save? {
      StoredIsKept(maxSize, c, op.k, op.e, k);
    } else if Stores(c, op) {
      WithoutDistinct(c.order, op.k);
      StoredIsKept(maxSize, Got(c, op.k, op.now).1, op.k, op.e, k);
    }
  }

  lemma StoredIsKept(maxSize: nat, c: Cache, k: Key, e: Entry, j: Key)
    requires c.Valid(maxSize)
    ensures var r := Put(maxSize, c, k, e);
      && (maxSize > 0 <==> k in r.entries) && (k in r.entries ==> r.entries[k] == e)
      && (j != k && j in r.entries ==> j in c.entries && r.entries[j] == c.entries[j])
  {
    PutIs(maxSize, c, k, e);
    var r := Put(maxSize, c, k, e);
    var touched := Touched(c.order, k);
    if maxSize > 0 {
      assert r.order[|r.order| - 1] == touched[|touched| - 1] == k;
    }
    if j in r.entries {
      assert j in touched;
    }
  }

  // ---------------------------------------------------------------------
  // What a hit returns
  // ---------------------------------------------------------------------

  /** The `i`-th operation of the run stores its entry under `k`. */
  predicate StoresUnder(maxSize: nat, ops: seq<Op>, i: nat, k: Key)
    requires i < |ops|
  {
    Stores(After(maxSize, EMPTY, ops[..i]), ops[i]) && ops[i].k == k
  }

  ghost predicate LastStore(maxSize: nat, ops: seq<Op>, i: nat, k: Key) {
    i < |ops| && StoresUnder(maxSize, ops, i, k) && forall j :: i < j < |ops| ==> !StoresUnder(maxSize, ops, j, k)
  }

  lemma {:induction false} EntriesWereStored(maxSize: nat, ops: seq<Op>, k: Key) returns (i: nat)
    requires k in After(maxSize, EMPTY, ops).entries
    ensures LastStore(maxSize, ops, i, k) && After(maxSize, EMPTY, ops).entries[k] == ops[i].e
    decreases |ops|
  {
    var n := |ops| - 1;
    var init, op := ops[..n], ops[n];
    var c := After(maxSize, EMPTY, init);
    assert ops == init + [op];
    AfterSnoc(maxSize, EMPTY, init, op);
    AfterIsValid(maxSize, EMPTY, init);
    OnlyStoresChangeEntries(maxSize, c, op, k);
    if Stores(c, op) && op.k == k {
      i := n;
    } else {
      i := EntriesWereStored(maxSize, init, k);
      forall j: nat | j < n ensures StoresUnder(maxSize, init, j, k) == StoresUnder(maxSize, ops, j, k) {
        assert init[..j] == ops[..j] && init[j] == ops[j];
      }
    }
  }

  /** A lookup after any run hits exactly when the cache holds the key and its entry is no older than its
      time to live; it then returns the entry last stored under the key, however long ago. */
  lemma HitsExactly(maxSize: nat, ops: seq<Op>, k: Key, now: real) returns (i: nat)
    ensures var c := After(maxSize, EMPTY, ops);
      var found := Got(c, k, now).0;
      && (found.Some? <==> k in c.entries && Lasts(c.entries[k], now))
      && (found.Some? ==> LastStore(maxSize, ops, i, k) && found == Some(ops[i].e))
  {
    i := 0;
    if k in After(maxSize, EMPTY, ops).entries {
      i := EntriesWereStored(maxSize, ops, k);
    }
  }

  /** A key that is removed is not held any more; all others stay in their order with their entries. */
  lemma RemoveForgets(maxSize: nat, c: Cache, k: Key)
    requires c.Valid(maxSize)
    ensures var r := Next(maxSize, c, Remove(k));
      k !in r.order && r.order == Without(c.order, k) && r.entries == c.entries - {k}
  {
  }

  /** What a lookup leaves behind: a key that is found is the most recently used, one that is not found is
      not held any more, expired or not; all other keys stay in their order with their entries. */
  lemma LookupLeaves(maxSize: nat, c: Cache, k: Key, now: real)
    requires c.Valid(maxSize)
    ensures var (found, r) := Got(c, k, now);
      && (found.Some? ==> r.order != [] && r.order[|r.order| - 1] == k && r.entries == c.entries)
      && (found.None? ==> k !in r.order && r.entries == c.entries - {k})
      && Without(r.order, k) == Without(c.order, k)
  {
    var rest := Without(c.order, k);
    WithoutAbsent(rest, k);
    WithoutJoined(rest, [k], k);
    if k !in c.entries { WithoutAbsent(c.order, k); }
  }

  // ---------------------------------------------------------------------
  // Inclusion, whatever expires
  // ---------------------------------------------------------------------

  lemma SuffixWithout(s: seq<Key>, l: seq<Key>, k: Key)
    requires IsSuffix(s, l)
    ensures IsSuffix(Without(s, k), Without(l, k))
    ensures IsSuffix(Touched(s, k), Touched(l, k))
  {
    var p := l[..|l| - |s|];
    assert l == p + s;
    WithoutJoined(p, s, k);
    assert Touched(l, k) == Without(p, k) + Touched(s, k);
  }

  lemma RecentSuffix(n: nat, m: nat, s: seq<Key>, l: seq<Key>)
    requires n <= m && IsSuffix(s, l)
    ensures IsSuffix(Recent(n, s), Recent(m, l))
  {
  }

  lemma InclusionStep(n: nat, m: nat, small: Cache, large: Cache, op: Op)
    requires n <= m && small.Valid(n) && large.Valid(m) && !op.Look?
    requires IsSuffix(small.order, large.order)
    ensures IsSuffix(Next(n, small, op).order, Next(m, large, op).order)
  {
    if op.Serve? || op.Save? {
      TouchesOrder(n, small, op);
      TouchesOrder(m, large, op);
      SuffixWithout(small.order, large.order, op.k);
      RecentSuffix(n, m, Touched(small.order, op.k), Touched(large.order, op.k));
    } else if op.Remove? {
      SuffixWithout(small.order, large.order, op.k);
    }
  }

  /** LRU inclusion: of two caches that serve the same requests, stores and deletions, the keys of
      the smaller are always the most recently used ones of the larger, whatever the times to
      live. */
  lemma {:induction false} Inclusion(n: nat, m: nat, small: Cache, large: Cache, ops: seq<Op>)
    requires n <= m && small.Valid(n) && large.Valid(m) && IsSuffix(small.order, large.order)
    requires forall op :: op in ops ==> !op.Look?
    ensures IsSuffix(After(n, small, ops).order, After(m, large, ops).order)
    decreases |ops|
  {
    if ops != [] {
      assert ops[0] in ops;
      InclusionStep(n, m, small, large, ops[0]);
      NextIsValid(n, small, ops[0]);
      NextIsValid(m, large, ops[0]);
      Inclusion(n, m, Next(n, small, ops[0]), Next(m, large, ops[0]), ops[1..]);
    }
  }

  // ---------------------------------------------------------------------
  // Hits of the smaller cache are hits of the larger
  // ---------------------------------------------------------------------

  /** The entry is live until time `to`. */
  predicate Lasts(e: Entry, to: real) {
    e.ttl.None? || to - e.createdAt <= e.ttl.value as real
  }

  predicate InTime(op: Op, to: real) {
    match op
    case Serve(_, e, now) => now <= to && Lasts(e, to)
    case Save(_, e) => Lasts(e, to)
    case Look(_, now) => now <= to
    case _ => true
  }

  ghost predicate AllLast(c: Cache, to: real) {
    forall k :: k in c.entries ==> Lasts(c.entries[k], to)
  }

  /** The smaller cache holds keys of the larger, in the same order, and the larger is not ahead by
      more than its extra room. */
  ghost predicate Included(n: nat, m: nat, small: seq<Key>, large: seq<Key>) {
    IsSubseq(small, large) && |large| - |small| <= m - n
  }

  lemma IncludedTouch(n: nat, m: nat, s: seq<Key>, l: seq<Key>, k: Key)
    requires n <= m && Distinct(s) && Distinct(l) && |s| <= n && |l| <= m && Included(n, m, s, l)
    ensures Included(n, m, Recent(n, Touched(s, k)), Recent(m, Touched(l, k)))
    ensures Included(n, m, Without(s, k), Without(l, k))
    ensures k !in s ==> Included(n, m, s, Touched(l, k)) || k !in l
  {
    SubseqElements(s, l);
    SubseqWithout(s, l, k);
    WithoutDistinct(s, k);
    WithoutDistinct(l, k);
    SubseqSnoc(Without(s, k), Without(l, k), k);
    SubseqDropped(Touched(s, k), Touched(l, k), Overflow(n, |Touched(s, k)|), Overflow(m, |Touched(l, k)|));
    if k !in s { WithoutAbsent(s, k); }
  }

  lemma HitsAreHits(n: nat, m: nat, small: Cache, large: Cache, op: Op, to: real)
    requires small.Valid(n) && large.Valid(m) && IsSubseq(small.order, large.order)
    requires InTime(op, to) && AllLast(large, to)
    ensures Hits(small, op) ==> Hits(large, op)
  {
    SubseqElements(small.order, large.order);
  }

  lemma LookedUp(c: Cache, maxSize: nat, k: Key, now: real, to: real)
    requires c.Valid(maxSize) && AllLast(c, to) && now <= to
    ensures Got(c, k, now).1.order == if k in c.order then Touched(c.order, k) else c.order
  {
  }

  lemma IncludedStep(n: nat, m: nat, small: Cache, large: Cache, op: Op, to: real)
    requires n <= m && small.Valid(n) && large.Valid(m) && Included(n, m, small.order, large.order)
    requires InTime(op, to) && AllLast(small, to) && AllLast(large, to)
    ensures Included(n, m, Next(n, small, op).order, Next(m, large, op).order)
  {
    match op
    case Wipe =>
      assert IsSubseq(EMPTY.order, EMPTY.order);
    case Remove(k) =>
      IncludedTouch(n, m, small.order, large.order, k);
    case Look(k, now) =>
      LookedUp(small, n, k, now, to);
      LookedUp(large, m, k, now, to);
      IncludedLook(n, m, small.order, large.order, k);
    case _ =>
      TouchesOrder(n, small, op);
      TouchesOrder(m, large, op);
      IncludedTouch(n, m, small.order, large.order, op.k);
  }

  lemma IncludedLook(n: nat, m: nat, s: seq<Key>, l: seq<Key>, k: Key)
    requires n <= m && Distinct(s) && Distinct(l) && |s| <= n && |l| <= m && Included(n, m, s, l)
    ensures Included(n, m, if k in s then Touched(s, k) else s, if k in l then Touched(l, k) else l)
  {
    IncludedTouch(n, m, s, l, k);
    SubseqElements(s, l);
    WithoutDistinct(s, k);
    WithoutDistinct(l, k);
  }

  lemma LastingStep(maxSize: nat, c: Cache, op: Op, to: real)
    requires c.Valid(maxSize) && InTime(op, to) && AllLast(c, to)
    ensures AllLast(Next(maxSize, c, op), to)
  {
    if op.Save? {
      PutKeeps(maxSize, c, op.k, op.e, e => Lasts(e, to));
    } else if op.Serve? && Got(c, op.k, op.now).0.None? {
      WithoutDistinct(c.order, op.k);
      PutKeeps(maxSize, Got(c, op.k, op.now).1, op.k, op.e, e => Lasts(e, to));
    }
  }

  /** What one operation keeps of two caches whose entries last. */
  lemma LastingStepOfBoth(n: nat, m: nat, small: Cache, large: Cache, op: Op, to: real)
    requires n <= m && small.Valid(n) && large.Valid(m) && Included(n, m, small.order, large.order)
    requires InTime(op, to) && AllLast(small, to) && AllLast(large, to)
    ensures var (s, l) := (Next(n, small, op), Next(m, large, op));
      s.Valid(n) && l.Valid(m) && Included(n, m, s.order, l.order) && AllLast(s, to) && AllLast(l, to)
    ensures Hits(small, op) ==> Hits(large, op)
  {
    IncludedStep(n, m, small, large, op, to);
    HitsAreHits(n, m, small, large, op, to);
    LastingStep(n, small, op, to);
    LastingStep(m, large, op, to);
    NextIsValid(n, small, op);
    NextIsValid(m, large, op);
  }

  /** While no entry expires, every single hit of the smaller cache is a hit of the larger, and its
      keys are always among those of the larger: at every point of any run of any operations,
      plain lookups included. */
  lemma {:induction false} EveryHitIsAHit(n: nat, m: nat, small: Cache, large: Cache, ops: seq<Op>, to: real, i: nat)
    requires n <= m && small.Valid(n) && large.Valid(m) && Included(n, m, small.order, large.order)
    requires AllLast(small, to) && AllLast(large, to) && forall op :: op in ops ==> InTime(op, to)
    requires i < |ops|
    ensures Hits(After(n, small, ops[..i]), ops[i]) ==> Hits(After(m, large, ops[..i]), ops[i])
    ensures IsSubseq(After(n, small, ops[..i]).order, After(m, large, ops[..i]).order)
    decreases i
  {
    assert ops[0] in ops;
    LastingStepOfBoth(n, m, small, large, ops[0], to);
    if i > 0 {
      assert ops[..i][1..] == ops[1..][..i - 1];
      EveryHitIsAHit(n, m, Next(n, small, ops[0]), Next(m, large, ops[0]), ops[1..], to, i - 1);
    }
  }

  /** So the larger cache hits at least as often. */
  lemma {:induction false} LargerHitsAtLeast(n: nat, m: nat, small: Cache, large: Cache, ops: seq<Op>, to: real)
    requires n <= m && small.Valid(n) && large.Valid(m) && Included(n, m, small.order, large.order)
    requires AllLast(small, to) && AllLast(large, to) && forall op :: op in ops ==> InTime(op, to)
    ensures forall i :: 0 <= i < |ops| ==>
      (Hits(After(n, small, ops[..i]), ops[i]) ==> Hits(After(m, large, ops[..i]), ops[i]))
    ensures IsSubseq(After(n, small, ops).order, After(m, large, ops).order)
    ensures HitCount(n, small, ops) <= HitCount(m, large, ops)
    decreases |ops|
  {
    forall i | 0 <= i < |ops|
      ensures Hits(After(n, small, ops[..i]), ops[i]) ==> Hits(After(m, large, ops[..i]), ops[i])
    {
      EveryHitIsAHit(n, m, small, large, ops, to, i);
    }
    if ops != [] {
      assert ops[0] in ops;
      LastingStepOfBoth(n, m, small, large, ops[0], to);
      LargerHitsAtLeast(n, m, Next(n, small, ops[0]), Next(m, large, ops[0]), ops[1..], to);
    }
  }

  // ---------------------------------------------------------------------
  // When entries expire
  // ---------------------------------------------------------------------

  const OLD := Entry(0, 0.0, Some(10))

  const RENEWED := Entry(1, 5.0, Some(10))

  /** Keys that differ from each other and from "a". */
  function Filler(i: nat): Key {
    seq(i + 1, _ => 'b')
  }

  /** "a" is saved, and after it `n` other keys. */
  function Crowd(n: nat): seq<Op> {
    if n == 0 then [Save("a", OLD)] else Crowd(n - 1) + [Save(Filler(n), OLD)]
  }

  function CrowdKeys(n: nat): (keys: seq<Key>)
    ensures |keys| == n + 1 && keys[0] == "a" && forall i :: 1 <= i <= n ==> keys[i] == Filler(i)
  {
    if n == 0 then ["a"] else CrowdKeys(n - 1) + [Filler(n)]
  }

  lemma CrowdDiffers(n: nat)
    ensures Distinct(CrowdKeys(n)) && Filler(n + 1) !in CrowdKeys(n)
  {
    var keys := CrowdKeys(n);
    assert |keys[0]| == 1 && keys[0][0] == 'a';
    forall i | 1 <= i <= n ensures |keys[i]| == i + 1 && keys[i][0] == 'b' {
      assert keys[i] == Filler(i);
    }
    assert |Filler(n + 1)| == n + 2 && Filler(n + 1)[0] == 'b';
  }

  /** The cache holds the last of these keys, all with the old entry. */
  ghost predicate HoldsCrowd(maxSize: nat, c: Cache, keys: seq<Key>) {
    && c.Valid(maxSize) && c.order == Recent(maxSize, keys)
    && forall k :: k in c.entries ==> c.entries[k] == OLD
  }

  lemma CrowdGrows(maxSize: nat, c: Cache, keys: seq<Key>, k: Key)
    requires HoldsCrowd(maxSize, c, keys) && Distinct(keys) && k !in keys
    ensures HoldsCrowd(maxSize, Put(maxSize, c, k, OLD), keys + [k])
  {
    PutIs(maxSize, c, k, OLD);
    RecentOfRecent(maxSize, keys, k);
    WithoutAbsent(keys, k);
    PutKeeps(maxSize, c, k, OLD, e => e == OLD);
  }

  lemma FirstOfCrowd(maxSize: nat)
    ensures HoldsCrowd(maxSize, After(maxSize, EMPTY, Crowd(0)), CrowdKeys(0))
  {
    assert [Save("a", OLD)][1..] == [];
    assert After(maxSize, EMPTY, Crowd(0)) == Put(maxSize, EMPTY, "a", OLD);
    CrowdGrows(maxSize, EMPTY, [], "a");
    assert [] + ["a"] == CrowdKeys(0);
  }

  lemma {:induction false} CrowdHeld(maxSize: nat, n: nat)
    ensures HoldsCrowd(maxSize, After(maxSize, EMPTY, Crowd(n)), CrowdKeys(n))
  {
    if n == 0 {
      FirstOfCrowd(maxSize);
    } else {
      CrowdHeld(maxSize, n - 1);
      AfterSnoc(maxSize, EMPTY, Crowd(n - 1), Save(Filler(n), OLD));
      CrowdDiffers(n - 1);
      CrowdGrows(maxSize, After(maxSize, EMPTY, Crowd(n - 1)), CrowdKeys(n - 1), Filler(n));
    }
  }

  /** Requests in the order of their times, after which the smaller cache hits and the larger misses:
      the smaller has forgotten "a" and fetches it anew, the larger still serves the old entry, and
      that expires first. */
  lemma ExpiryBreaksHitInclusion(n: nat, m: nat)
    requires 0 < n < m
    ensures var ops := Crowd(n) + [Serve("a", RENEWED, 5.0)];
      Hits(After(n, EMPTY, ops), Look("a", 12.0)) && !Hits(After(m, EMPTY, ops), Look("a", 12.0))
  {
    var small, large := After(n, EMPTY, Crowd(n)), After(m, EMPTY, Crowd(n));
    CrowdHeld(n, n);
    CrowdHeld(m, n);
    CrowdDiffers(n);
    assert "a" !in small.order && "a" == large.order[0];
    AfterSnoc(n, EMPTY, Crowd(n), Serve("a", RENEWED, 5.0));
    AfterSnoc(m, EMPTY, Crowd(n), Serve("a", RENEWED, 5.0));
    StoredIsKept(n, small, "a", RENEWED, "a");
  }

  lemma {:induction false} AfterIsValid(maxSize: nat, c: Cache, ops: seq<Op>)
    requires c.Valid(maxSize)
    ensures After(maxSize, c, ops).Valid(maxSize)
    decreases |ops|
  {
    if ops != [] {
      NextIsValid(maxSize, c, ops[0]);
      AfterIsValid(maxSize, Next(maxSize, c, ops[0]), ops[1..]);
    }
  }

  /** Whatever is requested, stored, removed and expires, a hit of the smaller cache is a hit of the
      larger. */
  ghost predicate HitInclusion(n: nat, m: nat) {
    forall ops, op :: Hits(After(n, EMPTY, ops), op) ==> Hits(After(m, EMPTY, ops), op)
  }

  /** With expiry that holds for no two different capacities, except that a cache that can hold
      nothing never hits. */
  lemma HitInclusionExactly(n: nat, m: nat)
    requires n <= m
    ensures HitInclusion(n, m) <==> n == 0 || n == m
  {
    if 0 < n < m {
      ExpiryBreaksHitInclusion(n, m);
    } else if n == 0 {
      forall ops, op ensures !Hits(After(n, EMPTY, ops), op) {
        AfterIsValid(n, EMPTY, ops);
      }
    }
  }
}
