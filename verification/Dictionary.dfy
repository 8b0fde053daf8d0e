/**
 The nested hash trie (dictionary.c): 256 root buckets, then tables of 256 and of
 16 buckets chosen by successive bits of a 64-bit hash, and chains where all bits
 are used up.

 `Bag` forgets the shape of the trie: it collects the entries wherever they are.
 Every operation is specified on that bag alone.
 */
module Dictionary {
  import opened Common
  import opened Arithmetic

  type Key = string
  type Obj = nat

  const MAXNEST := 14
  const HASHES: nat := 0x1_0000_0000_0000_0000

  type Hash = h: int | 0 <= h < HASHES

  /** `obj` is None for the null pointer. */
  datatype Entry = Entry(key: Key, obj: Option<Obj>)

  /** A table's width tells its kind: 256 buckets or 16. */
  datatype Bucket = Empty | Item(chain: seq<Entry>) | Table(width: nat, buckets: seq<Bucket>)

  // ----- Hash bits -----

  /** Buckets of a table at this depth; the dictionary's own array is depth 0. */
  function Width(depth: nat): (w: nat)
    ensures w == 256 || w == 16
  {
    if depth <= 1 then 256 else 16
  }

  /** The hash as it arrives at `depth`, after the bits of all shallower levels are shifted out. */
  function Shifted(h: nat, depth: nat): nat {
    if depth == 0 then h else Shifted(h, depth - 1) / Width(depth - 1)
  }

  function Digit(h: nat, depth: nat): (d: nat)
    ensures d < Width(depth)
  {
    Shifted(h, depth) % Width(depth)
  }

  function Pow2(n: nat): (p: nat)
    ensures p > 0
  {
    if n == 0 then 1 else 2 * Pow2(n - 1)
  }

  /** Bits used above `depth`, as the split computes them from the full hash. */
  function Bits(depth: nat): nat {
    if depth > 1 then 16 + (depth - 2) * 4 else 8 * depth
  }

  /** Shifting level by level is one shift by the split's bit count. */
  lemma {:induction false} ShiftedIsOneShift(h: nat, depth: nat)
    ensures Shifted(h, depth) == h / Pow2(Bits(depth))
  {
    if depth > 0 {
      ShiftedIsOneShift(h, depth - 1);
      DivDiv(h, Pow2(Bits(depth - 1)), Width(depth - 1));
      var b := Bits(depth - 1);
      assert Pow2(b + 4) == 16 * Pow2(b) by {
        assert Pow2(b + 4) == 2 * Pow2(b + 3) && Pow2(b + 3) == 2 * Pow2(b + 2) && Pow2(b + 2) == 2 * Pow2(b + 1);
      }
      assert Pow2(b + 8) == 16 * Pow2(b + 4) by {
        assert Pow2(b + 8) == 2 * Pow2(b + 7) && Pow2(b + 7) == 2 * Pow2(b + 6) && Pow2(b + 6) == 2 * Pow2(b + 5);
      }
    }
  }

  /** 8 + 8 + 12 * 4 bits are all there are. */
  lemma NothingLeft(h: Hash)
    ensures Shifted(h, MAXNEST) == 0
  {
    ShiftedIsOneShift(h, MAXNEST);
    PowersOfTwo();
  }

  lemma PowersOfTwo()
    ensures Pow2(64) == HASHES
  {
    assert Pow2(8) == 256;
    assert Pow2(16) == 0x1_0000;
    assert Pow2(24) == 0x100_0000;
    assert Pow2(32) == 0x1_0000_0000;
    assert Pow2(40) == 0x100_0000_0000;
    assert Pow2(48) == 0x1_0000_0000_0000;
    assert Pow2(56) == 0x100_0000_0000_0000;
  }

  predicate SameDigits(h: nat, g: nat, depth: nat) {
    forall i: nat :: i < depth ==> Digit(h, i) == Digit(g, i)
  }

  lemma {:induction false} SameDigitsSameHash(h: nat, g: nat, depth: nat)
    requires SameDigits(h, g, depth) && Shifted(h, depth) == Shifted(g, depth)
    ensures h == g
  {
    if depth > 0 {
      assert Digit(h, depth - 1) == Digit(g, depth - 1);
      assert Shifted(h, depth - 1) == Shifted(g, depth - 1);
      SameDigitsSameHash(h, g, depth - 1);
    }
  }

  predicate OnPath(h: nat, path: seq<nat>) {
    forall i :: 0 <= i < |path| ==> Digit(h, i) == path[i]
  }

  /** Two hashes on the same full-depth path are equal. */
  lemma FullPathFixesHash(h: Hash, g: Hash, path: seq<nat>)
    requires |path| >= MAXNEST && OnPath(h, path) && OnPath(g, path)
    ensures h == g
  {
    NothingLeft(h);
    NothingLeft(g);
    SameDigitsSameHash(h, g, MAXNEST);
  }

  // ----- The bag of entries -----

  function Bag(b: Bucket): multiset<Entry>
    decreases b, 0
  {
    match b
    case Empty => multiset{}
    case Item(chain) => multiset(chain)
    case Table(_, bs) => BagOf(bs)
  }

  function BagOf(bs: seq<Bucket>): multiset<Entry>
    decreases bs, 1
  {
    if bs == [] then multiset{} else Bag(bs[0]) + BagOf(bs[1..])
  }

  lemma {:induction false} BagUpdate(bs: seq<Bucket>, i: nat, b: Bucket)
    requires i < |bs|
    ensures Bag(bs[i]) <= BagOf(bs)
    ensures BagOf(bs[i := b]) == BagOf(bs) - Bag(bs[i]) + Bag(b)
  {
    var bs' := bs[i := b];
    if i == 0 {
      assert bs'[1..] == bs[1..];
    } else {
      assert bs'[1..] == bs[1..][i - 1 := b];
      BagUpdate(bs[1..], i - 1, b);
      MovedAlong(Bag(bs[0]), BagOf(bs[1..]), Bag(bs[i]), Bag(b));
    }
  }

  lemma MovedAlong(a: multiset<Entry>, c: multiset<Entry>, x: multiset<Entry>, y: multiset<Entry>)
    requires x <= c
    ensures a + (c - x + y) == (a + c) - x + y
  {}

  lemma {:induction false} BagMember(bs: seq<Bucket>, e: Entry)
    ensures e in BagOf(bs) <==> exists i :: 0 <= i < |bs| && e in Bag(bs[i])
  {
    if bs != [] {
      BagMember(bs[1..], e);
      if e in BagOf(bs[1..]) {
        var i :| 0 <= i < |bs[1..]| && e in Bag(bs[1..][i]);
        assert e in Bag(bs[i + 1]);
      }
      if i :| 0 < i < |bs| && e in Bag(bs[i]) {
        assert e in Bag(bs[1..][i - 1]);
      }
    }
  }

  lemma {:induction false} BagOfEmpties(n: nat)
    ensures BagOf(seq(n, _ => Empty)) == multiset{}
  {
    if n > 0 {
      assert seq(n, _ => Empty)[1..] == seq(n - 1, _ => Empty);
      BagOfEmpties(n - 1);
    }
  }

  // ----- Well-formed tries -----

  predicate DistinctKeys(chain: seq<Entry>) {
    forall i, j :: 0 <= i < j < |chain| ==> chain[i].key != chain[j].key
  }

  /** Every entry below sits on the path given by the bits of its own hash; only full paths have chains. */
  predicate WellFormed(h: Key -> Hash, b: Bucket, path: seq<nat>)
    decreases b
  {
    match b
    case Empty => true
    case Item(chain) =>
      && chain != [] && DistinctKeys(chain)
      && (|path| < MAXNEST ==> |chain| == 1)
      && forall i :: 0 <= i < |chain| ==> OnPath(h(chain[i].key), path)
    case Table(width, bs) =>
      && |path| < MAXNEST && width == |bs| == Width(|path|)
      && forall i :: 0 <= i < |bs| ==> WellFormed(h, bs[i], path + [i])
  }

  lemma {:induction false} EntriesOnPath(h: Key -> Hash, b: Bucket, path: seq<nat>, e: Entry)
    requires WellFormed(h, b, path) && e in Bag(b)
    ensures OnPath(h(e.key), path)
    decreases b
  {
    match b
    case Item(_) =>
    case Table(_, bs) =>
      BagMember(bs, e);
      var i :| 0 <= i < |bs| && e in Bag(bs[i]);
      EntriesOnPath(h, bs[i], path + [i], e);
      forall k | 0 <= k < |path| ensures Digit(h(e.key), k) == path[k] { assert (path + [i])[k] == path[k]; }
  }

  /** In a table, an entry can only be in the bucket its next hash bits select. */
  lemma EntryInItsBucket(h: Key -> Hash, bs: seq<Bucket>, path: seq<nat>, i: nat, e: Entry)
    requires WellFormed(h, Table(|bs|, bs), path) && i < |bs| && e in Bag(bs[i])
    ensures Digit(h(e.key), |path|) == i
  {
    EntriesOnPath(h, bs[i], path + [i], e);
    assert (path + [i])[|path|] == i;
  }

  lemma TableMember(h: Key -> Hash, bs: seq<Bucket>, path: seq<nat>, e: Entry)
    requires WellFormed(h, Table(|bs|, bs), path)
    ensures e in BagOf(bs) <==> e in Bag(bs[Digit(h(e.key), |path|)])
  {
    BagMember(bs, e);
    if i :| 0 <= i < |bs| && e in Bag(bs[i]) {
      EntryInItsBucket(h, bs, path, i, e);
    }
  }

  ghost predicate UniqueKeys(bag: multiset<Entry>) {
    && (forall e, f :: e in bag && f in bag && e.key == f.key ==> e == f)
    && (forall e :: bag[e] <= 1)
  }

  lemma {:induction false} ChainBag(chain: seq<Entry>)
    requires DistinctKeys(chain)
    ensures UniqueKeys(multiset(chain))
  {
    if chain != [] {
      var n := |chain| - 1;
      assert chain == chain[..n] + [chain[n]];
      ChainBag(chain[..n]);
    }
  }

  lemma {:induction false} BagOfTail(bs: seq<Bucket>, e: Entry, i: nat)
    requires i < |bs| && forall j :: 0 <= j < |bs| && j != i ==> e !in Bag(bs[j])
    ensures BagOf(bs)[e] == Bag(bs[i])[e]
  {
    if i == 0 {
      BagMember(bs[1..], e);
      assert e !in BagOf(bs[1..]);
    } else {
      assert e !in Bag(bs[0]);
      BagOfTail(bs[1..], e, i - 1);
    }
  }

  lemma {:induction false} KeysAreUnique(h: Key -> Hash, b: Bucket, path: seq<nat>)
    requires WellFormed(h, b, path)
    ensures UniqueKeys(Bag(b))
    decreases b
  {
    match b
    case Empty =>
    case Item(chain) => ChainBag(chain);
    case Table(_, bs) =>
      forall e, f | e in BagOf(bs) && f in BagOf(bs) && e.key == f.key ensures e == f {
        TableMember(h, bs, path, e);
        TableMember(h, bs, path, f);
        var i := Digit(h(e.key), |path|);
        KeysAreUnique(h, bs[i], path + [i]);
      }
      forall e | e in BagOf(bs) ensures BagOf(bs)[e] <= 1 {
        TableMember(h, bs, path, e);
        var i := Digit(h(e.key), |path|);
        forall j | 0 <= j < |bs| && j != i ensures e !in Bag(bs[j]) {
          if e in Bag(bs[j]) { EntryInItsBucket(h, bs, path, j, e); }
        }
        BagOfTail(bs, e, i);
        KeysAreUnique(h, bs[i], path + [i]);
      }
  }

  /** Entries that share a chain have equal full 64-bit hashes. */
  lemma ChainSharesHash(h: Key -> Hash, chain: seq<Entry>, path: seq<nat>, i: nat, j: nat)
    requires WellFormed(h, Item(chain), path) && i < |chain| && j < |chain|
    ensures h(chain[i].key) == h(chain[j].key)
  {
    if |path| >= MAXNEST {
      FullPathFixesHash(h(chain[i].key), h(chain[j].key), path);
    }
  }

  // ----- What setting a key does to the bag -----

  ghost predicate HasKey(bag: multiset<Entry>, key: Key) {
    exists o :: Entry(key, o) in bag
  }

  /** Some stored key has the same 64-bit hash. */
  ghost predicate Collides(h: Key -> Hash, bag: multiset<Entry>, key: Key) {
    exists e :: e in bag && h(e.key) == h(key)
  }

  function Single(key: Key, obj: Option<Obj>): multiset<Entry> {
    multiset{Entry(key, obj)}
  }

  /**
   Setting `key` to `obj`: the old entry, if any, goes to the deleter, and a new
   one takes its place unless `obj` is null. For an absent key and a null `obj`
   nothing changes, except that under a full hash collision an entry holding null
   is added.
   */
  ghost predicate Updated(h: Key -> Hash, bag: multiset<Entry>, key: Key, obj: Option<Obj>,
                          bag': multiset<Entry>, dropped: seq<Entry>)
  {
    if HasKey(bag, key) then
      exists o :: Entry(key, o) in bag && dropped == [Entry(key, o)]
                  && bag' == bag - Single(key, o) + (if obj.Some? then Single(key, obj) else multiset{})
    else
      && dropped == []
      && bag' == if obj.Some? || Collides(h, bag, key) then bag + Single(key, obj) else bag
  }

  /** Only the bucket selected by a key's hash bits matters to its presence and its collisions. */
  lemma KeyInItsBucket(h: Key -> Hash, bs: seq<Bucket>, path: seq<nat>, key: Key)
    requires WellFormed(h, Table(|bs|, bs), path)
    ensures var child := Bag(bs[Digit(h(key), |path|)]);
            && (forall o :: Entry(key, o) in BagOf(bs) <==> Entry(key, o) in child)
            && (HasKey(BagOf(bs), key) <==> HasKey(child, key))
            && (Collides(h, BagOf(bs), key) <==> Collides(h, child, key))
  {
    var child := Bag(bs[Digit(h(key), |path|)]);
    forall e: Entry | h(e.key) == h(key) ensures e in BagOf(bs) <==> e in child { TableMember(h, bs, path, e); }
  }

  lemma Exchange(bag: multiset<Entry>, child: multiset<Entry>, x: multiset<Entry>, y: multiset<Entry>)
    requires x <= child <= bag
    ensures bag - child + (child - x + y) == bag - x + y
  {}

  lemma UpdatedInWhole(h: Key -> Hash, bag: multiset<Entry>, child: multiset<Entry>, key: Key, obj: Option<Obj>,
                       child': multiset<Entry>, dropped: seq<Entry>)
    requires child <= bag && Updated(h, child, key, obj, child', dropped)
    requires (HasKey(bag, key) <==> HasKey(child, key)) && (Collides(h, bag, key) <==> Collides(h, child, key))
    ensures Updated(h, bag, key, obj, bag - child + child', dropped)
  {
    hide Collides;
    if HasKey(child, key) {
      var put := if obj.Some? then Single(key, obj) else multiset{};
      var o :| Entry(key, o) in child && dropped == [Entry(key, o)] && child' == child - Single(key, o) + put;
      Exchange(bag, child, Single(key, o), put);
      assert Entry(key, o) in bag;
    } else {
      var put := if obj.Some? || Collides(h, child, key) then Single(key, obj) else multiset{};
      ExchangeNone(bag, child, child', put);
    }
  }

  lemma ExchangeNone(bag: multiset<Entry>, child: multiset<Entry>, child': multiset<Entry>, put: multiset<Entry>)
    requires child <= bag && child' == child + put
    ensures bag - child + child' == bag + put
  {}

  /** An update of the right child is an update of the table. */
  lemma UpdateLifts(h: Key -> Hash, bs: seq<Bucket>, path: seq<nat>, key: Key, obj: Option<Obj>, b: Bucket,
                    dropped: seq<Entry>)
    requires WellFormed(h, Table(|bs|, bs), path)
    requires Updated(h, Bag(bs[Digit(h(key), |path|)]), key, obj, Bag(b), dropped)
    ensures Updated(h, BagOf(bs), key, obj, BagOf(bs[Digit(h(key), |path|) := b]), dropped)
  {
    var i := Digit(h(key), |path|);
    BagUpdate(bs, i, b);
    KeyInItsBucket(h, bs, path, key);
    UpdatedInWhole(h, BagOf(bs), Bag(bs[i]), key, obj, Bag(b), dropped);
  }

  /** The one-entry table a split makes. */
  function SplitTable(h: Key -> Hash, e: Entry, depth: nat): Bucket {
    var w := Width(depth);
    Table(w, seq(w, _ => Empty)[h(e.key) / Pow2(Bits(depth)) % w := Item([e])])
  }

  lemma SplitKeeps(h: Key -> Hash, e: Entry, path: seq<nat>)
    requires |path| < MAXNEST && OnPath(h(e.key), path)
    ensures WellFormed(h, SplitTable(h, e, |path|), path) && Bag(SplitTable(h, e, |path|)) == multiset{e}
  {
    var i := Digit(h(e.key), |path|);
    ShiftedIsOneShift(h(e.key), |path|);
    DescendOnPath(h, e.key, path);
    var empties := seq(Width(|path|), _ => Empty);
    assert WellFormed(h, Table(|empties|, empties), path);
    TableUpdate(h, empties, path, i, Item([e]));
    BagOfEmpties(|empties|);
    BagUpdate(empties, i, Item([e]));
    assert Bag(Item([e])) == multiset{e};
  }

  // ----- The outcomes of setting a key, bucket by bucket -----

  lemma Replaced(h: Key -> Hash, chain: seq<Entry>, i: nat, obj: Option<Obj>, path: seq<nat>)
    requires WellFormed(h, Item(chain), path) && i < |chain| && obj.Some?
    ensures var b := Item(chain[i := Entry(chain[i].key, obj)]);
            && WellFormed(h, b, path) && |Bag(b)| == |chain|
            && Updated(h, multiset(chain), chain[i].key, obj, Bag(b), [chain[i]])
  {
    var e := chain[i];
    var new_ := chain[i := Entry(e.key, obj)];
    assert multiset(new_) == multiset(chain) - Single(e.key, e.obj) + Single(e.key, obj);
    assert Entry(e.key, e.obj) in multiset(chain);
    assert HasKey(multiset(chain), e.key);
  }

  lemma ReplacedSingle(h: Key -> Hash, e: Entry, obj: Option<Obj>, path: seq<nat>)
    requires WellFormed(h, Item([e]), path) && obj.Some?
    ensures var b := Item([Entry(e.key, obj)]);
            WellFormed(h, b, path) && |Bag(b)| == 1 && Updated(h, multiset([e]), e.key, obj, Bag(b), [e])
  {
    hide Updated;
    Replaced(h, [e], 0, obj, path);
    assert [e][0 := Entry(e.key, obj)] == [Entry(e.key, obj)];
  }

  lemma DroppedSingle(h: Key -> Hash, e: Entry)
    ensures Updated(h, multiset([e]), e.key, None, multiset{}, [e])
  {
    hide Updated;
    Dropped(h, [e], 0);
    assert [e][..0] + [e][1..] == [];
  }

  lemma Dropped(h: Key -> Hash, chain: seq<Entry>, i: nat)
    requires i < |chain|
    ensures Updated(h, multiset(chain), chain[i].key, None, multiset(chain[..i] + chain[i + 1..]), [chain[i]])
  {
    var e := chain[i];
    var rest := chain[..i] + chain[i + 1..];
    assert chain == chain[..i] + [e] + chain[i + 1..];
    assert multiset(rest) == multiset(chain) - Single(e.key, e.obj) + multiset{};
    assert Entry(e.key, e.obj) in multiset(chain);
    assert HasKey(multiset(chain), e.key);
  }

  lemma RestWellFormed(h: Key -> Hash, chain: seq<Entry>, i: nat, path: seq<nat>)
    requires WellFormed(h, Item(chain), path) && i < |chain|
    ensures var rest := chain[..i] + chain[i + 1..]; rest != [] ==> WellFormed(h, Item(rest), path)
  {
    var rest := chain[..i] + chain[i + 1..];
    forall k | 0 <= k < |rest| ensures rest[k] == chain[if k < i then k else k + 1] {}
  }

  lemma Appended(h: Key -> Hash, chain: seq<Entry>, key: Key, obj: Option<Obj>, path: seq<nat>)
    requires WellFormed(h, Item(chain), path) && |path| >= MAXNEST && OnPath(h(key), path)
    requires forall j :: 0 <= j < |chain| ==> chain[j].key != key
    ensures WellFormed(h, Item(chain + [Entry(key, obj)]), path)
    ensures Updated(h, multiset(chain), key, obj, multiset(chain + [Entry(key, obj)]), [])
  {
    assert multiset(chain + [Entry(key, obj)]) == multiset(chain) + Single(key, obj);
    FullPathFixesHash(h(chain[0].key), h(key), path);
    assert chain[0] in multiset(chain);
    assert Collides(h, multiset(chain), key);
    assert !HasKey(multiset(chain), key);
  }

  lemma PutInEmpty(h: Key -> Hash, key: Key, obj: Option<Obj>, path: seq<nat>)
    requires OnPath(h(key), path)
    ensures Updated(h, multiset{}, key, None, multiset{}, [])
    ensures obj.Some? ==> WellFormed(h, Item([Entry(key, obj)]), path)
                          && Updated(h, multiset{}, key, obj, Bag(Item([Entry(key, obj)])), [])
  {
    assert Bag(Item([Entry(key, obj)])) == multiset{} + Single(key, obj);
  }

  lemma DescendOnPath(h: Key -> Hash, key: Key, path: seq<nat>)
    requires OnPath(h(key), path)
    ensures OnPath(h(key), path + [Digit(h(key), |path|)])
  {}

  lemma TableUpdate(h: Key -> Hash, bs: seq<Bucket>, path: seq<nat>, i: nat, b: Bucket)
    requires WellFormed(h, Table(|bs|, bs), path) && i < |bs| && WellFormed(h, b, path + [i])
    ensures WellFormed(h, Table(|bs|, bs[i := b]), path)
    ensures |BagOf(bs[i := b])| == |BagOf(bs)| - |Bag(bs[i])| + |Bag(b)|
  {
    BagUpdate(bs, i, b);
  }

  // ----- The dictionary -----

  /**
   `deleted` logs the calls of the global deleter, by the entry whose object was
   passed. `stored` is the finite map the dictionary stands for; `given` collects
   every entry ever put in.
   */
  class Dictionary {
    const hash: Key -> Hash
    var buckets: seq<Bucket>
    var count: int
    var deleted: seq<Entry>
    ghost var stored: map<Key, Obj>
    ghost var given: multiset<Entry>

    ghost function Contents(): multiset<Entry>
      reads this
    {
      BagOf(buckets)
    }

    ghost predicate Valid()
      reads this
    {
      && WellFormed(hash, Table(|buckets|, buckets), [])
      && count == |Contents()|
      && Stands(Contents(), stored)
      && given == Contents() + multiset(deleted)
    }

    constructor (hash: Key -> Hash)
      ensures Valid() && this.hash == hash && stored == map[] && given == multiset{} && deleted == []
    {
      this.hash := hash;
      buckets := seq(256, _ => Empty);
      count := 0;
      deleted := [];
      stored := map[];
      given := multiset{};
      BagOfEmpties(256);
    }

    /** The search and update of a chain at full depth. */
    method SetChain(chain: seq<Entry>, key: Key, obj: Option<Obj>, ghost path: seq<nat>)
      returns (b: Bucket, ghost dropped: seq<Entry>)
      requires WellFormed(hash, Item(chain), path) && |path| >= MAXNEST && OnPath(hash(key), path)
      modifies this`count, this`deleted
      ensures WellFormed(hash, b, path) && deleted == old(deleted) + dropped
      ensures Updated(hash, multiset(chain), key, obj, Bag(b), dropped)
      ensures count == old(count) + |Bag(b)| - |chain|
    {
      hide Updated;
      var i := 0;
      while i < |chain| && chain[i].key != key
        invariant 0 <= i <= |chain|
        invariant forall j :: 0 <= j < i ==> chain[j].key != key
      {
        i := i + 1;
      }
      if i < |chain| {
        var e := chain[i];
        deleted := deleted + [e];
        dropped := [e];
        if obj.Some? {
          b := Item(chain[i := Entry(key, obj)]);
          Replaced(hash, chain, i, obj, path);
        } else {
          var rest := chain[..i] + chain[i + 1..];
          b := if rest == [] then Empty else Item(rest);
          count := count - 1;
          Dropped(hash, chain, i);
          RestWellFormed(hash, chain, i, path);
        }
      } else {
        b := Item(chain + [Entry(key, obj)]);
        count := count + 1;
        dropped := [];
        Appended(hash, chain, key, obj, path);
      }
    }

    /** set: the recursive descent, splitting single items on the way. */
    method SetBucket(b: Bucket, depth: nat, h: nat, key: Key, obj: Option<Obj>, ghost path: seq<nat>)
      returns (b': Bucket, ghost dropped: seq<Entry>)
      requires WellFormed(hash, b, path) && |path| == depth <= MAXNEST
      requires h == Shifted(hash(key), depth) && OnPath(hash(key), path)
      modifies this`count, this`deleted
      ensures WellFormed(hash, b', path) && deleted == old(deleted) + dropped
      ensures Updated(hash, Bag(b), key, obj, Bag(b'), dropped)
      ensures count == old(count) + |Bag(b')| - |Bag(b)|
      decreases MAXNEST - depth, if b.Item? then 3 else 1
    {
      match b
      case Empty =>
        dropped := [];
        PutInEmpty(hash, key, obj, path);
        if obj.None? {
          b' := Empty;
        } else {
          b' := Item([Entry(key, obj)]);
          count := count + 1;
        }
      case Item(chain) =>
        if depth >= MAXNEST {
          b', dropped := SetChain(chain, key, obj, path);
        } else {
          assert [chain[0]] == chain;
          b', dropped := SetSingle(chain[0], depth, h, key, obj, path);
        }
      case Table(_, bs) =>
        b', dropped := SetTable(bs, depth, h, key, obj, path);
    }

    /** Descending one level into the table whose bucket the next hash bits select. */
    method SetTable(bs: seq<Bucket>, depth: nat, h: nat, key: Key, obj: Option<Obj>, ghost path: seq<nat>)
      returns (b': Bucket, ghost dropped: seq<Entry>)
      requires WellFormed(hash, Table(|bs|, bs), path) && |path| == depth <= MAXNEST
      requires h == Shifted(hash(key), depth) && OnPath(hash(key), path)
      modifies this`count, this`deleted
      ensures b'.Table? && WellFormed(hash, b', path) && deleted == old(deleted) + dropped
      ensures Updated(hash, BagOf(bs), key, obj, Bag(b'), dropped)
      ensures count == old(count) + |Bag(b')| - |BagOf(bs)|
      decreases MAXNEST - depth, 0
    {
      hide Updated;
      var i := h % |bs|;
      DescendOnPath(hash, key, path);
      var child;
      child, dropped := SetBucket(bs[i], depth + 1, h / |bs|, key, obj, path + [i]);
      b' := Table(|bs|, bs[i := child]);
      TableUpdate(hash, bs, path, i, child);
      UpdateLifts(hash, bs, path, key, obj, child, dropped);
    }

    /** The single item of a bucket above full depth: the same key, or a reason to split. */
    method SetSingle(e: Entry, depth: nat, h: nat, key: Key, obj: Option<Obj>, ghost path: seq<nat>)
      returns (b': Bucket, ghost dropped: seq<Entry>)
      requires WellFormed(hash, Item([e]), path) && |path| == depth < MAXNEST
      requires h == Shifted(hash(key), depth) && OnPath(hash(key), path)
      modifies this`count, this`deleted
      ensures WellFormed(hash, b', path) && deleted == old(deleted) + dropped
      ensures Updated(hash, multiset([e]), key, obj, Bag(b'), dropped)
      ensures count == old(count) + |Bag(b')| - 1
      decreases MAXNEST - depth, 2
    {
      hide Updated, Shifted;
      if e.key != key {
        assert OnPath(hash([e][0].key), path);
        SplitKeeps(hash, e, path);
        assert multiset([e]) == multiset{e};
        b', dropped := SetBucket(SplitTable(hash, e, depth), depth, h, key, obj, path);
      } else {
        deleted := deleted + [e];
        dropped := [e];
        if obj.Some? {
          b' := Item([Entry(key, obj)]);
          ReplacedSingle(hash, e, obj, path);
        } else {
          b' := Empty;
          count := count - 1;
          DroppedSingle(hash, e);
        }
      }
    }

    /**
     PSC_Dictionary_set, null meaning removal: the map is updated, and every entry
     ever put in is still either stored or was passed to the deleter, once.
     */
    method Set(key: Key, obj: Option<Obj>)
      requires Valid()
      modifies this
      ensures Valid()
      ensures stored == if obj.Some? then old(stored)[key := obj.value] else old(stored) - {key}
      ensures old(deleted) <= deleted
      ensures Updated(hash, old(Contents()), key, obj, Contents(), deleted[|old(deleted)|..])
      ensures given == old(given) + PutIn(hash, old(Contents()), key, obj)
    {
      hide Updated, Stands, PutIn, UniqueKeys;
      ghost var before := Contents();
      ghost var log := deleted;
      KeysAreUnique(hash, Table(|buckets|, buckets), []);
      var root, dropped := SetTable(buckets, 0, hash(key), key, obj, []);
      ghost var after := Bag(root);
      ghost var m := if obj.Some? then stored[key := obj.value] else stored - {key};
      StoredFollows(hash, before, key, obj, after, dropped, stored, m);
      GivenFollows(hash, before, key, obj, after, dropped, given, log);
      buckets := root.buckets;
      stored := m;
      given := given + PutIn(hash, before, key, obj);
      assert deleted[|log|..] == dropped;
    }

    /** get: the recursive descent and the search of a chain. */
    method GetBucket(b: Bucket, depth: nat, h: nat, key: Key, ghost path: seq<nat>) returns (obj: Option<Obj>)
      requires WellFormed(hash, b, path) && |path| == depth <= MAXNEST && h == Shifted(hash(key), depth)
      ensures forall o: Obj :: obj == Some(o) <==> Entry(key, Some(o)) in Bag(b)
      decreases b
    {
      match b
      case Empty =>
        obj := None;
      case Item(chain) =>
        var i := 0;
        while i < |chain| && chain[i].key != key
          invariant 0 <= i <= |chain|
          invariant forall j :: 0 <= j < i ==> chain[j].key != key
        {
          i := i + 1;
        }
        obj := if i < |chain| then chain[i].obj else None;
        ChainBag(chain);
        assert i < |chain| ==> chain[i] in multiset(chain);
      case Table(width, bs) =>
        var i := h % width;
        obj := GetBucket(bs[i], depth + 1, h / width, key, path + [i]);
        KeyInItsBucket(hash, bs, path, key);
    }

    /** PSC_Dictionary_get answers as a finite map would. */
    method Get(key: Key) returns (obj: Option<Obj>)
      requires Valid()
      ensures obj == if key in stored then Some(stored[key]) else None
    {
      var h := hash(key);
      assert [] + [h % 256] == [h % 256];
      obj := GetBucket(buckets[h % 256], 1, h / 256, key, [h % 256]);
      KeyInItsBucket(hash, buckets, [], key);
    }

    /** PSC_Dictionary_count: the entries stored, null ones included. */
    method Count() returns (n: int)
      requires Valid()
      ensures n == |Contents()|
      ensures n == |stored| <==> NoNulls(Contents())
    {
      n := count;
      KeysAreUnique(hash, Table(|buckets|, buckets), []);
      CountIsMapSize(Contents(), stored);
    }

    /** The part of removeAll that unlinks the matching entries of one chain. */
    method RemoveChain(chain: seq<Entry>, matcher: (Key, Option<Obj>) -> bool, ghost path: seq<nat>)
      returns (b: Bucket, removed: nat, ghost dropped: seq<Entry>)
      requires WellFormed(hash, Item(chain), path)
      modifies this`count, this`deleted
      ensures WellFormed(hash, b, path) && deleted == old(deleted) + dropped && removed == |dropped|
      ensures Kept(multiset(chain), matcher, Bag(b), dropped)
      ensures count == old(count) - removed
    {
      hide KeptSoFar, Kept;
      var kept: seq<Entry> := [];
      removed, dropped := 0, [];
      var i := 0;
      NothingYet(hash, chain, matcher, path);
      while i < |chain|
        invariant 0 <= i <= |chain| && removed == |dropped|
        invariant deleted == old(deleted) + dropped && count == old(count) - removed
        invariant Kept(multiset(chain[..i]), matcher, multiset(kept), dropped)
        invariant KeptSoFar(hash, chain, i, kept, path)
      {
        var e := chain[i];
        KeptOne(chain, i, matcher, kept, dropped);
        KeptWellFormed(hash, chain, i, kept, path);
        if matcher(e.key, e.obj) {
          deleted := deleted + [e];
          dropped := dropped + [e];
          count := count - 1;
          removed := removed + 1;
        } else {
          kept := kept + [e];
        }
        i := i + 1;
      }
      assert chain[..|chain|] == chain;
      KeptAll(hash, chain, kept, path);
      b := if kept == [] then Empty else Item(kept);
    }

    /** removeAll below one bucket. */
    method RemoveBucket(b: Bucket, matcher: (Key, Option<Obj>) -> bool, ghost path: seq<nat>)
      returns (b': Bucket, removed: nat, ghost dropped: seq<Entry>)
      requires WellFormed(hash, b, path)
      modifies this`count, this`deleted
      ensures WellFormed(hash, b', path) && deleted == old(deleted) + dropped && removed == |dropped|
      ensures Kept(Bag(b), matcher, Bag(b'), dropped)
      ensures count == old(count) - removed
      decreases b, 0
    {
      match b
      case Empty =>
        b', removed, dropped := Empty, 0, [];
      case Item(chain) =>
        b', removed, dropped := RemoveChain(chain, matcher, path);
      case Table(width, bs) =>
        var bs';
        bs', removed, dropped := RemoveTable(bs, matcher, path);
        b' := Table(width, bs');
    }

    /** removeAll's loop over the buckets of a table. */
    method RemoveTable(bs: seq<Bucket>, matcher: (Key, Option<Obj>) -> bool, ghost path: seq<nat>)
      returns (bs': seq<Bucket>, removed: nat, ghost dropped: seq<Entry>)
      requires ChildrenOk(hash, bs, path)
      modifies this`count, this`deleted
      ensures ChildrenOk(hash, bs', path) && |bs'| == |bs|
      ensures deleted == old(deleted) + dropped && removed == |dropped|
      ensures Kept(BagOf(bs), matcher, BagOf(bs'), dropped)
      ensures count == old(count) - removed
      decreases bs
    {
      hide WellFormed, Bag, BagOf, Kept;
      bs', removed, dropped := [], 0, [];
      var i: nat := 0;
      NoneKept(bs, matcher);
      while i < |bs|
        invariant i <= |bs| && |bs'| == i && removed == |dropped|
        invariant deleted == old(deleted) + dropped && count == old(count) - removed
        invariant Kept(BagOf(bs[..i]), matcher, BagOf(bs'), dropped)
        invariant ChildrenOk(hash, bs', path)
      {
        var b, n, d := RemoveBucket(bs[i], matcher, path + [i]);
        KeptMore(bs, i, matcher, bs', dropped, b, d);
        ChildrenAppend(hash, bs', b, path);
        bs', removed, dropped := bs' + [b], removed + n, dropped + d;
        i := i + 1;
      }
      assert bs[..|bs|] == bs;
    }

    /** PSC_Dictionary_removeAll keeps exactly the entries that do not match, and counts the others. */
    method RemoveAll(matcher: (Key, Option<Obj>) -> bool) returns (removed: nat)
      requires Valid()
      modifies this
      ensures Valid() && old(deleted) <= deleted && removed == |deleted| - |old(deleted)|
      ensures Kept(old(Contents()), matcher, Contents(), deleted[|old(deleted)|..])
      ensures stored == map k | k in old(stored) && !matcher(k, Some(old(stored)[k])) :: old(stored)[k]
      ensures given == old(given)
    {
      ghost var before, log := Contents(), deleted;
      ghost var m := map k | k in stored && !matcher(k, Some(stored[k])) :: stored[k];
      ghost var dropped: seq<Entry> := [];
      if count == 0 {
        removed := 0;
        assert before == multiset{};
      } else {
        var bs;
        bs, removed, dropped := RemoveTable(buckets, matcher, []);
        buckets := bs;
      }
      KeptStands(before, matcher, Contents(), dropped, stored, m);
      stored := m;
      assert deleted[|log|..] == dropped;
      assert multiset(deleted) == multiset(log) + multiset(dropped);
    }

    /** destroy below one bucket: every object goes to the deleter. */
    method DestroyBucket(b: Bucket)
      modifies this`deleted
      ensures old(deleted) <= deleted && multiset(deleted) == multiset(old(deleted)) + Bag(b)
      decreases b, 0
    {
      match b
      case Empty =>
      case Item(chain) =>
        var i := 0;
        while i < |chain|
          invariant 0 <= i <= |chain| && deleted == old(deleted) + chain[..i]
        {
          deleted := deleted + [chain[i]];
          i := i + 1;
        }
        assert chain[..|chain|] == chain;
      case Table(_, bs) =>
        DestroyTable(bs);
    }

    method DestroyTable(bs: seq<Bucket>)
      modifies this`deleted
      ensures old(deleted) <= deleted && multiset(deleted) == multiset(old(deleted)) + BagOf(bs)
      decreases bs
    {
      var i := 0;
      while i < |bs|
        invariant 0 <= i <= |bs| && old(deleted) <= deleted
        invariant multiset(deleted) == multiset(old(deleted)) + BagOf(bs[..i])
      {
        DestroyBucket(bs[i]);
        assert bs[..i + 1] == bs[..i] + [bs[i]];
        BagAppend(bs[..i], bs[i]);
        i := i + 1;
      }
      assert bs[..|bs|] == bs;
    }

    /** PSC_Dictionary_destroy: in the end every entry ever put in went to the deleter exactly once. */
    method Destroy()
      requires Valid()
      modifies this`deleted
      ensures old(deleted) <= deleted && multiset(deleted) == given
    {
      DestroyTable(buckets);
    }
  }

  // ----- Following an update in the map and in the tally -----

  /** The entry that setting a key puts in, if any. */
  ghost function PutIn(h: Key -> Hash, bag: multiset<Entry>, key: Key, obj: Option<Obj>): multiset<Entry> {
    if obj.Some? || (!HasKey(bag, key) && Collides(h, bag, key)) then Single(key, obj) else multiset{}
  }

  ghost predicate Stands(bag: multiset<Entry>, m: map<Key, Obj>) {
    forall k: Key, o: Obj :: k in m && m[k] == o <==> Entry(k, Some(o)) in bag
  }

  lemma StoredFollows(h: Key -> Hash, bag: multiset<Entry>, key: Key, obj: Option<Obj>, bag': multiset<Entry>,
                      dropped: seq<Entry>, m: map<Key, Obj>, m': map<Key, Obj>)
    requires UniqueKeys(bag) && Updated(h, bag, key, obj, bag', dropped) && Stands(bag, m)
    requires m' == if obj.Some? then m[key := obj.value] else m - {key}
    ensures Stands(bag', m')
  {
    hide Updated, UniqueKeys;
    forall k: Key, o: Obj ensures k in m' && m'[k] == o <==> Entry(k, Some(o)) in bag' {
      assert k in m && m[k] == o <==> Entry(k, Some(o)) in bag;
      MemberAfter(h, bag, key, obj, bag', dropped, k, o);
    }
  }

  lemma MemberAfter(h: Key -> Hash, bag: multiset<Entry>, key: Key, obj: Option<Obj>, bag': multiset<Entry>,
                    dropped: seq<Entry>, k: Key, o: Obj)
    requires UniqueKeys(bag) && Updated(h, bag, key, obj, bag', dropped)
    ensures Entry(k, Some(o)) in bag' <==> if k == key then obj == Some(o) else Entry(k, Some(o)) in bag
  {
    var e := Entry(k, Some(o));
    if HasKey(bag, key) {
      var q :| Entry(key, q) in bag && dropped == [Entry(key, q)]
               && bag' == bag - Single(key, q) + (if obj.Some? then Single(key, obj) else multiset{});
      OnlyOne(bag, Entry(key, q), e);
    } else {
      assert k == key ==> e !in bag;
    }
  }

  lemma OnlyOne(bag: multiset<Entry>, x: Entry, e: Entry)
    requires UniqueKeys(bag) && x in bag
    ensures (bag - multiset{x})[e] == if e.key == x.key then 0 else bag[e]
  {
    if e.key == x.key && e != x { assert e !in bag; }
  }

  lemma GivenFollows(h: Key -> Hash, bag: multiset<Entry>, key: Key, obj: Option<Obj>, bag': multiset<Entry>,
                     dropped: seq<Entry>, given: multiset<Entry>, log: seq<Entry>)
    requires Updated(h, bag, key, obj, bag', dropped) && given == bag + multiset(log)
    ensures given + PutIn(h, bag, key, obj) == bag' + multiset(log + dropped)
  {
    hide Collides;
    if HasKey(bag, key) {
      var q :| Entry(key, q) in bag && dropped == [Entry(key, q)]
               && bag' == bag - Single(key, q) + (if obj.Some? then Single(key, obj) else multiset{});
      assert multiset(dropped) == Single(key, q);
      Rebooked(bag, Single(key, q), PutIn(h, bag, key, obj), multiset(log));
    } else {
      assert log + dropped == log;
    }
  }

  lemma Rebooked(bag: multiset<Entry>, gone: multiset<Entry>, put: multiset<Entry>, log: multiset<Entry>)
    requires gone <= bag
    ensures bag + log + put == (bag - gone + put) + (log + gone)
  {}

  // ----- Ownership of objects -----

  ghost predicate Holds(bag: multiset<Entry>, o: Obj) {
    exists k :: Entry(k, Some(o)) in bag
  }

  /** No object is in two entries, or twice in one. */
  ghost predicate OwnsOnce(bag: multiset<Entry>) {
    && (forall e, f :: e in bag && f in bag && e.obj.Some? && e.obj == f.obj ==> e == f)
    && (forall e :: e in bag && e.obj.Some? ==> bag[e] <= 1)
  }

  /** No object passed to the deleter is still stored. */
  ghost predicate NoneStored(bag: multiset<Entry>, deleted: seq<Entry>) {
    forall i :: 0 <= i < |deleted| && deleted[i].obj.Some? ==> !Holds(bag, deleted[i].obj.value)
  }

  ghost predicate NoneTwice(deleted: seq<Entry>) {
    forall i, j :: 0 <= i < j < |deleted| && deleted[i].obj.Some? ==> deleted[i].obj != deleted[j].obj
  }

  /**
   Where every object is stored once, a set keeps it so, and deletes nothing that is
   stored, if and only if the object it is given is not stored already.
   */
  lemma OwnershipKeptIff(h: Key -> Hash, bag: multiset<Entry>, key: Key, obj: Option<Obj>, bag': multiset<Entry>,
                         dropped: seq<Entry>)
    requires UniqueKeys(bag) && OwnsOnce(bag) && Updated(h, bag, key, obj, bag', dropped)
    ensures OwnsOnce(bag') && NoneStored(bag', dropped) <==> obj.None? || !Holds(bag, obj.value)
  {
    if HasKey(bag, key) {
      var q :| Entry(key, q) in bag && dropped == [Entry(key, q)]
               && bag' == bag - Single(key, q) + (if obj.Some? then Single(key, obj) else multiset{});
      OwnershipReplaced(bag, key, q, obj, bag');
    } else if obj.Some? {
      OwnershipAdded(bag, key, obj.value);
    } else {
      assert forall e :: e in bag' && e.obj.Some? ==> e in bag && bag'[e] == bag[e];
    }
  }

  lemma OwnershipAdded(bag: multiset<Entry>, key: Key, o: Obj)
    requires OwnsOnce(bag) && !HasKey(bag, key)
    ensures OwnsOnce(bag + Single(key, Some(o))) <==> !Holds(bag, o)
  {
    var e := Entry(key, Some(o));
    if Holds(bag, o) {
      var k :| Entry(k, Some(o)) in bag;
      assert Entry(k, Some(o)) != e && e in bag + Single(key, Some(o));
    }
  }

  lemma OwnershipReplaced(bag: multiset<Entry>, key: Key, q: Option<Obj>, obj: Option<Obj>, bag': multiset<Entry>)
    requires UniqueKeys(bag) && OwnsOnce(bag) && Entry(key, q) in bag
    requires bag' == bag - Single(key, q) + (if obj.Some? then Single(key, obj) else multiset{})
    ensures OwnsOnce(bag') && NoneStored(bag', [Entry(key, q)]) <==> obj.None? || !Holds(bag, obj.value)
  {
    var rest := bag - Single(key, q);
    RestOwns(bag, key, q, rest);
    if obj.None? {
      assert bag' == rest;
    } else {
      OwnershipAdded(rest, key, obj.value);
      StoredThere(bag, key, q, obj.value, rest);
      assert bag' == rest + Single(key, obj);
    }
  }

  lemma RestOwns(bag: multiset<Entry>, key: Key, q: Option<Obj>, rest: multiset<Entry>)
    requires UniqueKeys(bag) && OwnsOnce(bag) && Entry(key, q) in bag && rest == bag - Single(key, q)
    ensures OwnsOnce(rest) && !HasKey(rest, key) && NoneStored(rest, [Entry(key, q)])
  {
    assert bag[Entry(key, q)] == 1;
    forall e | e in rest ensures e in bag && e.key != key && rest[e] == bag[e] {}
  }

  lemma StoredThere(bag: multiset<Entry>, key: Key, q: Option<Obj>, o: Obj, rest: multiset<Entry>)
    requires UniqueKeys(bag) && Entry(key, q) in bag && rest == bag - Single(key, q)
    requires NoneStored(rest, [Entry(key, q)])
    ensures Holds(bag, o) <==> Holds(rest, o) || q == Some(o)
    ensures NoneStored(rest + Single(key, Some(o)), [Entry(key, q)]) <==> q != Some(o)
  {
    var bag', gone := rest + Single(key, Some(o)), [Entry(key, q)];
    forall k ensures Entry(k, Some(o)) in bag <==> Entry(k, Some(o)) in rest || (k == key && q == Some(o)) {}
    assert Entry(key, Some(o)) in bag' && gone[0] == Entry(key, q);
    if q.Some? && q.value != o {
      assert !Holds(rest, gone[0].obj.value);
      assert forall k :: Entry(k, q) in bag' ==> Entry(k, q) in rest;
    }
  }

  /** If no object was ever put in twice, none is deleted twice, and none that is stored. */
  lemma NewObjectsDeletedOnce(bag: multiset<Entry>, deleted: seq<Entry>)
    requires OwnsOnce(bag + multiset(deleted))
    ensures NoneTwice(deleted) && NoneStored(bag, deleted)
  {
    var all := bag + multiset(deleted);
    forall i, j | 0 <= i < j < |deleted| && deleted[i].obj.Some? ensures deleted[i].obj != deleted[j].obj {
      if deleted[i].obj == deleted[j].obj {
        assert deleted[i] in all && deleted[j] in all;
        TwiceCounted(deleted, i, j);
      }
    }
    forall i, k | 0 <= i < |deleted| && deleted[i].obj.Some? && Entry(k, deleted[i].obj) in bag ensures false {
      NotInBoth(bag, deleted, Entry(k, deleted[i].obj), i);
    }
  }

  lemma NotInBoth(bag: multiset<Entry>, deleted: seq<Entry>, e: Entry, i: nat)
    requires OwnsOnce(bag + multiset(deleted)) && e in bag && e.obj.Some? && i < |deleted|
    ensures e.obj != deleted[i].obj
  {
    var all := bag + multiset(deleted);
    assert deleted[i] in multiset(deleted);
    assert e in all && deleted[i] in all && (e == deleted[i] ==> all[e] >= 2);
  }

  lemma TwiceCounted<T>(s: seq<T>, i: nat, j: nat)
    requires i < j < |s| && s[i] == s[j]
    ensures multiset(s)[s[i]] >= 2
  {
    assert s == s[..j] + [s[j]] + s[j + 1..];
    assert s[..j][i] in multiset(s[..j]);
  }

  datatype Call = SetCall(key: Key, obj: Option<Obj>) | RemoveAllCall(matcher: (Key, Option<Obj>) -> bool)

  /** No object is passed to two sets. */
  ghost predicate AllNew(calls: seq<Call>) {
    forall i, j :: 0 <= i < j < |calls| && calls[i].SetCall? && calls[j].SetCall? && calls[i].obj.Some? ==>
      calls[i].obj != calls[j].obj
  }

  ghost predicate PutBefore(calls: seq<Call>, n: nat, o: Obj) {
    exists i :: 0 <= i < n && i < |calls| && calls[i].SetCall? && calls[i].obj == Some(o)
  }

  /**
   Any run of sets and removals, of objects each of which is put in once: no object
   is passed to the deleter twice, and none that is still stored.
   */
  method Run(d: Dictionary, calls: seq<Call>)
    requires d.Valid() && d.given == multiset{} && AllNew(calls)
    modifies d
    ensures d.Valid() && NoneTwice(d.deleted) && NoneStored(d.Contents(), d.deleted)
  {
    hide Holds, PutBefore, OwnsOnce, AllNew, Updated, Stands, PutIn, Kept, WellFormed;
    NoneGiven(calls);
    for n := 0 to |calls|
      invariant d.Valid()
      invariant OwnsOnce(d.given) && forall o :: Holds(d.given, o) ==> PutBefore(calls, n, o)
    {
      ghost var before, given := d.Contents(), d.given;
      match calls[n]
      case SetCall(key, obj) =>
        d.Set(key, obj);
        GivenOnce(d.hash, before, given, key, obj, calls, n);
      case RemoveAllCall(matcher) =>
        var _ := d.RemoveAll(matcher);
        PutLater(given, calls, n);
    }
    NewObjectsDeletedOnce(d.Contents(), d.deleted);
  }

  lemma NoneGiven(calls: seq<Call>)
    ensures OwnsOnce(multiset{}) && forall o :: Holds(multiset{}, o) ==> PutBefore(calls, 0, o)
  {}

  lemma PutLater(given: multiset<Entry>, calls: seq<Call>, n: nat)
    requires forall o :: Holds(given, o) ==> PutBefore(calls, n, o)
    ensures forall o :: Holds(given, o) ==> PutBefore(calls, n + 1, o)
  {
    forall o: Obj | Holds(given, o) ensures PutBefore(calls, n + 1, o) { assert PutBefore(calls, n, o); }
  }

  lemma GivenOnce(h: Key -> Hash, before: multiset<Entry>, given: multiset<Entry>, key: Key, obj: Option<Obj>,
                  calls: seq<Call>, n: nat)
    requires OwnsOnce(given) && (forall o :: Holds(given, o) ==> PutBefore(calls, n, o)) && AllNew(calls)
    requires n < |calls| && calls[n] == SetCall(key, obj)
    ensures var given' := given + PutIn(h, before, key, obj);
            OwnsOnce(given') && forall o :: Holds(given', o) ==> PutBefore(calls, n + 1, o)
  {
    var given' := given + PutIn(h, before, key, obj);
    if obj.Some? { assert !PutBefore(calls, n, obj.value) && !Holds(given, obj.value); }
    forall o: Obj | Holds(given', o) ensures PutBefore(calls, n + 1, o) {
      if Holds(given, o) { assert PutBefore(calls, n, o); } else { assert calls[n].obj == Some(o); }
    }
  }

  /** The same object set again is passed to the deleter and stored. */
  lemma SetAgainDeletesStored(h: Key -> Hash, bag': multiset<Entry>, dropped: seq<Entry>)
    requires Updated(h, Single("k", Some(1)), "k", Some(1), bag', dropped)
    ensures dropped == [Entry("k", Some(1))] && Entry("k", Some(1)) in bag' && !NoneStored(bag', dropped)
  {
    assert Entry("k", Some(1)) in Single("k", Some(1));
    assert dropped[0] == Entry("k", Some(1)) && Holds(bag', 1);
  }

  // ----- Removing what matches -----

  /** `bag` falls into `bag'`, where nothing matches, and `dropped`, where everything does. */
  ghost predicate Kept(bag: multiset<Entry>, matcher: (Key, Option<Obj>) -> bool, bag': multiset<Entry>,
                       dropped: seq<Entry>)
  {
    && bag == bag' + multiset(dropped)
    && (forall e :: e in bag' ==> !matcher(e.key, e.obj))
    && (forall e :: e in dropped ==> matcher(e.key, e.obj))
  }

  predicate KeptSoFar(h: Key -> Hash, chain: seq<Entry>, i: nat, kept: seq<Entry>, path: seq<nat>)
    requires i <= |chain|
  {
    && |kept| <= i && (kept != [] ==> WellFormed(h, Item(kept), path))
    && forall k :: 0 <= k < |kept| ==> kept[k] in chain[..i]
  }

  lemma NothingYet(h: Key -> Hash, chain: seq<Entry>, matcher: (Key, Option<Obj>) -> bool, path: seq<nat>)
    ensures Kept(multiset(chain[..0]), matcher, multiset([]), []) && KeptSoFar(h, chain, 0, [], path)
  {}

  lemma NoneKept(bs: seq<Bucket>, matcher: (Key, Option<Obj>) -> bool)
    ensures Kept(BagOf(bs[..0]), matcher, BagOf([]), [])
  {}

  lemma KeptAll(h: Key -> Hash, chain: seq<Entry>, kept: seq<Entry>, path: seq<nat>)
    requires KeptSoFar(h, chain, |chain|, kept, path)
    ensures var b := if kept == [] then Empty else Item(kept); WellFormed(h, b, path) && Bag(b) == multiset(kept)
  {}

  lemma KeptOne(chain: seq<Entry>, i: nat, matcher: (Key, Option<Obj>) -> bool, kept: seq<Entry>, dropped: seq<Entry>)
    requires i < |chain| && Kept(multiset(chain[..i]), matcher, multiset(kept), dropped)
    ensures var e := chain[i];
            if matcher(e.key, e.obj) then Kept(multiset(chain[..i + 1]), matcher, multiset(kept), dropped + [e])
            else Kept(multiset(chain[..i + 1]), matcher, multiset(kept + [e]), dropped)
  {
    assert chain[..i + 1] == chain[..i] + [chain[i]];
  }

  lemma KeptWellFormed(h: Key -> Hash, chain: seq<Entry>, i: nat, kept: seq<Entry>, path: seq<nat>)
    requires WellFormed(h, Item(chain), path) && i < |chain| && KeptSoFar(h, chain, i, kept, path)
    ensures KeptSoFar(h, chain, i + 1, kept, path) && KeptSoFar(h, chain, i + 1, kept + [chain[i]], path)
  {
    assert chain[..i + 1] == chain[..i] + [chain[i]];
    forall k | 0 <= k < |kept| ensures kept[k].key != chain[i].key && kept[k] in chain[..i + 1] {
      assert kept[k] in chain[..i];
    }
  }

  lemma {:induction false} BagAppend(bs: seq<Bucket>, b: Bucket)
    ensures BagOf(bs + [b]) == BagOf(bs) + Bag(b)
  {
    if bs == [] {
      assert [] + [b] == [b];
    } else {
      assert (bs + [b])[1..] == bs[1..] + [b];
      BagAppend(bs[1..], b);
    }
  }

  predicate ChildrenOk(h: Key -> Hash, bs: seq<Bucket>, path: seq<nat>) {
    forall j :: 0 <= j < |bs| ==> WellFormed(h, bs[j], path + [j])
  }

  lemma ChildrenAppend(h: Key -> Hash, bs: seq<Bucket>, b: Bucket, path: seq<nat>)
    requires ChildrenOk(h, bs, path) && WellFormed(h, b, path + [|bs|])
    ensures ChildrenOk(h, bs + [b], path)
  {}

  lemma KeptMore(bs: seq<Bucket>, i: nat, matcher: (Key, Option<Obj>) -> bool, out: seq<Bucket>, dropped: seq<Entry>,
                 b: Bucket, d: seq<Entry>)
    requires i < |bs| && Kept(BagOf(bs[..i]), matcher, BagOf(out), dropped) && Kept(Bag(bs[i]), matcher, Bag(b), d)
    ensures Kept(BagOf(bs[..i + 1]), matcher, BagOf(out + [b]), dropped + d)
  {
    assert bs[..i + 1] == bs[..i] + [bs[i]];
    BagAppend(bs[..i], bs[i]);
    BagAppend(out, b);
  }

  lemma KeptStands(bag: multiset<Entry>, matcher: (Key, Option<Obj>) -> bool, bag': multiset<Entry>,
                   dropped: seq<Entry>, m: map<Key, Obj>, m': map<Key, Obj>)
    requires Kept(bag, matcher, bag', dropped) && Stands(bag, m)
    requires m' == map k | k in m && !matcher(k, Some(m[k])) :: m[k]
    ensures Stands(bag', m')
  {
    forall k: Key, o: Obj ensures k in m' && m'[k] == o <==> Entry(k, Some(o)) in bag' {
      assert k in m && m[k] == o <==> Entry(k, Some(o)) in bag;
    }
  }

  // ----- Counting -----

  ghost predicate NoNulls(bag: multiset<Entry>) {
    forall e :: e in bag ==> e.obj.Some?
  }

  lemma {:induction false} DistinctBag(bag: multiset<Entry>)
    requires forall e :: bag[e] <= 1
    ensures |bag| == |set e | e in bag|
    decreases |bag|
  {
    if bag != multiset{} {
      var x :| x in bag;
      var rest := bag - multiset{x};
      DistinctBag(rest);
      assert (set e | e in bag) == (set e | e in rest) + {x};
    }
  }

  lemma {:induction false} LiveIsMapSize(live: set<Entry>, m: map<Key, Obj>)
    requires forall e :: e in live ==> e.obj.Some? && e.key in m && m[e.key] == e.obj.value
    requires forall k :: k in m ==> Entry(k, Some(m[k])) in live
    ensures |live| == |m|
    decreases live
  {
    if live == {} {
      assert m == map[];
    } else {
      var e :| e in live;
      var rest, m' := live - {e}, m - {e.key};
      forall f | f in rest ensures f.key != e.key { assert f.obj == e.obj || f.key != e.key; }
      LiveIsMapSize(rest, m');
      assert m'.Keys == m.Keys - {e.key};
      assert |m'| == |m'.Keys| && |m| == |m.Keys|;
    }
  }

  lemma SubsetSize(a: set<Entry>, b: set<Entry>)
    requires a <= b
    ensures |a| == |b| <==> a == b
  {
    assert b == a + (b - a);
    assert |b| == |a| + |b - a|;
  }

  /** The count is the size of the map exactly when no entry holds null. */
  lemma CountIsMapSize(bag: multiset<Entry>, m: map<Key, Obj>)
    requires UniqueKeys(bag) && Stands(bag, m)
    ensures |bag| == |m| <==> NoNulls(bag)
  {
    var all := set e | e in bag;
    var live := set e | e in all && e.obj.Some?;
    DistinctBag(bag);
    LiveEntries(bag, m, live);
    SubsetSize(live, all);
    assert NoNulls(bag) <==> live == all by {
      if live == all { forall e | e in bag ensures e.obj.Some? { assert e in live; } }
    }
  }

  lemma LiveEntries(bag: multiset<Entry>, m: map<Key, Obj>, live: set<Entry>)
    requires Stands(bag, m) && forall e :: e in live <==> e in bag && e.obj.Some?
    ensures |live| == |m|
  {
    forall e | e in live ensures e.key in m && m[e.key] == e.obj.value { assert e == Entry(e.key, Some(e.obj.value)); }
    LiveIsMapSize(live, m);
  }

  /**
   From a dictionary whose count is right, setting a key keeps it right unless the
   call removes an absent key whose full hash some stored key shares; then the
   count is wrong.
   */
  lemma CountStaysRightIff(h: Key -> Hash, bag: multiset<Entry>, key: Key, obj: Option<Obj>, bag': multiset<Entry>,
                           dropped: seq<Entry>)
    requires NoNulls(bag) && Updated(h, bag, key, obj, bag', dropped)
    ensures NoNulls(bag') <==> !(obj.None? && !HasKey(bag, key) && Collides(h, bag, key))
  {
    if HasKey(bag, key) {
      var q :| Entry(key, q) in bag && dropped == [Entry(key, q)]
               && bag' == bag - Single(key, q) + (if obj.Some? then Single(key, obj) else multiset{});
    } else if obj.None? && Collides(h, bag, key) {
      assert Entry(key, None) in bag';
    }
  }

  /** Two keys with one hash: removing the second, never set, leaves a count of 2 for a map of size 1. */
  lemma RemovalThatAdds(h: Key -> Hash, bag': multiset<Entry>, dropped: seq<Entry>)
    requires h("a") == h("b") && Updated(h, Single("a", Some(1)), "b", None, bag', dropped)
    ensures |bag'| == 2 && Stands(bag', map["a" := 1])
  {
    var bag := Single("a", Some(1));
    assert Entry("a", Some(1)) in bag;
    assert Collides(h, bag, "b");
    assert !HasKey(bag, "b");
  }
}
