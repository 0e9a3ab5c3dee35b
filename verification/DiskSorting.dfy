/** The two-level radix sort: entries go through write caches into buckets named by their top key bits;
    reading takes bucket after bucket apart into blocks by the next key bits and sorts every block. */
module DiskSorting {
  import opened Powers
  import opened Sequences
  import opened Sorting
  import opened Wrappers

  /** A sorted run of entries and the number of entries before it. */
  datatype Block<T> = Block(entries: seq<T>, offset: nat)

  // ----- multisets of nested sequences

  function All<T>(s: seq<seq<T>>): multiset<T> {
    if s == [] then multiset{} else All(s[..|s| - 1]) + multiset(s[|s| - 1])
  }

  /** Everything waiting in the write caches. */
  function Pending<T>(caches: seq<seq<seq<T>>>): multiset<T> {
    if caches == [] then multiset{} else Pending(caches[..|caches| - 1]) + All(caches[|caches| - 1])
  }

  lemma {:induction false} AllIsFlatten<T>(s: seq<seq<T>>)
    ensures All(s) == multiset(Flatten(s))
  {
    if s != [] {
      AllIsFlatten(s[..|s| - 1]);
    }
  }

  /** Exchanging one of two summands. */
  lemma Exchange<T>(before: multiset<T>, after: multiset<T>, last: multiset<T>, old': multiset<T>, new': multiset<T>)
    requires after + old' == before + new'
    ensures (after + last) + old' == (before + last) + new'
  {
    assert (after + last) + old' == (after + old') + last;
    assert (before + last) + new' == (before + new') + last;
  }

  lemma {:induction false} AllUpdate<T>(s: seq<seq<T>>, i: nat, t: seq<T>)
    requires i < |s|
    ensures All(s[i := t]) + multiset(s[i]) == All(s) + multiset(t)
  {
    var last := |s| - 1;
    if i < last {
      AllUpdate(s[..last], i, t);
      assert s[i := t][..last] == s[..last][i := t];
      Exchange(All(s[..last]), All(s[..last][i := t]), multiset(s[last]), multiset(s[i]), multiset(t));
    } else {
      assert s[i := t][..last] == s[..last];
      assert All(s[i := t]) == All(s[..last]) + multiset(t);
    }
  }

  lemma {:induction false} PendingUpdate<T>(caches: seq<seq<seq<T>>>, c: nat, b: seq<seq<T>>)
    requires c < |caches|
    ensures Pending(caches[c := b]) + All(caches[c]) == Pending(caches) + All(b)
  {
    var last := |caches| - 1;
    hide All;
    if c < last {
      PendingUpdate(caches[..last], c, b);
      assert caches[c := b][..last] == caches[..last][c := b];
      Exchange(Pending(caches[..last]), Pending(caches[..last][c := b]), All(caches[last]), All(caches[c]), All(b));
    } else {
      assert caches[c := b][..last] == caches[..last];
      assert Pending(caches[c := b]) == Pending(caches[..last]) + All(b);
    }
  }

  /** A buffer moved from a cache to a bucket. */
  lemma MoveKeeps<T>(buckets: seq<seq<T>>, caches: seq<seq<seq<T>>>, c: nat, index: nat)
    requires c < |caches| && index < |buckets| == |caches[c]|
    ensures All(buckets[index := buckets[index] + caches[c][index]]) + Pending(caches[c := caches[c][index := []]])
         == All(buckets) + Pending(caches)
  {
    var buffer := caches[c][index];
    var buckets', caches' := buckets[index := buckets[index] + buffer], caches[c := caches[c][index := []]];
    AllUpdate(buckets, index, buckets[index] + buffer);
    AllUpdate(caches[c], index, []);
    PendingUpdate(caches, c, caches[c][index := []]);
    Balance(All(buckets'), All(buckets), multiset(buckets[index]), multiset(buffer),
            All(caches[c][index := []]), All(caches[c]), Pending(caches'), Pending(caches));
  }

  lemma Balance<T>(b': multiset<T>, b: multiset<T>, x: multiset<T>, y: multiset<T>,
                   c': multiset<T>, c: multiset<T>, p': multiset<T>, p: multiset<T>)
    requires b' + x == b + (x + y) && c' + y == c && p' + c == p + c'
    ensures b' + p' == b + p
  {
    forall e: T
      ensures (b' + p')[e] == (b + p)[e]
    {
      assert (b' + x)[e] == (b + (x + y))[e] && (c' + y)[e] == c[e] && (p' + c)[e] == (p + c')[e];
    }
  }

  /** An entry added to a cache. */
  lemma AddKeeps<T>(caches: seq<seq<seq<T>>>, c: nat, index: nat, entry: T)
    requires c < |caches| && index < |caches[c]|
    ensures Pending(caches[c := caches[c][index := caches[c][index] + [entry]]]) == Pending(caches) + multiset{entry}
  {
    var buffers, b := caches[c], caches[c][index];
    AllUpdate(buffers, index, b + [entry]);
    PendingUpdate(caches, c, buffers[index := b + [entry]]);
    AddBalance(All(buffers[index := b + [entry]]), All(buffers), multiset(b), multiset{entry},
               Pending(caches[c := buffers[index := b + [entry]]]), Pending(caches));
  }

  lemma AddBalance<T>(c': multiset<T>, c: multiset<T>, x: multiset<T>, y: multiset<T>, p': multiset<T>, p: multiset<T>)
    requires c' + x == c + (x + y) && p' + c == p + c'
    ensures p' == p + y
  {
    forall e: T
      ensures p'[e] == (p + y)[e]
    {
      assert (c' + x)[e] == (c + (x + y))[e] && (p' + c)[e] == (p + c')[e];
    }
  }

  predicate Empty<T>(b: seq<seq<T>>) {
    forall i :: 0 <= i < |b| ==> b[i] == []
  }

  lemma {:induction false} AllOfEmpty<T>(b: seq<seq<T>>)
    requires Empty(b)
    ensures All(b) == multiset{}
  {
    if b != [] {
      AllOfEmpty(b[..|b| - 1]);
    }
  }

  lemma {:induction false} NothingPending<T>(caches: seq<seq<seq<T>>>)
    requires forall c :: 0 <= c < |caches| ==> Empty(caches[c])
    ensures Pending(caches) == multiset{}
  {
    if caches != [] {
      NothingPending(caches[..|caches| - 1]);
      AllOfEmpty(caches[|caches| - 1]);
    }
  }

  /** Entries of bucket i have i for their key bits above the shift. */
  ghost predicate Filed<T(!new)>(s: seq<T>, key: T -> nat, shift: nat, i: nat) {
    forall x :: x in s ==> Shr(key(x), shift) == i
  }

  ghost predicate AllFiled<T(!new)>(b: seq<seq<T>>, key: T -> nat, shift: nat) {
    forall i :: 0 <= i < |b| ==> Filed(b[i], key, shift, i)
  }

  ghost predicate AllWithin<T>(buffers: seq<seq<T>>, capacity: nat) {
    forall i :: 0 <= i < |buffers| ==> |buffers[i]| <= capacity
  }

  lemma UpdateTwice<T>(was: seq<seq<seq<T>>>, now: seq<seq<seq<T>>>, c: nat, index: nat, next: seq<seq<T>>)
    requires c < |was| && index < |was[c]| && now == was[c := was[c][index := []]]
    requires |next| == |was[c]| && next == now[c][index := next[index]]
    ensures now[c][index] == [] && now[c := next] == was[c := was[c][index := next[index]]]
  {
    assert next == was[c][index := next[index]];
  }

  ghost predicate Parted<T(!new)>(a: Block<T>, b: Block<T>, same: bool, key: T -> nat, shift: nat) {
    forall x, y :: x in a.entries && y in b.entries ==> (Shr(key(x), shift) == Shr(key(y), shift) <==> same)
  }

  /** No block is empty, and two entries are in the same block if and only if their keys agree but for the last
      `shift` bits. */
  ghost predicate ByPrefix<T(!new)>(blocks: seq<Block<T>>, key: T -> nat, shift: nat) {
    && (forall b :: 0 <= b < |blocks| ==> blocks[b].entries != [])
    && forall a, b :: 0 <= a < |blocks| && 0 <= b < |blocks| ==> Parted(blocks[a], blocks[b], a == b, key, shift)
  }

  lemma PrefixesJoin<T(!new)>(s: seq<Block<T>>, t: seq<Block<T>>, key: T -> nat, shift: nat)
    requires ByPrefix(s, key, shift) && ByPrefix(t, key, shift)
    requires forall a, b, x, y :: 0 <= a < |s| && 0 <= b < |t| && x in s[a].entries && y in t[b].entries ==>
               Shr(key(x), shift) != Shr(key(y), shift)
    ensures ByPrefix(s + t, key, shift)
  {
    hide Shr;
    forall a, b | 0 <= a < |s + t| && 0 <= b < |s + t|
      ensures Parted((s + t)[a], (s + t)[b], a == b, key, shift)
    {
      if a < |s| && b < |s| {
        assert Parted(s[a], s[b], a == b, key, shift);
      } else if a >= |s| && b >= |s| {
        assert Parted(t[a - |s|], t[b - |s|], a == b, key, shift);
      }
    }
  }

  lemma PrefixesSorted<T(!new)>(blocks: seq<Block<T>>, sort: seq<T> -> seq<T>, key: T -> nat, shift: nat)
    requires ByPrefix(blocks, key, shift) && Sorts(sort, key)
    ensures ByPrefix(Sorted(blocks, sort), key, shift)
  {
    hide Shr;
    var more := Sorted(blocks, sort);
    forall b | 0 <= b < |blocks|
      ensures more[b].entries != [] && forall x :: x in more[b].entries <==> x in blocks[b].entries
    {
      assert IsSort(blocks[b].entries, more[b].entries, key);
      SameElements(blocks[b].entries, more[b].entries);
    }
    forall a, b | 0 <= a < |blocks| && 0 <= b < |blocks|
      ensures Parted(more[a], more[b], a == b, key, shift)
    {
      assert Parted(blocks[a], blocks[b], a == b, key, shift);
    }
  }

  class DiskSort<T(!new)> {
    const key: T -> nat
    const keySize: nat
    const logNumBuckets: nat
    const capacity: nat
    var isFinished: bool
    /** The bucket files. */
    var buckets: seq<seq<T>>
    /** The buffers of every write cache, one per bucket; cache 0 is the built-in one. */
    var caches: seq<seq<seq<T>>>
    /** Everything ever added. */
    ghost var added: multiset<T>

    constructor (key: T -> nat, keySize: nat, logNumBuckets: nat, capacity: nat)
      requires keySize >= logNumBuckets && capacity >= 1
      ensures Valid() && !isFinished && added == multiset{} && |caches| == 1
      ensures this.key == key && this.keySize == keySize && this.logNumBuckets == logNumBuckets
    {
      this.key, this.keySize, this.logNumBuckets, this.capacity := key, keySize, logNumBuckets, capacity;
      isFinished := false;
      buckets := seq(Pow2(logNumBuckets), _ => []);
      caches := [seq(Pow2(logNumBuckets), _ => [])];
      added := multiset{};
      new;
      AllOfEmpty(buckets);
      NothingPending(caches);
    }

    function Shift(): nat
      requires keySize >= logNumBuckets
    {
      keySize - logNumBuckets
    }

    /** Nothing is lost: what is in the buckets and in the caches is what has been added. No buffer outgrows
        the capacity. */
    ghost predicate Valid()
      reads this
    {
      && keySize >= logNumBuckets && capacity >= 1
      && |buckets| == Pow2(logNumBuckets) && AllFiled(buckets, key, Shift())
      && (forall c :: 0 <= c < |caches| ==> |caches[c]| == |buckets| && AllFiled(caches[c], key, Shift()))
      && (forall c :: 0 <= c < |caches| ==> AllWithin(caches[c], capacity))
      && All(buckets) + Pending(caches) == added
    }

    /** `add_cache` */
    method AddCache() returns (c: nat)
      requires Valid()
      modifies this`caches
      ensures Valid() && c == |old(caches)| && |caches| == c + 1 && caches[..c] == old(caches)
    {
      c := |caches|;
      ghost var empty: seq<seq<T>> := seq(|buckets|, _ => []);
      AllOfEmpty(empty);
      caches := caches + [seq(|buckets|, _ => [])];
      assert caches[..c] == old(caches) && caches[c] == empty;
    }

    /** Moves one buffer of a cache into its bucket. */
    method Write(c: nat, index: nat)
      requires Valid() && c < |caches| && index < |buckets| && !isFinished
      modifies this`buckets, this`caches
      ensures Valid() && |caches| == |old(caches)|
      ensures caches == old(caches)[c := old(caches[c])[index := []]]
      ensures buckets == old(buckets)[index := old(buckets[index]) + old(caches[c][index])]
    {
      hide All, Pending, Pow2;
      var buffer := caches[c][index];
      MoveKeeps(buckets, caches, c, index);
      buckets := buckets[index := buckets[index] + buffer];
      caches := caches[c := caches[c][index := []]];
    }

    /** What an entry finds in its buffer of a cache that is not full, or has just been written. */
    function Room(buffer: seq<T>): seq<T> {
      if |buffer| >= capacity then [] else buffer
    }

    /** `WriteCache::add`: a full buffer goes to its bucket first, which a finished sorter does not allow. */
    method Add(c: nat, entry: T) returns (r: Result<()>)
      requires Valid() && c < |caches|
      modifies this
      ensures Valid() && |caches| == |old(caches)| && isFinished == old(isFinished)
      ensures var index := Shr(key(entry), Shift());
              if index >= |buckets| then r == Err("bucket index out of range")
              else if old(isFinished) && |old(caches[c][index])| >= capacity then r == Err("read only")
              else r.Ok?
      ensures r.Err? ==> added == old(added) && caches == old(caches) && buckets == old(buckets)
      ensures r.Ok? ==>
                var index := Shr(key(entry), Shift());
                var buffer := old(caches[c][index]);
                && added == old(added) + multiset{entry}
                && caches == old(caches)[c := old(caches[c])[index := Room(buffer) + [entry]]]
                && buckets == if |buffer| < capacity then old(buckets)
                              else old(buckets)[index := old(buckets[index]) + buffer]
    {
      hide All, Pending, Pow2;
      var index := Shr(key(entry), Shift());
      if index >= |caches[c]| {
        return Err("bucket index out of range");
      }
      if |caches[c][index]| >= capacity {
        if isFinished {
          return Err("read only");
        }
        Write(c, index);
        UpdateTwice(old(caches), caches, c, index, caches[c][index := [] + [entry]]);
      }
      AddKeeps(caches, c, index, entry);
      caches := caches[c := caches[c][index := caches[c][index] + [entry]]];
      added := added + multiset{entry};
      r := Ok(());
    }

    /** `WriteCache::flush` */
    method Flush(c: nat) returns (r: Result<()>)
      requires Valid() && c < |caches|
      modifies this`buckets, this`caches
      ensures Valid() && |caches| == |old(caches)|
      ensures r.Ok? <==> !isFinished || Empty(old(caches[c]))
      ensures r.Err? ==> r.error == "read only" && caches == old(caches) && buckets == old(buckets)
      ensures r.Ok? ==> caches == old(caches)[c := caches[c]] && Empty(caches[c])
      ensures r.Ok? ==> forall i :: 0 <= i < |buckets| ==> buckets[i] == old(buckets[i]) + old(caches[c][i])
    {
      hide All, Pending, Pow2, AllFiled, AllWithin, Shr;
      for index := 0 to |buckets|
        invariant Valid() && |buckets| == old(|buckets|) && |caches| == |old(caches)|
        invariant caches == old(caches)[c := caches[c]]
        invariant forall i :: 0 <= i < index ==> caches[c][i] == [] && buckets[i] == old(buckets[i]) + old(caches[c][i])
        invariant forall i :: index <= i < |buckets| ==>
                    caches[c][i] == old(caches[c][i]) && buckets[i] == old(buckets[i])
        invariant isFinished ==> caches == old(caches) && buckets == old(buckets)
                                 && forall i :: 0 <= i < index ==> old(caches[c][i]) == []
      {
        if |caches[c][index]| > 0 {
          if isFinished {
            return Err("read only");
          }
          Write(c, index);
        }
      }
      r := Ok(());
    }

    /** `finish`, once the other caches have been flushed. */
    method Finish()
      requires Valid() && !isFinished && |caches| > 0
      requires forall c :: 1 <= c < |caches| ==> Empty(caches[c])
      modifies this
      ensures Valid() && isFinished && added == old(added) && All(buckets) == added
    {
      hide All, Pow2, AllFiled, AllWithin, Shr;
      var _ := Flush(0);
      NothingPending(caches);
      isFinished := true;
    }

    /** `read_bucket`: takes one bucket apart by the next key bits; `from` entries come before it. */
    method ReadBucket(entries: seq<T>, from: nat) returns (r: Result<seq<Block<T>>>)
      requires Valid()
      ensures r.Err? <==> keySize < 2 * logNumBuckets
      ensures r.Err? ==> r.error == "key_shift < 0"
      ensures r.Ok? ==>
                && multiset(Flatten(Entries(r.value))) == multiset(entries)
                && Ladder(Entries(r.value), key) && OffsetsFrom(r.value, from)
                && ByPrefix(r.value, key, keySize - 2 * logNumBuckets)
    {
      hide ByPrefix, Ladder, OffsetsFrom, Flatten, Entries, All, Pending, Pow2, Shr;
      if Shift() < logNumBuckets {
        return Err("key_shift < 0");
      }
      var keyShift := Shift() - logNumBuckets;
      var table: map<nat, seq<T>> := map[];
      for i := 0 to |entries|
        invariant IsTable(table, entries[..i], key, keyShift)
      {
        TableNext(table, entries, i, key, keyShift);
        var k := Shr(key(entries[i]), keyShift);
        var block := if k in table then table[k] else [];
        table := table[k := block + [entries[i]]];
      }
      assert entries[..|entries|] == entries;
      var out := InKeyOrder(table, entries, keyShift, from);
      r := Ok(out);
    }

    /** The blocks in the order of a `std::map`, each with its offset. */
    method InKeyOrder(table: map<nat, seq<T>>, ghost entries: seq<T>, ghost shift: nat, from: nat)
      returns (out: seq<Block<T>>)
      requires IsTable(table, entries, key, shift)
      ensures multiset(Flatten(Entries(out))) == multiset(entries)
      ensures Ladder(Entries(out), key) && OffsetsFrom(out, from) && ByPrefix(out, key, shift)
    {
      hide IsTable, Delivered, Ladder, OffsetsFrom, Restrict, Flatten, Entries, OfPrefixes, ByPrefix;
      var keys: set<nat>, offset: nat := table.Keys, from;
      ghost var done: set<nat> := {};
      out := [];
      NothingDelivered(entries, shift, from);
      NoPrefixes(shift);
      while keys != {}
        invariant keys + done == table.Keys && keys !! done
        invariant AllBefore(done, keys)
        invariant Delivered(entries, shift, done, out, from, offset) && OfPrefixes(shift, done, out)
        decreases |keys|
      {
        MinExists(keys);
        var k :| IsMin(keys, k);
        MinNext(keys, done, k);
        BlockNext(table, entries, shift, done, k, out, from, offset);
        PrefixNext(table, entries, shift, done, k, out, offset);
        out := out + [Block(table[k], offset)];
        offset := offset + |table[k]|;
        keys, done := keys - {k}, done + {k};
      }
      assert done == table.Keys;
      AllDelivered(table, entries, shift, out, from, offset);
      ArePrefixes(shift, done, out);
    }

    /** The blocks done so far hold the entries of their prefixes. */
    ghost predicate OfPrefixes(shift: nat, done: set<nat>, out: seq<Block<T>>) {
      ByPrefix(out, key, shift) && forall b, x :: 0 <= b < |out| && x in out[b].entries ==> Shr(key(x), shift) in done
    }

    lemma NoPrefixes(shift: nat)
      ensures OfPrefixes(shift, {}, [])
    {
    }

    lemma ArePrefixes(shift: nat, done: set<nat>, out: seq<Block<T>>)
      requires OfPrefixes(shift, done, out)
      ensures ByPrefix(out, key, shift)
    {
    }

    lemma PrefixNext(table: map<nat, seq<T>>, entries: seq<T>, shift: nat, done: set<nat>, k: nat, out: seq<Block<T>>,
                     offset: nat)
      requires IsTable(table, entries, key, shift) && k in table && k !in done && OfPrefixes(shift, done, out)
      ensures OfPrefixes(shift, done + {k}, out + [Block(table[k], offset)])
    {
      hide Restrict, Shr;
      var block := Block(table[k], offset);
      forall x | x in block.entries
        ensures Shr(key(x), shift) == k
      {
        RestrictIn(entries, key, shift, {k}, x);
      }
      PrefixesJoin(out, [block], key, shift);
    }

    /** The blocks of the keys done so far. */
    ghost predicate Delivered(entries: seq<T>, shift: nat, done: set<nat>, out: seq<Block<T>>, from: nat, offset: nat) {
      && multiset(Flatten(Entries(out))) == multiset(Restrict(entries, key, shift, done))
      && offset == from + |Flatten(Entries(out))| && OffsetsFrom(out, from)
      && Ladder(Entries(out), key)
    }

    lemma NothingDelivered(entries: seq<T>, shift: nat, from: nat)
      ensures Delivered(entries, shift, {}, [], from, from)
    {
      RestrictNone(entries, key, shift);
    }

    lemma AllDelivered(table: map<nat, seq<T>>, entries: seq<T>, shift: nat, out: seq<Block<T>>, from: nat, offset: nat)
      requires IsTable(table, entries, key, shift) && Delivered(entries, shift, table.Keys, out, from, offset)
      ensures multiset(Flatten(Entries(out))) == multiset(entries)
      ensures Ladder(Entries(out), key) && OffsetsFrom(out, from)
    {
      RestrictAll(entries, key, shift, table.Keys);
    }

    lemma BlockNext(table: map<nat, seq<T>>, entries: seq<T>, shift: nat, done: set<nat>, k: nat, out: seq<Block<T>>,
                    from: nat, offset: nat)
      requires IsTable(table, entries, key, shift) && k in table && k !in done
      requires forall a :: a in done ==> a < k
      requires Delivered(entries, shift, done, out, from, offset)
      ensures Delivered(entries, shift, done + {k}, out + [Block(table[k], offset)], from, offset + |table[k]|)
    {
      RestrictMore(entries, key, shift, done, k);
      forall x, y | x in Flatten(Entries(out)) && y in table[k]
        ensures key(x) < key(y)
      {
        assert x in multiset(Flatten(Entries(out)));
        RestrictIn(entries, key, shift, done, x);
        RestrictIn(entries, key, shift, {k}, y);
        ShrReflects(key(x), key(y), shift);
      }
      BlockAppended(out, Block(table[k], offset), key, from);
    }

    /** One bucket's blocks, sorted, behind what has been delivered. */
    method SortBlocks(blocks: seq<Block<T>>, sort: seq<T> -> seq<T>, out: seq<Block<T>>) returns (out': seq<Block<T>>)
      ensures out' == out + Sorted(blocks, sort)
    {
      out' := out;
      for i := 0 to |blocks|
        invariant out' == out + Sorted(blocks, sort)[..i]
      {
        out' := out' + [Block(sort(blocks[i].entries), blocks[i].offset)];
      }
    }

    /** What the first n buckets amount to. */
    ghost predicate ReadUpTo(n: nat, out: seq<Block<T>>, offset: nat)
      requires keySize >= logNumBuckets && n <= |buckets|
      reads this
    {
      && multiset(Flatten(Entries(out))) == All(buckets[..n]) && offset == |Flatten(Entries(out))|
      && Ladder(Entries(out), key) && OffsetsFrom(out, 0)
      && (forall x :: x in Flatten(Entries(out)) ==> Shr(key(x), Shift()) < n)
      && (keySize >= 2 * logNumBuckets ==> ByPrefix(out, key, keySize - 2 * logNumBuckets))
      && forall b :: 0 <= b < |out| ==> SortedBy(out[b].entries, key)
    }

    lemma OfBucket(more: seq<Block<T>>, n: nat)
      requires Valid() && n < |buckets| && multiset(Flatten(Entries(more))) == multiset(buckets[n])
      ensures forall x :: x in Flatten(Entries(more)) ==> Shr(key(x), Shift()) == n
    {
      hide Flatten, Entries, Shr;
      forall x | x in Flatten(Entries(more))
        ensures Shr(key(x), Shift()) == n
      {
        assert x in multiset(Flatten(Entries(more)));
        assert Filed(buckets[n], key, Shift(), n);
      }
    }

    lemma BucketNext(n: nat, out: seq<Block<T>>, offset: nat, blocks: seq<Block<T>>, sort: seq<T> -> seq<T>)
      requires Valid() && n < |buckets| && Sorts(sort, key) && ReadUpTo(n, out, offset)
      requires multiset(Flatten(Entries(blocks))) == multiset(buckets[n])
      requires Ladder(Entries(blocks), key) && OffsetsFrom(blocks, offset)
      requires keySize >= 2 * logNumBuckets && ByPrefix(blocks, key, keySize - 2 * logNumBuckets)
      ensures ReadUpTo(n + 1, out + Sorted(blocks, sort), offset + |buckets[n]|)
    {
      hide ByPrefix, Ladder, OffsetsFrom, Flatten, Entries, AllFiled, AllWithin, Pending, Sorts, SortedBy, Shr, Pow2;
      var more := Sorted(blocks, sort);
      SortedKeeps(blocks, sort, key, offset);
      OfBucket(more, n);
      assert buckets[..n + 1][..n] == buckets[..n];
      assert |multiset(Flatten(Entries(more)))| == |multiset(buckets[n])|;
      BlocksJoin(out, more, n, offset);
      PrefixesSorted(blocks, sort, key, keySize - 2 * logNumBuckets);
      OtherBucket(out, more, n);
    }

    lemma BlocksJoin(out: seq<Block<T>>, more: seq<Block<T>>, n: nat, offset: nat)
      requires keySize >= logNumBuckets && offset == |Flatten(Entries(out))|
      requires Ladder(Entries(out), key) && OffsetsFrom(out, 0)
      requires Ladder(Entries(more), key) && OffsetsFrom(more, offset)
      requires forall x :: x in Flatten(Entries(out)) ==> Shr(key(x), Shift()) < n
      requires forall x :: x in Flatten(Entries(more)) ==> Shr(key(x), Shift()) == n
      ensures Flatten(Entries(out + more)) == Flatten(Entries(out)) + Flatten(Entries(more))
      ensures Ladder(Entries(out + more), key) && OffsetsFrom(out + more, 0)
      ensures forall x :: x in Flatten(Entries(out + more)) ==> Shr(key(x), Shift()) < n + 1
    {
      hide Flatten, OffsetsFrom, Shr;
      forall x, y | x in Flatten(Entries(out)) && y in Flatten(Entries(more))
        ensures key(x) < key(y)
      {
        ShrReflects(key(x), key(y), Shift());
      }
      hide Entries;
      LaddersJoin(Entries(out), Entries(more), key);
      OffsetsJoin(out, more, offset);
    }

    /** Entries of different buckets differ in their first bits. */
    lemma OtherBucket(out: seq<Block<T>>, more: seq<Block<T>>, n: nat)
      requires keySize >= 2 * logNumBuckets
      requires forall x :: x in Flatten(Entries(out)) ==> Shr(key(x), Shift()) < n
      requires forall x :: x in Flatten(Entries(more)) ==> Shr(key(x), Shift()) == n
      requires ByPrefix(out, key, keySize - 2 * logNumBuckets) && ByPrefix(more, key, keySize - 2 * logNumBuckets)
      ensures ByPrefix(out + more, key, keySize - 2 * logNumBuckets)
    {
      hide Flatten, Shr, ByPrefix;
      var shift := keySize - 2 * logNumBuckets;
      forall a, b, x, y | 0 <= a < |out| && 0 <= b < |more| && x in out[a].entries && y in more[b].entries
        ensures Shr(key(x), shift) != Shr(key(y), shift)
      {
        InFlatten(Entries(out), a, x);
        InFlatten(Entries(more), b, y);
        ShrShr(key(x), shift, logNumBuckets);
        ShrShr(key(y), shift, logNumBuckets);
      }
      PrefixesJoin(out, more, key, shift);
    }

    /** `read`: bucket after bucket, every block sorted. What is delivered is a sorted permutation of all
        that was added, and every block knows how many entries come before it. */
    method Read(sort: seq<T> -> seq<T>) returns (r: Result<seq<Block<T>>>)
      requires Valid() && isFinished && All(buckets) == added
      requires Sorts(sort, key)
      ensures r.Err? <==> keySize < 2 * logNumBuckets
      ensures r.Ok? ==>
                && multiset(Flatten(Entries(r.value))) == added
                && SortedBy(Flatten(Entries(r.value)), key)
                && OffsetsFrom(r.value, 0)
                && ByPrefix(r.value, key, keySize - 2 * logNumBuckets)
    {
      hide Ladder, OffsetsFrom, Flatten, Entries, All, Sorts, Pow2, ByPrefix, AllFiled, AllWithin, SortedBy;
      var out: seq<Block<T>>, offset: nat := [], 0;
      NothingRead();
      for i := 0 to |buckets|
        invariant ReadUpTo(i, out, offset)
        invariant keySize >= 2 * logNumBuckets || i == 0
      {
        var blocks := ReadBucket(buckets[i], offset);
        if blocks.Err? {
          return blocks;
        }
        BucketNext(i, out, offset, blocks.value, sort);
        out := SortBlocks(blocks.value, sort, out);
        offset := offset + |buckets[i]|;
      }
      assert buckets[..|buckets|] == buckets;
      AllSorted(out);
      r := Ok(out);
    }

    lemma AllSorted(out: seq<Block<T>>)
      requires Ladder(Entries(out), key) && forall b :: 0 <= b < |out| ==> SortedBy(out[b].entries, key)
      ensures SortedBy(Flatten(Entries(out)), key)
    {
      LadderSorted(Entries(out), key);
    }

    lemma NothingRead()
      requires keySize >= logNumBuckets
      ensures ReadUpTo(0, [], 0)
    {
    }
  }

  function Sorted<T>(blocks: seq<Block<T>>, sort: seq<T> -> seq<T>): (r: seq<Block<T>>)
    ensures |r| == |blocks|
  {
    seq(|blocks|, i requires 0 <= i < |blocks| => Block(sort(blocks[i].entries), blocks[i].offset))
  }

  /** Blocks in ascending order, each sorted, are sorted as a whole. */
  lemma {:induction false} LadderSorted<T(!new)>(s: seq<seq<T>>, key: T -> nat)
    requires Ladder(s, key) && forall b :: 0 <= b < |s| ==> SortedBy(s[b], key)
    ensures SortedBy(Flatten(s), key)
  {
    if s != [] {
      var front, last := s[..|s| - 1], s[|s| - 1];
      LadderSorted(front, key);
      forall x, y | x in Flatten(front) && y in last
        ensures key(x) < key(y)
      {
        var a := FlattenFrom(front, x);
        assert Below(s[a], s[|s| - 1], key);
      }
      SortedAppend(Flatten(front), last, key);
    }
  }

  lemma SortedAppend<T(!new)>(s: seq<T>, t: seq<T>, key: T -> nat)
    requires SortedBy(s, key) && SortedBy(t, key)
    requires Below(s, t, key)
    ensures SortedBy(s + t, key)
  {
    forall i, j | 0 <= i < j < |s + t|
      ensures key((s + t)[i]) <= key((s + t)[j])
    {
      if i < |s| <= j {
        assert (s + t)[i] in s && (s + t)[j] in t;
      }
    }
  }

  lemma {:induction false} FlattenFrom<T>(s: seq<seq<T>>, x: T) returns (a: nat)
    requires x in Flatten(s)
    ensures a < |s| && x in s[a]
  {
    var last := |s| - 1;
    if x in s[last] {
      a := last;
    } else {
      a := FlattenFrom(s[..last], x);
    }
  }

  lemma {:induction false} FlattenConcat<T>(s: seq<seq<T>>, t: seq<seq<T>>)
    ensures Flatten(s + t) == Flatten(s) + Flatten(t)
  {
    if t == [] {
      assert s + t == s;
    } else {
      hide Flatten;
      var front, last := t[..|t| - 1], t[|t| - 1];
      FlattenConcat(s, front);
      FlattenLast(t, front, last);
      FlattenLast(s + t, s + front, last);
      assert (Flatten(s) + Flatten(front)) + last == Flatten(s) + (Flatten(front) + last);
    }
  }

  /** Blocks sorted one by one. */
  lemma SortedKeeps<T(!new)>(blocks: seq<Block<T>>, sort: seq<T> -> seq<T>, key: T -> nat, from: nat)
    requires Sorts(sort, key) && Ladder(Entries(blocks), key) && OffsetsFrom(blocks, from)
    ensures var more := Sorted(blocks, sort);
            && multiset(Flatten(Entries(more))) == multiset(Flatten(Entries(blocks)))
            && Ladder(Entries(more), key) && OffsetsFrom(more, from)
            && forall b :: 0 <= b < |more| ==> SortedBy(more[b].entries, key)
  {
    var more := Sorted(blocks, sort);
    forall b | 0 <= b < |blocks|
      ensures IsSort(blocks[b].entries, more[b].entries, key)
    {
    }
    SameLadder(Entries(blocks), Entries(more), key);
    SameFlatten(Entries(blocks), Entries(more), |blocks|);
    assert Entries(blocks)[..|blocks|] == Entries(blocks) && Entries(more)[..|blocks|] == Entries(more);
    hide Ladder, Sorts;
    forall b | 0 <= b < |blocks|
      ensures |Flatten(Entries(more)[..b])| == |Flatten(Entries(blocks)[..b])|
    {
      SameFlatten(Entries(blocks), Entries(more), b);
    }
  }

  lemma SameLadder<T(!new)>(s: seq<seq<T>>, t: seq<seq<T>>, key: T -> nat)
    requires |s| == |t| && Ladder(s, key) && forall b :: 0 <= b < |s| ==> multiset(s[b]) == multiset(t[b])
    ensures Ladder(t, key)
  {
    forall a, b | 0 <= a < b < |t|
      ensures Below(t[a], t[b], key)
    {
      assert Below(s[a], s[b], key);
      SameElements(s[a], t[a]);
      SameElements(s[b], t[b]);
    }
  }

  lemma {:induction false} SameFlatten<T(!new)>(s: seq<seq<T>>, t: seq<seq<T>>, n: nat)
    requires |s| == |t| && n <= |s| && forall b :: 0 <= b < |s| ==> multiset(s[b]) == multiset(t[b])
    ensures multiset(Flatten(s[..n])) == multiset(Flatten(t[..n]))
    ensures |Flatten(s[..n])| == |Flatten(t[..n])|
  {
    if n > 0 {
      SameFlatten(s, t, n - 1);
      FlattenNext(s, n - 1);
      FlattenNext(t, n - 1);
      assert |multiset(s[n - 1])| == |multiset(t[n - 1])|;
    }
  }

  lemma LaddersJoin<T(!new)>(e: seq<seq<T>>, f: seq<seq<T>>, key: T -> nat)
    requires Ladder(e, key) && Ladder(f, key) && Below(Flatten(e), Flatten(f), key)
    ensures Ladder(e + f, key)
  {
    forall a, b | 0 <= a < b < |e + f|
      ensures Below((e + f)[a], (e + f)[b], key)
    {
      if a < |e| <= b {
        forall x, y | x in e[a] && y in f[b - |e|]
          ensures key(x) < key(y)
        {
          InFlatten(e, a, x);
          InFlatten(f, b - |e|, y);
        }
      }
    }
  }

  lemma OffsetsJoin<T(!new)>(out: seq<Block<T>>, more: seq<Block<T>>, offset: nat)
    requires OffsetsFrom(out, 0) && offset == |Flatten(Entries(out))| && OffsetsFrom(more, offset)
    ensures Entries(out + more) == Entries(out) + Entries(more)
    ensures Flatten(Entries(out + more)) == Flatten(Entries(out)) + Flatten(Entries(more))
    ensures OffsetsFrom(out + more, 0)
  {
    var e, f := Entries(out), Entries(more);
    assert Entries(out + more) == e + f;
    FlattenConcat(e, f);
    forall b | 0 <= b < |out + more|
      ensures (out + more)[b].offset == |Flatten((e + f)[..b])|
    {
      if b < |out| {
        assert (e + f)[..b] == e[..b];
      } else {
        assert (e + f)[..b] == e + f[..b - |e|];
        FlattenConcat(e, f[..b - |e|]);
      }
    }
  }

  lemma PartBelow<T(!new)>(s: seq<seq<T>>, a: nat, t: seq<T>, key: T -> nat)
    requires a < |s| && Below(Flatten(s), t, key)
    ensures Below(s[a], t, key)
  {
    forall x | x in s[a]
      ensures x in Flatten(s)
    {
      InFlatten(s, a, x);
    }
  }

  lemma BlockAppended<T(!new)>(out: seq<Block<T>>, b: Block<T>, key: T -> nat, from: nat)
    requires Ladder(Entries(out), key) && OffsetsFrom(out, from) && b.offset == from + |Flatten(Entries(out))|
    requires Below(Flatten(Entries(out)), b.entries, key)
    ensures Flatten(Entries(out + [b])) == Flatten(Entries(out)) + b.entries
    ensures Ladder(Entries(out + [b]), key) && OffsetsFrom(out + [b], from)
  {
    var ents := Entries(out);
    assert Entries(out + [b]) == ents + [b.entries];
    FlattenAppend(ents, b.entries);
    forall a | 0 <= a < |out|
      ensures Below(ents[a], b.entries, key)
    {
      PartBelow(ents, a, b.entries, key);
    }
    forall i | 0 <= i <= |out|
      ensures Entries(out + [b])[..i] == ents[..i]
    {
    }
    assert ents[..|out|] == ents;
  }

  ghost predicate Sorts<T(!new)>(sort: seq<T> -> seq<T>, key: T -> nat) {
    forall s :: IsSort(s, sort(s), key)
  }

  function Entries<T>(blocks: seq<Block<T>>): (r: seq<seq<T>>)
    ensures |r| == |blocks|
  {
    seq(|blocks|, i requires 0 <= i < |blocks| => blocks[i].entries)
  }

  /** Every block's offset is the number of entries before it. */
  ghost predicate OffsetsFrom<T(!new)>(blocks: seq<Block<T>>, from: nat) {
    forall b :: 0 <= b < |blocks| ==> blocks[b].offset == from + |Flatten(Entries(blocks)[..b])|
  }

  /** The keys of a block all lie below those of every later block. */
  ghost predicate Ladder<T(!new)>(s: seq<seq<T>>, key: T -> nat) {
    forall a, b :: 0 <= a < b < |s| ==> Below(s[a], s[b], key)
  }

  ghost predicate Below<T(!new)>(s: seq<T>, t: seq<T>, key: T -> nat) {
    forall x, y :: x in s && y in t ==> key(x) < key(y)
  }

  lemma FlattenAppend<T>(s: seq<seq<T>>, t: seq<T>)
    ensures Flatten(s + [t]) == Flatten(s) + t
  {
    assert (s + [t])[..|s|] == s;
  }

  lemma {:induction false} InFlatten<T>(s: seq<seq<T>>, a: nat, x: T)
    requires a < |s| && x in s[a]
    ensures x in Flatten(s)
  {
    if a < |s| - 1 {
      InFlatten(s[..|s| - 1], a, x);
    }
  }

  // ----- the hash table of blocks

  /** The entries whose key bits above the shift are among ks. */
  function Restrict<T>(s: seq<T>, key: T -> nat, shift: nat, ks: set<nat>): seq<T> {
    if s == [] then []
    else Restrict(s[..|s| - 1], key, shift, ks) + if Shr(key(s[|s| - 1]), shift) in ks then [s[|s| - 1]] else []
  }

  ghost predicate IsTable<T(!new)>(table: map<nat, seq<T>>, s: seq<T>, key: T -> nat, shift: nat) {
    && (forall x :: x in s ==> Shr(key(x), shift) in table)
    && forall k :: k in table ==> table[k] != [] && table[k] == Restrict(s, key, shift, {k})
  }

  lemma RestrictNext<T>(s: seq<T>, i: nat, key: T -> nat, shift: nat, k: nat)
    requires i < |s|
    ensures Restrict(s[..i + 1], key, shift, {k})
            == Restrict(s[..i], key, shift, {k}) + if Shr(key(s[i]), shift) == k then [s[i]] else []
  {
    assert s[..i + 1][..i] == s[..i];
  }

  lemma TableNext<T(!new)>(table: map<nat, seq<T>>, s: seq<T>, i: nat, key: T -> nat, shift: nat)
    requires i < |s| && IsTable(table, s[..i], key, shift)
    ensures var k := Shr(key(s[i]), shift);
            IsTable(table[k := (if k in table then table[k] else []) + [s[i]]], s[..i + 1], key, shift)
  {
    hide Shr, Restrict;
    var k := Shr(key(s[i]), shift);
    if k !in table {
      RestrictAbsent(s[..i], key, shift, k);
    }
    var after := table[k := (if k in table then table[k] else []) + [s[i]]];
    forall k' | k' in after
      ensures after[k'] == Restrict(s[..i + 1], key, shift, {k'})
    {
      RestrictNext(s, i, key, shift, k');
    }
    forall x | x in s[..i + 1]
      ensures Shr(key(x), shift) in after
    {
      assert x in s[..i] || x == s[i];
    }
  }

  lemma {:induction false} RestrictAbsent<T(!new)>(s: seq<T>, key: T -> nat, shift: nat, k: nat)
    requires forall x :: x in s ==> Shr(key(x), shift) != k
    ensures Restrict(s, key, shift, {k}) == []
  {
    if s != [] {
      RestrictAbsent(s[..|s| - 1], key, shift, k);
    }
  }

  lemma {:induction false} RestrictNone<T(!new)>(s: seq<T>, key: T -> nat, shift: nat)
    ensures Restrict(s, key, shift, {}) == []
  {
    if s != [] {
      RestrictNone(s[..|s| - 1], key, shift);
    }
  }

  lemma {:induction false} RestrictAll<T(!new)>(s: seq<T>, key: T -> nat, shift: nat, ks: set<nat>)
    requires forall x :: x in s ==> Shr(key(x), shift) in ks
    ensures Restrict(s, key, shift, ks) == s
  {
    if s != [] {
      RestrictAll(s[..|s| - 1], key, shift, ks);
    }
  }

  lemma {:induction false} RestrictIn<T(!new)>(s: seq<T>, key: T -> nat, shift: nat, ks: set<nat>, x: T)
    requires x in Restrict(s, key, shift, ks)
    ensures Shr(key(x), shift) in ks
  {
    if s != [] && x in Restrict(s[..|s| - 1], key, shift, ks) {
      RestrictIn(s[..|s| - 1], key, shift, ks, x);
    }
  }

  lemma {:induction false} RestrictMore<T(!new)>(s: seq<T>, key: T -> nat, shift: nat, ks: set<nat>, k: nat)
    requires k !in ks
    ensures multiset(Restrict(s, key, shift, ks + {k})) == multiset(Restrict(s, key, shift, ks)) + multiset(Restrict(s, key, shift, {k}))
  {
    if s != [] {
      RestrictMore(s[..|s| - 1], key, shift, ks, k);
    }
  }

  predicate IsMin(s: set<nat>, k: nat) {
    k in s && forall k' :: k' in s ==> k <= k'
  }

  ghost predicate AllBefore(s: set<nat>, t: set<nat>) {
    forall a, b :: a in s && b in t ==> a < b
  }

  lemma MinNext(keys: set<nat>, done: set<nat>, k: nat)
    requires IsMin(keys, k) && AllBefore(done, keys) && keys !! done
    ensures AllBefore(done + {k}, keys - {k}) && (keys - {k}) !! (done + {k})
    ensures (keys - {k}) + (done + {k}) == keys + done
    ensures k in keys && k !in done && forall a :: a in done ==> a < k
  {
  }

  lemma {:induction false} MinExists(s: set<nat>)
    requires s != {}
    ensures exists k :: IsMin(s, k)
    decreases |s|
  {
    var x :| x in s;
    if !IsMin(s, x) {
      var y :| y in s && y < x;
      var rest := s - {x};
      assert y in rest;
      MinExists(rest);
      var m :| IsMin(rest, m);
      forall k | k in s
        ensures m <= k
      {
        assert k == x || k in rest;
      }
      assert IsMin(s, m);
    }
  }

  // ----- any interleaving of adds through any number of caches

  /** What the threads that share a sorter do, one after the other; cache 0 is the built-in one. */
  datatype Op<T> = NewCache | AddTo(cache: nat, entry: T) | FlushCache(cache: nat)

  /** The number of caches once these have been done. */
  function NumCaches<T>(ops: seq<Op<T>>): nat {
    if ops == [] then 1 else NumCaches(ops[..|ops| - 1]) + if ops[|ops| - 1].NewCache? then 1 else 0
  }

  /** Everything these add. */
  function AddedBy<T>(ops: seq<Op<T>>): multiset<T> {
    if ops == [] then multiset{}
    else AddedBy(ops[..|ops| - 1]) + if ops[|ops| - 1].AddTo? then multiset{ops[|ops| - 1].entry} else multiset{}
  }

  /** They use caches that exist, and keys of keySize bits. */
  ghost predicate ProperOps<T(!new)>(ops: seq<Op<T>>, key: T -> nat, keySize: nat) {
    && (forall i :: 0 <= i < |ops| && !ops[i].NewCache? ==> ops[i].cache < NumCaches(ops[..i]))
    && (forall i :: 0 <= i < |ops| && ops[i].AddTo? ==> key(ops[i].entry) < Pow2(keySize))
  }

  lemma OpNext<T(!new)>(ops: seq<Op<T>>, i: nat)
    requires i < |ops|
    ensures NumCaches(ops[..i + 1]) == NumCaches(ops[..i]) + if ops[i].NewCache? then 1 else 0
    ensures AddedBy(ops[..i + 1]) == AddedBy(ops[..i]) + if ops[i].AddTo? then multiset{ops[i].entry} else multiset{}
  {
    assert ops[..i + 1][..i] == ops[..i];
  }

  method Do<T(!new)>(disk: DiskSort<T>, op: Op<T>)
    requires disk.Valid() && !disk.isFinished
    requires !op.NewCache? ==> op.cache < |disk.caches|
    requires op.AddTo? ==> disk.key(op.entry) < Pow2(disk.keySize)
    modifies disk
    ensures disk.Valid() && !disk.isFinished
    ensures |disk.caches| == old(|disk.caches|) + if op.NewCache? then 1 else 0
    ensures disk.added == old(disk.added) + if op.AddTo? then multiset{op.entry} else multiset{}
  {
    hide All, Pending, AllFiled, AllWithin;
    match op
    case NewCache => var _ := disk.AddCache();
    case AddTo(c, entry) =>
      ShrSmall(disk.key(entry), disk.logNumBuckets, disk.Shift());
      var _ := disk.Add(c, entry);
    case FlushCache(c) => var _ := disk.Flush(c);
  }

  /** Flushes the caches that threads have used. */
  method FlushAll<T(!new)>(disk: DiskSort<T>)
    requires disk.Valid() && !disk.isFinished
    modifies disk
    ensures disk.Valid() && !disk.isFinished && disk.added == old(disk.added) && |disk.caches| == old(|disk.caches|)
    ensures forall c :: 1 <= c < |disk.caches| ==> Empty(disk.caches[c])
  {
    hide All, Pending, AllFiled, AllWithin, Pow2, Shr, Empty;
    var c := 1;
    while c < |disk.caches|
      invariant 1 <= c && disk.Valid() && !disk.isFinished && disk.added == old(disk.added)
      invariant |disk.caches| == old(|disk.caches|)
      invariant forall c' :: 1 <= c' < c && c' < |disk.caches| ==> Empty(disk.caches[c'])
    {
      var _ := disk.Flush(c);
      c := c + 1;
    }
  }

  /** Whatever is added through whichever caches, in whatever interleaving: once the caches have been
      flushed and the sorter finished, reading delivers exactly what was added, sorted, with the right
      offsets; it refuses only when the key is too short for two levels of buckets. */
  method SortAll<T(!new)>(ops: seq<Op<T>>, key: T -> nat, keySize: nat, logNumBuckets: nat, capacity: nat,
                   sort: seq<T> -> seq<T>)
    returns (r: Result<seq<Block<T>>>)
    requires keySize >= logNumBuckets && capacity >= 1 && ProperOps(ops, key, keySize) && Sorts(sort, key)
    ensures r.Err? <==> keySize < 2 * logNumBuckets
    ensures r.Ok? ==>
              && multiset(Flatten(Entries(r.value))) == AddedBy(ops)
              && SortedBy(Flatten(Entries(r.value)), key)
              && OffsetsFrom(r.value, 0)
              && ByPrefix(r.value, key, keySize - 2 * logNumBuckets)
  {
    hide Sorts, OffsetsFrom, SortedBy, Flatten, ByPrefix, AllFiled, AllWithin, All, Pending, Pow2, Shr;
    var disk := new DiskSort<T>(key, keySize, logNumBuckets, capacity);
    for i := 0 to |ops|
      invariant fresh(disk) && disk.Valid() && !disk.isFinished
      invariant |disk.caches| == NumCaches(ops[..i]) && disk.added == AddedBy(ops[..i])
    {
      OpNext(ops, i);
      Do(disk, ops[i]);
    }
    assert ops[..|ops|] == ops;
    FlushAll(disk);
    disk.Finish();
    r := disk.Read(sort);
  }
}
