/** `pk_dict` of pkutils.c: an open-addressed hash table with bounded probe windows and no
    tombstones, which grows, shrinks and rolls back, seen as a multiset of pairs. */
module Dict {
  import opened Text

  const MINBITS := 10
  const MAXBITS := 27
  const MAXBUCKET := 40

  datatype Entry<V> = Empty | Full(m3: int, key: string, val: V)

  function Pow2(n: nat): (p: nat)
    ensures p > 0
  {
    if n == 0 then 1 else 2 * Pow2(n - 1)
  }

  /** The slot i steps after `slot` in a table of this size, around the end. */
  function Walk(slot: nat, i: nat, size: nat): (p: nat)
    requires slot < size
    ensures p < size
  {
    if i == 0 then slot
    else
      var p := Walk(slot, i - 1, size) + 1;
      if p >= size then 0 else p
  }

  /** The pairs in a table. */
  function Pairs<V(==)>(es: seq<Entry<V>>): multiset<Entry<V>> {
    multiset(es)[Empty := 0]
  }

  /** Slot k can be reached by a probe that starts at `slot`. */
  ghost predicate Reaches(slot: nat, k: nat, size: nat, window: nat)
    requires slot < size
  {
    exists i :: 0 <= i < window && Walk(slot, i, size) == k
  }

  /** The first slot of the window, from the i-th on, that holds the key. */
  function Lookup<V(==)>(es: seq<Entry<V>>, slot: nat, window: nat, m3: int, key: string, i: nat): (k: Option<nat>)
    requires slot < |es| && i <= window
    ensures k.Some? ==> k.value < |es|
    decreases window - i
  {
    if i == window then None
    else
      var p := Walk(slot, i, |es|);
      if es[p].Full? && es[p].m3 == m3 && es[p].key == key then Some(p)
      else Lookup(es, slot, window, m3, key, i + 1)
  }

  lemma {:induction false} LookupFinds<V>(es: seq<Entry<V>>, slot: nat, window: nat, m3: int, key: string, i: nat)
    requires slot < |es| && i <= window
    ensures var k := Lookup(es, slot, window, m3, key, i);
            && (k.Some? ==> es[k.value].Full? && es[k.value].m3 == m3 && es[k.value].key == key)
            && (k.None? ==> forall j :: i <= j < window ==>
                  var e := es[Walk(slot, j, |es|)]; !(e.Full? && e.m3 == m3 && e.key == key))
    decreases window - i
  {
    hide Walk;
    if i < window {
      LookupFinds(es, slot, window, m3, key, i + 1);
    }
  }

  /** No earlier slot of the window holds it. */
  lemma {:induction false} LookupFirst<V>(es: seq<Entry<V>>, slot: nat, window: nat, m3: int, key: string, i: nat)
    returns (j: nat)
    requires slot < |es| && i <= window && Lookup(es, slot, window, m3, key, i).Some?
    ensures i <= j < window && Lookup(es, slot, window, m3, key, i) == Some(Walk(slot, j, |es|))
    ensures forall x :: i <= x < j ==> var e := es[Walk(slot, x, |es|)]; !(e.Full? && e.m3 == m3 && e.key == key)
    decreases window - i
  {
    hide Walk;
    var e := es[Walk(slot, i, |es|)];
    if e.Full? && e.m3 == m3 && e.key == key {
      j := i;
    } else {
      j := LookupFirst(es, slot, window, m3, key, i + 1);
    }
  }

  lemma PairsAt<V>(es: seq<Entry<V>>, e: Entry<V>)
    requires e.Full?
    ensures e in Pairs(es) <==> exists k :: 0 <= k < |es| && es[k] == e
  {
  }

  lemma PairsFill<V>(es: seq<Entry<V>>, k: nat, e: Entry<V>)
    requires k < |es| && es[k] == Empty && e.Full?
    ensures Pairs(es[k := e]) == Pairs(es) + multiset{e} && |Pairs(es[k := e])| == |Pairs(es)| + 1
  {
    assert multiset(es[k := e]) == multiset(es) - multiset{Empty} + multiset{e};
  }

  lemma PairsClear<V>(es: seq<Entry<V>>, k: nat)
    requires k < |es| && es[k].Full?
    ensures es[k] in Pairs(es) && Pairs(es[k := Empty]) == Pairs(es) - multiset{es[k]}
    ensures |Pairs(es[k := Empty])| == |Pairs(es)| - 1
  {
    PairsAt(es, es[k]);
    assert multiset(es[k := Empty]) == multiset(es) - multiset{es[k]} + multiset{Empty};
  }

  lemma PairsTake<V>(es: seq<Entry<V>>, k: nat)
    requires k < |es|
    ensures Pairs(es[..k + 1]) == if es[k].Full? then Pairs(es[..k]) + multiset{es[k]} else Pairs(es[..k])
  {
    assert es[..k + 1] == es[..k] + [es[k]];
  }

  lemma PairsPart<V>(es: seq<Entry<V>>, n: nat)
    requires n <= |es|
    ensures Pairs(es[..n]) <= Pairs(es)
  {
    assert es == es[..n] + es[n..];
    assert multiset(es) == multiset(es[..n]) + multiset(es[n..]);
  }

  lemma PairsNone<V>(es: seq<Entry<V>>)
    requires forall k :: 0 <= k < |es| ==> es[k] == Empty
    ensures Pairs(es) == multiset{}
  {
    assert forall e :: e in es ==> e == Empty;
    assert forall e :: e in Pairs(es) ==> e in es && e != Empty;
  }

  class PkDict<V(==)> {
    /** murmur3 of the key's prefix, and the mixing of seed, hash and table size */
    const hash: string -> int
    const mix: (int, nat) -> nat
    const maxBits: nat
    const maxBucket: nat
    var entries: array<Entry<V>>
    var bits: nat
    var count: nat
    var shrinkAt: nat

    /** Where the probes for a hash start in a table of 2 to the b slots. */
    function Slot(m3: int, b: nat): (s: nat)
      ensures s < Pow2(b)
    {
      mix(m3, b) % Pow2(b)
    }

    /** Every entry carries its key's hash and lies in its own probe window. */
    ghost predicate Placed(es: seq<Entry<V>>, b: nat) {
      && |es| == Pow2(b)
      && forall k :: 0 <= k < |es| && es[k].Full? ==>
           es[k].m3 == hash(es[k].key) && Reaches(Slot(es[k].m3, b), k, Pow2(b), maxBucket)
    }

    ghost function Table(): seq<Entry<V>>
      reads this, entries
    {
      if Pow2(bits) <= entries.Length then entries[..Pow2(bits)] else []
    }

    ghost function Contents(): multiset<Entry<V>>
      reads this, entries
    {
      Pairs(Table())
    }

    ghost predicate Valid()
      reads this, entries
    {
      && bits <= maxBits <= 30 && Pow2(bits) <= entries.Length
      && Placed(Table(), bits) && count == |Contents()|
    }

    /** `pk_dict_init`, when memory suffices. */
    constructor (hash: string -> int, mix: (int, nat) -> nat, maxBits: int, maxBucket: int)
      requires maxBits <= 30
      ensures Valid() && Contents() == multiset{} && entries.Length == 1024
      ensures this.hash == hash && this.mix == mix
      ensures this.maxBits == (if maxBits < 1 then 27 else maxBits)
      ensures this.maxBucket == (if maxBucket < 1 then 40 else maxBucket)
      ensures bits == (if this.maxBits < 10 then this.maxBits else 10) && shrinkAt == 204
    {
      this.hash, this.mix := hash, mix;
      this.maxBits := if maxBits < 1 then MAXBITS else maxBits;
      this.maxBucket := if maxBucket < 1 then MAXBUCKET else maxBucket;
      new;
      TableSizes(MINBITS);
      var _ := SetSize(MINBITS, true);
    }

    /** `_pk_dict_set_size` */
    method SetSize(b: nat, memory: bool) returns (ok: bool)
      requires maxBits <= 30
      modifies this
      ensures ok == memory && (ok ==> entries.Length == Pow2(b) && Valid() && Contents() == multiset{})
      ensures ok ==> fresh(entries) && bits == (if b < maxBits then b else maxBits) && shrinkAt == Pow2(b) / 5
    {
      bits := if b < maxBits then b else maxBits;
      count := 0;
      shrinkAt := Pow2(b) / 5;
      ok := memory;
      if memory {
        entries := new Entry<V>[Pow2(b)](_ => Empty);
        PowMonotone(bits, b);
        PairsNone(Table());
      }
    }

    /** A free slot in the window of a hash. */
    ghost predicate HasRoom(m3: int)
      reads this, entries
    {
      |Table()| == Pow2(bits)
      && exists i :: 0 <= i < maxBucket && Table()[Walk(Slot(m3, bits), i, Pow2(bits))] == Empty
    }

    /** The value a probe for this key comes to first. */
    ghost function Found(key: string): Option<V>
      reads this, entries
      requires Valid()
    {
      var k := Lookup(Table(), Slot(hash(key), bits), maxBucket, hash(key), key, 0);
      if k.Some? && Table()[k.value].Full? then Some(Table()[k.value].val) else None
    }

    lemma PlacedFill(es: seq<Entry<V>>, b: nat, k: nat, i: nat, e: Entry<V>)
      requires Placed(es, b) && k < |es| && e.Full? && e.m3 == hash(e.key)
      requires i < maxBucket && Walk(Slot(e.m3, b), i, Pow2(b)) == k
      ensures Placed(es[k := e], b)
    {
      hide Walk, Pow2, Slot;
      assert Reaches(Slot(e.m3, b), k, Pow2(b), maxBucket);
    }

    /** A key that no slot of its window holds is not in the table at all. */
    lemma NotInWindow(es: seq<Entry<V>>, b: nat, key: string)
      requires Placed(es, b)
      requires Lookup(es, Slot(hash(key), b), maxBucket, hash(key), key, 0) == None
      ensures forall e :: e in Pairs(es) ==> e.Full? && e.key != key
    {
      hide Walk, Pow2, Slot, Lookup, Pairs;
      LookupFinds(es, Slot(hash(key), b), maxBucket, hash(key), key, 0);
      forall e | e in Pairs(es)
        ensures e.Full? && e.key != key
      {
        PairsAreFull(es, e);
        PairsAt(es, e);
        var k :| 0 <= k < |es| && es[k] == e;
        assert Reaches(Slot(e.m3, b), k, Pow2(b), maxBucket);
      }
    }

    lemma PairsAreFull(es: seq<Entry<V>>, e: Entry<V>)
      requires e in Pairs(es)
      ensures e.Full?
    {
    }

    /** The table and the bookkeeping after slot k was filled. */
    lemma Filled(was: seq<Entry<V>>, k: nat, i: nat, e: Entry<V>)
      requires Placed(was, bits) && k < |was| && was[k] == Empty && e.Full? && e.m3 == hash(e.key)
      requires i < maxBucket && Walk(Slot(e.m3, bits), i, Pow2(bits)) == k
      requires Table() == was[k := e] && bits <= maxBits <= 30 && Pow2(bits) <= entries.Length
      requires count == |Pairs(was)| + 1
      ensures Valid() && Contents() == Pairs(was) + multiset{e}
    {
      PlacedFill(was, bits, k, i, e);
      hide Walk, Pow2, Slot, Pairs, Placed, Table;
      PairsFill(was, k, e);
    }

    /** `_pk_dict_add`: the first free slot of the window, if there is one. */
    method AddTo(m3: int, key: string, val: V) returns (ok: bool)
      requires Valid() && m3 == hash(key)
      modifies this`count, entries
      ensures Valid()
      ensures Contents() == if ok then old(Contents()) + multiset{Full(m3, key, val)} else old(Contents())
      ensures ok <==> old(HasRoom(m3))
      ensures !ok ==> !HasRoom(m3) && Table() == old(Table())
    {
      ghost var was := Table();
      var size := Pow2(bits);
      var slot := Slot(m3, bits);
      var p, i := slot, 0;
      while i < maxBucket
        invariant i <= maxBucket && p < size && p == Walk(slot, i, size)
        invariant forall j :: 0 <= j < i ==> was[Walk(slot, j, size)] != Empty
        invariant count == old(count) && entries[..] == old(entries[..])
      {
        if entries[p].Empty? {
          entries[p] := Full(m3, key, val);
          count := count + 1;
          assert Table() == was[p := Full(m3, key, val)];
          Filled(was, p, i, Full(m3, key, val));
          return true;
        }
        i := i + 1;
        p := if p + 1 >= size then 0 else p + 1;
      }
      assert Table() == was;
      return false;
    }

    /** `_PK_DICT_TOOBIG` */
    predicate TooBig(b: nat, n: nat) {
      b > 23 && Pow2(b) > 3 * n
    }

    /** Moves the first n slots of an old table over; false when one finds no place. */
    method Rehash(olds: array<Entry<V>>, n: nat) returns (ok: bool, ghost stuck: nat)
      requires Valid() && Contents() == multiset{} && n <= olds.Length && olds != entries
      requires forall k :: 0 <= k < n && olds[k].Full? ==> olds[k].m3 == hash(olds[k].key)
      modifies this`count, entries
      ensures Valid() && (ok ==> Contents() == Pairs(olds[..n]))
      ensures !ok ==> stuck < n && olds[stuck].Full? && !HasRoom(olds[stuck].m3)
                      && Contents() + multiset{olds[stuck]} <= Pairs(olds[..n])
    {
      hide Walk, Pow2, Slot, Placed, Pairs, HasRoom;
      stuck := 0;
      PairsOfNothing();
      assert olds[..0] == [];
      var p := 0;
      while p < n
        invariant p <= n && Valid() && Contents() == Pairs(olds[..p])
        modifies this`count, entries
      {
        ghost var es := olds[..n];
        assert es[..p] == olds[..p] && es[..p + 1] == olds[..p + 1];
        PairsTake(es, p);
        if olds[p].Full? {
          var added := AddTo(olds[p].m3, olds[p].key, olds[p].val);
          if !added {
            PairsPart(es, p + 1);
            return false, p;
          }
        }
        p := p + 1;
      }
      return true, 0;
    }

    lemma PairsOfNothing()
      ensures Pairs<V>([]) == multiset{}
    {
    }

    /** No free slot in the window of a hash, in a table of 2 to the b slots. */
    ghost predicate Crowded(es: seq<Entry<V>>, b: nat, m3: int) {
      |es| == Pow2(b) && forall i :: 0 <= i < maxBucket ==> es[Walk(Slot(m3, b), i, Pow2(b))] != Empty
    }

    /** Of these pairs some filled the window of e in a table of 2 to the b slots, and e was not
        one of those. */
    ghost predicate Jammed(partly: seq<Entry<V>>, b: nat, e: Entry<V>, pairs: multiset<Entry<V>>) {
      && e.Full? && Placed(partly, b) && Crowded(partly, b, e.m3) && Pairs(partly) + multiset{e} <= pairs
    }

    /** A new table of another size with the pairs of the old one, or as many as find room. */
    method Refill(b: nat, memory: bool) returns (ok: bool, ghost partly: seq<Entry<V>>, ghost e: Entry<V>)
      requires Valid() && b <= maxBits
      modifies this
      ensures ok ==> memory && Valid() && Contents() == old(Contents()) && bits == b && fresh(entries)
      ensures ok ==> shrinkAt == Pow2(b) / 5
      ensures !ok && memory ==> Jammed(partly, b, e, old(Contents()))
    {
      partly, e := [], Empty;
      var oldEntries, n := entries, Pow2(bits);
      ghost var was := Table();
      assert oldEntries[..n] == was;
      PlacedHashes(was, bits);
      ok := SetSize(b, memory);
      hide Walk, Pow2, Slot, Pairs, Reaches, HasRoom, Crowded, Placed;
      if ok {
        ghost var stuck;
        ok, stuck := Rehash(oldEntries, n);
        if !ok {
          partly, e := Table(), was[stuck];
          NoRoomIsCrowded(e.m3);
        }
      }
    }

    /** `_pk_dict_resize`: the same pairs in a table of another size, or the old table as it was,
        because the size is out of bounds or memory is, or because the window of some entry e was
        full in the new table, as far as that was filled. */
    method Resize(b: nat, memory: bool) returns (ok: bool, ghost partly: seq<Entry<V>>, ghost e: Entry<V>)
      requires Valid()
      modifies this
      ensures Valid() && Contents() == old(Contents())
      ensures ok ==> memory && bits == b <= maxBits && !(b > 23 && Pow2(b) > 3 * old(count)) && fresh(entries)
      ensures ok ==> shrinkAt == if Pow2(b) / 5 < count - count / 3 then Pow2(b) / 5 else count - count / 3
      ensures !ok ==> entries == old(entries) && Table() == old(Table())
      ensures !ok ==> bits == old(bits) && count == old(count) && shrinkAt == old(shrinkAt)
      ensures !ok && b <= maxBits && !(b > 23 && Pow2(b) > 3 * count) && memory ==>
                Jammed(partly, b, e, Contents())
    {
      hide Pow2, Pairs, Jammed, Placed;
      partly, e := [], Empty;
      if b > maxBits {
        return false, partly, e;
      }
      if TooBig(b, count) {
        return false, partly, e;
      }
      var oldEntries, oldBits, oldCount, oldShrinkAt := entries, bits, count, shrinkAt;
      ghost var was := Table();
      ok, partly, e := Refill(b, memory);
      if ok {
        var most := count - count / 3;
        shrinkAt := if shrinkAt < most then shrinkAt else most;
      } else {
        entries, bits, count, shrinkAt := oldEntries, oldBits, oldCount, oldShrinkAt;
        assert Table() == was;
      }
    }

    lemma PlacedHashes(es: seq<Entry<V>>, b: nat)
      requires Placed(es, b)
      ensures |es| == Pow2(b) && forall k :: 0 <= k < |es| && es[k].Full? ==> es[k].m3 == hash(es[k].key)
    {
    }

    lemma NoRoomIsCrowded(m3: int)
      requires Valid() && !HasRoom(m3)
      ensures Crowded(Table(), bits, m3)
    {
    }

    /** A probe finds the key exactly when it is in the table, and then a pair that is there. */
    lemma FoundIsThere(key: string)
      requires Valid()
      ensures Found(key).None? <==> forall e :: e in Contents() ==> e.Full? && e.key != key
      ensures Found(key).Some? ==> Full(hash(key), key, Found(key).value) in Contents()
    {
      hide Walk, Pow2, Slot, Placed, Lookup, Pairs;
      var k := Lookup(Table(), Slot(hash(key), bits), maxBucket, hash(key), key, 0);
      LookupFinds(Table(), Slot(hash(key), bits), maxBucket, hash(key), key, 0);
      if k.None? {
        NotInWindow(Table(), bits, key);
      } else {
        PairsAt(Table(), Table()[k.value]);
      }
    }

    /** The k-th slot of a key's window. */
    ghost function At(key: string, k: nat): (e: Entry<V>)
      reads this, entries
      requires Valid()
    {
      Table()[(Slot(hash(key), bits) + k) % Pow2(bits)]
    }

    /** Of several pairs with the same key it is the one that comes first in the key's window. */
    lemma FoundIsFirst(key: string) returns (j: nat)
      requires Valid() && Found(key).Some?
      ensures j < maxBucket && At(key, j) == Full(hash(key), key, Found(key).value)
      ensures forall x :: 0 <= x < j ==> !(At(key, x).Full? && At(key, x).key == key)
    {
      hide Walk, Pow2, Slot, Lookup, Pairs, Reaches;
      var slot, es := Slot(hash(key), bits), Table();
      LookupFinds(es, slot, maxBucket, hash(key), key, 0);
      j := LookupFirst(es, slot, maxBucket, hash(key), key, 0);
      forall x | 0 <= x <= j
        ensures At(key, x) == es[Walk(slot, x, |es|)]
      {
        WalkIs(slot, x, |es|);
      }
    }

    /** The loop that `pk_dict_find` and `pk_dict_rm` share, with the check for an empty table. */
    method Probe(key: string) returns (k: Option<nat>)
      requires Valid()
      ensures k.None? ==> Found(key) == None
      ensures k.Some? ==> k.value < Pow2(bits) && k.value < entries.Length && entries[k.value].Full?
                          && entries[k.value] == Full(hash(key), key, entries[k.value].val)
                          && Found(key) == Some(entries[k.value].val)
    {
      hide Placed, Reaches, Slot, Pairs;
      var m3 := hash(key);
      var size, slot := Pow2(bits), Slot(m3, bits);
      ghost var es := Table();
      LookupFinds(es, slot, maxBucket, m3, key, 0);
      if count == 0 {
        EmptyTable(es);
        return None;
      }
      var p, i := slot, 0;
      while i < maxBucket
        invariant i <= maxBucket && p < size && p == Walk(slot, i, size)
        invariant Lookup(es, slot, maxBucket, m3, key, 0) == Lookup(es, slot, maxBucket, m3, key, i)
      {
        if entries[p].Full? && entries[p].m3 == m3 && entries[p].key == key {
          return Some(p);
        }
        i := i + 1;
        p := if p + 1 >= size then 0 else p + 1;
      }
      return None;
    }

    /** `pk_dict_find` */
    method Find(key: string) returns (v: Option<V>)
      requires Valid()
      ensures v == Found(key)
      ensures v.None? <==> forall e :: e in Contents() ==> e.Full? && e.key != key
      ensures v.Some? ==> Full(hash(key), key, v.value) in Contents()
    {
      var k := Probe(key);
      FoundIsThere(key);
      v := if k.Some? then Some(entries[k.value].val) else None;
    }

    lemma EmptyTable(es: seq<Entry<V>>)
      requires |Pairs(es)| == 0
      ensures forall k :: 0 <= k < |es| ==> es[k] == Empty
    {
      forall k | 0 <= k < |es|
        ensures es[k] == Empty
      {
        if es[k].Full? {
          PairsAt(es, es[k]);
        }
      }
    }

    /** Why a table of 2 to the b slots could not take over all pairs: it may not be that large,
        there was no memory, or the pairs `partly` left no place for e. */
    ghost predicate NoTable(b: nat, n: nat, memory: bool, partly: seq<Entry<V>>, e: Entry<V>,
                            pairs: multiset<Entry<V>>) {
      b > maxBits || (b > 23 && Pow2(b) > 3 * n) || !memory || Jammed(partly, b, e, pairs)
    }

    /** `pk_dict_add`: one more pair, in a table of the same size if the window of the key has room
        and of twice the size otherwise; or the same pairs as before, if the key could not be
        copied, or if the window is full and the larger table cannot be had, or has no room either.
        `memory` and `again` are what the allocator says to one and the other resize. */
    method Add(key: string, val: V, copied: bool, memory: bool, again: bool)
      returns (added: bool, ghost partly: seq<Entry<V>>, ghost e: Entry<V>)
      requires Valid()
      modifies this, entries
      ensures Valid()
      ensures Contents() == if added then old(Contents()) + multiset{Full(hash(key), key, val)} else old(Contents())
      ensures copied && old(HasRoom(hash(key))) ==> added && entries == old(entries) && bits == old(bits)
      ensures added ==> copied && bits == old(bits) + if old(HasRoom(hash(key))) then 0 else 1
      ensures copied && !added ==>
                && !old(HasRoom(hash(key)))
                && (|| NoTable(old(bits) + 1, old(count), memory, partly, e, old(Contents()))
                    || (e == Full(hash(key), key, val) && Pairs(partly) == old(Contents())
                        && Placed(partly, old(bits) + 1) && Crowded(partly, old(bits) + 1, e.m3)))
    {
      hide Walk, Pow2, Slot, Pairs, Placed, HasRoom, Crowded, NoTable;
      partly, e := [], Empty;
      if !copied {
        return false, partly, e;
      }
      added := AddTo(hash(key), key, val);
      if !added {
        ghost var last, f;
        added, partly, e, last, f := GrowAndAdd(key, val, memory, again);
      }
    }

    /** The rest of the loop of `pk_dict_add`, whose second try may end in one more resize. */
    method GrowAndAdd(key: string, val: V, memory: bool, again: bool)
      returns (added: bool, ghost partly: seq<Entry<V>>, ghost e: Entry<V>,
               ghost last: seq<Entry<V>>, ghost f: Entry<V>)
      requires Valid()
      modifies this
      ensures Valid()
      ensures Contents() == if added then old(Contents()) + multiset{Full(hash(key), key, val)} else old(Contents())
      ensures added ==> bits == old(bits) + 1
      ensures !added ==>
                || bits == old(bits) || bits == old(bits) + 2
                || (bits == old(bits) + 1 && NoTable(old(bits) + 2, old(count), again, last, f, old(Contents())))
      ensures !added ==>
                || NoTable(old(bits) + 1, old(count), memory, partly, e, old(Contents()))
                || (e == Full(hash(key), key, val) && Pairs(partly) == old(Contents())
                    && Placed(partly, old(bits) + 1) && Crowded(partly, old(bits) + 1, e.m3))
    {
      hide Walk, Pow2, Slot, Pairs, Placed, Jammed, Crowded;
      var resized;
      resized, partly, e := Resize(bits + 1, memory);
      if !resized {
        return false, partly, e, [], Empty;
      }
      partly, e, last, f := Table(), Full(hash(key), key, val), [], Empty;
      added := AddTo(hash(key), key, val);
      if !added {
        NoRoomIsCrowded(e.m3);
        var more;
        more, last, f := Resize(bits + 1, again);
      }
    }

    /** `pk_dict_rm`: takes out exactly the pair that `Find` would have returned. */
    method Remove(key: string, memory: bool) returns (v: Option<V>, ghost partly: seq<Entry<V>>, ghost e: Entry<V>)
      requires Valid()
      modifies this, entries
      ensures Valid() && v == old(Found(key))
      ensures v.None? <==> forall e :: e in old(Contents()) ==> e.Full? && e.key != key
      ensures v.Some? ==> Full(hash(key), key, v.value) in old(Contents())
                          && Contents() == old(Contents()) - multiset{Full(hash(key), key, v.value)}
      ensures v.None? ==> Contents() == old(Contents()) && Table() == old(Table())
      ensures v.Some? ==> ShrunkFrom(old(bits), old(shrinkAt), old(count) - 1, memory, partly, e)
    {
      hide Walk, Pow2, Slot, Pairs, Placed, Found, Contents, ShrunkFrom;
      partly, e := [], Empty;
      var k := Probe(key);
      FoundIsThere(key);
      if k.None? {
        return None, partly, e;
      }
      v := Some(entries[k.value].val);
      Clear(k.value);
      partly, e := Shrink(memory);
    }

    /** A table with more than 2 to the 16 slots and fewer pairs than its mark is halved, unless no
        smaller table can be had; then the mark goes down by a fifth. Any other stays as it is. */
    ghost predicate ShrunkFrom(b: nat, mark: nat, n: nat, memory: bool, partly: seq<Entry<V>>, e: Entry<V>)
      reads this, entries
    {
      if b > 16 && mark > n then
        || bits == b - 1
        || (bits == b && shrinkAt == mark - mark / 5 && NoTable(b - 1, n, memory, partly, e, Contents()))
      else bits == b && shrinkAt == mark
    }

    /** Empties slot k. There are no tombstones: probes do not stop at free slots. */
    method Clear(k: nat)
      requires Valid() && k < Pow2(bits) && entries[k].Full?
      modifies this`count, entries
      ensures Valid() && Contents() == old(Contents()) - multiset{old(entries[k])}
    {
      hide Walk, Pow2, Slot, Pairs, Reaches;
      ghost var was := Table();
      PairsClear(was, k);
      entries[k] := Empty;
      count := count - 1;
      assert Table() == was[k := Empty];
    }

    /** After a removal: halve a table that is mostly empty, or, if that fails, put the next try off. */
    method Shrink(memory: bool) returns (ghost partly: seq<Entry<V>>, ghost e: Entry<V>)
      requires Valid()
      modifies this
      ensures Valid() && Contents() == old(Contents())
      ensures ShrunkFrom(old(bits), old(shrinkAt), old(count), memory, partly, e)
      ensures bits == old(bits) ==> Table() == old(Table())
    {
      hide Walk, Pow2, Slot, Pairs, Placed, Jammed;
      partly, e := [], Empty;
      if bits > 16 && shrinkAt > count {
        var resized;
        resized, partly, e := Resize(bits - 1, memory);
        if !resized {
          shrinkAt := shrinkAt - shrinkAt / 5;
        }
      }
    }
  }

  /** The i-th slot after this one, around the end. */
  lemma {:induction false} WalkIs(slot: nat, i: nat, size: nat)
    requires slot < size
    ensures Walk(slot, i, size) == (slot + i) % size
  {
    if i > 0 {
      WalkIs(slot, i - 1, size);
      Wrap(slot + i - 1, size);
    }
  }

  lemma Wrap(n: nat, size: nat)
    requires 0 < size
    ensures (n + 1) % size == if n % size + 1 == size then 0 else n % size + 1
  {
    var q, r := n / size, n % size;
    if r + 1 < size {
      Modulo(n + 1, q, r + 1, size);
    } else {
      Modulo(n + 1, q + 1, 0, size);
    }
  }

  lemma Times(a: nat, b: nat, size: nat)
    requires a <= b
    ensures a * size <= b * size
  {
  }

  lemma Modulo(v: nat, q: nat, r: nat, size: nat)
    requires v == q * size + r && r < size
    ensures v % size == r
  {
    var d := v / size;
    assert v == d * size + v % size;
    if d < q {
      Times(d + 1, q, size);
    } else if d > q {
      Times(q + 1, d, size);
    }
  }

  /** A table has 1024 slots first, and each size is twice the one before. */
  lemma TableSizes(b: nat)
    ensures Pow2(10) == 1024 && Pow2(b + 1) == 2 * Pow2(b)
  {
    assert Pow2(5) == 32 && Pow2(10) == 32 * Pow2(5);
  }

  lemma {:induction false} PowMonotone(a: nat, b: nat)
    requires a <= b
    ensures Pow2(a) <= Pow2(b)
  {
    if a < b {
      PowMonotone(a, b - 1);
    }
  }
}
