/** bio.c: the buffer cache over a disk. Processes interleave between the calls below, each of which
    is atomic: bget takes a reference under the cache's lock, Acquire is the moment its sleep-lock is
    granted, Fill the rest of bread. `current` is the plain block map that the cache must agree with:
    what was last given to log_write or bwrite.
 */
module BufferCache {
  import opened Basics
  import opened FsBytes
  import opened CacheList
  import opened Params

  datatype Key = Key(dev: nat, bno: nat)

  datatype Buf = Buf(key: Key, valid: bool, refcnt: nat, data: Block)

  datatype BgetResult = Found(b: nat) | NoBuffers

  /** No two buffers cache the same block. (All of them start out with key (0, 0).) */
  ghost predicate UniqueKeys(bufs: seq<Buf>) {
    forall i, j | 0 <= i < j < |bufs| && bufs[i].key.dev != 0 :: bufs[i].key != bufs[j].key
  }

  /** Most recently released first. */
  ghost predicate ByRecency(order: seq<nat>, stamp: seq<nat>, clock: nat) {
    && (forall i | 0 <= i < |order| :: order[i] < |stamp| && stamp[order[i]] < clock)
    && (forall i, j | 0 <= i < j < |order| :: stamp[order[i]] > stamp[order[j]])
  }

  /** References: processes that use the buffer or wait for it, and the log's pin. */
  predicate CountOk(buf: Buf, refs: nat, pins: nat, locked: bool, dirty: bool) {
    buf.refcnt == refs + pins && (locked ==> refs > 0) && (dirty ==> locked && buf.valid)
  }

  /** A valid buffer holds what its block should read as, unless its holder is changing it. */
  predicate DataOk(buf: Buf, dirty: bool, current: map<Key, Block>) {
    buf.valid && buf.key.dev != 0 ==> buf.key in current && (!dirty ==> buf.data == current[buf.key])
  }

  /** Block k is newer than the disk's copy: then it is in a pinned buffer. */
  predicate PinnedOk(bufs: seq<Buf>, pins: seq<nat>, k: Key, b: nat) {
    b < |bufs| == |pins| && bufs[b].key == k && bufs[b].valid && pins[b] > 0 && k.dev != 0
  }

  ghost predicate Counts(bufs: seq<Buf>, refs: seq<nat>, pins: seq<nat>, locked: seq<bool>, dirty: seq<bool>) {
    && |bufs| == |locked| == |refs| == |pins| == |dirty|
    && (forall b: nat | b < |bufs| :: CountOk(bufs[b], refs[b], pins[b], locked[b], dirty[b]))
  }

  /** The cache agrees with the plain block map. */
  ghost predicate Agree(bufs: seq<Buf>, pins: seq<nat>, dirty: seq<bool>, disk: map<Key, Block>, current: map<Key, Block>,
                        unsynced: map<Key, nat>) {
    && |bufs| == |dirty| == |pins| && UniqueKeys(bufs) && disk.Keys == current.Keys
    && (forall b: nat | b < |bufs| :: DataOk(bufs[b], dirty[b], current))
    && (forall k | k in unsynced :: PinnedOk(bufs, pins, k, unsynced[k]))
    && (forall k | k in disk && k !in unsynced :: disk[k] == current[k])
  }

  // --- what each step does to that agreement ---

  lemma AgreeCount(bufs: seq<Buf>, pins: seq<nat>, dirty: seq<bool>, disk: map<Key, Block>, current: map<Key, Block>,
                   unsynced: map<Key, nat>, b: nat, refcnt: nat, p: nat)
    requires Agree(bufs, pins, dirty, disk, current, unsynced) && b < |bufs|
    requires p > 0 || p == pins[b] || bufs[b].key !in unsynced
    ensures Agree(bufs[b := bufs[b].(refcnt := refcnt)], pins[b := p], dirty, disk, current, unsynced)
  {
    var bufs', pins' := bufs[b := bufs[b].(refcnt := refcnt)], pins[b := p];
    forall c: nat | c < |bufs'|
      ensures DataOk(bufs'[c], dirty[c], current)
    {
      assert DataOk(bufs[c], dirty[c], current);
    }
    forall k | k in unsynced
      ensures PinnedOk(bufs', pins', k, unsynced[k])
    {
      assert PinnedOk(bufs, pins, k, unsynced[k]);
    }
  }

  /** Reusing an unpinned buffer for a block that is not cached. */
  lemma AgreeRecycle(bufs: seq<Buf>, pins: seq<nat>, dirty: seq<bool>, disk: map<Key, Block>, current: map<Key, Block>,
                     unsynced: map<Key, nat>, b: nat, key: Key)
    requires Agree(bufs, pins, dirty, disk, current, unsynced) && b < |bufs| && pins[b] == 0
    requires forall c: nat | c < |bufs| :: bufs[c].key != key
    ensures Agree(bufs[b := bufs[b].(key := key, valid := false, refcnt := 1)], pins, dirty, disk, current, unsynced)
  {
    var bufs' := bufs[b := bufs[b].(key := key, valid := false, refcnt := 1)];
    forall c: nat | c < |bufs'|
      ensures DataOk(bufs'[c], dirty[c], current)
    {
      assert DataOk(bufs[c], dirty[c], current);
    }
    forall k | k in unsynced
      ensures PinnedOk(bufs', pins, k, unsynced[k])
    {
      assert PinnedOk(bufs, pins, k, unsynced[k]);
    }
  }

  /** Reading an invalid buffer's block from the disk: the disk is up to date, or the block would
      be in a valid pinned buffer. */
  lemma AgreeFill(bufs: seq<Buf>, pins: seq<nat>, dirty: seq<bool>, disk: map<Key, Block>, current: map<Key, Block>,
                  unsynced: map<Key, nat>, b: nat)
    requires Agree(bufs, pins, dirty, disk, current, unsynced) && b < |bufs| && !bufs[b].valid && bufs[b].key in disk
    requires bufs[b].key.dev != 0
    ensures disk[bufs[b].key] == current[bufs[b].key]
    ensures Agree(bufs[b := bufs[b].(data := disk[bufs[b].key], valid := true)], pins, dirty, disk, current, unsynced)
  {
    var key := bufs[b].key;
    var bufs' := bufs[b := bufs[b].(data := disk[key], valid := true)];
    assert key in unsynced ==> PinnedOk(bufs, pins, key, unsynced[key]);
    forall c: nat | c < |bufs'|
      ensures DataOk(bufs'[c], dirty[c], current)
    {
      assert DataOk(bufs[c], dirty[c], current);
    }
    forall k | k in unsynced
      ensures PinnedOk(bufs', pins, k, unsynced[k])
    {
      assert PinnedOk(bufs, pins, k, unsynced[k]);
    }
  }

  lemma AgreeModify(bufs: seq<Buf>, pins: seq<nat>, dirty: seq<bool>, disk: map<Key, Block>, current: map<Key, Block>,
                    unsynced: map<Key, nat>, b: nat, data: Block)
    requires Agree(bufs, pins, dirty, disk, current, unsynced) && b < |bufs|
    ensures Agree(bufs[b := bufs[b].(data := data)], pins, dirty[b := true], disk, current, unsynced)
  {
    var bufs' := bufs[b := bufs[b].(data := data)];
    forall c: nat | c < |bufs'|
      ensures DataOk(bufs'[c], dirty[b := true][c], current)
    {
      assert DataOk(bufs[c], dirty[c], current);
    }
    forall k | k in unsynced
      ensures PinnedOk(bufs', pins, k, unsynced[k])
    {
      assert PinnedOk(bufs, pins, k, unsynced[k]);
    }
  }

  /** Buffer b's data become its block's contents; on the disk too, or else b is pinned. */
  lemma AgreePublish(bufs: seq<Buf>, pins: seq<nat>, dirty: seq<bool>, disk: map<Key, Block>, current: map<Key, Block>,
                     unsynced: map<Key, nat>, b: nat, onDisk: bool)
    requires Agree(bufs, pins, dirty, disk, current, unsynced) && b < |bufs| && bufs[b].valid && bufs[b].key.dev != 0
    requires onDisk || pins[b] > 0
    ensures var key := bufs[b].key;
            Agree(bufs, pins, dirty[b := false], if onDisk then disk[key := bufs[b].data] else disk,
                  current[key := bufs[b].data], if onDisk then unsynced - {key} else unsynced[key := b])
  {
    var key := bufs[b].key;
    var current', dirty' := current[key := bufs[b].data], dirty[b := false];
    var unsynced' := if onDisk then unsynced - {key} else unsynced[key := b];
    var disk' := if onDisk then disk[key := bufs[b].data] else disk;
    assert DataOk(bufs[b], dirty[b], current);
    assert current'.Keys == current.Keys && disk'.Keys == disk.Keys;
    forall c: nat | c < |bufs|
      ensures DataOk(bufs[c], dirty'[c], current')
    {
      assert DataOk(bufs[c], dirty[c], current);
    }
    forall k | k in unsynced'
      ensures PinnedOk(bufs, pins, k, unsynced'[k])
    {
      assert k in unsynced ==> PinnedOk(bufs, pins, k, unsynced[k]);
    }
  }

  /** binit: every buffer pushed in turn onto the empty ring */
  method BuildRing(n: nat) returns (next: seq<nat>, prev: seq<nat>, ghost order: seq<nat>)
    ensures Ring(next, prev, order, n) && |order| == n && forall i: nat | i < n :: order[i] == n - 1 - i
  {
    next, prev, order := seq(n + 1, _ => n), seq(n + 1, _ => n), [];
    assert LinkOk(next, prev, order, n, 0);
    var b := 0;
    while b < n
      invariant 0 <= b <= n && |order| == b && Ring(next, prev, order, n)
      invariant forall i: nat | i < b :: order[i] == b - 1 - i
    {
      Pushed(next, prev, order, n, b);
      var first := next[n];
      next := next[b := first];
      prev := prev[b := n];
      prev := prev[first := b];
      next := next[n := b];
      order := [b] + order;
      b := b + 1;
    }
  }

  class Cache {
    const n: nat := NBUF
    var next: seq<nat>
    var prev: seq<nat>
    var bufs: seq<Buf>
    var locked: seq<bool>
    var disk: map<Key, Block>
    ghost var order: seq<nat>
    ghost var stamp: seq<nat>
    ghost var clock: nat
    ghost var refs: seq<nat>
    ghost var pins: seq<nat>
    ghost var dirty: seq<bool>
    ghost var current: map<Key, Block>
    ghost var unsynced: map<Key, nat>

    ghost predicate ListOk()
      reads this`next, this`prev, this`order, this`stamp, this`clock
    {
      && Ring(next, prev, order, n) && |order| == |stamp| == n && ByRecency(order, stamp, clock)
      && (forall b: nat | b < n :: b in order)
    }

    ghost predicate CountsOk()
      reads this`bufs, this`locked, this`refs, this`pins, this`dirty
    {
      |bufs| == n && Counts(bufs, refs, pins, locked, dirty)
    }

    ghost predicate Agrees()
      reads this`bufs, this`pins, this`dirty, this`disk, this`current, this`unsynced
    {
      Agree(bufs, pins, dirty, disk, current, unsynced)
    }

    ghost predicate Valid()
      reads this
    {
      ListOk() && CountsOk() && Agrees()
    }

    constructor (disk: map<Key, Block>)
      ensures Valid() && this.disk == disk == current && unsynced == map[]
      ensures forall b: nat | b < n :: refs[b] == 0 && pins[b] == 0 && !locked[b]
    {
      var nx, pv, o := BuildRing(NBUF);
      next, prev := nx, pv;
      order, clock, stamp := o, NBUF, seq(NBUF, i => i);
      bufs, locked := seq(NBUF, _ => Buf(Key(0, 0), false, 0, ZERO_BLOCK)), seq(NBUF, _ => false);
      this.disk, current, unsynced := disk, disk, map[];
      refs, pins, dirty := seq(NBUF, _ => 0), seq(NBUF, _ => 0), seq(NBUF, _ => false);
      forall c: nat | c < NBUF
        ensures c in o
      {
        assert o[NBUF - 1 - c] == c;
      }
    }

    /** bget: a reference to the buffer of block k. One that has it already, else the least recently
        released of the unreferenced ones. */
    method Bget(k: Key) returns (r: BgetResult)
      requires Valid() && k.dev != 0
      modifies this`bufs, this`refs
      ensures Valid()
      ensures r.NoBuffers? <==> forall c: nat | c < n :: old(bufs)[c].key != k && old(bufs)[c].refcnt > 0
      ensures r.NoBuffers? ==> bufs == old(bufs) && refs == old(refs)
      ensures r.Found? ==> r.b < n && bufs[r.b].key == k && refs == old(refs)[r.b := old(refs)[r.b] + 1]
      ensures r.Found? ==> forall c: nat | c < n && c != r.b :: bufs[c] == old(bufs)[c]
      ensures r.Found? && old(bufs)[r.b].key == k ==>
                bufs[r.b].valid == old(bufs)[r.b].valid && bufs[r.b].data == old(bufs)[r.b].data
      ensures r.Found? && old(bufs)[r.b].key != k ==>
                && !bufs[r.b].valid && old(bufs)[r.b].refcnt == 0
                && forall c: nat | c < n && old(bufs)[c].refcnt == 0 :: stamp[r.b] <= stamp[c]
    {
      hide ListOk, Agree;
      var found, b := Search(k);
      if found {
        AgreeCount(bufs, pins, dirty, disk, current, unsynced, b, bufs[b].refcnt + 1, pins[b]);
        assert pins[b := pins[b]] == pins;
        bufs := bufs[b := bufs[b].(refcnt := bufs[b].refcnt + 1)];
        refs := refs[b := refs[b] + 1];
        return Found(b);
      }
      found, b := Unused();
      if found {
        assert CountOk(bufs[b], refs[b], pins[b], locked[b], dirty[b]);
        AgreeRecycle(bufs, pins, dirty, disk, current, unsynced, b, k);
        bufs := bufs[b := bufs[b].(key := k, valid := false, refcnt := 1)];
        refs := refs[b := 1];
        return Found(b);
      }
      return NoBuffers;
    }

    method Search(k: Key) returns (found: bool, b: nat)
      requires Valid()
      ensures found ==> b < n && bufs[b].key == k
      ensures !found ==> forall c: nat | c < n :: bufs[c].key != k
    {
      hide Agree, Counts, ByRecency;
      ghost var i := 0;
      Neighbours(next, prev, order, n, -1);
      Neighbours(next, prev, order, n, 0);
      b := next[n];
      while b != n
        invariant 0 <= i <= n && b == At(order, n, i) && |bufs| == n
        invariant forall j | 0 <= j < i :: bufs[order[j]].key != k
        decreases n - i
      {
        if bufs[b].key == k {
          return true, b;
        }
        Neighbours(next, prev, order, n, i);
        b := next[b];
        i := i + 1;
      }
      found := false;
      forall c: nat | c < n
        ensures bufs[c].key != k
      {
        assert c in order;
      }
    }

    method Unused() returns (found: bool, b: nat)
      requires Valid()
      ensures found ==> b < n && bufs[b].refcnt == 0
      ensures found ==> forall c: nat | c < n && bufs[c].refcnt == 0 :: stamp[b] <= stamp[c]
      ensures !found ==> forall c: nat | c < n :: bufs[c].refcnt > 0
    {
      hide Agree, Counts;
      ghost var i := n - 1;
      Neighbours(next, prev, order, n, n);
      b := prev[n];
      while b != n
        invariant -1 <= i < n && b == At(order, n, i)
        invariant forall j | i < j < n :: bufs[order[j]].refcnt > 0
        decreases i
      {
        if bufs[b].refcnt == 0 {
          forall c: nat | c < n && bufs[c].refcnt == 0
            ensures stamp[b] <= stamp[c]
          {
            assert c in order;
          }
          return true, b;
        }
        Neighbours(next, prev, order, n, i);
        b := prev[b];
        i := i - 1;
      }
      found := false;
      forall c: nat | c < n
        ensures bufs[c].refcnt > 0
      {
        assert c in order;
      }
    }

    /** The buffer's sleep-lock is granted to one of those that hold a reference. */
    method Acquire(b: nat)
      requires Valid() && b < n && refs[b] > 0 && !locked[b]
      modifies this`locked
      ensures Valid() && locked == old(locked)[b := true]
    {
      hide ListOk, Agree;
      locked := locked[b := true];
    }

    /** The rest of bread: the holder sees the block's current contents, committed or not. */
    method Fill(b: nat)
      requires Valid() && b < n && locked[b] && !dirty[b] && bufs[b].key.dev != 0 && bufs[b].key in disk
      modifies this`bufs
      ensures Valid() && bufs[b].valid && bufs[b].key == old(bufs)[b].key && bufs[b].data == current[bufs[b].key]
      ensures forall c: nat | c < n && c != b :: bufs[c] == old(bufs)[c]
    {
      hide ListOk, Agree;
      FilledAlready(b);
      if !bufs[b].valid {
        AgreeFill(bufs, pins, dirty, disk, current, unsynced, b);
        bufs := bufs[b := bufs[b].(data := disk[bufs[b].key], valid := true)];
      }
    }

    /** bread, when no one else holds the buffer: the block's last logged contents */
    method Bread(k: Key) returns (r: BgetResult)
      requires Valid() && k.dev != 0 && k in disk
      requires forall c: nat | c < n && bufs[c].key == k :: !locked[c]
      modifies this`bufs, this`refs, this`locked
      ensures Valid()
      ensures r.NoBuffers? <==> forall c: nat | c < n :: old(bufs)[c].key != k && old(bufs)[c].refcnt > 0
      ensures r.Found? ==> r.b < n && locked[r.b] && bufs[r.b].valid && bufs[r.b].key == k && bufs[r.b].data == current[k]
      ensures r.Found? ==> forall c: nat | c < n && c != r.b :: bufs[c] == old(bufs)[c] && locked[c] == old(locked)[c]
      ensures r.Found? ==> !old(locked)[r.b] && !dirty[r.b] && (old(bufs)[r.b].key == k || old(bufs)[r.b].refcnt == 0)
      ensures r.Found? ==> refs == old(refs)[r.b := old(refs)[r.b] + 1]
    {
      hide ListOk, Agree;
      r := Bget(k);
      if r.Found? {
        assert CountOk(old(bufs)[r.b], old(refs)[r.b], pins[r.b], locked[r.b], dirty[r.b]);
        Acquire(r.b);
        Fill(r.b);
      }
    }

    lemma FilledAlready(b: nat)
      requires Agrees() && b < |bufs| && !dirty[b] && bufs[b].key.dev != 0 && bufs[b].key in disk
      ensures bufs[b].key in current && (bufs[b].valid ==> bufs[b].data == current[bufs[b].key])
    {
      assert DataOk(bufs[b], dirty[b], current);
    }

    /** The holder changes the buffer's data. */
    method Modify(b: nat, data: Block)
      requires Valid() && b < n && locked[b] && bufs[b].valid
      modifies this`bufs, this`dirty
      ensures Valid() && bufs == old(bufs)[b := old(bufs)[b].(data := data)] && dirty == old(dirty)[b := true]
    {
      hide ListOk, Agree;
      AgreeModify(bufs, pins, dirty, disk, current, unsynced, b, data);
      bufs := bufs[b := bufs[b].(data := data)];
      dirty := dirty[b := true];
    }

    /** log_write's effect on the cache: the data become the block's current contents, and the
        buffer is pinned unless the log lists it already. */
    method LogWrite(b: nat, listed: bool)
      requires Valid() && b < n && locked[b] && bufs[b].valid && bufs[b].key.dev != 0
      requires listed ==> pins[b] > 0
      modifies this`bufs, this`pins, this`dirty, this`current, this`unsynced
      ensures Valid() && current == old(current)[bufs[b].key := old(bufs)[b].data] && !dirty[b]
      ensures bufs == if listed then old(bufs) else old(bufs)[b := old(bufs)[b].(refcnt := old(bufs)[b].refcnt + 1)]
      ensures pins == (if listed then old(pins) else old(pins)[b := old(pins)[b] + 1]) && pins[b] > 0
      ensures unsynced == old(unsynced)[bufs[b].key := b]
    {
      hide ListOk, Agree;
      if !listed {
        Bpin(b);
      }
      AgreePublish(bufs, pins, dirty, disk, current, unsynced, b, false);
      var k := bufs[b].key;
      current, unsynced, dirty := current[k := bufs[b].data], unsynced[k := b], dirty[b := false];
    }

    /** bwrite: the disk catches up. */
    method Bwrite(b: nat)
      requires Valid() && b < n && locked[b] && bufs[b].valid && bufs[b].key.dev != 0
      modifies this`disk, this`dirty, this`current, this`unsynced
      ensures Valid() && dirty == old(dirty)[b := false] && unsynced == old(unsynced) - {bufs[b].key}
      ensures disk == old(disk)[bufs[b].key := bufs[b].data] && current == old(current)[bufs[b].key := bufs[b].data]
    {
      hide ListOk, Agree;
      AgreePublish(bufs, pins, dirty, disk, current, unsynced, b, true);
      disk := disk[bufs[b].key := bufs[b].data];
      current, unsynced, dirty := current[bufs[b].key := bufs[b].data], unsynced - {bufs[b].key}, dirty[b := false];
    }

    method Bpin(b: nat)
      requires Valid() && b < n
      modifies this`bufs, this`pins
      ensures Valid() && pins == old(pins)[b := old(pins)[b] + 1]
      ensures bufs == old(bufs)[b := old(bufs)[b].(refcnt := old(bufs)[b].refcnt + 1)]
    {
      hide ListOk, Agree;
      AgreeCount(bufs, pins, dirty, disk, current, unsynced, b, bufs[b].refcnt + 1, pins[b] + 1);
      bufs := bufs[b := bufs[b].(refcnt := bufs[b].refcnt + 1)];
      pins := pins[b := pins[b] + 1];
    }

    /** bunpin, allowed once the block's contents are on the disk */
    method Bunpin(b: nat)
      requires Valid() && b < n && pins[b] > 0 && bufs[b].key !in unsynced
      modifies this`bufs, this`pins
      ensures Valid() && pins == old(pins)[b := old(pins)[b] - 1]
      ensures bufs == old(bufs)[b := old(bufs)[b].(refcnt := old(bufs)[b].refcnt - 1)]
    {
      hide ListOk, Agree;
      assert CountOk(bufs[b], refs[b], pins[b], locked[b], dirty[b]);
      AgreeCount(bufs, pins, dirty, disk, current, unsynced, b, bufs[b].refcnt - 1, pins[b] - 1);
      bufs := bufs[b := bufs[b].(refcnt := bufs[b].refcnt - 1)];
      pins := pins[b := pins[b] - 1];
    }

    /** brelse by a holder that has logged or written whatever it changed. A buffer no one refers
        to any more becomes the most recently released. */
    method Brelse(b: nat)
      requires Valid() && b < n && locked[b] && !dirty[b]
      modifies this`bufs, this`locked, this`refs, this`next, this`prev, this`order, this`stamp, this`clock
      ensures Valid() && locked == old(locked)[b := false] && refs == old(refs)[b := old(refs)[b] - 1]
      ensures bufs == old(bufs)[b := old(bufs)[b].(refcnt := old(bufs)[b].refcnt - 1)]
      ensures bufs[b].refcnt > 0 ==> order == old(order) && stamp == old(stamp)
      ensures bufs[b].refcnt == 0 ==> exists k: nat | k < n :: old(order)[k] == b && order == [b] + Without(old(order), k)
      ensures bufs[b].refcnt == 0 ==> stamp == old(stamp)[b := old(clock)]
    {
      hide ListOk, Agree;
      assert CountOk(bufs[b], refs[b], pins[b], locked[b], dirty[b]);
      AgreeCount(bufs, pins, dirty, disk, current, unsynced, b, bufs[b].refcnt - 1, pins[b]);
      assert pins[b := pins[b]] == pins;
      locked := locked[b := false];
      bufs := bufs[b := bufs[b].(refcnt := bufs[b].refcnt - 1)];
      refs := refs[b := refs[b] - 1];
      if bufs[b].refcnt == 0 {
        MoveToFront(b);
      }
    }

    method MoveToFront(b: nat)
      requires ListOk() && b < n
      modifies this`next, this`prev, this`order, this`stamp, this`clock
      ensures ListOk() && stamp == old(stamp)[b := old(clock)]
      ensures exists k: nat | k < n :: old(order)[k] == b && order == [b] + Without(old(order), k)
    {
      assert b in order;
      hide Ring, LinkOk, ByRecency, Without;
      ghost var k :| 0 <= k < n && order[k] == b;
      Distinct(next, prev, order, n);
      Refreshed(order, stamp, clock, n, k);
      UnlinkBuf(b, k);
      LinkFirst(b, Without(order, k));
      order, stamp, clock := [b] + Without(order, k), stamp[b := clock], clock + 1;
    }

    method UnlinkBuf(b: nat, ghost k: nat)
      requires Ring(next, prev, order, n) && k < |order| && order[k] == b
      modifies this`next, this`prev
      ensures Ring(next, prev, Without(order, k), n) && b < n && b !in Without(order, k)
    {
      hide LinkOk, Without;
      Unlinked(next, prev, order, n, k);
      NextIs(next, prev, order, n, k);
      prev := prev[next[b] := prev[b]];
      next := next[prev[b] := next[b]];
    }

    method LinkFirst(b: nat, ghost r: seq<nat>)
      requires Ring(next, prev, r, n) && b < n && b !in r
      modifies this`next, this`prev
      ensures Ring(next, prev, [b] + r, n)
    {
      hide LinkOk;
      Pushed(next, prev, r, n, b);
      var first := next[n];
      next := next[b := first];
      prev := prev[b := n];
      prev := prev[first := b];
      next := next[n := b];
    }
  }

  /** Moving a buffer to the front with a new stamp. */
  lemma Refreshed(order: seq<nat>, stamp: seq<nat>, clock: nat, n: nat, k: nat)
    requires k < |order| == |stamp| == n && ByRecency(order, stamp, clock)
    requires (forall i, j | 0 <= i < j < n :: order[i] != order[j]) && (forall b: nat | b < n :: b in order)
    ensures var r := [order[k]] + Without(order, k);
            && |r| == n && ByRecency(r, stamp[order[k] := clock], clock + 1)
            && forall b: nat | b < n :: b in r
  {
    var r := [order[k]] + Without(order, k);
    forall b: nat | b < n
      ensures b in r
    {
      assert b in order;
      var i :| 0 <= i < n && order[i] == b;
      assert r[if i == k then 0 else if i < k then i + 1 else i] == b;
    }
  }
}
