/** log.c running on bio.c. The buffer cache's contents of record are the view that the redo log's
    theorems speak of: log_write changes it, commit makes it durable through the cache, block by
    block, with exactly the specified writes. commit needs one buffer that no one refers to.
 */
module LoggedCache {
  import opened Basics
  import opened Params
  import opened Sets
  import opened FsBytes
  import opened BufferCache
  import R = RedoLog
  import L = LogDevice

  // --- blocks as words ---

  /** A block as the log's header structure sees it. */
  function Words(b: Block): (w: R.Block) {
    seq(NINDIRECT, i requires 0 <= i < NINDIRECT => Word(b, i))
  }

  lemma SetWords(b: Block, i: nat, w: nat)
    requires i < NINDIRECT && w < 0x1_0000_0000
    ensures Words(SetWord(b, i, w)) == Words(b)[i := w]
  {
    hide Word, SetWord;
    forall j: nat | j < NINDIRECT
      ensures Words(SetWord(b, i, w))[j] == Words(b)[i := w][j]
    {
      SetWordGet(b, i, w, j);
    }
  }

  function Read(m: map<Key, Block>, k: Key): (b: Block) {
    if k in m then m[k] else seq(BSIZE, _ => 0)
  }

  /** The blocks of a device, as the redo log's model of a disk. */
  function Image(m: map<Key, Block>, dev: nat, size: nat): (d: R.Disk)
    ensures |d| == size
  {
    seq(size, i requires 0 <= i < size => Words(Read(m, Key(dev, i))))
  }

  lemma ImageSet(m: map<Key, Block>, dev: nat, size: nat, k: nat, b: Block)
    requires k < size
    ensures Image(m[Key(dev, k) := b], dev, size) == Image(m, dev, size)[k := Words(b)]
  {
    hide Words;
  }

  lemma ImageAt(m: map<Key, Block>, dev: nat, size: nat, k: nat)
    requires k < size && Key(dev, k) in m
    ensures Image(m, dev, size)[k] == Words(m[Key(dev, k)])
  {
    hide Words;
  }

  // --- what the log relies on in the cache ---

  ghost predicate Mounted(disk: map<Key, Block>, dev: nat, size: nat) {
    forall i: nat | i < size :: Key(dev, i) in disk
  }

  /** Every listed block is in a valid pinned buffer. */
  ghost predicate Listed(bufs: seq<Buf>, pins: seq<nat>, dev: nat, lh: seq<nat>, at: map<nat, nat>) {
    forall b | b in lh :: b in at && PinnedOk(bufs, pins, Key(dev, b), at[b])
  }

  /** Only listed blocks are newer than the disk. */
  ghost predicate Synced(unsynced: map<Key, nat>, dev: nat, size: nat, lh: seq<nat>) {
    forall i: nat | i < size && Key(dev, i) in unsynced :: i in lh
  }

  predicate Unused(refs: seq<nat>, pins: seq<nat>, x: nat) {
    x < |refs| == |pins| && refs[x] == 0 && pins[x] == 0
  }

  /** Some buffer can be recycled. */
  ghost predicate Spare(refs: seq<nat>, pins: seq<nat>) {
    exists x: nat :: Unused(refs, pins, x)
  }

  /** No one refers to a buffer of a log block. */
  ghost predicate LogIdle(bufs: seq<Buf>, refs: seq<nat>, pins: seq<nat>, dev: nat, start: nat) {
    forall x: nat | x < |bufs| && bufs[x].key.dev == dev && R.InLog(start, bufs[x].key.bno) :: Unused(refs, pins, x)
  }

  ghost predicate HomeFree(bufs: seq<Buf>, locked: seq<bool>, dev: nat, lh: seq<nat>) {
    forall x: nat | x < |bufs| == |locked| && bufs[x].key.dev == dev && bufs[x].key.bno in lh :: !locked[x]
  }

  /** Buffers keep their blocks, but one that was unused may have been given log block lg. */
  ghost predicate Kept(bufs: seq<Buf>, bufs': seq<Buf>, refs: seq<nat>, pins: seq<nat>, lg: Key) {
    && |bufs'| == |bufs|
    && forall x: nat | x < |bufs| ::
         && (bufs'[x].key == bufs[x].key || (Unused(refs, pins, x) && bufs'[x].key == lg))
         && (bufs[x].valid && !Unused(refs, pins, x) ==> bufs'[x].valid)
  }

  lemma KeptOn(bufs: seq<Buf>, bufs1: seq<Buf>, bufs2: seq<Buf>, refs: seq<nat>, pins: seq<nat>, lg: Key)
    requires Kept(bufs, bufs1, refs, pins, lg) && |bufs2| == |bufs1|
    requires forall x: nat | x < |bufs1| :: bufs2[x].key == bufs1[x].key && bufs2[x].valid == bufs1[x].valid
    ensures Kept(bufs, bufs2, refs, pins, lg)
  {
  }

  lemma LogIdleKept(bufs: seq<Buf>, bufs': seq<Buf>, refs: seq<nat>, pins: seq<nat>, pins': seq<nat>, lg: Key, dev: nat, start: nat)
    requires Kept(bufs, bufs', refs, pins, lg) && LogIdle(bufs, refs, pins, dev, start) && |pins'| == |pins|
    requires forall x: nat | x < |pins| :: pins'[x] <= pins[x]
    ensures LogIdle(bufs', refs, pins', dev, start)
  {
    forall x: nat | x < |bufs'| && bufs'[x].key.dev == dev && R.InLog(start, bufs'[x].key.bno)
      ensures Unused(refs, pins', x)
    {
      assert Unused(refs, pins, x);
    }
  }

  lemma HomeFreeKept(bufs: seq<Buf>, bufs': seq<Buf>, refs: seq<nat>, pins: seq<nat>, lg: Key, locked: seq<bool>, dev: nat, lh: seq<nat>)
    requires Kept(bufs, bufs', refs, pins, lg) && HomeFree(bufs, locked, dev, lh) && lg.dev == dev && lg.bno !in lh
    ensures HomeFree(bufs', locked, dev, lh)
  {
  }

  lemma SpareKept(refs: seq<nat>, pins: seq<nat>, pins': seq<nat>)
    requires Spare(refs, pins) && |pins'| == |pins| && forall x: nat | x < |pins| :: pins'[x] <= pins[x]
    ensures Spare(refs, pins')
  {
    var x: nat :| Unused(refs, pins, x);
    assert Unused(refs, pins', x);
  }

  lemma ListedKept(bufs: seq<Buf>, bufs': seq<Buf>, refs: seq<nat>, pins: seq<nat>, pins': seq<nat>, lg: Key, dev: nat,
                   lh: seq<nat>, lh': seq<nat>, at: map<nat, nat>)
    requires Kept(bufs, bufs', refs, pins, lg) && Listed(bufs, pins, dev, lh, at) && |pins'| == |pins|
    requires forall b | b in lh' :: b in lh && (b in at && at[b] < |pins| ==> pins'[at[b]] == pins[at[b]])
    ensures Listed(bufs', pins', dev, lh', at)
  {
    forall b | b in lh'
      ensures b in at && PinnedOk(bufs', pins', Key(dev, b), at[b])
    {
      assert PinnedOk(bufs, pins, Key(dev, b), at[b]);
    }
  }

  /** The view of the redo log: the disk, overlaid with the listed blocks. */
  ghost function View(disk: R.Disk, record: R.Disk, lh: seq<nat>): (v: R.Disk)
    requires |record| == |disk|
  {
    R.Overlay(disk, map b | b in lh && b < |record| :: record[b])
  }

  /** What the cache holds as contents of record is that view. */
  lemma RecordIsView(c: Cache, dev: nat, size: nat, lh: seq<nat>)
    requires c.Agrees() && Synced(c.unsynced, dev, size, lh) && Mounted(c.disk, dev, size)
    ensures Image(c.current, dev, size) == View(Image(c.disk, dev, size), Image(c.current, dev, size), lh)
  {
    hide Words;
    forall i: nat | i < size && i !in lh
      ensures c.disk[Key(dev, i)] == c.current[Key(dev, i)]
    {
      assert Key(dev, i) !in c.unsynced;
    }
  }

  // --- two blocks at a time ---

  lemma CountAt(c: Cache, x: nat)
    requires c.Valid() && x < c.n
    ensures c.bufs[x].refcnt == c.refs[x] + c.pins[x] && (c.locked[x] ==> c.refs[x] > 0) && (c.dirty[x] ==> c.locked[x])
    ensures c.bufs[x].refcnt == 0 <==> Unused(c.refs, c.pins, x)
  {
    assert CountOk(c.bufs[x], c.refs[x], c.pins[x], c.locked[x], c.dirty[x]);
  }

  lemma OneBuffer(c: Cache, x: nat, y: nat)
    requires c.Valid() && x < c.n && y < c.n && c.bufs[x].key == c.bufs[y].key && c.bufs[x].key.dev != 0
    ensures x == y
  {
  }

  lemma Sizes(c: Cache)
    requires c.Valid()
    ensures |c.bufs| == |c.locked| == |c.refs| == |c.pins| == |c.dirty| == c.n && c.disk.Keys == c.current.Keys
  {
  }

  /** bread of a log block, then of a home block that is pinned in buffer x. */
  method ReadPair(c: Cache, lg: Key, home: Key, ghost x: nat) returns (ok: bool, lb: nat, hb: nat)
    requires c.Valid() && lg.dev != 0 && home.dev != 0 && lg != home && lg in c.disk && home in c.disk
    requires PinnedOk(c.bufs, c.pins, home, x) && x < c.n && !c.locked[x]
    requires forall y: nat | y < c.n && c.bufs[y].key == lg :: Unused(c.refs, c.pins, y)
    modifies c`bufs, c`refs, c`locked
    ensures c.Valid() && (ok <==> Spare(old(c.refs), c.pins))
    ensures ok ==> lb < c.n && hb == x && lb != hb && c.locked == old(c.locked)[lb := true][hb := true]
    ensures ok ==> !old(c.locked)[lb] && !c.dirty[lb] && !c.dirty[hb] && Unused(old(c.refs), c.pins, lb)
    ensures ok ==> c.refs == old(c.refs)[lb := old(c.refs)[lb] + 1][hb := old(c.refs)[hb] + 1]
    ensures ok ==> && c.bufs[lb].valid && c.bufs[lb].key == lg && c.bufs[lb].data == c.current[lg]
                   && c.bufs[hb].valid && c.bufs[hb].key == home && c.bufs[hb].data == c.current[home]
    ensures ok ==> Kept(old(c.bufs), c.bufs, old(c.refs), c.pins, lg)
  {
    hide Cache.Valid;
    Sizes(c);
    forall y: nat | y < c.n
      ensures c.bufs[y].refcnt == 0 <==> Unused(c.refs, c.pins, y)
      ensures c.bufs[y].key == lg ==> !c.locked[y]
    {
      CountAt(c, y);
    }
    var r := c.Bread(lg);
    Sizes(c);
    if r == NoBuffers {
      return false, 0, 0;
    }
    ok, lb := true, r.b;
    assert Unused(old(c.refs), c.pins, lb) && lb != x;
    forall y: nat | y < c.n && c.bufs[y].key == home
      ensures y == x
    {
      OneBuffer(c, x, y);
    }
    var s := c.Bread(home);
    Sizes(c);
    OneBuffer(c, x, s.b);
    hb := s.b;
  }

  lemma PinnedAt(bufs: seq<Buf>, pins: seq<nat>, k: Key, x: nat)
    requires PinnedOk(bufs, pins, k, x)
    ensures x < |bufs| == |pins| && pins[x] > 0
  {
  }

  /** memmove into a held buffer, then bwrite. */
  method WriteOut(c: Cache, b: nat, data: Block)
    requires c.Valid() && b < c.n && c.locked[b] && c.bufs[b].valid && c.bufs[b].key.dev != 0 && !c.dirty[b]
    modifies c`bufs, c`dirty, c`disk, c`current, c`unsynced
    ensures c.Valid() && c.bufs == old(c.bufs)[b := old(c.bufs)[b].(data := data)] && c.dirty == old(c.dirty)
    ensures c.disk == old(c.disk)[old(c.bufs)[b].key := data] && c.current == old(c.current)[old(c.bufs)[b].key := data]
    ensures c.unsynced == old(c.unsynced) - {old(c.bufs)[b].key}
  {
    hide Cache.Valid;
    Sizes(c);
    c.Modify(b, data);
    c.Bwrite(b);
    assert c.dirty == old(c.dirty);
  }

  method Release(c: Cache, a: nat, b: nat)
    requires c.Valid() && a < c.n && b < c.n && a != b && c.locked[a] && c.locked[b] && !c.dirty[a] && !c.dirty[b]
    modifies c`bufs, c`locked, c`refs, c`next, c`prev, c`order, c`stamp, c`clock
    ensures c.Valid() && c.locked == old(c.locked)[a := false][b := false]
    ensures old(c.refs)[a] > 0 && old(c.refs)[b] > 0
    ensures c.refs == old(c.refs)[a := old(c.refs)[a] - 1][b := old(c.refs)[b] - 1]
    ensures |c.bufs| == |old(c.bufs)|
    ensures forall x: nat | x < |c.bufs| :: c.bufs[x].key == old(c.bufs)[x].key && c.bufs[x].valid == old(c.bufs)[x].valid
  {
    hide Cache.Valid;
    Sizes(c);
    CountAt(c, a);
    CountAt(c, b);
    c.Brelse(a);
    c.Brelse(b);
  }

  /** bread of a log block alone. */
  method ReadLog(c: Cache, lg: Key) returns (ok: bool, b: nat)
    requires c.Valid() && lg.dev != 0 && lg in c.disk
    requires forall y: nat | y < c.n && c.bufs[y].key == lg :: Unused(c.refs, c.pins, y)
    modifies c`bufs, c`refs, c`locked
    ensures c.Valid() && (ok <==> Spare(old(c.refs), c.pins))
    ensures ok ==> b < c.n && c.locked == old(c.locked)[b := true] && !old(c.locked)[b] && !c.dirty[b]
    ensures ok ==> c.refs == old(c.refs)[b := old(c.refs)[b] + 1]
    ensures ok ==> c.bufs[b].valid && c.bufs[b].key == lg && c.bufs[b].data == c.current[lg]
    ensures ok ==> Kept(old(c.bufs), c.bufs, old(c.refs), c.pins, lg)
  {
    hide Cache.Valid;
    Sizes(c);
    forall y: nat | y < c.n
      ensures c.bufs[y].refcnt == 0 <==> Unused(c.refs, c.pins, y)
      ensures c.bufs[y].key == lg ==> !c.locked[y]
    {
      CountAt(c, y);
    }
    var r := c.Bread(lg);
    Sizes(c);
    if r == NoBuffers {
      return false, 0;
    }
    ok, b := true, r.b;
    assert Unused(old(c.refs), c.pins, b);
  }

  method ReleaseOne(c: Cache, b: nat)
    requires c.Valid() && b < c.n && c.locked[b] && !c.dirty[b]
    modifies c`bufs, c`locked, c`refs, c`next, c`prev, c`order, c`stamp, c`clock
    ensures c.Valid() && c.locked == old(c.locked)[b := false]
    ensures old(c.refs)[b] > 0 && c.refs == old(c.refs)[b := old(c.refs)[b] - 1] && |c.bufs| == |old(c.bufs)|
    ensures forall x: nat | x < |c.bufs| :: c.bufs[x].key == old(c.bufs)[x].key && c.bufs[x].valid == old(c.bufs)[x].valid
  {
    hide Cache.Valid;
    Sizes(c);
    CountAt(c, b);
    c.Brelse(b);
  }

  /** The header's words: n, then the block numbers; the rest of the block is kept. */
  method HeadBytes(old_: Block, lh: seq<nat>) returns (hb: Block)
    requires |lh| <= LOGBLOCKS && forall i | 0 <= i < |lh| :: lh[i] < 0x1_0000_0000
    ensures Words(hb) == R.HeadImage(Words(old_), lh)
  {
    hide Word, SetWord, Words;
    SetWords(old_, 0, |lh|);
    hb := SetWord(old_, 0, |lh|);
    var i := 0;
    while i < |lh|
      invariant 0 <= i <= |lh| && Words(hb)[0] == |lh| && (forall j | 0 <= j < i :: Words(hb)[1 + j] == lh[j])
      invariant forall j | i < j < R.BWORDS :: Words(hb)[j] == Words(old_)[j]
    {
      SetWords(hb, 1 + i, lh[i]);
      hb := SetWord(hb, 1 + i, lh[i]);
      i := i + 1;
    }
  }

  /** write_log's turn: home block to log block. Panics exactly if no buffer is spare. */
  method CopyToLog(c: Cache, lg: Key, home: Key, ghost x: nat) returns (ok: bool)
    requires c.Valid() && lg.dev != 0 && home.dev != 0 && lg != home && lg in c.disk && home in c.disk
    requires PinnedOk(c.bufs, c.pins, home, x) && x < c.n && !c.locked[x]
    requires forall y: nat | y < c.n && c.bufs[y].key == lg :: Unused(c.refs, c.pins, y)
    modifies c
    ensures c.Valid() && (ok <==> Spare(old(c.refs), old(c.pins)))
    ensures ok ==> home in old(c.current) && c.disk == old(c.disk)[lg := old(c.current)[home]]
    ensures ok ==> c.current == old(c.current)[lg := old(c.current)[home]] && c.unsynced == old(c.unsynced) - {lg}
    ensures ok ==> c.refs == old(c.refs) && c.pins == old(c.pins) && c.locked == old(c.locked)
    ensures ok ==> Kept(old(c.bufs), c.bufs, old(c.refs), old(c.pins), lg)
  {
    hide Cache.Valid, Kept, Spare, Unused, PinnedOk;
    PinnedAt(c.bufs, c.pins, home, x);
    Sizes(c);
    var lb, hb;
    ok, lb, hb := ReadPair(c, lg, home, x);
    Sizes(c);
    ghost var read := c.bufs;
    if ok {
      WriteOut(c, lb, c.bufs[hb].data);
      Release(c, hb, lb);
      assert c.refs == old(c.refs) && c.locked == old(c.locked);
      KeptOn(old(c.bufs), read, c.bufs, old(c.refs), old(c.pins), lg);
    }
  }

  /** install_trans's turn outside recovery: log block to home block, which is then unpinned. */
  method CopyHome(c: Cache, lg: Key, home: Key, ghost x: nat) returns (ok: bool)
    requires c.Valid() && lg.dev != 0 && home.dev != 0 && lg != home && lg in c.disk && home in c.disk
    requires PinnedOk(c.bufs, c.pins, home, x) && x < c.n && !c.locked[x]
    requires forall y: nat | y < c.n && c.bufs[y].key == lg :: Unused(c.refs, c.pins, y)
    modifies c
    ensures c.Valid() && (ok <==> Spare(old(c.refs), old(c.pins)))
    ensures ok ==> lg in old(c.current) && c.disk == old(c.disk)[home := old(c.current)[lg]]
    ensures ok ==> c.current == old(c.current)[home := old(c.current)[lg]] && c.unsynced == old(c.unsynced) - {home}
    ensures ok ==> c.refs == old(c.refs) && c.pins == old(c.pins)[x := old(c.pins)[x] - 1] && c.locked == old(c.locked)
    ensures ok ==> Kept(old(c.bufs), c.bufs, old(c.refs), old(c.pins), lg)
  {
    hide Cache.Valid, Kept, Spare, Unused, PinnedOk;
    PinnedAt(c.bufs, c.pins, home, x);
    Sizes(c);
    var lb, hb;
    ok, lb, hb := ReadPair(c, lg, home, x);
    Sizes(c);
    ghost var read := c.bufs;
    if ok {
      WriteOut(c, hb, c.bufs[lb].data);
      c.Bunpin(hb);
      Release(c, lb, hb);
      assert c.refs == old(c.refs) && c.locked == old(c.locked);
      KeptOn(old(c.bufs), read, c.bufs, old(c.refs), old(c.pins), lg);
    }
  }

  // --- the log ---

  lemma RecordAt(c: Cache, dev: nat, size: nat, lh: seq<nat>, i: nat)
    requires c.Valid() && Synced(c.unsynced, dev, size, lh) && Mounted(c.disk, dev, size) && i < size && i !in lh
    ensures Image(c.current, dev, size)[i] == Image(c.disk, dev, size)[i]
  {
    hide Words;
    assert Key(dev, i) !in c.unsynced;
  }

  lemma LogBlockIdle(c: Cache, dev: nat, start: nat, i: nat)
    requires LogIdle(c.bufs, c.refs, c.pins, dev, start) && R.InLog(start, i)
    ensures forall y: nat | y < |c.bufs| && c.bufs[y].key == Key(dev, i) :: Unused(c.refs, c.pins, y)
  {
  }

  lemma HomeAt(c: Cache, dev: nat, lh: seq<nat>, at: map<nat, nat>, b: nat)
    requires c.Valid() && Listed(c.bufs, c.pins, dev, lh, at) && HomeFree(c.bufs, c.locked, dev, lh) && b in lh
    ensures b in at && PinnedOk(c.bufs, c.pins, Key(dev, b), at[b]) && at[b] < c.n && !c.locked[at[b]]
  {
  }

  lemma ListedElsewhere(c: Cache, dev: nat, lh: seq<nat>, at: map<nat, nat>, b: nat, b': nat)
    requires Listed(c.bufs, c.pins, dev, lh, at) && b in lh && b' in lh && b != b'
    ensures b in at && b' in at && at[b] != at[b']
  {
  }

  lemma ListedAt(bufs: seq<Buf>, pins: seq<nat>, dev: nat, lh: seq<nat>, at: map<nat, nat>, b: nat)
    requires Listed(bufs, pins, dev, lh, at) && b in lh
    ensures b in at && PinnedOk(bufs, pins, Key(dev, b), at[b])
  {
  }

  /** Pinning more keeps the list, with or without one more block. */
  lemma ListedMore(bufs: seq<Buf>, bufs': seq<Buf>, pins: seq<nat>, pins': seq<nat>, dev: nat, lh: seq<nat>, at: map<nat, nat>, b: nat, x: nat)
    requires Listed(bufs, pins, dev, lh, at) && |bufs'| == |bufs| == |pins| == |pins'| && PinnedOk(bufs', pins', Key(dev, b), x)
    requires forall y: nat | y < |bufs| :: bufs'[y].key == bufs[y].key && bufs'[y].valid == bufs[y].valid && pins'[y] >= pins[y]
    ensures Listed(bufs', pins', dev, lh, at) && Listed(bufs', pins', dev, lh + [b], at[b := x])
  {
    forall a | a in lh
      ensures a in at && PinnedOk(bufs', pins', Key(dev, a), at[a])
    {
      assert PinnedOk(bufs, pins, Key(dev, a), at[a]);
    }
  }

  class Journal {
    const c: Cache
    const dev: nat
    const start: nat
    const size: nat
    /** lh.block[..n] */
    var lh: seq<nat>
    var outstanding: nat
    /** The buffer of each listed block. */
    ghost var at: map<nat, nat>
    ghost var writes: seq<R.Write>

    ghost function Disk(): (d: R.Disk)
      reads c`disk
    {
      Image(c.disk, dev, size)
    }

    /** What bread returns for each block. */
    ghost function Record(): (d: R.Disk)
      reads c`current
    {
      Image(c.current, dev, size)
    }

    ghost predicate Layout() {
      dev != 0 && size <= 0x1_0000_0000 && start + LOGBLOCKS < size
    }

    /** The cache holds `left` for the log: pinned, and nothing else newer than the disk. */
    ghost predicate Holds(left: seq<nat>)
      reads this, c
    {
      && c.Valid() && Mounted(c.disk, dev, size)
      && Listed(c.bufs, c.pins, dev, left, at) && Synced(c.unsynced, dev, size, left)
    }

    ghost predicate Ok()
      reads this, c
    {
      Layout() && R.Targets(start, size, lh) && Holds(lh)
    }

    /** No one else holds a block that commit will touch. */
    ghost predicate Calm(left: seq<nat>)
      reads this, c
    {
      LogIdle(c.bufs, c.refs, c.pins, dev, start) && HomeFree(c.bufs, c.locked, dev, left)
    }

    constructor (c: Cache, dev: nat, start: nat, size: nat)
      requires c.Valid() && c.unsynced == map[] && Mounted(c.disk, dev, size)
      requires dev != 0 && size <= 0x1_0000_0000 && start + LOGBLOCKS < size
      ensures Ok() && this.c == c && this.dev == dev && this.start == start && this.size == size
      ensures lh == [] && outstanding == 0 && writes == [] && Record() == Disk()
    {
      this.c, this.dev, this.start, this.size := c, dev, start, size;
      lh, outstanding, at, writes := [], 0, map[], [];
    }

    /** log_write of the held buffer x. */
    method LogWrite(x: nat) returns (r: L.LogWriteResult)
      requires Ok() && x < c.n && c.locked[x] && c.bufs[x].valid
      requires c.bufs[x].key.dev == dev && c.bufs[x].key.bno < size && !R.InLog(start, c.bufs[x].key.bno)
      modifies this`lh, this`at, c`bufs, c`pins, c`dirty, c`current, c`unsynced
      ensures Ok() && Disk() == old(Disk())
      ensures r == if |old(lh)| >= LOGBLOCKS then L.TooBigTransaction
                   else if outstanding < 1 then L.OutsideTransaction
                   else L.Logged
      ensures r != L.Logged ==> lh == old(lh) && Record() == old(Record())
      ensures r == L.Logged ==>
                var b := old(c.bufs)[x].key.bno;
                && lh == (if b in old(lh) then old(lh) else old(lh) + [b])
                && Record() == old(Record())[b := Words(old(c.bufs)[x].data)]
    {
      hide Cache.Valid, Words, Image, Listed;
      Sizes(c);
      if |lh| >= LOGBLOCKS {
        return L.TooBigTransaction;
      }
      if outstanding < 1 {
        return L.OutsideTransaction;
      }
      var b := c.bufs[x].key.bno;
      var i := 0;
      while i < |lh| && lh[i] != b
        invariant 0 <= i <= |lh| && b !in lh[..i]
      {
        i := i + 1;
      }
      assert i == |lh| ==> lh[..i] == lh;
      if b in lh {
        ListedAt(c.bufs, c.pins, dev, lh, at, b);
        OneBuffer(c, x, at[b]);
      }
      ghost var bufs, pins := c.bufs, c.pins;
      ImageSet(c.current, dev, size, b, c.bufs[x].data);
      c.LogWrite(x, i < |lh|);
      Sizes(c);
      ListedMore(bufs, c.bufs, pins, c.pins, dev, lh, at, b, x);
      if i == |lh| {
        lh := lh + [b];
        at := at[b := x];
      }
      return L.Logged;
    }

    /** One turn of write_log's loop. */
    method LogTurn(tail: nat) returns (ok: bool)
      requires Ok() && Calm(lh) && tail < |lh|
      modifies this`writes, c
      ensures ok <==> Spare(old(c.refs), old(c.pins))
      ensures ok ==> Ok() && Calm(lh) && c.refs == old(c.refs) && c.pins == old(c.pins)
      ensures ok ==> var v := old(Record())[lh[tail]];
                     && writes == old(writes) + [R.Write(start + 1 + tail, v)]
                     && Disk() == old(Disk())[start + 1 + tail := v] && Record() == old(Record())[start + 1 + tail := v]
    {
      hide Cache.Valid, Words, Kept, Listed, LogIdle, HomeFree, Spare, PinnedOk;
      Sizes(c);
      var lg, home := Key(dev, start + 1 + tail), Key(dev, lh[tail]);
      ghost var bufs, data := c.bufs, c.current[home];
      HomeAt(c, dev, lh, at, lh[tail]);
      LogBlockIdle(c, dev, start, start + 1 + tail);
      ImageSet(c.disk, dev, size, start + 1 + tail, data);
      ImageSet(c.current, dev, size, start + 1 + tail, data);
      ok := CopyToLog(c, lg, home, at[lh[tail]]);
      if ok {
        writes := writes + [R.Write(start + 1 + tail, Words(data))];
        LogIdleKept(bufs, c.bufs, c.refs, c.pins, c.pins, lg, dev, start);
        HomeFreeKept(bufs, c.bufs, c.refs, c.pins, lg, c.locked, dev, lh);
        ListedKept(bufs, c.bufs, c.refs, c.pins, c.pins, lg, dev, lh, lh, at);
      }
    }

    /** write_log: the listed blocks, as read through the cache, to the log. */
    method WriteLog() returns (ok: bool)
      requires Ok() && Calm(lh)
      modifies this`writes, c
      ensures ok <==> lh == [] || Spare(old(c.refs), old(c.pins))
      ensures ok ==> Ok() && Calm(lh) && c.refs == old(c.refs) && c.pins == old(c.pins)
      ensures ok ==> var ws := R.LogWrites(start, old(Record()), lh);
                     && (forall i | 0 <= i < |ws| :: ws[i].bno < size) && writes == old(writes) + ws
                     && Disk() == R.Apply(old(Disk()), ws) && Record() == R.Apply(old(Record()), ws)
    {
      hide Cache.Valid, Words, Image, R.Apply, Kept, Listed, LogIdle, HomeFree, R.LogWrites, Spare;
      ghost var d0, v0 := Disk(), Record();
      ghost var ws := R.LogWrites(start, v0, lh);
      L.LogWritesAre(start, v0, lh);
      L.ApplyNone(d0, ws);
      L.ApplyNone(v0, ws);
      L.AppendNone(writes, ws);
      var tail := 0;
      while tail < |lh|
        invariant 0 <= tail <= |lh| && Ok() && Calm(lh) && c.refs == old(c.refs) && c.pins == old(c.pins)
        invariant tail > 0 ==> Spare(old(c.refs), old(c.pins))
        invariant writes == old(writes) + ws[..tail] && |Disk()| == |Record()| == size
        invariant Disk() == R.Apply(d0, ws[..tail]) && Record() == R.Apply(v0, ws[..tail])
        invariant R.SameHome(start, Record(), v0)
      {
        R.ApplyStep(d0, ws, tail);
        R.ApplyStep(v0, ws, tail);
        L.AppendStep(old(writes), ws, tail);
        ok := LogTurn(tail);
        if !ok {
          return;
        }
        tail := tail + 1;
      }
      assert ws[..|lh|] == ws;
      ok := true;
    }

    /** write_head */
    method WriteHead(ghost left: seq<nat>) returns (ok: bool)
      requires Layout() && R.Targets(start, size, lh) && Holds(left) && Calm(left) && (forall b | b in left :: !R.InLog(start, b))
      modifies this`writes, c
      ensures ok <==> Spare(old(c.refs), old(c.pins))
      ensures ok ==> Holds(left) && Calm(left) && c.refs == old(c.refs) && c.pins == old(c.pins)
      ensures ok ==> var h := R.HeadImage(old(Disk())[start], lh);
                     && writes == old(writes) + [R.Write(start, h)]
                     && Disk() == old(Disk())[start := h] && Record() == old(Record())[start := h]
    {
      hide Cache.Valid, Kept, Listed, LogIdle, HomeFree, Unused, Words, Image, Spare, R.HeadImage;
      Sizes(c);
      LogBlockIdle(c, dev, start, start);
      RecordAt(c, dev, size, left, start);
      ImageAt(c.current, dev, size, start);
      ghost var bufs := c.bufs;
      var b;
      ok, b := ReadLog(c, Key(dev, start));
      Sizes(c);
      if ok {
        ghost var read := c.bufs;
        var data := HeadBytes(c.bufs[b].data, lh);
        ImageSet(c.disk, dev, size, start, data);
        ImageSet(c.current, dev, size, start, data);
        WriteOut(c, b, data);
        ReleaseOne(c, b);
        assert c.refs == old(c.refs) && c.locked == old(c.locked);
        KeptOn(bufs, read, c.bufs, c.refs, c.pins, Key(dev, start));
        writes := writes + [R.Write(start, Words(data))];
        LogIdleKept(bufs, c.bufs, c.refs, c.pins, c.pins, Key(dev, start), dev, start);
        HomeFreeKept(bufs, c.bufs, c.refs, c.pins, Key(dev, start), c.locked, dev, left);
        ListedKept(bufs, c.bufs, c.refs, c.pins, c.pins, Key(dev, start), dev, left, left, at);
      }
    }

    /** One turn of install_trans's loop: the contents of record do not change. */
    method InstallTurn(tail: nat) returns (ok: bool)
      requires Layout() && R.Targets(start, size, lh) && tail < |lh| && Holds(lh[tail..]) && Calm(lh[tail..])
      requires Disk()[start + 1 + tail] == Record()[lh[tail]]
      modifies this`writes, c
      ensures ok <==> Spare(old(c.refs), old(c.pins))
      ensures ok ==> Holds(lh[tail + 1..]) && Calm(lh[tail + 1..]) && Spare(c.refs, c.pins)
      ensures ok ==> && writes == old(writes) + [R.Write(lh[tail], old(Disk())[start + 1 + tail])]
                     && Disk() == old(Disk())[lh[tail] := old(Disk())[start + 1 + tail]] && Record() == old(Record())
    {
      hide Cache.Valid, Words, Kept, LogIdle, HomeFree, Spare, PinnedOk, Image, Listed, Synced;
      Sizes(c);
      var lg, home := Key(dev, start + 1 + tail), Key(dev, lh[tail]);
      ghost var bufs, pins, unsynced, data := c.bufs, c.pins, c.unsynced, c.current[lg];
      assert lh[tail..][0] == lh[tail];
      assert forall b | b in lh[tail + 1..] :: b in lh[tail..] && b != lh[tail];
      HomeAt(c, dev, lh[tail..], at, lh[tail]);
      LogBlockIdle(c, dev, start, start + 1 + tail);
      RecordAt(c, dev, size, lh[tail..], start + 1 + tail);
      ImageAt(c.current, dev, size, start + 1 + tail);
      ImageSet(c.disk, dev, size, lh[tail], data);
      ImageSet(c.current, dev, size, lh[tail], data);
      ghost var x := at[lh[tail]];
      PinnedAt(c.bufs, c.pins, home, x);
      forall b | b in lh[tail + 1..]
        ensures b in at && at[b] != x
      {
        ListedElsewhere(c, dev, lh[tail..], at, lh[tail], b);
      }
      ok := CopyHome(c, lg, home, x);
      if ok {
        writes := writes + [R.Write(lh[tail], Words(data))];
        LogIdleKept(bufs, c.bufs, c.refs, pins, c.pins, lg, dev, start);
        HomeFreeKept(bufs, c.bufs, c.refs, pins, lg, c.locked, dev, lh[tail..]);
        FewerFree(c.bufs, c.locked, dev, lh, tail);
        ListedKept(bufs, c.bufs, c.refs, pins, c.pins, lg, dev, lh[tail..], lh[tail + 1..], at);
        SpareKept(c.refs, pins, c.pins);
        SyncedLess(unsynced, dev, size, lh, tail);
      }
    }

    /** install_trans, outside recovery: every listed block goes home and is unpinned. */
    method InstallTrans() returns (ok: bool)
      requires Ok() && Calm(lh) && Spare(c.refs, c.pins)
      requires forall i: nat | i < |lh| :: Disk()[start + 1 + i] == Record()[lh[i]]
      modifies this`writes, c
      ensures ok && Holds([]) && Calm([]) && Spare(c.refs, c.pins)
      ensures var ws := R.InstallWrites(start, old(Disk()), lh);
              && (forall i | 0 <= i < |ws| :: ws[i].bno < size) && writes == old(writes) + ws
              && Disk() == R.Apply(old(Disk()), ws) && Record() == old(Record()) && Disk()[start] == old(Disk())[start]
    {
      hide Cache.Valid, Words, Image, R.Apply, Holds, Calm, R.InstallWrites, Spare;
      ghost var d0 := Disk();
      ghost var ws := R.InstallWrites(start, d0, lh);
      L.InstallWritesAre(start, d0, lh);
      L.ApplyNone(d0, ws);
      L.AppendNone(writes, ws);
      assert lh[0..] == lh;
      var tail := 0;
      while tail < |lh|
        invariant 0 <= tail <= |lh| && Holds(lh[tail..]) && Calm(lh[tail..]) && Spare(c.refs, c.pins)
        invariant writes == old(writes) + ws[..tail] && Disk() == R.Apply(d0, ws[..tail]) && Record() == old(Record())
        invariant forall b: nat | R.InLog(start, b) :: Disk()[b] == d0[b]
      {
        R.ApplyStep(d0, ws, tail);
        L.AppendStep(old(writes), ws, tail);
        ok := InstallTurn(tail);
        tail := tail + 1;
      }
      assert ws[..|lh|] == ws && lh[|lh|..] == [];
      ok := true;
    }

    /** commit, through the cache. It panics exactly if there is something to commit and every buffer
        is referenced. Otherwise it issues the writes of the redo log's specification, with the
        contents of record as the view; these are durable afterwards and have not changed. */
    method Commit() returns (ok: bool)
      requires Ok() && Calm(lh) && R.ValidDisk(start, Disk()) && Disk()[start][0] == 0
      modifies this`lh, this`writes, c
      ensures ok <==> old(lh) == [] || Spare(old(c.refs), old(c.pins))
      ensures ok ==> Ok() && lh == [] && Disk()[start][0] == 0
      ensures ok ==> writes == old(writes) + R.CommitWrites(start, old(Disk()), old(Record()), old(lh))
      ensures ok ==> R.SameHome(start, Disk(), old(Record())) && R.SameHome(start, Record(), old(Record()))
    {
      hide Cache.Valid, Words, Image, R.Apply, R.LogWrites, R.InstallWrites, Spare, Listed, LogIdle, HomeFree, Mounted;
      if lh == [] {
        RecordAll();
        return true;
      }
      ghost var d0, v0, l0 := Disk(), Record(), lh;
      RecordAt(c, dev, size, lh, start);
      Logged(d0, v0, l0);
      ok := WriteLog();
      if !ok {
        return;
      }
      ok := WriteHead(lh);
      ok := InstallTrans();
      lh := [];
      ok := WriteHead([]);
      RecordAll();
    }

    /** With nothing listed the disk is the contents of record. */
    lemma RecordAll()
      requires Layout() && Holds([])
      ensures Disk() == Record()
    {
      forall i: nat | i < size
        ensures Disk()[i] == Record()[i]
      {
        RecordAt(c, dev, size, [], i);
      }
    }

    /** The disk and the contents of record between commit's two halves. */
    lemma Logged(d: R.Disk, v: R.Disk, l: seq<nat>)
      requires R.ValidDisk(start, d) && |v| == |d| == size && R.Targets(start, size, l) && start + LOGBLOCKS < size
      requires d[start][0] == 0 && v[start] == d[start]
      ensures var ws := R.LogWrites(start, v, l);
              && (forall i | 0 <= i < |ws| :: ws[i].bno < size)
              && var d1 := R.Apply(d, ws); var v1 := R.Apply(v, ws);
              && d1[start] == d[start] && v1[start] == v[start] && R.SameHome(start, v1, v)
              && (forall i: nat | i < |l| :: d1[start + 1 + i] == v[l[i]] == v1[l[i]])
              && d1[start := R.HeadImage(d[start], l)] == R.Apply(d, R.CommitFront(start, d, v, l))
    {
      hide R.Apply;
      var ws := R.LogWrites(start, v, l);
      assert ws[..|l|] == ws;
      R.LogWritesInvisible(start, d, v, l, |l|);
      R.LogWritesInvisible(start, v, v, l, |l|);
      var hw := R.Write(start, R.HeadImage(d[start], l));
      R.ApplyConcat(d, ws, [hw]);
      R.ApplyOne(R.Apply(d, ws), hw);
    }
  }

  /** A crash anywhere in a commit that runs through the cache, and in the recoveries after it: the
      home blocks end up as they were on the disk, or as bread returned them before the commit. */
  lemma CrashThroughCache(j: Journal, k: nat, cuts: seq<nat>)
    requires j.Ok() && R.ValidDisk(j.start, j.Disk()) && j.Disk()[j.start][0] == 0
    ensures var r := R.Recover(j.start, R.Crashed(j.start, j.Disk(), j.Record(), j.lh, k, cuts));
            && R.ValidDisk(j.start, r) && r[j.start][0] == 0
            && R.SameHome(j.start, r, if k <= |j.lh| then j.Disk() else j.Record())
  {
    R.CrashAtomicity(j.start, j.Disk(), j.Record(), j.lh, k, cuts);
    forall b: nat | b < j.size && b !in j.lh
      ensures j.Record()[b] == j.Disk()[b]
    {
      RecordAt(j.c, j.dev, j.size, j.lh, b);
    }
    assert R.Committed(j.Disk(), j.Record(), j.lh) == j.Record();
  }

  /** With no references but the log's own pins, a buffer is spare exactly if fewer blocks are listed
      than there are buffers: a full log cannot be committed, since LOGBLOCKS is NBUF. */
  lemma SpareExactly(j: Journal)
    requires j.Ok() && forall x: nat | x < NBUF :: j.c.refs[x] == 0
    requires forall x: nat | x < NBUF && j.c.pins[x] > 0 :: exists b :: b in j.lh && b in j.at && j.at[b] == x
    ensures Spare(j.c.refs, j.c.pins) <==> |j.lh| < NBUF
  {
    hide Cache.Valid, R.Targets, Spare, Indices;
    Sizes(j.c);
    assert j.lh[..|j.lh|] == j.lh;
    var used := Places(j.lh, j.at, |j.lh|);
    forall x: nat | x < NBUF
      ensures x in used <==> j.c.pins[x] > 0
    {
      PlacesAre(j.lh, j.at, |j.lh|, x);
    }
    PlacesBelow(j.c, j.dev, j.lh, j.at);
    PlacesCard(j.c, j.dev, j.start, j.size, j.lh, j.at, |j.lh|);
    SpareOf(j.c.refs, j.c.pins, used);
  }

  /** All buffers of a full log are pinned, so its commit panics: nothing in the admission of
      operations keeps a buffer back. */
  lemma FullLogCannotCommit(j: Journal)
    requires j.Ok() && |j.lh| == LOGBLOCKS
    ensures !Spare(j.c.refs, j.c.pins)
  {
    hide Cache.Valid, R.Targets, Indices;
    Sizes(j.c);
    assert j.lh[..|j.lh|] == j.lh;
    var used := Places(j.lh, j.at, |j.lh|);
    PlacesBelow(j.c, j.dev, j.lh, j.at);
    PlacesCard(j.c, j.dev, j.start, j.size, j.lh, j.at, |j.lh|);
    FullSet(used, NBUF);
    forall x: nat | x < NBUF
      ensures !Unused(j.c.refs, j.c.pins, x)
    {
      assert x in Indices(NBUF);
      PlacesAre(j.lh, j.at, |j.lh|, x);
    }
  }

  lemma SpareOf(refs: seq<nat>, pins: seq<nat>, used: set<nat>)
    requires |refs| == |pins| == NBUF && used <= Indices(NBUF)
    requires forall x: nat | x < NBUF :: refs[x] == 0 && (x in used <==> pins[x] > 0)
    ensures Spare(refs, pins) <==> |used| < NBUF
  {
    SubsetCard(used, Indices(NBUF));
    if |used| == NBUF {
      FullSet(used, NBUF);
    } else {
      assert used != Indices(NBUF);
      var x: nat :| x in Indices(NBUF) && x !in used;
      assert Unused(refs, pins, x);
    }
  }

  /** The buffers of the first k listed blocks. */
  ghost function Places(lh: seq<nat>, at: map<nat, nat>, k: nat): (s: set<nat>)
    requires k <= |lh| && forall b | b in lh :: b in at
  {
    if k == 0 then {} else Places(lh, at, k - 1) + {at[lh[k - 1]]}
  }

  lemma {:induction false} PlacesAre(lh: seq<nat>, at: map<nat, nat>, k: nat, x: nat)
    requires k <= |lh| && forall b | b in lh :: b in at
    ensures x in Places(lh, at, k) <==> exists b :: b in lh[..k] && at[b] == x
    decreases k
  {
    if k > 0 {
      PlacesAre(lh, at, k - 1, x);
      assert lh[..k] == lh[..k - 1] + [lh[k - 1]];
    }
  }

  lemma PlacesBelow(c: Cache, dev: nat, lh: seq<nat>, at: map<nat, nat>)
    requires Listed(c.bufs, c.pins, dev, lh, at) && |c.bufs| == NBUF
    ensures Places(lh, at, |lh|) <= Indices(NBUF)
  {
    assert lh[..|lh|] == lh;
    forall x | x in Places(lh, at, |lh|)
      ensures x < NBUF
    {
      PlacesAre(lh, at, |lh|, x);
    }
  }

  lemma {:induction false} PlacesCard(c: Cache, dev: nat, start: nat, size: nat, lh: seq<nat>, at: map<nat, nat>, k: nat)
    requires Listed(c.bufs, c.pins, dev, lh, at) && R.Targets(start, size, lh) && k <= |lh|
    ensures |Places(lh, at, k)| == k
    decreases k
  {
    if k > 0 {
      PlacesCard(c, dev, start, size, lh, at, k - 1);
      PlacesAre(lh, at, k - 1, at[lh[k - 1]]);
      forall b | b in lh[..k - 1]
        ensures at[b] != at[lh[k - 1]]
      {
        ListedElsewhere(c, dev, lh, at, b, lh[k - 1]);
      }
    }
  }

  lemma SyncedLess(unsynced: map<Key, nat>, dev: nat, size: nat, lh: seq<nat>, tail: nat)
    requires tail < |lh| && Synced(unsynced, dev, size, lh[tail..])
    ensures Synced(unsynced - {Key(dev, lh[tail])}, dev, size, lh[tail + 1..])
  {
    assert lh[tail..] == [lh[tail]] + lh[tail + 1..];
  }

  lemma FewerFree(bufs: seq<Buf>, locked: seq<bool>, dev: nat, lh: seq<nat>, tail: nat)
    requires tail < |lh| && HomeFree(bufs, locked, dev, lh[tail..])
    ensures HomeFree(bufs, locked, dev, lh[tail + 1..])
  {
    assert forall b | b in lh[tail + 1..] :: b in lh[tail..];
  }
}
