/** The log's routines over a disk that records every block write, so that a crash may be
    placed after any of them.
 */
module LogDevice {
  import opened Basics
  import opened Params
  import opened RedoLog

  datatype LogWriteResult = Logged | TooBigTransaction | OutsideTransaction

  function Unpin(cached: map<nat, Block>, l: seq<nat>): (r: map<nat, Block>) {
    cached - (set b | b in l)
  }

  lemma UnpinOne(cached: map<nat, Block>, l: seq<nat>, k: nat)
    requires k < |l|
    ensures Unpin(cached, l[..k + 1]) == Unpin(cached, l[..k]) - {l[k]}
  {
    assert l[..k + 1] == l[..k] + [l[k]];
  }

  lemma AppendNone(w: seq<Write>, ws: seq<Write>)
    ensures w == w + ws[..0]
  {
  }

  lemma AppendStep(w: seq<Write>, ws: seq<Write>, k: nat)
    requires k < |ws|
    ensures w + ws[..k] + [ws[k]] == w + ws[..k + 1]
  {
    assert ws[..k + 1] == ws[..k] + [ws[k]];
  }

  lemma ApplyNone(d: Disk, ws: seq<Write>)
    ensures Apply(d, ws[..0]) == d
  {
    assert ws[..0] == [];
  }

  lemma LogWritesAre(start: nat, view: Disk, l: seq<nat>)
    requires start + LOGBLOCKS < |view| && Targets(start, |view|, l)
    ensures var ws := LogWrites(start, view, l);
            |ws| == |l| && forall i :: 0 <= i < |l| ==> ws[i] == Write(start + 1 + i, view[l[i]]) && ws[i].bno < |view|
  {
  }

  lemma InstallWritesAre(start: nat, d: Disk, l: seq<nat>)
    requires start + LOGBLOCKS < |d| && Targets(start, |d|, l)
    ensures var ws := InstallWrites(start, d, l);
            |ws| == |l| && forall i :: 0 <= i < |l| ==> ws[i] == Write(l[i], d[start + 1 + i]) && ws[i].bno < |d|
  {
  }

  class Log {
    const start: nat
    /** The disk when the machine booted; every later disk is it with a prefix of `writes` applied. */
    ghost const boot: Disk
    var disk: Disk
    ghost var writes: seq<Write>
    /** Contents of the cached buffers that log_write pinned. */
    var pinned: map<nat, Block>
    /** The in-memory header: its length is lh.n, its elements lh.block[..n]. */
    var lh: seq<nat>
    var outstanding: nat

    /** The disk is the boot disk with every recorded write applied. */
    ghost predicate Traced()
      reads this`disk, this`writes
    {
      && |boot| == |disk|
      && (forall i :: 0 <= i < |writes| ==> writes[i].bno < |boot|)
      && disk == Apply(boot, writes)
    }

    ghost predicate Valid()
      reads this
    {
      ValidDisk(start, disk) && Traced()
    }

    /** Between commits: the on-disk log is empty and exactly the listed blocks are pinned. */
    ghost predicate Quiescent()
      reads this
    {
      && Valid() && disk[start][0] == 0
      && Targets(start, |disk|, lh)
      && pinned.Keys == set b | b in lh
    }

    /** What a reader of the buffer cache sees. */
    ghost function View(): (v: Disk)
      reads this
      ensures |v| == |disk|
    {
      Overlay(disk, pinned)
    }

    constructor (start: nat, disk: Disk)
      requires ValidDisk(start, disk)
      ensures Valid() && this.start == start && this.disk == disk == boot
      ensures writes == [] && lh == [] && pinned == map[] && outstanding == 0
    {
      this.start, this.disk, this.boot := start, disk, disk;
      writes, pinned, lh, outstanding := [], map[], [], 0;
    }

    /** One atomic block write. */
    method BWrite(b: nat, data: Block)
      requires b < |disk| && Traced()
      modifies this`disk, this`writes
      ensures disk == old(disk)[b := data]
      ensures writes == old(writes) + [Write(b, data)]
      ensures Traced()
    {
      ApplyConcat(boot, writes, [Write(b, data)]);
      assert Apply(disk, [Write(b, data)]) == disk[b := data];
      disk := disk[b := data];
      writes := writes + [Write(b, data)];
    }

    method ReadHead()
      requires Valid()
      modifies this`lh
      ensures lh == HeadBlocks(disk[start])
    {
      var hd := disk[start];
      lh := [];
      var i := 0;
      while i < hd[0]
        invariant 0 <= i <= hd[0] && hd == disk[start] && disk == old(disk)
        invariant lh == HeadBlocks(hd)[..i]
      {
        lh := lh + [hd[1 + i]];
        i := i + 1;
      }
    }

    method WriteHead()
      requires Valid() && Targets(start, |disk|, lh)
      modifies this`disk, this`writes
      ensures Valid()
      ensures disk == old(disk)[start := HeadImage(old(disk)[start], lh)]
      ensures writes == old(writes) + [Write(start, HeadImage(old(disk)[start], lh))]
    {
      hide Apply;
      var hb := disk[start][0 := |lh|];
      var i := 0;
      while i < |lh|
        invariant 0 <= i <= |lh| && disk == old(disk) && writes == old(writes)
        invariant |hb| == BWORDS && hb[0] == |lh| && (forall j :: 0 <= j < i ==> hb[1 + j] == lh[j])
        invariant forall j :: i < j < BWORDS ==> hb[j] == disk[start][j]
      {
        hb := hb[1 + i := lh[i]];
        i := i + 1;
      }
      assert hb == HeadImage(disk[start], lh);
      HeadRoundTrip(start, |disk|, disk[start], lh);
      BWrite(start, hb);
    }

    method WriteLog()
      requires Valid() && disk[start][0] == 0 && Targets(start, |disk|, lh)
      modifies this`disk, this`writes
      ensures Valid()
      ensures writes == old(writes) + LogWrites(start, old(View()), lh)
      ensures disk == Apply(old(disk), LogWrites(start, old(View()), lh))
    {
      hide Apply, Traced, LogWrites;
      ghost var ws := LogWrites(start, View(), lh);
      LogWritesAre(start, View(), lh);
      ApplyNone(disk, ws);
      AppendNone(writes, ws);
      var tail := 0;
      while tail < |lh|
        invariant 0 <= tail <= |lh|
        invariant Traced() && |disk| == |old(disk)| && disk[start] == old(disk)[start]
        invariant writes == old(writes) + ws[..tail]
        invariant disk == Apply(old(disk), ws[..tail]) && SameHome(start, disk, old(disk))
      {
        var from := if lh[tail] in pinned then pinned[lh[tail]] else disk[lh[tail]];
        assert ws[tail] == Write(start + 1 + tail, from);
        ApplyStep(old(disk), ws, tail);
        AppendStep(old(writes), ws, tail);
        BWrite(start + 1 + tail, from);
        tail := tail + 1;
      }
      assert ws[..|lh|] == ws;
    }

    /** Copies the logged blocks home; during a commit each copied block is unpinned. */
    method InstallTrans(recovering: bool)
      requires Valid() && lh == HeadBlocks(disk[start])
      modifies this`disk, this`writes, this`pinned
      ensures Valid() && disk[start] == old(disk)[start]
      ensures writes == old(writes) + InstallWrites(start, old(disk), lh)
      ensures disk == Apply(old(disk), InstallWrites(start, old(disk), lh))
      ensures recovering ==> pinned == old(pinned)
      ensures !recovering ==> pinned == Unpin(old(pinned), lh)
    {
      hide Apply, Traced, InstallWrites;
      ghost var d0 := disk;
      ghost var ws := InstallWrites(start, d0, lh);
      InstallWritesAre(start, d0, lh);
      ApplyNone(disk, ws);
      AppendNone(writes, ws);
      assert lh[..0] == [];
      var tail := 0;
      while tail < |lh|
        invariant 0 <= tail <= |lh|
        invariant Traced() && |disk| == |d0|
        invariant forall b :: start <= b <= start + LOGBLOCKS ==> disk[b] == d0[b]
        invariant writes == old(writes) + ws[..tail]
        invariant disk == Apply(d0, ws[..tail])
        invariant pinned == if recovering then old(pinned) else Unpin(old(pinned), lh[..tail])
      {
        var lbuf := disk[start + 1 + tail];
        assert ws[tail] == Write(lh[tail], lbuf);
        ApplyStep(d0, ws, tail);
        AppendStep(old(writes), ws, tail);
        BWrite(lh[tail], lbuf);
        if !recovering {
          UnpinOne(old(pinned), lh, tail);
          pinned := pinned - {lh[tail]};
        }
        tail := tail + 1;
      }
      assert ws[..|lh|] == ws;
      assert lh[..|lh|] == lh;
    }

    /** Commit issues exactly the writes of the specification, leaves every reader's view of the
        home blocks unchanged, and makes that view durable. */
    method Commit()
      requires Quiescent()
      modifies this`disk, this`writes, this`pinned, this`lh
      ensures Quiescent() && lh == []
      ensures writes == old(writes) + CommitWrites(start, old(disk), old(View()), old(lh))
      ensures SameHome(start, disk, old(View()))
      ensures SameHome(start, View(), old(View()))
    {
      ghost var d0, v0, w0 := disk, View(), writes;
      ghost var ws := CommitWrites(start, d0, v0, lh);
      CommittedIsView(start, d0, pinned, lh);
      ghost var l0 := lh;
      if |lh| > 0 {
        CommitSteps();
      }
      assert disk == Apply(d0, ws) by {
        assert writes == w0 + ws;
        ApplyConcat(boot, w0, ws);
      }
      CommitFinished(start, d0, v0, l0, disk);
    }

    method CommitSteps()
      requires Quiescent() && lh != []
      modifies this`disk, this`writes, this`pinned, this`lh
      ensures Valid() && lh == [] && pinned == map[]
      ensures writes == old(writes) + CommitWrites(start, old(disk), old(View()), old(lh))
    {
      LogThenHead();
      InstallThenClear(false);
    }

    /** Log blocks, then the header: the real commit. */
    method LogThenHead()
      requires Valid() && disk[start][0] == 0 && Targets(start, |disk|, lh)
      modifies this`disk, this`writes
      ensures Valid() && HeadBlocks(disk[start]) == lh
      ensures writes == old(writes) + CommitFront(start, old(disk), old(View()), lh)
      ensures disk == Apply(old(disk), CommitFront(start, old(disk), old(View()), lh))
    {
      LoggedHead(disk, View(), lh);
      WriteLog();
      WriteHead();
    }

    /** Copy home, then erase the transaction from the log. */
    method InstallThenClear(recovering: bool)
      requires Valid() && lh == HeadBlocks(disk[start])
      modifies this`disk, this`writes, this`pinned, this`lh
      ensures Valid() && lh == [] && disk[start][0] == 0
      ensures writes == old(writes) + CommitBack(start, old(disk), old(lh))
      ensures pinned == if recovering then old(pinned) else Unpin(old(pinned), old(lh))
    {
      InstallTrans(recovering);
      lh := [];
      WriteHead();
    }

    /** The disk between commit's two halves. */
    lemma LoggedHead(d: Disk, view: Disk, l: seq<nat>)
      requires ValidDisk(start, d) && d[start][0] == 0 && |view| == |d| && Targets(start, |d|, l)
      ensures
        var logged := Apply(d, LogWrites(start, view, l));
        var e := logged[start := HeadImage(logged[start], l)];
        && logged[start] == d[start]
        && e == Apply(d, CommitFront(start, d, view, l))
        && ValidDisk(start, e) && HeadBlocks(e[start]) == l
    {
      LogWritesInvisible(start, d, view, l, |l|);
      assert LogWrites(start, view, l)[..|l|] == LogWrites(start, view, l);
      HeadRoundTrip(start, |d|, d[start], l);
      ApplyHead(d, view, l);
    }

    lemma ApplyHead(d: Disk, view: Disk, l: seq<nat>)
      requires ValidDisk(start, d) && |view| == |d| && Targets(start, |d|, l)
      ensures
        var lw := LogWrites(start, view, l);
        Apply(d, CommitFront(start, d, view, l)) == Apply(d, lw)[start := HeadImage(d[start], l)]
    {
      var hw := Write(start, HeadImage(d[start], l));
      ApplyConcat(d, LogWrites(start, view, l), [hw]);
      var e := Apply(d, LogWrites(start, view, l));
      assert Apply(e, [hw]) == e[start := hw.data];
    }

    /** Recovery issues exactly the writes of the specification. */
    method RecoverFromLog()
      requires Valid()
      modifies this`disk, this`writes, this`pinned, this`lh
      ensures Valid() && lh == [] && pinned == old(pinned) && disk[start][0] == 0
      ensures writes == old(writes) + RecoveryWrites(start, old(disk))
      ensures disk == Recover(start, old(disk))
    {
      ghost var d0, w0 := disk, writes;
      ghost var ws := RecoveryWrites(start, d0);
      ReadHead();
      InstallThenClear(true);
      assert writes == w0 + ws;
      ApplyConcat(boot, w0, ws);
    }

    /** Records a modified buffer. A block already listed is absorbed; but the size check comes
        first, so it can refuse even a block that would be absorbed. */
    method LogWrite(b: nat, data: Block) returns (r: LogWriteResult)
      requires Quiescent() && b < |disk| && !InLog(start, b)
      modifies this`lh, this`pinned
      ensures Quiescent()
      ensures r == if |old(lh)| >= LOGBLOCKS then TooBigTransaction
                   else if outstanding < 1 then OutsideTransaction
                   else Logged
      ensures r != Logged ==> lh == old(lh) && pinned == old(pinned)
      ensures r == Logged ==>
                && lh == (if b in old(lh) then old(lh) else old(lh) + [b])
                && View() == old(View())[b := data]
    {
      hide Apply, ValidDisk;
      if |lh| >= LOGBLOCKS {
        return TooBigTransaction;
      }
      if outstanding < 1 {
        return OutsideTransaction;
      }
      var i := 0;
      while i < |lh| && lh[i] != b
        invariant 0 <= i <= |lh|
        invariant b !in lh[..i]
      {
        i := i + 1;
      }
      if i == |lh| {
        assert lh[..i] == lh;
        lh := lh + [b];
      }
      pinned := pinned[b := data];
      assert View() == old(View())[b := data];
      return Logged;
    }
  }
}
