/** The file system's redo log: commit, installation and recovery as sequences of
    single-block disk writes, with a crash possible between any two of them.
 */
module RedoLog {
  import opened Basics
  import opened Params

  const BWORDS: nat := 256

  /** One disk block, as its 32-bit words. */
  type Block = b: seq<int> | |b| == BWORDS witness seq(BWORDS, _ => 0)

  type Disk = seq<Block>

  datatype Write = Write(bno: nat, data: Block)

  /** The log occupies the header block `start` and the LOGBLOCKS blocks after it. */
  predicate InLog(start: nat, b: nat) {
    start <= b <= start + LOGBLOCKS
  }

  /** What a transaction's block list must satisfy: home blocks of the disk, each listed once. */
  ghost predicate Targets(start: nat, size: nat, lh: seq<nat>) {
    && |lh| <= LOGBLOCKS
    && (forall i :: 0 <= i < |lh| ==> lh[i] < size && !InLog(start, lh[i]))
    && (forall i, j :: 0 <= i < j < |lh| ==> lh[i] != lh[j])
  }

  /** The block numbers recorded in an on-disk header. */
  function HeadBlocks(hd: Block): (lh: seq<nat>)
    requires 0 <= hd[0] <= LOGBLOCKS
    requires forall i :: 1 <= i <= hd[0] ==> 0 <= hd[i]
  {
    seq(hd[0], i requires 0 <= i < hd[0] => hd[1 + i])
  }

  ghost predicate ValidHead(start: nat, size: nat, hd: Block) {
    && 0 <= hd[0] <= LOGBLOCKS
    && (forall i :: 1 <= i <= hd[0] ==> 0 <= hd[i])
    && Targets(start, size, HeadBlocks(hd))
  }

  ghost predicate ValidDisk(start: nat, d: Disk) {
    start + LOGBLOCKS < |d| && ValidHead(start, |d|, d[start])
  }

  /** The header block after `write_head`: words past the listed blocks keep their old contents. */
  function HeadImage(old_: Block, lh: seq<nat>): (hd: Block)
    requires |lh| <= LOGBLOCKS
  {
    [|lh|] + lh + old_[1 + |lh|..]
  }

  lemma HeadRoundTrip(start: nat, size: nat, old_: Block, lh: seq<nat>)
    requires Targets(start, size, lh)
    ensures ValidHead(start, size, HeadImage(old_, lh))
    ensures HeadBlocks(HeadImage(old_, lh)) == lh
  {
    var hd := HeadImage(old_, lh);
    assert forall i :: 0 <= i < |lh| ==> hd[1 + i] == lh[i];
    assert HeadBlocks(hd) == lh;
  }

  function Apply(d: Disk, ws: seq<Write>): (r: Disk)
    requires forall i :: 0 <= i < |ws| ==> ws[i].bno < |d|
    ensures |r| == |d|
    decreases |ws|
  {
    if ws == [] then d
    else Apply(d[ws[0].bno := ws[0].data], ws[1..])
  }

  lemma {:induction false} ApplyConcat(d: Disk, ws: seq<Write>, vs: seq<Write>)
    requires forall i :: 0 <= i < |ws| ==> ws[i].bno < |d|
    requires forall i :: 0 <= i < |vs| ==> vs[i].bno < |d|
    ensures Apply(d, ws + vs) == Apply(Apply(d, ws), vs)
    decreases |ws|
  {
    if ws == [] {
      assert ws + vs == vs;
    } else {
      assert (ws + vs)[1..] == ws[1..] + vs;
      ApplyConcat(d[ws[0].bno := ws[0].data], ws[1..], vs);
    }
  }

  lemma ApplyOne(d: Disk, w: Write)
    requires w.bno < |d|
    ensures Apply(d, [w]) == d[w.bno := w.data]
  {
    assert [w][1..] == [];
  }

  lemma ApplyStep(d: Disk, ws: seq<Write>, k: nat)
    requires forall i :: 0 <= i < |ws| ==> ws[i].bno < |d|
    requires k < |ws|
    ensures Apply(d, ws[..k + 1]) == Apply(d, ws[..k])[ws[k].bno := ws[k].data]
  {
    hide Apply;
    assert ws[..k + 1] == ws[..k] + [ws[k]];
    ApplyConcat(d, ws[..k], [ws[k]]);
    ApplyOne(Apply(d, ws[..k]), ws[k]);
  }

  lemma ApplyPrefix(d: Disk, ws: seq<Write>, vs: seq<Write>, k: nat)
    requires forall i :: 0 <= i < |ws| ==> ws[i].bno < |d|
    requires forall i :: 0 <= i < |vs| ==> vs[i].bno < |d|
    requires k <= |ws| + |vs|
    ensures k <= |ws| ==> (ws + vs)[..k] == ws[..k]
    ensures |ws| <= k ==> Apply(d, (ws + vs)[..k]) == Apply(Apply(d, ws), vs[..k - |ws|])
  {
    if |ws| <= k {
      assert (ws + vs)[..k] == ws + vs[..k - |ws|];
      ApplyConcat(d, ws, vs[..k - |ws|]);
    }
  }

  // ----- The writes each routine performs, in order -----

  function LogWrites(start: nat, view: Disk, lh: seq<nat>): (ws: seq<Write>)
    requires forall i :: 0 <= i < |lh| ==> lh[i] < |view|
  {
    seq(|lh|, i requires 0 <= i < |lh| => Write(start + 1 + i, view[lh[i]]))
  }

  function InstallWrites(start: nat, d: Disk, lh: seq<nat>): (ws: seq<Write>)
    requires start + |lh| < |d|
  {
    seq(|lh|, i requires 0 <= i < |lh| => Write(lh[i], d[start + 1 + i]))
  }

  ghost function RecoveryWrites(start: nat, d: Disk): (ws: seq<Write>)
    requires ValidDisk(start, d)
    ensures forall i :: 0 <= i < |ws| ==> ws[i].bno < |d|
  {
    InstallWrites(start, d, HeadBlocks(d[start])) + [Write(start, HeadImage(d[start], []))]
  }

  /** Commit's first half: the log blocks, then the header naming them. */
  function CommitFront(start: nat, d: Disk, view: Disk, lh: seq<nat>): (ws: seq<Write>)
    requires start < |d| && |lh| <= LOGBLOCKS && forall i :: 0 <= i < |lh| ==> lh[i] < |view|
  {
    LogWrites(start, view, lh) + [Write(start, HeadImage(d[start], lh))]
  }

  /** Commit's second half, from the disk `logged` with its log and header written:
      install every block, then clear the header. */
  function CommitBack(start: nat, logged: Disk, lh: seq<nat>): (ws: seq<Write>)
    requires start + |lh| < |logged|
  {
    InstallWrites(start, logged, lh) + [Write(start, HeadImage(logged[start], []))]
  }

  /** Commit of the block list `lh` from disk `d`, `view` being the cached contents. */
  ghost function CommitWrites(start: nat, d: Disk, view: Disk, lh: seq<nat>): (ws: seq<Write>)
    requires ValidDisk(start, d) && |view| == |d| && Targets(start, |d|, lh)
    ensures forall i :: 0 <= i < |ws| ==> ws[i].bno < |d|
  {
    if lh == [] then []
    else
      var front := CommitFront(start, d, view, lh);
      front + CommitBack(start, Apply(d, front), lh)
  }

  // ----- What a disk stands for -----

  /** `h` is the home contents that a completed recovery of `d` produces. */
  ghost predicate Denotes(start: nat, d: Disk, h: Disk) {
    && ValidDisk(start, d) && |h| == |d|
    && var lh := HeadBlocks(d[start]);
    && (forall i :: 0 <= i < |lh| ==> h[lh[i]] == d[start + 1 + i])
    && (forall b :: 0 <= b < |d| && !InLog(start, b) && b !in lh ==> h[b] == d[b])
  }

  ghost predicate SameHome(start: nat, d: Disk, h: Disk) {
    |d| == |h| && forall b :: 0 <= b < |d| && !InLog(start, b) ==> d[b] == h[b]
  }

  /** Home contents with every block of the transaction replaced by its cached contents. */
  function Committed(h: Disk, view: Disk, lh: seq<nat>): (r: Disk)
    requires |view| == |h|
    ensures |r| == |h|
  {
    seq(|h|, b requires 0 <= b < |h| => if b in lh then view[b] else h[b])
  }

  /** Disk contents as seen through a cache that holds some blocks' newer contents. */
  function Overlay(d: Disk, cached: map<nat, Block>): (v: Disk)
    ensures |v| == |d|
    ensures forall b :: 0 <= b < |d| ==> v[b] == if b in cached then cached[b] else d[b]
  {
    seq(|d|, b requires 0 <= b < |d| => if b in cached then cached[b] else d[b])
  }

  // ----- Commit -----

  /** Writing log blocks under a cleared header changes nothing that recovery would see. */
  lemma {:induction false} LogWritesInvisible(start: nat, d: Disk, view: Disk, lh: seq<nat>, k: nat)
    requires ValidDisk(start, d) && d[start][0] == 0 && |view| == |d| && Targets(start, |d|, lh)
    requires k <= |lh|
    ensures
      var e := Apply(d, LogWrites(start, view, lh)[..k]);
      && e[start] == d[start] && SameHome(start, e, d)
      && forall i :: 0 <= i < k ==> e[start + 1 + i] == view[lh[i]]
  {
    if k > 0 {
      LogWritesInvisible(start, d, view, lh, k - 1);
      ApplyStep(d, LogWrites(start, view, lh), k - 1);
    } else {
      assert LogWrites(start, view, lh)[..0] == [];
    }
  }

  ghost predicate Installed(start: nat, d: Disk, e: Disk, h: Disk, k: nat)
    requires ValidDisk(start, d) && |e| == |h| == |d| && k <= d[start][0]
  {
    var lh := HeadBlocks(d[start]);
    && (forall b :: 0 <= b < |d| && InLog(start, b) ==> e[b] == d[b])
    && (forall i :: 0 <= i < k ==> e[lh[i]] == h[lh[i]])
  }

  lemma InstallOne(start: nat, d: Disk, e: Disk, h: Disk, k: nat)
    requires Denotes(start, d, h) && k < d[start][0] && Denotes(start, e, h) && |e| == |d| && e[start] == d[start]
    requires Installed(start, d, e, h, k)
    ensures var e' := e[HeadBlocks(d[start])[k] := d[start + 1 + k]];
            Denotes(start, e', h) && e'[start] == d[start] && Installed(start, d, e', h, k + 1)
  {
  }

  /** Installing any prefix of the logged blocks keeps what the disk stands for. */
  lemma {:induction false} InstallKeepsMeaning(start: nat, d: Disk, h: Disk, k: nat)
    requires Denotes(start, d, h) && k <= d[start][0]
    ensures
      var lh := HeadBlocks(d[start]);
      var e := Apply(d, InstallWrites(start, d, lh)[..k]);
      Denotes(start, e, h) && e[start] == d[start] && Installed(start, d, e, h, k)
  {
    var lh := HeadBlocks(d[start]);
    var ws := InstallWrites(start, d, lh);
    if k > 0 {
      hide Apply;
      InstallKeepsMeaning(start, d, h, k - 1);
      ApplyStep(d, ws, k - 1);
      InstallOne(start, d, Apply(d, ws[..k - 1]), h, k - 1);
    } else {
      assert ws[..0] == [];
    }
  }

  /** Clearing the header once everything is installed keeps what the disk stands for. */
  lemma ClearKeepsMeaning(start: nat, d: Disk, h: Disk)
    requires Denotes(start, d, h)
    requires var lh := HeadBlocks(d[start]); forall i :: 0 <= i < |lh| ==> d[lh[i]] == h[lh[i]]
    ensures
      var e := d[start := HeadImage(d[start], [])];
      Denotes(start, e, h) && e[start][0] == 0 && SameHome(start, e, h)
  {
    HeadRoundTrip(start, |d|, d[start], []);
  }

  /** Recovery cut off after any number of its writes keeps what the disk stands for;
      run to its end it leaves exactly those home contents and an empty log. */
  lemma RecoveryKeepsMeaning(start: nat, d: Disk, h: Disk, k: nat)
    requires Denotes(start, d, h) && k <= |RecoveryWrites(start, d)|
    ensures
      var e := Apply(d, RecoveryWrites(start, d)[..k]);
      && Denotes(start, e, h)
      && (k == |RecoveryWrites(start, d)| ==> e[start][0] == 0 && SameHome(start, e, h))
  {
    var lh := HeadBlocks(d[start]);
    var ins := InstallWrites(start, d, lh);
    var ws := RecoveryWrites(start, d);
    if k <= |lh| {
      InstallKeepsMeaning(start, d, h, k);
      assert ws[..k] == ins[..k];
    } else {
      InstallKeepsMeaning(start, d, h, |lh|);
      assert ws[..|lh|] == ins[..|lh|];
      ApplyStep(d, ws, |lh|);
      ClearKeepsMeaning(start, Apply(d, ws[..|lh|]), h);
    }
  }

  /** Once the header is written the disk stands for the committed contents, and the rest of
      commit performs the very writes recovery would. */
  lemma HeaderCommits(start: nat, d: Disk, view: Disk, lh: seq<nat>)
    requires ValidDisk(start, d) && d[start][0] == 0 && |view| == |d| && Targets(start, |d|, lh)
    ensures
      var e := Apply(d, CommitFront(start, d, view, lh));
      && Denotes(start, e, Committed(d, view, lh))
      && CommitBack(start, e, lh) == RecoveryWrites(start, e)
  {
    var lw := LogWrites(start, view, lh);
    LogWritesInvisible(start, d, view, lh, |lh|);
    assert lw[..|lh|] == lw;
    HeadRoundTrip(start, |d|, d[start], lh);
    var hw := Write(start, HeadImage(d[start], lh));
    ApplyConcat(d, lw, [hw]);
    assert Apply(Apply(d, lw), [hw]) == Apply(d, lw)[start := hw.data];
  }

  lemma BeforeCommit(start: nat, d: Disk, view: Disk, lh: seq<nat>, k: nat)
    requires ValidDisk(start, d) && d[start][0] == 0 && |view| == |d| && Targets(start, |d|, lh) && k <= |lh|
    ensures var ws := CommitFront(start, d, view, lh)[..k];
            (forall i :: 0 <= i < |ws| ==> ws[i].bno < |d|) && Denotes(start, Apply(d, ws), d)
  {
    LogWritesInvisible(start, d, view, lh, k);
    assert CommitFront(start, d, view, lh)[..k] == LogWrites(start, view, lh)[..k];
  }

  lemma CommitNothing(start: nat, d: Disk, view: Disk)
    requires ValidDisk(start, d) && d[start][0] == 0 && |view| == |d|
    ensures CommitWrites(start, d, view, []) == [] && Apply(d, []) == d
    ensures Denotes(start, d, d) && SameHome(start, d, Committed(d, view, []))
  {
  }

  /** The header write is the commit point: before it the disk stands for the old home
      contents, from it on for the new ones. */
  lemma CommitPoint(start: nat, d: Disk, view: Disk, lh: seq<nat>, k: nat)
    requires ValidDisk(start, d) && d[start][0] == 0 && |view| == |d| && Targets(start, |d|, lh)
    requires k <= |CommitWrites(start, d, view, lh)|
    ensures
      var e := Apply(d, CommitWrites(start, d, view, lh)[..k]);
      && Denotes(start, e, if k <= |lh| then d else Committed(d, view, lh))
      && (k == |CommitWrites(start, d, view, lh)| ==>
            e[start][0] == 0 && SameHome(start, e, Committed(d, view, lh)))
  {
    if lh == [] {
      CommitNothing(start, d, view);
    } else {
      hide Apply, ValidDisk, Targets, Denotes, SameHome, Committed, LogWrites, InstallWrites;
      var front := CommitFront(start, d, view, lh);
      var headed := Apply(d, front);
      HeaderCommits(start, d, view, lh);
      ApplyPrefix(d, front, CommitBack(start, headed, lh), k);
      if k <= |lh| {
        BeforeCommit(start, d, view, lh, k);
      } else {
        RecoveryKeepsMeaning(start, headed, Committed(d, view, lh), k - |front|);
      }
    }
  }

  /** A finished commit. */
  lemma CommitFinished(start: nat, d: Disk, view: Disk, lh: seq<nat>, e: Disk)
    requires ValidDisk(start, d) && d[start][0] == 0 && |view| == |d| && Targets(start, |d|, lh)
    requires e == Apply(d, CommitWrites(start, d, view, lh))
    ensures ValidDisk(start, e) && e[start][0] == 0 && SameHome(start, e, Committed(d, view, lh))
  {
    var ws := CommitWrites(start, d, view, lh);
    assert ws[..|ws|] == ws;
    CommitPoint(start, d, view, lh, |ws|);
  }

  /** If the listed blocks are all that the cache holds, committing them makes its view durable. */
  lemma CommittedIsView(start: nat, d: Disk, cached: map<nat, Block>, lh: seq<nat>)
    requires forall b :: b in cached ==> b in lh
    ensures Committed(d, Overlay(d, cached), lh) == Overlay(d, cached)
  {
  }

  // ----- Crashes during recovery -----

  /** The disk after a series of recoveries, each cut off by a crash after `cuts[i]` writes. */
  ghost function Interrupted(start: nat, d: Disk, cuts: seq<nat>): (r: Disk)
    requires ValidDisk(start, d)
    decreases |cuts|
  {
    if cuts == [] then d
    else
      var ws := RecoveryWrites(start, d);
      var e := Apply(d, ws[..Min(cuts[0], |ws|)]);
      if ValidDisk(start, e) then Interrupted(start, e, cuts[1..]) else e
  }

  lemma {:induction false} InterruptedKeepsMeaning(start: nat, d: Disk, h: Disk, cuts: seq<nat>)
    requires Denotes(start, d, h)
    ensures Denotes(start, Interrupted(start, d, cuts), h)
    decreases |cuts|
  {
    if cuts != [] {
      var ws := RecoveryWrites(start, d);
      var k := Min(cuts[0], |ws|);
      RecoveryKeepsMeaning(start, d, h, k);
      InterruptedKeepsMeaning(start, Apply(d, ws[..k]), h, cuts[1..]);
    }
  }

  /** A completed recovery. */
  ghost function Recover(start: nat, d: Disk): (r: Disk)
    requires ValidDisk(start, d)
  {
    Apply(d, RecoveryWrites(start, d))
  }

  /** The disk found after a crash inside commit (after `k` of its writes) and any number of
      crashes inside the following recoveries. */
  ghost function Crashed(start: nat, d: Disk, view: Disk, lh: seq<nat>, k: nat, cuts: seq<nat>): (r: Disk)
    requires ValidDisk(start, d) && d[start][0] == 0 && |view| == |d| && Targets(start, |d|, lh)
    ensures ValidDisk(start, r) && |r| == |d|
  {
    var ws := CommitWrites(start, d, view, lh);
    CommitPoint(start, d, view, lh, Min(k, |ws|));
    var e := Apply(d, ws[..Min(k, |ws|)]);
    InterruptedKeepsMeaning(start, e, if Min(k, |ws|) <= |lh| then d else Committed(d, view, lh), cuts);
    Interrupted(start, e, cuts)
  }

  /** Crash atomicity. Wherever commit is cut off and however often recovery is, the recovery
      that finally completes leaves all home blocks old or all of them new. */
  lemma CrashAtomicity(start: nat, d: Disk, view: Disk, lh: seq<nat>, k: nat, cuts: seq<nat>)
    requires ValidDisk(start, d) && d[start][0] == 0 && |view| == |d| && Targets(start, |d|, lh)
    ensures
      var r := Recover(start, Crashed(start, d, view, lh, k, cuts));
      && ValidDisk(start, r) && r[start][0] == 0
      && SameHome(start, r, if k <= |lh| then d else Committed(d, view, lh))
  {
    var ws := CommitWrites(start, d, view, lh);
    var j := Min(k, |ws|);
    CommitPoint(start, d, view, lh, j);
    var h := if j <= |lh| then d else Committed(d, view, lh);
    InterruptedKeepsMeaning(start, Apply(d, ws[..j]), h, cuts);
    var c := Crashed(start, d, view, lh, k, cuts);
    var rw := RecoveryWrites(start, c);
    assert rw[..|rw|] == rw;
    RecoveryKeepsMeaning(start, c, h, |rw|);
    if lh == [] {
      assert Committed(d, view, lh) == d;
    }
  }

  // ----- Whole runs -----

  /** One transaction of a run: committed without a crash, or cut off and then recovered. */
  datatype Episode =
    | Finished(view: Disk, lh: seq<nat>)
    | CutOff(view: Disk, lh: seq<nat>, k: nat, cuts: seq<nat>)

  ghost predicate ValidEpisode(start: nat, size: nat, ep: Episode) {
    |ep.view| == size && Targets(start, size, ep.lh)
  }

  ghost function AfterEpisode(start: nat, d: Disk, ep: Episode): (r: Disk)
    requires ValidDisk(start, d) && d[start][0] == 0 && ValidEpisode(start, |d|, ep)
    ensures |r| == |d|
  {
    match ep
    case Finished(view, lh) => Apply(d, CommitWrites(start, d, view, lh))
    case CutOff(view, lh, k, cuts) => Recover(start, Crashed(start, d, view, lh, k, cuts))
  }

  /** The transactions that count: the finished ones and those cut off past the header write. */
  predicate Survives(ep: Episode) {
    ep.Finished? || ep.k > |ep.lh|
  }

  ghost function Durable(h: Disk, eps: seq<Episode>): (r: Disk)
    requires forall i :: 0 <= i < |eps| ==> |eps[i].view| == |h|
    decreases |eps|
  {
    if eps == [] then h
    else Durable(if Survives(eps[0]) then Committed(h, eps[0].view, eps[0].lh) else h, eps[1..])
  }

  ghost function AfterRun(start: nat, d: Disk, eps: seq<Episode>): (r: Disk)
    requires ValidDisk(start, d) && d[start][0] == 0
    requires forall i :: 0 <= i < |eps| ==> ValidEpisode(start, |d|, eps[i])
    decreases |eps|
  {
    if eps == [] then d
    else
      var e := AfterEpisode(start, d, eps[0]);
      if ValidDisk(start, e) && e[start][0] == 0 then AfterRun(start, e, eps[1..]) else e
  }

  /** Over any sequence of transactions and crashes, the home blocks are those obtained by
      applying, in order, exactly the surviving transactions as units. */
  lemma {:induction false} RunAtomicity(start: nat, d: Disk, h: Disk, eps: seq<Episode>)
    requires ValidDisk(start, d) && d[start][0] == 0 && SameHome(start, d, h)
    requires forall i :: 0 <= i < |eps| ==> ValidEpisode(start, |d|, eps[i])
    ensures
      var r := AfterRun(start, d, eps);
      ValidDisk(start, r) && r[start][0] == 0 && SameHome(start, r, Durable(h, eps))
    decreases |eps|
  {
    if eps != [] {
      var ep := eps[0];
      var ws := CommitWrites(start, d, ep.view, ep.lh);
      var e := AfterEpisode(start, d, ep);
      var h' := if Survives(ep) then Committed(h, ep.view, ep.lh) else h;
      match ep {
        case Finished(view, lh) =>
          assert ws[..|ws|] == ws;
          CommitPoint(start, d, view, lh, |ws|);
        case CutOff(view, lh, k, cuts) =>
          CrashAtomicity(start, d, view, lh, k, cuts);
      }
      assert SameHome(start, e, h');
      RunAtomicity(start, e, h', eps[1..]);
    }
  }
}
