/** Reading an ext2 file: direct, indirect and double-indirect blocks against a flat list of blocks. */
module Ext2 {
  import opened Words

  type Content = seq<int>

  /** The device: what a block holds as data, and what it holds as a table of block numbers. */
  datatype Disk = Disk(data: nat -> Content, table: nat -> seq<nat>, bpi: nat, blkSize: nat)

  datatype Inode = Inode(block: seq<nat>, size: nat)

  const DIRECT: nat := 12

  ghost predicate Valid(d: Disk, n: Inode) {
    && d.bpi > 0 && d.blkSize > 0 && |n.block| == 15
    && (forall b {:trigger d.table(b)} :: |d.table(b)| == d.bpi)
    && (forall b {:trigger d.data(b)} :: |d.data(b)| == d.blkSize)
  }

  /** The first logical block that a double-indirect inode cannot reach. */
  function Limit(d: Disk): nat {
    DIRECT + d.bpi + d.bpi * d.bpi
  }

  /** A table entry; no table gives no block. */
  function Entry(d: Disk, table: nat, i: nat): nat {
    if table < 2 || i >= |d.table(table)| then 0 else d.table(table)[i]
  }

  /** The device block of logical block j; below 2 there is none. */
  function BlockNo(d: Disk, n: Inode, j: nat): nat
    requires |n.block| == 15 && d.bpi > 0
  {
    if j < DIRECT then n.block[j]
    else if j < DIRECT + d.bpi then Entry(d, n.block[12], j - DIRECT)
    else if j < Limit(d) then
      var k := j - DIRECT - d.bpi;
      Entry(d, Entry(d, n.block[13], k / d.bpi), k % d.bpi)
    else 0
  }

  predicate Hole(d: Disk, n: Inode, j: nat)
    requires |n.block| == 15 && d.bpi > 0
  {
    BlockNo(d, n, j) < 2
  }

  /** The flat reading: blocks from start on, at most that many, until the first hole. */
  function Flat(d: Disk, n: Inode, start: nat, blocks: nat): (r: seq<Content>)
    requires |n.block| == 15 && d.bpi > 0
    ensures |r| <= blocks
    decreases blocks
  {
    if blocks == 0 || Hole(d, n, start) then []
    else [d.data(BlockNo(d, n, start))] + Flat(d, n, start + 1, blocks - 1)
  }

  /** It stops early only at a hole. */
  lemma {:induction false} FlatStops(d: Disk, n: Inode, start: nat, blocks: nat)
    requires |n.block| == 15 && d.bpi > 0 && |Flat(d, n, start, blocks)| < blocks
    ensures Hole(d, n, start + |Flat(d, n, start, blocks)|)
    decreases blocks
  {
    hide BlockNo, Hole;
    if !Hole(d, n, start) {
      FlatStops(d, n, start + 1, blocks - 1);
      assert start + |Flat(d, n, start, blocks)| == start + 1 + |Flat(d, n, start + 1, blocks - 1)|;
    } else {
      assert start + |Flat(d, n, start, blocks)| == start;
    }
  }

  /** Each block it returns is the content of the logical block's device block. */
  lemma {:induction false} FlatAt(d: Disk, n: Inode, start: nat, blocks: nat, i: nat)
    requires |n.block| == 15 && d.bpi > 0 && i < |Flat(d, n, start, blocks)|
    ensures !Hole(d, n, start + i) && Flat(d, n, start, blocks)[i] == d.data(BlockNo(d, n, start + i))
    decreases blocks
  {
    hide BlockNo, Hole;
    if i > 0 {
      FlatAt(d, n, start + 1, blocks - 1, i - 1);
      assert start + i == start + 1 + (i - 1);
    } else {
      assert start + i == start;
    }
  }

  /** Where there is no hole it returns everything asked for. */
  lemma {:induction false} FlatFull(d: Disk, n: Inode, start: nat, blocks: nat)
    requires |n.block| == 15 && d.bpi > 0 && forall j :: start <= j < start + blocks ==> !Hole(d, n, j)
    ensures |Flat(d, n, start, blocks)| == blocks
    decreases blocks
  {
    hide BlockNo, Hole;
    if blocks > 0 {
      FlatFull(d, n, start + 1, blocks - 1);
    }
  }

  /** A read ends with blocks, with an index before the table, or never. */
  datatype Outcome = Blocks(b: seq<Content>) | BadIndex | Hangs

  /** What has been read so far, and how the rest continues it. */
  ghost predicate Progress(d: Disk, n: Inode, start: nat, blocks: nat, got: seq<Content>, left: nat)
    requires |n.block| == 15 && d.bpi > 0
  {
    |got| + left == blocks && Flat(d, n, start, blocks) == got + Flat(d, n, start + |got|, left)
  }

  lemma ProgressStep(d: Disk, n: Inode, start: nat, blocks: nat, got: seq<Content>, left: nat)
    requires |n.block| == 15 && d.bpi > 0 && Progress(d, n, start, blocks, got, left) && left > 0
    requires !Hole(d, n, start + |got|)
    ensures Progress(d, n, start, blocks, got + [d.data(BlockNo(d, n, start + |got|))], left - 1)
  {
    var c := d.data(BlockNo(d, n, start + |got|));
    assert Flat(d, n, start + |got|, left) == [c] + Flat(d, n, start + |got| + 1, left - 1);
    assert got + ([c] + Flat(d, n, start + |got| + 1, left - 1)) == (got + [c]) + Flat(d, n, start + |got| + 1, left - 1);
  }

  lemma ProgressEnd(d: Disk, n: Inode, start: nat, blocks: nat, got: seq<Content>, left: nat)
    requires |n.block| == 15 && d.bpi > 0 && Progress(d, n, start, blocks, got, left)
    requires left == 0 || Hole(d, n, start + |got|)
    ensures got == Flat(d, n, start, blocks)
  {
  }

  // ---- positions in the double-indirect range --------------------------------------------

  /** Position idx is entry idx % bpi of table idx / bpi, and that table exists. */
  lemma SlotOf(b: nat, idx: nat)
    requires b > 0 && idx < b * b
    ensures idx / b < b
  {
    var q, r := Quotient(idx, b);
    if q >= b {
      MulMonotone(b, q, b);
    }
  }

  lemma NextSlot(b: nat, tmp: nat, i: nat, idx: nat)
    requires b > 0 && idx < b * b && idx / b == tmp && idx % b == i
    ensures i + 1 < b ==> (idx + 1) / b == tmp && (idx + 1) % b == i + 1 && idx + 1 < b * b
    ensures i + 1 == b ==> (idx + 1) % b == 0 && idx + 1 <= b * b
  {
    var q, r := Quotient(idx, b);
    SlotOf(b, idx);
    MulMonotone(tmp + 1, b, b);
    assert (tmp + 1) * b == tmp * b + b;
    if i + 1 < b {
      DivMod(idx + 1, b, tmp, i + 1);
    } else {
      DivMod(idx + 1, b, tmp + 1, 0);
    }
  }

  lemma TopSlot(d: Disk, n: Inode, idx: nat)
    requires Valid(d, n) && n.block[13] >= 2 && idx < d.bpi * d.bpi
    ensures idx / d.bpi < d.bpi
    ensures d.table(n.block[13])[idx / d.bpi] < 2 ==> Hole(d, n, DIRECT + d.bpi + idx)
  {
    SlotOf(d.bpi, idx);
  }

  lemma SecondLevel(d: Disk, n: Inode, tmp: nat, i: nat, idx: nat)
    requires Valid(d, n) && n.block[13] >= 2 && idx < d.bpi * d.bpi && idx / d.bpi == tmp && idx % d.bpi == i
    requires tmp < d.bpi && d.table(n.block[13])[tmp] >= 2 && i < d.bpi
    ensures BlockNo(d, n, DIRECT + d.bpi + idx) == d.table(d.table(n.block[13])[tmp])[i]
    ensures d.table(d.table(n.block[13])[tmp])[i] < 2 ==> Hole(d, n, DIRECT + d.bpi + idx)
  {
  }

  lemma NoTop(d: Disk, n: Inode, k: nat)
    requires Valid(d, n) && n.block[13] < 2 && k < d.bpi * d.bpi
    ensures Hole(d, n, DIRECT + d.bpi + k)
  {
  }

  /** Positions behind the double-indirect range, and their place relative to the limit. */
  lemma BeyondLimit(d: Disk, n: Inode, k: int)
    requires Valid(d, n) && 0 <= DIRECT + d.bpi + k
    ensures k >= d.bpi * d.bpi ==> Hole(d, n, DIRECT + d.bpi + k)
    ensures DIRECT + d.bpi + k == Limit(d) <==> k == d.bpi * d.bpi
    ensures DIRECT + d.bpi + k < Limit(d) <==> k < d.bpi * d.bpi
    ensures d.bpi * d.bpi > 0
  {
  }

  /** Without the indirect table its range is a hole. */
  lemma NoTable(d: Disk, n: Inode, idx: nat)
    requires Valid(d, n) && n.block[12] < 2 && idx < DIRECT + d.bpi && (idx >= DIRECT || Hole(d, n, idx))
    ensures Hole(d, n, idx)
  {
  }

  class Reader {
    const disk: Disk
    const inode: Inode
    /** Blocks copied so far and blocks still wanted. */
    var got: seq<Content>
    var left: nat

    constructor (disk: Disk, inode: Inode)
      ensures this.disk == disk && this.inode == inode
    {
      this.disk, this.inode, this.got, this.left := disk, inode, [], 0;
    }

    /** One block copied to the buffer. */
    method CopyBlock(b: nat, ghost start: nat, ghost blocks: nat)
      requires Valid(disk, inode) && Progress(disk, inode, start, blocks, got, left) && left > 0
      requires b >= 2 && b == BlockNo(disk, inode, start + |got|)
      modifies this
      ensures Progress(disk, inode, start, blocks, got, left)
      ensures |got| == |old(got)| + 1 && left == old(left) - 1
    {
      ProgressStep(disk, inode, start, blocks, got, left);
      got := got + [disk.data(b)];
      left := left - 1;
    }

    /** The loop over the direct blocks; idx is where it stopped. */
    method ReadDirect(start: nat, ghost blocks: nat) returns (idx: nat)
      requires Valid(disk, inode) && Progress(disk, inode, start, blocks, got, left) && got == []
      modifies this
      ensures Progress(disk, inode, start, blocks, got, left)
      ensures idx == start + |got|
      ensures left == 0 || idx >= DIRECT || Hole(disk, inode, idx)
      ensures idx <= DIRECT || got == []
    {
      idx := start;
      while left > 0 && idx < DIRECT
        invariant Progress(disk, inode, start, blocks, got, left) && idx == start + |got|
        invariant idx <= DIRECT || got == []
        decreases left
      {
        if inode.block[idx] < 2 {
          return;
        }
        CopyBlock(inode.block[idx], start, blocks);
        idx := idx + 1;
      }
    }

    /** The loop over the entries of the indirect block; k is where it stopped. */
    method ReadIndirect(first: nat, start: nat, ghost blocks: nat) returns (k: nat)
      requires Valid(disk, inode) && Progress(disk, inode, start, blocks, got, left)
      requires inode.block[12] >= 2 && first < disk.bpi && start + |got| == DIRECT + first
      modifies this
      ensures Progress(disk, inode, start, blocks, got, left)
      ensures start + |got| == DIRECT + k && k <= disk.bpi
      ensures left == 0 || k == disk.bpi || Hole(disk, inode, DIRECT + k)
    {
      k := first;
      var table := disk.table(inode.block[12]);
      while k < disk.bpi && left > 0
        invariant Progress(disk, inode, start, blocks, got, left) && start + |got| == DIRECT + k && k <= disk.bpi
        decreases left
      {
        if table[k] < 2 {
          return;
        }
        CopyBlock(table[k], start, blocks);
        k := k + 1;
      }
    }

    /** One second-level table from entry i on, which is block idx of the double-indirect range. */
    method ReadTable(b: nat, tmp: nat, first: nat, at: nat, start: nat, ghost blocks: nat) returns (idx: nat, hole: bool)
      requires Valid(disk, inode) && Progress(disk, inode, start, blocks, got, left) && left > 0
      requires inode.block[13] >= 2 && tmp < disk.bpi && b == disk.table(inode.block[13])[tmp] && b >= 2
      requires at < disk.bpi * disk.bpi && at / disk.bpi == tmp && at % disk.bpi == first
      requires start + |got| == DIRECT + disk.bpi + at
      modifies this
      ensures Progress(disk, inode, start, blocks, got, left) && left <= old(left)
      ensures start + |got| == DIRECT + disk.bpi + idx && idx <= disk.bpi * disk.bpi
      ensures hole ==> idx < disk.bpi * disk.bpi && Hole(disk, inode, DIRECT + disk.bpi + idx)
      ensures !hole ==> left < old(left) && (left == 0 || idx % disk.bpi == 0)
    {
      hide Progress, BlockNo, Hole;
      var i := first;
      idx := at;
      hole := false;
      var table := disk.table(b);
      while i < disk.bpi && left > 0
        invariant i <= disk.bpi && Progress(disk, inode, start, blocks, got, left)
        invariant start + |got| == DIRECT + disk.bpi + idx && idx <= disk.bpi * disk.bpi
        invariant i < disk.bpi ==> idx < disk.bpi * disk.bpi && idx / disk.bpi == tmp && idx % disk.bpi == i
        invariant i == disk.bpi ==> idx % disk.bpi == 0
        invariant left <= old(left) && (i == first ==> left == old(left) && idx == at) && (i > first ==> left < old(left))
        invariant first <= i
        decreases left
      {
        SecondLevel(disk, inode, tmp, i, idx);
        if table[i] < 2 {
          hole := true;
          return;
        }
        CopyBlock(table[i], start, blocks);
        NextSlot(disk.bpi, tmp, i, idx);
        i := i + 1;
        idx := idx + 1;
      }
    }

    /** The loop over the second-level tables. */
    method ReadDouble(from: nat, start: nat, ghost blocks: nat) returns (idx: nat, hole: bool)
      requires Valid(disk, inode) && Progress(disk, inode, start, blocks, got, left)
      requires inode.block[13] >= 2 && from < disk.bpi * disk.bpi && start + |got| == DIRECT + disk.bpi + from
      modifies this
      ensures Progress(disk, inode, start, blocks, got, left)
      ensures start + |got| == DIRECT + disk.bpi + idx && idx <= disk.bpi * disk.bpi
      ensures hole ==> idx < disk.bpi * disk.bpi && Hole(disk, inode, DIRECT + disk.bpi + idx)
      ensures !hole ==> left == 0 || idx == disk.bpi * disk.bpi
    {
      hide Progress, BlockNo, Hole;
      idx := from;
      hole := false;
      var top := disk.table(inode.block[13]);
      while idx < disk.bpi * disk.bpi && left > 0
        invariant Progress(disk, inode, start, blocks, got, left)
        invariant start + |got| == DIRECT + disk.bpi + idx && idx <= disk.bpi * disk.bpi
        decreases left
      {
        TopSlot(disk, inode, idx);
        var tmp := idx / disk.bpi;
        if top[tmp] < 2 {
          hole := true;
          return;
        }
        idx, hole := ReadTable(top[tmp], tmp, idx % disk.bpi, idx, start, blocks);
        if hole {
          return;
        }
      }
    }

    /** inode_rw_content for EXT2_RW_READ. */
    method ReadBlocks(start: nat, blocks: nat) returns (r: Outcome)
      requires Valid(disk, inode)
      modifies this
      ensures r == Expected(disk, inode, start, blocks)
    {
      hide Progress, BlockNo, Hole, Limit, Expected;
      got, left := [], blocks;
      ProgressStart(disk, inode, start, blocks);
      var idx := ReadDirect(start, blocks);
      if left == 0 {
        EndBlocks(disk, inode, start, blocks, got, left);
        return Blocks(got);
      }
      var k := idx - DIRECT;
      BeyondLimit(disk, inode, k - disk.bpi);
      if k < disk.bpi {
        if inode.block[12] < 2 {
          NoTable(disk, inode, idx);
          EndBlocks(disk, inode, start, blocks, got, left);
          return Blocks(got);
        }
        if k < 0 {
          EndBad(disk, inode, start, blocks, got, left);
          return BadIndex;
        }
        k := ReadIndirect(k, start, blocks);
      }
      k := k - disk.bpi;
      r := ReadRest(k, start, blocks);
    }

    /** The double-indirect part, if the read got that far. */
    method ReadRest(k: int, start: nat, blocks: nat) returns (r: Outcome)
      requires Valid(disk, inode) && Progress(disk, inode, start, blocks, got, left)
      requires start + |got| == DIRECT + disk.bpi + k && DIRECT <= start + |got|
      requires k < 0 ==> left == 0 || Hole(disk, inode, start + |got|)
      requires k >= disk.bpi * disk.bpi ==> start + |got| == start
      modifies this
      ensures r == Expected(disk, inode, start, blocks)
    {
      hide Progress, BlockNo, Hole, Limit, Expected;
      BeyondLimit(disk, inode, k);
      if 0 <= k < disk.bpi * disk.bpi {
        if inode.block[13] < 2 {
          NoTop(disk, inode, k);
          EndBlocks(disk, inode, start, blocks, got, left);
          return Blocks(got);
        }
        var at, hole := ReadDouble(k, start, blocks);
        if !hole && left > 0 {
          EndHang(disk, inode, start, blocks, got, left);
          return Hangs;
        }
        BeyondLimit(disk, inode, at);
      }
      EndBlocks(disk, inode, start, blocks, got, left);
      return Blocks(got);
    }
  }

  /** What the tiered read returns, in terms of the flat one. */
  ghost function Expected(d: Disk, n: Inode, start: nat, blocks: nat): Outcome
    requires |n.block| == 15 && d.bpi > 0
  {
    var flat := Flat(d, n, start, blocks);
    var stop := start + |flat|;
    if |flat| < blocks && stop < DIRECT && n.block[12] >= 2 then BadIndex
    else if |flat| < blocks && stop == Limit(d) && start < Limit(d) then Hangs
    else Blocks(flat)
  }

  lemma ProgressStart(d: Disk, n: Inode, start: nat, blocks: nat)
    requires |n.block| == 15 && d.bpi > 0
    ensures Progress(d, n, start, blocks, [], blocks)
  {
  }

  lemma EndBlocks(d: Disk, n: Inode, start: nat, blocks: nat, got: seq<Content>, left: nat)
    requires |n.block| == 15 && d.bpi > 0 && Progress(d, n, start, blocks, got, left)
    requires left == 0 || Hole(d, n, start + |got|)
    requires left > 0 && start + |got| < DIRECT ==> n.block[12] < 2
    requires left > 0 && start + |got| == Limit(d) ==> start == Limit(d)
    ensures Blocks(got) == Expected(d, n, start, blocks)
  {
    hide BlockNo, Hole;
    ProgressEnd(d, n, start, blocks, got, left);
  }

  lemma EndBad(d: Disk, n: Inode, start: nat, blocks: nat, got: seq<Content>, left: nat)
    requires |n.block| == 15 && d.bpi > 0 && Progress(d, n, start, blocks, got, left)
    requires left > 0 && Hole(d, n, start + |got|) && start + |got| < DIRECT && n.block[12] >= 2
    ensures BadIndex == Expected(d, n, start, blocks)
  {
    hide BlockNo, Hole;
    ProgressEnd(d, n, start, blocks, got, left);
  }

  lemma EndHang(d: Disk, n: Inode, start: nat, blocks: nat, got: seq<Content>, left: nat)
    requires |n.block| == 15 && d.bpi > 0 && Progress(d, n, start, blocks, got, left)
    requires left > 0 && start + |got| == DIRECT + d.bpi + d.bpi * d.bpi
    requires start < DIRECT + d.bpi + d.bpi * d.bpi
    ensures Hangs == Expected(d, n, start, blocks)
  {
    assert Hole(d, n, start + |got|);
    ProgressEnd(d, n, start, blocks, got, left);
  }

  // ---- ext2_read -----------------------------------------------------------------------------

  /** A call returns every block asked for exactly when none of them is a hole. */
  lemma AllRead(d: Disk, n: Inode, start: nat, blocks: nat)
    requires |n.block| == 15 && d.bpi > 0
    ensures var r := Expected(d, n, start, blocks);
      (r.Blocks? && |r.b| == blocks) <==> forall j :: start <= j < start + blocks ==> !Hole(d, n, j)
  {
    hide BlockNo, Hole;
    if |Flat(d, n, start, blocks)| == blocks {
      forall j | start <= j < start + blocks ensures !Hole(d, n, j) {
        FlatAt(d, n, start, blocks, j - start);
      }
    }
    if forall j :: start <= j < start + blocks ==> !Hole(d, n, j) {
      FlatFull(d, n, start, blocks);
    }
  }

  /** Byte number x of the file. */
  function ByteAt(d: Disk, n: Inode, x: nat): int
    requires Valid(d, n)
  {
    d.data(BlockNo(d, n, x / d.blkSize))[x % d.blkSize]
  }

  /** A byte of the caller's buffer: read from the file, or whatever a buffer held before. */
  datatype Cell = Byte(v: int) | Stale

  /** ext2_read returns, reads before a table of block numbers, or never ends. */
  datatype ReadResult = Ends(out: seq<Cell>) | Strays | Stuck

  /** The byte a call delivers that stopped before block stop. */
  ghost function CellOf(d: Disk, n: Inode, stop: nat, x: nat): Cell
    requires Valid(d, n)
  {
    if x / d.blkSize < stop then Byte(ByteAt(d, n, x)) else Stale
  }

  /** Bytes x to x + len as one call delivers them that asks for the given blocks. */
  ghost function Served(d: Disk, n: Inode, start: nat, blocks: nat, x: nat, len: nat): ReadResult
    requires Valid(d, n)
  {
    match Expected(d, n, start, blocks)
    case BadIndex => Strays
    case Hangs => Stuck
    case Blocks(b) => Ends(seq(len, i requires 0 <= i < len => CellOf(d, n, start + |b|, x + i)))
  }

  ghost function Then(a: ReadResult, b: ReadResult): ReadResult {
    if a.Ends? && b.Ends? then Ends(a.out + b.out)
    else if a.Ends? then b
    else a
  }

  /** A request in parts: bytes of the first block, whole blocks from start on, bytes of the last block. */
  datatype Parts = Parts(head: nat, start: nat, count: nat, rest: nat)

  function Split(bs: nat, offset: nat, len: nat): Parts
    requires bs > 0
  {
    if offset % bs == 0 then
      Parts(0, offset / bs, len / bs, len % bs)
    else
      var head := if bs - offset % bs < len then bs - offset % bs else len;
      Parts(head, offset / bs + 1, (len - head) / bs, (len - head) % bs)
  }

  /** The parts make up the request, and those behind the head start at a block. */
  lemma SplitFits(bs: nat, offset: nat, len: nat)
    requires bs > 0
    ensures var p := Split(bs, offset, len);
      && p.head + p.count * bs + p.rest == len && p.rest < bs
      && (p.count > 0 || p.rest > 0 ==> offset + p.head == p.start * bs)
      && (p.head == len ==> p.count == 0 && p.rest == 0)
      && (offset % bs == 0 ==> p.head == 0 && offset == p.start * bs)
      && (offset % bs != 0 ==>
            offset + p.head <= p.start * bs && offset > (p.start - 1) * bs && (len > 0 ==> p.head > 0))
  {
    var q, r := Quotient(offset, bs);
    assert (q + 1) * bs == q * bs + bs;
    var left := len - Split(bs, offset, len).head;
    var c, rest := Quotient(left, bs);
    if left == 0 {
      DivMod(0, bs, 0, 0);
    }
  }

  /** The steps that ext2_read takes to split a request. */
  lemma SplitSteps(bs: nat, offset: nat, len: nat)
    requires bs > 0
    ensures var p := Split(bs, offset, len);
      && p.head == (if offset % bs == 0 then 0 else if bs - offset % bs < len then bs - offset % bs else len)
      && p.start == offset / bs + (if offset % bs == 0 then 0 else 1)
      && (p.count > 0 <==> len - p.head >= bs) && (p.count > 0 ==> p.count == (len - p.head) / bs)
  {
    var left := len - Split(bs, offset, len).head;
    var c, rest := Quotient(left, bs);
    if c > 0 {
      MulMonotone(1, c, bs);
    }
  }

  /** How many bytes the file's end leaves of a request. */
  function Granted(n: Inode, offset: nat, length: nat): nat {
    if offset >= n.size then 0 else if offset + length < n.size then length else n.size - offset
  }

  /** What ext2_read delivers, call by call. */
  ghost function ReadOf(d: Disk, n: Inode, offset: nat, length: nat): ReadResult
    requires Valid(d, n)
  {
    if n.size < offset then Ends([])
    else
      var p := Split(d.blkSize, offset, Granted(n, offset, length));
      Then(HeadOf(d, n, offset, p), Then(WholeOf(d, n, offset, p), TailOf(d, n, offset, p)))
  }

  ghost function HeadOf(d: Disk, n: Inode, offset: nat, p: Parts): ReadResult
    requires Valid(d, n)
  {
    if offset % d.blkSize == 0 then Ends([]) else Served(d, n, offset / d.blkSize, 1, offset, p.head)
  }

  ghost function WholeOf(d: Disk, n: Inode, offset: nat, p: Parts): ReadResult
    requires Valid(d, n)
  {
    if p.count == 0 then Ends([])
    else Served(d, n, p.start, p.count, offset + p.head, p.count * d.blkSize)
  }

  ghost function TailOf(d: Disk, n: Inode, offset: nat, p: Parts): ReadResult
    requires Valid(d, n)
  {
    if p.rest == 0 then Ends([])
    else Served(d, n, p.start + p.count, 1, offset + p.head + p.count * d.blkSize, p.rest)
  }

  // ---- what it delivers ----------------------------------------------------------------------

  ghost predicate NoHole(d: Disk, n: Inode, from: nat, to: nat)
    requires Valid(d, n)
  {
    forall k: nat {:trigger Hole(d, n, k)} :: from <= k <= to ==> !Hole(d, n, k)
  }

  /** Byte x of the file as the request delivers it: it is read if its block is there, and among the whole
      blocks, which one call asks for, if all those before it are there as well. */
  ghost function Delivered(d: Disk, n: Inode, p: Parts, x: nat): Cell
    requires Valid(d, n)
  {
    var j := x / d.blkSize;
    var from := if p.start <= j < p.start + p.count then p.start else j;
    if NoHole(d, n, from, j) then Byte(ByteAt(d, n, x)) else Stale
  }

  ghost predicate Delivers(d: Disk, n: Inode, p: Parts, x: nat, out: seq<Cell>)
    requires Valid(d, n)
  {
    forall i {:trigger out[i]} :: 0 <= i < |out| ==> out[i] == Delivered(d, n, p, x + i)
  }

  lemma DeliversConcat(d: Disk, n: Inode, p: Parts, x: nat, s: seq<Cell>, t: seq<Cell>)
    requires Valid(d, n) && Delivers(d, n, p, x, s) && Delivers(d, n, p, x + |s|, t)
    ensures Delivers(d, n, p, x, s + t)
  {
    hide Delivered;
    forall i | 0 <= i < |s + t| ensures (s + t)[i] == Delivered(d, n, p, x + i) {
      if i >= |s| {
        assert (s + t)[i] == t[i - |s|] && x + i == x + |s| + (i - |s|);
      }
    }
  }

  /** A call for blocks that include j reads j exactly when no block up to j is a hole. */
  lemma ReachesBlock(d: Disk, n: Inode, start: nat, blocks: nat, j: nat)
    requires Valid(d, n) && start <= j < start + blocks
    ensures j < start + |Flat(d, n, start, blocks)| <==> NoHole(d, n, start, j)
  {
    hide BlockNo, Hole;
    var f := Flat(d, n, start, blocks);
    if j < start + |f| {
      forall k: nat | start <= k <= j ensures !Hole(d, n, k) {
        FlatAt(d, n, start, blocks, k - start);
      }
    } else {
      FlatStops(d, n, start, blocks);
    }
  }

  /** One call, for the bytes of the blocks it asks for. */
  lemma ServedDelivers(d: Disk, n: Inode, p: Parts, start: nat, blocks: nat, x: nat, len: nat)
    requires Valid(d, n) && Served(d, n, start, blocks, x, len).Ends?
    requires start * d.blkSize <= x && x + len <= (start + blocks) * d.blkSize
    requires (start == p.start && blocks == p.count) || (blocks == 1 && !(p.start <= start < p.start + p.count))
    ensures |Served(d, n, start, blocks, x, len).out| == len
    ensures Delivers(d, n, p, x, Served(d, n, start, blocks, x, len).out)
  {
    hide BlockNo, Hole, ByteAt, Expected;
    var out := Served(d, n, start, blocks, x, len).out;
    ExpectedFlat(d, n, start, blocks);
    forall i | 0 <= i < |out| ensures out[i] == Delivered(d, n, p, x + i) {
      assert out[i] == CellOf(d, n, start + |Flat(d, n, start, blocks)|, x + i);
      InBlocks(d.blkSize, start, start + blocks, x + i);
      ReachesBlock(d, n, start, blocks, (x + i) / d.blkSize);
    }
  }

  lemma ExpectedFlat(d: Disk, n: Inode, start: nat, blocks: nat)
    requires |n.block| == 15 && d.bpi > 0
    ensures Expected(d, n, start, blocks).Blocks? ==> Expected(d, n, start, blocks).b == Flat(d, n, start, blocks)
  {
  }

  lemma InBlocks(bs: nat, start: nat, end: nat, x: nat)
    requires bs > 0 && start * bs <= x < end * bs
    ensures start <= x / bs < end
  {
    var q, r := Quotient(x, bs);
    assert (q + 1) * bs == q * bs + bs;
    if q >= end {
      MulMonotone(end, q, bs);
    } else if q < start {
      MulMonotone(q + 1, start, bs);
    }
  }

  lemma HeadDelivers(d: Disk, n: Inode, offset: nat, len: nat)
    requires Valid(d, n) && HeadOf(d, n, offset, Split(d.blkSize, offset, len)).Ends?
    ensures var p := Split(d.blkSize, offset, len);
      |HeadOf(d, n, offset, p).out| == p.head && Delivers(d, n, p, offset, HeadOf(d, n, offset, p).out)
  {
    hide BlockNo, Hole, Served, Split, Delivered;
    var p := Split(d.blkSize, offset, len);
    SplitFits(d.blkSize, offset, len);
    SplitSteps(d.blkSize, offset, len);
    if offset % d.blkSize != 0 {
      var q, r := Quotient(offset, d.blkSize);
      assert (q + 1) * d.blkSize == q * d.blkSize + d.blkSize;
      ServedDelivers(d, n, p, q, 1, offset, p.head);
    }
  }

  lemma WholeDelivers(d: Disk, n: Inode, offset: nat, len: nat)
    requires Valid(d, n) && WholeOf(d, n, offset, Split(d.blkSize, offset, len)).Ends?
    ensures var p := Split(d.blkSize, offset, len);
      && |WholeOf(d, n, offset, p).out| == p.count * d.blkSize
      && Delivers(d, n, p, offset + p.head, WholeOf(d, n, offset, p).out)
  {
    hide BlockNo, Hole, Served, Split, Delivered;
    var p := Split(d.blkSize, offset, len);
    SplitFits(d.blkSize, offset, len);
    StartOf(d.blkSize, p.start, p.count);
    if p.count > 0 {
      ServedDelivers(d, n, p, p.start, p.count, offset + p.head, p.count * d.blkSize);
    }
  }

  lemma TailDelivers(d: Disk, n: Inode, offset: nat, len: nat)
    requires Valid(d, n) && TailOf(d, n, offset, Split(d.blkSize, offset, len)).Ends?
    ensures var p := Split(d.blkSize, offset, len);
      && |TailOf(d, n, offset, p).out| == p.rest
      && Delivers(d, n, p, offset + p.head + p.count * d.blkSize, TailOf(d, n, offset, p).out)
  {
    hide BlockNo, Hole, Served, Split, Delivered;
    var p := Split(d.blkSize, offset, len);
    SplitFits(d.blkSize, offset, len);
    StartOf(d.blkSize, p.start, p.count);
    if p.rest > 0 {
      var at := p.start + p.count;
      assert (at + 1) * d.blkSize == at * d.blkSize + d.blkSize;
      ServedDelivers(d, n, p, at, 1, offset + p.head + p.count * d.blkSize, p.rest);
    }
  }

  lemma StartOf(bs: nat, start: nat, count: nat)
    ensures (start + count) * bs == start * bs + count * bs
  {
  }

  /** A read that returns delivers as many bytes as were granted, and which of them it has read. */
  lemma ReadDelivers(d: Disk, n: Inode, offset: nat, length: nat)
    requires Valid(d, n) && ReadOf(d, n, offset, length).Ends?
    ensures |ReadOf(d, n, offset, length).out| == Granted(n, offset, length)
    ensures var p := Split(d.blkSize, offset, Granted(n, offset, length));
      Delivers(d, n, p, offset, ReadOf(d, n, offset, length).out)
  {
    hide HeadOf, WholeOf, TailOf, Delivers, Split;
    var len := Granted(n, offset, length);
    var p := Split(d.blkSize, offset, len);
    if n.size < offset {
      NothingDelivers(d, n, p, offset);
    } else {
      SplitFits(d.blkSize, offset, len);
      HeadDelivers(d, n, offset, len);
      WholeDelivers(d, n, offset, len);
      TailDelivers(d, n, offset, len);
      var a, b, c := HeadOf(d, n, offset, p), WholeOf(d, n, offset, p), TailOf(d, n, offset, p);
      DeliversConcat(d, n, p, offset + |a.out|, b.out, c.out);
      DeliversConcat(d, n, p, offset, a.out, b.out + c.out);
    }
  }

  lemma NothingDelivers(d: Disk, n: Inode, p: Parts, x: nat)
    requires Valid(d, n)
    ensures Delivers(d, n, p, x, [])
  {
  }

  // ---- when it reads every byte --------------------------------------------------------------

  /** The read returns and every byte was read. */
  ghost predicate Right(r: ReadResult) {
    r.Ends? && forall i {:trigger r.out[i]} :: 0 <= i < |r.out| ==> r.out[i].Byte?
  }

  lemma RightThen(a: ReadResult, b: ReadResult)
    ensures Right(Then(a, b)) <==> Right(a) && Right(b)
  {
    if a.Ends? && b.Ends? {
      var s := a.out + b.out;
      if Right(Then(a, b)) {
        forall i | 0 <= i < |a.out| ensures a.out[i].Byte? {
          assert s[i] == a.out[i];
        }
        forall i | 0 <= i < |b.out| ensures b.out[i].Byte? {
          assert s[|a.out| + i] == b.out[i];
        }
      }
    }
  }

  /** No block that holds one of the len bytes from offset on is a hole. */
  ghost predicate Clean(d: Disk, n: Inode, offset: nat, len: nat)
    requires Valid(d, n)
  {
    forall j: nat {:trigger Hole(d, n, j)} :: offset / d.blkSize <= j && j * d.blkSize < offset + len ==> !Hole(d, n, j)
  }

  /** One call that asks for just the blocks of its bytes. */
  lemma ServedRight(d: Disk, n: Inode, start: nat, blocks: nat, x: nat, len: nat)
    requires Valid(d, n) && blocks > 0 && len > 0 && start * d.blkSize <= x
    requires x + len <= (start + blocks) * d.blkSize && (start + blocks - 1) * d.blkSize < x + len
    ensures Right(Served(d, n, start, blocks, x, len)) <==> forall j :: start <= j < start + blocks ==> !Hole(d, n, j)
  {
    hide BlockNo, Hole, ByteAt, Expected;
    AllRead(d, n, start, blocks);
    var r := Served(d, n, start, blocks, x, len);
    ExpectedFlat(d, n, start, blocks);
    if r.Ends? {
      var stop := start + |Flat(d, n, start, blocks)|;
      assert r.out[len - 1] == CellOf(d, n, stop, x + (len - 1));
      LastBlock(d.blkSize, start + blocks, x + len - 1);
      if stop == start + blocks {
        forall i | 0 <= i < len ensures r.out[i].Byte? {
          assert r.out[i] == CellOf(d, n, stop, x + i);
          InBlocks(d.blkSize, start, start + blocks, x + i);
        }
      }
    }
  }

  lemma LastBlock(bs: nat, end: nat, x: nat)
    requires bs > 0 && end > 0 && (end - 1) * bs <= x < end * bs
    ensures x / bs == end - 1
  {
    assert end * bs == (end - 1) * bs + bs;
    DivMod(x, bs, end - 1, x - (end - 1) * bs);
  }

  /** The blocks that start before end are those before e. */
  lemma Touched(bs: nat, e: nat, end: nat, j: nat)
    requires bs > 0 && (e - 1) * bs < end <= e * bs
    ensures j * bs < end <==> j < e
  {
    if j < e {
      MulMonotone(j, e - 1, bs);
    } else {
      MulMonotone(e, j, bs);
    }
  }

  /** Where the last of a request's blocks ends. */
  lemma SplitEnd(bs: nat, offset: nat, len: nat)
    requires bs > 0 && len > 0
    ensures var p := Split(bs, offset, len);
      var e := p.start + p.count + if p.rest > 0 then 1 else 0;
      && (e - 1) * bs < offset + len <= e * bs
      && p.start == offset / bs + if offset % bs == 0 then 0 else 1
  {
    hide Split;
    var p := Split(bs, offset, len);
    SplitFits(bs, offset, len);
    SplitSteps(bs, offset, len);
    if p.count > 0 || p.rest > 0 {
      WholeEnd(bs, p.start, p.count, p.rest);
    }
  }

  lemma WholeEnd(bs: nat, start: nat, count: nat, rest: nat)
    requires rest < bs && (count > 0 || rest > 0)
    ensures var e := start + count + if rest > 0 then 1 else 0;
      (e - 1) * bs < start * bs + count * bs + rest <= e * bs
  {
    assert (start + count) * bs == start * bs + count * bs;
    assert (start + count + 1) * bs == (start + count) * bs + bs;
    assert (start + count - 1) * bs == (start + count) * bs - bs;
  }

  /** The blocks that hold requested bytes are those of the parts. */
  lemma TouchedParts(bs: nat, offset: nat, len: nat, j: nat)
    requires bs > 0 && len > 0
    ensures var p := Split(bs, offset, len);
      offset / bs <= j && j * bs < offset + len <==>
        || (offset % bs != 0 && j == offset / bs)
        || p.start <= j < p.start + p.count
        || (p.rest > 0 && j == p.start + p.count)
  {
    hide Split;
    var p := Split(bs, offset, len);
    SplitEnd(bs, offset, len);
    Touched(bs, p.start + p.count + if p.rest > 0 then 1 else 0, offset + len, j);
  }

  /** ext2_read reads every byte granted exactly when none of their blocks is a hole. A request that is
      granted nothing reads a block all the same if it is not aligned. */
  lemma ReadExact(d: Disk, n: Inode, offset: nat, length: nat)
    requires Valid(d, n)
    ensures Granted(n, offset, length) > 0 ==>
      (Right(ReadOf(d, n, offset, length)) <==> Clean(d, n, offset, Granted(n, offset, length)))
    ensures Granted(n, offset, length) == 0 ==>
      (Right(ReadOf(d, n, offset, length)) <==>
        !(&& offset <= n.size && offset % d.blkSize != 0 && n.block[12] >= 2
          && offset / d.blkSize < DIRECT && Hole(d, n, offset / d.blkSize)))
  {
    hide BlockNo, Hole, Served, Right, Split, Clean;
    var len := Granted(n, offset, length);
    var p := Split(d.blkSize, offset, len);
    if n.size < offset {
      NothingRead();
    } else {
      RightThen(WholeOf(d, n, offset, p), TailOf(d, n, offset, p));
      RightThen(HeadOf(d, n, offset, p), Then(WholeOf(d, n, offset, p), TailOf(d, n, offset, p)));
      if len == 0 {
        EmptyRight(d, n, offset);
      } else {
        PartsRight(d, n, offset, len);
        PartsClean(d, n, offset, len);
      }
    }
  }

  lemma NothingRead()
    ensures Right(Ends([]))
  {
  }

  /** Nothing to deliver: only the call for the head matters. */
  lemma EmptyRight(d: Disk, n: Inode, offset: nat)
    requires Valid(d, n)
    ensures var p := Split(d.blkSize, offset, 0);
      && Right(WholeOf(d, n, offset, p)) && Right(TailOf(d, n, offset, p))
      && (Right(HeadOf(d, n, offset, p)) <==>
          !(offset % d.blkSize != 0 && n.block[12] >= 2 && offset / d.blkSize < DIRECT && Hole(d, n, offset / d.blkSize)))
  {
    hide BlockNo, Hole;
    var p := Split(d.blkSize, offset, 0);
    SplitFits(d.blkSize, offset, 0);
    if offset / d.blkSize < DIRECT {
      assert Limit(d) > DIRECT;
    }
  }

  lemma PartsRight(d: Disk, n: Inode, offset: nat, len: nat)
    requires Valid(d, n) && len > 0
    ensures var p := Split(d.blkSize, offset, len);
      && (Right(HeadOf(d, n, offset, p)) <==> (offset % d.blkSize != 0 ==> !Hole(d, n, offset / d.blkSize)))
      && (Right(WholeOf(d, n, offset, p)) <==> forall j :: p.start <= j < p.start + p.count ==> !Hole(d, n, j))
      && (Right(TailOf(d, n, offset, p)) <==> (p.rest > 0 ==> !Hole(d, n, p.start + p.count)))
  {
    hide BlockNo, Hole, Served, Split, Right;
    var p := Split(d.blkSize, offset, len);
    SplitFits(d.blkSize, offset, len);
    SplitSteps(d.blkSize, offset, len);
    NothingRead();
    if offset % d.blkSize != 0 {
      HeadRight(d, n, offset, p.head);
    }
    if p.count > 0 {
      WholeRight(d, n, p.start, p.count);
    }
    if p.rest > 0 {
      assert (p.start + p.count) * d.blkSize == p.start * d.blkSize + p.count * d.blkSize;
      TailRight(d, n, p.start + p.count, p.rest);
    }
  }

  lemma HeadRight(d: Disk, n: Inode, offset: nat, head: nat)
    requires Valid(d, n) && 0 < head <= d.blkSize - offset % d.blkSize
    ensures Right(Served(d, n, offset / d.blkSize, 1, offset, head)) <==> !Hole(d, n, offset / d.blkSize)
  {
    hide Hole, Served, Right;
    var q, r := Quotient(offset, d.blkSize);
    assert (q + 1) * d.blkSize == q * d.blkSize + d.blkSize;
    ServedRight(d, n, q, 1, offset, head);
  }

  lemma WholeRight(d: Disk, n: Inode, start: nat, count: nat)
    requires Valid(d, n) && count > 0
    ensures Right(Served(d, n, start, count, start * d.blkSize, count * d.blkSize)) <==>
      forall j :: start <= j < start + count ==> !Hole(d, n, j)
  {
    hide Hole, Served, Right;
    var bs := d.blkSize;
    MulMonotone(1, count, bs);
    assert (start + count) * bs == start * bs + count * bs;
    assert (start + count - 1) * bs == (start + count) * bs - bs;
    ServedRight(d, n, start, count, start * bs, count * bs);
  }

  lemma TailRight(d: Disk, n: Inode, start: nat, rest: nat)
    requires Valid(d, n) && 0 < rest < d.blkSize
    ensures Right(Served(d, n, start, 1, start * d.blkSize, rest)) <==> !Hole(d, n, start)
  {
    hide Hole, Served, Right;
    assert (start + 1) * d.blkSize == start * d.blkSize + d.blkSize;
    ServedRight(d, n, start, 1, start * d.blkSize, rest);
  }

  lemma PartsClean(d: Disk, n: Inode, offset: nat, len: nat)
    requires Valid(d, n) && len > 0
    ensures var p := Split(d.blkSize, offset, len);
      Clean(d, n, offset, len) <==>
        && (offset % d.blkSize != 0 ==> !Hole(d, n, offset / d.blkSize))
        && (forall j :: p.start <= j < p.start + p.count ==> !Hole(d, n, j))
        && (p.rest > 0 ==> !Hole(d, n, p.start + p.count))
  {
    hide BlockNo, Hole, Split;
    var p := Split(d.blkSize, offset, len);
    forall j: nat {:trigger Hole(d, n, j)}
      ensures offset / d.blkSize <= j && j * d.blkSize < offset + len <==>
        || (offset % d.blkSize != 0 && j == offset / d.blkSize)
        || p.start <= j < p.start + p.count
        || (p.rest > 0 && j == p.start + p.count)
    {
      TouchedParts(d.blkSize, offset, len, j);
    }
  }

  /** A file of two blocks without its second. The read of it strays if the file has an indirect table;
      if not, it reports both blocks and has read only the first. */
  lemma SparseRead(d: Disk, n: Inode)
    requires Valid(d, n) && n.block[0] >= 2 && n.block[1] < 2 && n.size == 2 * d.blkSize
    ensures var r := ReadOf(d, n, 0, n.size);
      if n.block[12] >= 2 then r.Strays?
      else
        && r.Ends? && |r.out| == n.size
        && forall i {:trigger r.out[i]} :: 0 <= i < n.size ==>
          r.out[i] == if i < d.blkSize then Byte(d.data(n.block[0])[i]) else Stale
  {
    hide Expected, Limit;
    var bs := d.blkSize;
    DivMod(0, bs, 0, 0);
    DivMod(2 * bs, bs, 2, 0);
    assert Split(bs, 0, 2 * bs) == Parts(0, 0, 2, 0);
    SparseCall(d, n);
    if n.block[12] < 2 {
      forall i | 0 <= i < 2 * bs
        ensures CellOf(d, n, 1, i) == if i < bs then Byte(d.data(n.block[0])[i]) else Stale
      {
        if i < bs {
          DivMod(i, bs, 0, i);
        } else {
          DivMod(i, bs, 1, i - bs);
        }
      }
      var w := WholeOf(d, n, 0, Parts(0, 0, 2, 0));
      assert w.Ends? && forall i :: 0 <= i < 2 * bs ==> w.out[i] == CellOf(d, n, 1, 0 + i);
      assert ReadOf(d, n, 0, n.size).out == [] + (w.out + []);
    }
  }

  lemma SparseCall(d: Disk, n: Inode)
    requires Valid(d, n) && n.block[0] >= 2 && n.block[1] < 2
    ensures Expected(d, n, 0, 2) == if n.block[12] < 2 then Blocks([d.data(n.block[0])]) else BadIndex
  {
    assert Flat(d, n, 1, 1) == [];
    assert Limit(d) > DIRECT;
  }

  // ---- the code --------------------------------------------------------------------------------

  /** The buffer's byte number x after a call that delivered these blocks. */
  function Buffered(bs: nat, b: seq<Content>, x: nat): Cell
    requires bs > 0 && forall k {:trigger b[k]} :: 0 <= k < |b| ==> |b[k]| == bs
  {
    if x / bs < |b| then Byte(b[x / bs][x % bs]) else Stale
  }

  lemma BlockSizes(d: Disk, n: Inode, start: nat, blocks: nat)
    requires Valid(d, n)
    ensures forall k {:trigger Flat(d, n, start, blocks)[k]} :: 0 <= k < |Flat(d, n, start, blocks)| ==>
      |Flat(d, n, start, blocks)[k]| == d.blkSize
  {
    hide BlockNo, Hole;
    forall k | 0 <= k < |Flat(d, n, start, blocks)| ensures |Flat(d, n, start, blocks)[k]| == d.blkSize {
      FlatAt(d, n, start, blocks, k);
    }
  }

  lemma BufferedIs(d: Disk, n: Inode, start: nat, blocks: nat, x: nat)
    requires Valid(d, n)
    requires forall k {:trigger Flat(d, n, start, blocks)[k]} :: 0 <= k < |Flat(d, n, start, blocks)| ==>
      |Flat(d, n, start, blocks)[k]| == d.blkSize
    ensures Buffered(d.blkSize, Flat(d, n, start, blocks), x) ==
      CellOf(d, n, start + |Flat(d, n, start, blocks)|, start * d.blkSize + x)
  {
    hide BlockNo, Hole;
    var q, m := Quotient(x, d.blkSize);
    assert (start + q) * d.blkSize == start * d.blkSize + q * d.blkSize;
    DivMod(start * d.blkSize + x, d.blkSize, start + q, m);
    if q < |Flat(d, n, start, blocks)| {
      FlatAt(d, n, start, blocks, q);
    }
  }

  /** One call of inode_rw_content, and len bytes of its buffer from o on. The number of blocks that it
      reports is not looked at. */
  method Fetch(reader: Reader, start: nat, blocks: nat, o: nat, len: nat) returns (r: ReadResult)
    requires Valid(reader.disk, reader.inode) && o + len <= blocks * reader.disk.blkSize
    modifies reader
    ensures r == Served(reader.disk, reader.inode, start, blocks, start * reader.disk.blkSize + o, len)
  {
    hide BlockNo, Hole, Expected, Buffered, CellOf;
    ghost var d, n := reader.disk, reader.inode;
    var bs := reader.disk.blkSize;
    ExpectedFlat(d, n, start, blocks);
    BlockSizes(d, n, start, blocks);
    var got := reader.ReadBlocks(start, blocks);
    match got {
      case BadIndex => r := Strays;
      case Hangs => r := Stuck;
      case Blocks(b) =>
        var out := seq(len, i requires 0 <= i < len => Buffered(bs, b, o + i));
        forall i | 0 <= i < len ensures out[i] == CellOf(d, n, start + |b|, start * bs + o + i) {
          BufferedIs(d, n, start, blocks, o + i);
          assert start * bs + (o + i) == start * bs + o + i;
        }
        r := Ends(out);
        assert out == Served(d, n, start, blocks, start * bs + o, len).out;
    }
  }

  /** ext2_read. */
  method Read(d: Disk, n: Inode, offset: nat, length: nat) returns (r: ReadResult)
    requires Valid(d, n)
    ensures r == ReadOf(d, n, offset, length)
  {
    hide BlockNo, Hole, Served, Split;
    var len := length;
    if offset + length >= n.size {
      if n.size < offset {
        return Ends([]);
      }
      len := n.size - offset;
    }
    var reader := new Reader(d, n);
    ghost var p := Split(d.blkSize, offset, len);
    SplitFits(d.blkSize, offset, len);
    SplitSteps(d.blkSize, offset, len);
    ghost var q, m := Quotient(offset, d.blkSize);
    var start, left := offset / d.blkSize, len;
    var out: seq<Cell> := [];
    if offset % d.blkSize != 0 {
      var bytes := if d.blkSize - offset % d.blkSize < len then d.blkSize - offset % d.blkSize else len;
      r := Fetch(reader, start, 1, offset % d.blkSize, bytes);
      if !r.Ends? {
        return;
      }
      out, left, start := r.out, left - bytes, start + 1;
    }
    assert left == len - p.head && start == p.start && Ends(out) == HeadOf(d, n, offset, p);
    ghost var front := out;
    if left >= d.blkSize {
      var count := left / d.blkSize;
      r := Fetch(reader, start, count, 0, count * d.blkSize);
      if !r.Ends? {
        return;
      }
      out, left, start := out + r.out, left - count * d.blkSize, start + count;
    }
    ghost var w := WholeOf(d, n, offset, p);
    assert left == p.rest && start == p.start + p.count && w.Ends? && out == front + w.out;
    if left > 0 {
      StartOf(d.blkSize, p.start, p.count);
      r := Fetch(reader, start, 1, 0, left);
      if !r.Ends? {
        return;
      }
      out := out + r.out;
    }
    r := Ends(out);
    assert out == front + (w.out + TailOf(d, n, offset, p).out);
  }
}
