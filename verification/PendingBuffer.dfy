/**
 * The tip buffer (src/indexer/buffer.rs): the most recent best blocks, with an index by block number
 * and an index by extrinsic hash that are maintained as blocks come and go.
 */
module PendingBuffer {
  import opened Wrappers
  import opened Bytes
  import opened Ints
  import opened Domain
  import opened Hex

  const BUFFER_CAPACITY: nat := 64

  datatype BufferedBlock = BufferedBlock(number: nat, hash: Hash, extrinsics: seq<Extrinsic>, transfers: seq<Transfer>)

  // ---- the indexes a rebuild from the deque gives ----

  function ByNumberOf(blocks: seq<BufferedBlock>): map<nat, nat> {
    if blocks == [] then map[]
    else
      var n := |blocks| - 1;
      ByNumberOf(blocks[..n])[blocks[n].number := n]
  }

  function IndexExtrinsics(m: map<Hash, (nat, nat)>, number: nat, exts: seq<Extrinsic>): map<Hash, (nat, nat)>
    decreases |exts|
  {
    if exts == [] then m
    else
      var k := |exts| - 1;
      var before := IndexExtrinsics(m, number, exts[..k]);
      match DecodeHex32(exts[k].hash)
      case Some(h) => before[h := (number, exts[k].index)]
      case None => before
  }

  function ByHashOf(blocks: seq<BufferedBlock>): map<Hash, (nat, nat)> {
    if blocks == [] then map[]
    else
      var n := |blocks| - 1;
      IndexExtrinsics(ByHashOf(blocks[..n]), blocks[n].number, blocks[n].extrinsics)
  }

  /** Room for one more block. */
  function Evicted(blocks: seq<BufferedBlock>): seq<BufferedBlock> {
    if |blocks| == BUFFER_CAPACITY then blocks[1..] else blocks
  }

  function DropFinalized(blocks: seq<BufferedBlock>, upTo: nat): seq<BufferedBlock> {
    if blocks != [] && blocks[0].number <= upTo then DropFinalized(blocks[1..], upTo) else blocks
  }

  // ---- lookups ----

  /** `iter().find(|e| e.index == idx)` */
  function FindIndex(exts: seq<Extrinsic>, idx: nat): Option<Extrinsic> {
    if exts == [] then None
    else if exts[0].index == idx then Some(exts[0])
    else FindIndex(exts[1..], idx)
  }

  function LookupAt(blocks: seq<BufferedBlock>, byNumber: map<nat, nat>, number: nat, idx: nat): Option<Extrinsic> {
    if number !in byNumber then None
    else
      var pos := byNumber[number];
      if pos < |blocks| then FindIndex(blocks[pos].extrinsics, idx) else None
  }

  function LookupHash(blocks: seq<BufferedBlock>, byNumber: map<nat, nat>, byHash: map<Hash, (nat, nat)>, h: Hash)
    : Option<Extrinsic>
  {
    if h in byHash then LookupAt(blocks, byNumber, byHash[h].0, byHash[h].1) else None
  }

  // ---- the buffer ----

  class PendingBuffer {
    var blocks: seq<BufferedBlock>
    var byNumber: map<nat, nat>
    var byXtHash: map<Hash, (nat, nat)>
    var finalizedHead: nat
    /** Everything handed to the transfer fan-out, in order. */
    var sent: seq<Transfer>

    /** The indexes are those of a rebuild, and the buffer is within its capacity. */
    ghost predicate Valid()
      reads this
    {
      && byNumber == ByNumberOf(blocks)
      && byXtHash == ByHashOf(blocks)
      && |blocks| <= BUFFER_CAPACITY
    }

    constructor ()
      ensures Valid() && blocks == [] && finalizedHead == 0 && sent == []
    {
      blocks, byNumber, byXtHash, finalizedHead, sent := [], map[], map[], 0, [];
    }

    method ReindexPositions()
      modifies this`byNumber
      ensures byNumber == ByNumberOf(blocks)
    {
      byNumber := map[];
      for i := 0 to |blocks|
        invariant byNumber == ByNumberOf(blocks[..i])
      {
        assert blocks[..i + 1][..i] == blocks[..i];
        byNumber := byNumber[blocks[i].number := i];
      }
      assert blocks[..|blocks|] == blocks;
    }

    /** Adds a block's extrinsics to the hash index, later ones overwriting. */
    method IndexBlock(block: BufferedBlock)
      modifies this`byXtHash
      ensures byXtHash == IndexExtrinsics(old(byXtHash), block.number, block.extrinsics)
    {
      for j := 0 to |block.extrinsics|
        invariant byXtHash == IndexExtrinsics(old(byXtHash), block.number, block.extrinsics[..j])
      {
        assert block.extrinsics[..j + 1][..j] == block.extrinsics[..j];
        var decoded := DecodeHex32(block.extrinsics[j].hash);
        if decoded.Some? {
          byXtHash := byXtHash[decoded.value := (block.number, block.extrinsics[j].index)];
        }
      }
      assert block.extrinsics[..|block.extrinsics|] == block.extrinsics;
    }

    method RebuildXtIndex()
      modifies this`byXtHash
      ensures byXtHash == ByHashOf(blocks)
    {
      byXtHash := map[];
      for i := 0 to |blocks|
        invariant byXtHash == ByHashOf(blocks[..i])
      {
        assert blocks[..i + 1][..i] == blocks[..i];
        IndexBlock(blocks[i]);
      }
      assert blocks[..|blocks|] == blocks;
    }

    method SendTransfers(transfers: seq<Transfer>)
      modifies this`sent
      ensures sent == old(sent) + transfers
    {
      for t := 0 to |transfers|
        invariant sent == old(sent) + transfers[..t]
      {
        sent := sent + [transfers[t]];
      }
      assert transfers[..|transfers|] == transfers;
    }

    method AppendBlock(block: BufferedBlock)
      requires Valid()
      modifies this
      ensures Valid()
      ensures blocks == Evicted(old(blocks)) + [block]
      ensures finalizedHead == old(finalizedHead)
      ensures sent == old(sent) + block.transfers
    {
      if |blocks| == BUFFER_CAPACITY {
        var evicted := blocks[0];
        blocks := blocks[1..];
        byNumber := byNumber - {evicted.number};
        ReindexPositions();
        RebuildXtIndex();
      }
      var pos := |blocks|;
      IndexBlock(block);
      SendTransfers(block.transfers);
      byNumber := byNumber[block.number := pos];
      blocks := blocks + [block];
      assert blocks[..pos] == Evicted(old(blocks));
    }

    method AdvanceFinalized(upTo: nat)
      requires Valid()
      modifies this
      ensures Valid()
      ensures blocks == DropFinalized(old(blocks), upTo)
      ensures finalizedHead == Max(old(finalizedHead), upTo)
      ensures sent == old(sent)
    {
      finalizedHead := if upTo > finalizedHead then upTo else finalizedHead;
      while |blocks| > 0 && blocks[0].number <= upTo
        invariant DropFinalized(blocks, upTo) == DropFinalized(old(blocks), upTo)
        invariant |blocks| <= BUFFER_CAPACITY
        invariant finalizedHead == Max(old(finalizedHead), upTo) && sent == old(sent)
        decreases |blocks|
      {
        var evicted := blocks[0];
        blocks := blocks[1..];
        byNumber := byNumber - {evicted.number};
      }
      ReindexPositions();
      RebuildXtIndex();
    }

    method ExtrinsicByBlockIdx(number: nat, idx: nat) returns (r: Option<Extrinsic>)
      requires Valid()
      ensures r == LookupAt(blocks, ByNumberOf(blocks), number, idx)
    {
      if number !in byNumber { return None; }
      var pos := byNumber[number];
      if pos >= |blocks| { return None; }
      return FindIndex(blocks[pos].extrinsics, idx);
    }

    method ExtrinsicByHash(h: Hash) returns (r: Option<Extrinsic>)
      requires Valid()
      ensures r == LookupHash(blocks, ByNumberOf(blocks), ByHashOf(blocks), h)
    {
      if h !in byXtHash { return None; }
      var (number, idx) := byXtHash[h];
      r := ExtrinsicByBlockIdx(number, idx);
    }
  }

  // ---- runs ----

  datatype Op = Append(block: BufferedBlock) | Advance(upTo: nat)

  /** The deque after a sequence of calls; the indexes follow from it. */
  function After(ops: seq<Op>): seq<BufferedBlock> {
    if ops == [] then []
    else
      var before := After(ops[..|ops| - 1]);
      match ops[|ops| - 1]
      case Append(block) => Evicted(before) + [block]
      case Advance(upTo) => DropFinalized(before, upTo)
  }

  method Run(ops: seq<Op>) returns (buffer: PendingBuffer)
    ensures fresh(buffer) && buffer.Valid() && buffer.blocks == After(ops)
  {
    buffer := new PendingBuffer();
    for i := 0 to |ops|
      invariant fresh(buffer) && buffer.Valid() && buffer.blocks == After(ops[..i])
    {
      assert ops[..i + 1][..i] == ops[..i];
      match ops[i] {
        case Append(block) => buffer.AppendBlock(block);
        case Advance(upTo) => buffer.AdvanceFinalized(upTo);
      }
    }
    assert ops[..|ops|] == ops;
  }

  function Appended(ops: seq<Op>): seq<BufferedBlock> {
    if ops == [] then []
    else
      Appended(ops[..|ops| - 1]) + match ops[|ops| - 1] case Append(block) => [block] case Advance(_) => []
  }

  lemma {:induction false} DropFinalizedIsSuffix(blocks: seq<BufferedBlock>, upTo: nat)
    ensures |DropFinalized(blocks, upTo)| <= |blocks|
    ensures DropFinalized(blocks, upTo) == blocks[|blocks| - |DropFinalized(blocks, upTo)|..]
    decreases |blocks|
  {
    if blocks != [] && blocks[0].number <= upTo { DropFinalizedIsSuffix(blocks[1..], upTo); }
  }

  /** After any run the deque is what was appended last, in that order, and never more than 64 blocks. */
  lemma {:induction false} AfterIsRecentSuffix(ops: seq<Op>)
    ensures |After(ops)| <= 64 && |After(ops)| <= |Appended(ops)|
    ensures After(ops) == Appended(ops)[|Appended(ops)| - |After(ops)|..]
    decreases |ops|
  {
    if ops != [] {
      var front := ops[..|ops| - 1];
      AfterIsRecentSuffix(front);
      if ops[|ops| - 1].Advance? { DropFinalizedIsSuffix(After(front), ops[|ops| - 1].upTo); }
    }
  }

  ghost predicate NumbersAscend(blocks: seq<BufferedBlock>) {
    forall i, j :: 0 <= i < j < |blocks| ==> blocks[i].number < blocks[j].number
  }

  /** The block that call `p` appends, among all appended. */
  function PlaceOf(ops: seq<Op>, p: nat): nat
    requires p <= |ops|
  {
    |Appended(ops[..p])|
  }

  /** Call `p` appends a block that no later call finalizes. */
  ghost predicate Unfinalized(ops: seq<Op>, p: nat)
    requires p < |ops| && ops[p].Append?
  {
    forall q :: p < q < |ops| && ops[q].Advance? ==> ops[q].upTo < ops[p].block.number
  }

  lemma {:induction false} PlaceIsBlock(ops: seq<Op>, p: nat)
    requires p < |ops| && ops[p].Append?
    ensures PlaceOf(ops, p) < |Appended(ops)| && Appended(ops)[PlaceOf(ops, p)] == ops[p].block
    decreases |ops|
  {
    var n := |ops| - 1;
    if p < n {
      PlaceIsBlock(ops[..n], p);
      assert ops[..n][..p] == ops[..p];
    }
  }

  lemma {:induction false} DroppedAre(blocks: seq<BufferedBlock>, upTo: nat, i: nat)
    requires NumbersAscend(blocks) && i < |blocks|
    ensures |blocks| - |DropFinalized(blocks, upTo)| <= i <==> upTo < blocks[i].number
    decreases |blocks|
  {
    DropFinalizedIsSuffix(blocks, upTo);
    if blocks[0].number <= upTo && i > 0 { DroppedAre(blocks[1..], upTo, i - 1); }
    if blocks[0].number <= upTo { DropFinalizedIsSuffix(blocks[1..], upTo); }
  }

  /**
   * Of blocks appended in ascending order one is still buffered iff fewer than 64 were appended after it and
   * none of the later calls finalized it.
   */
  lemma {:induction false} StillBufferedIff(ops: seq<Op>, p: nat)
    requires p < |ops| && ops[p].Append? && NumbersAscend(Appended(ops))
    ensures |After(ops)| <= |Appended(ops)|
    ensures |Appended(ops)| - |After(ops)| <= PlaceOf(ops, p)
       <==> |Appended(ops)| - PlaceOf(ops, p) <= 64 && Unfinalized(ops, p)
    decreases |ops|
  {
    var n := |ops| - 1;
    var front, op := ops[..n], ops[n];
    AfterIsRecentSuffix(ops);
    AfterIsRecentSuffix(front);
    if p < n {
      assert front[..p] == ops[..p];
      assert Appended(ops)[..|Appended(front)|] == Appended(front);
      assert NumbersAscend(Appended(front));
      StillBufferedIff(front, p);
      PlaceIsBlock(front, p);
      var place, kept, gone := PlaceOf(ops, p), After(front), |Appended(front)| - |After(front)|;
      if op.Advance? {
        assert Unfinalized(ops, p) <==> Unfinalized(front, p) && op.upTo < ops[p].block.number;
        if gone <= place {
          assert kept[place - gone] == ops[p].block;
          DroppedAre(kept, op.upTo, place - gone);
        }
        DropFinalizedIsSuffix(kept, op.upTo);
      } else {
        assert Unfinalized(ops, p) <==> Unfinalized(front, p);
      }
    }
  }

  /** Exactly the finalized blocks go iff none of them stands behind one that is not finalized. */
  lemma {:induction false} DropFinalizedExactIff(blocks: seq<BufferedBlock>, upTo: nat)
    ensures (forall b :: b in blocks && b.number > upTo ==> b in DropFinalized(blocks, upTo))
    ensures (forall b :: b in DropFinalized(blocks, upTo) ==> b in blocks && b.number > upTo)
       <==> (forall i, j :: 0 <= i < j < |blocks| && blocks[i].number > upTo ==> blocks[j].number > upTo)
    decreases |blocks|
  {
    if blocks != [] {
      var rest := blocks[1..];
      if blocks[0].number <= upTo {
        DropFinalizedExactIff(rest, upTo);
        assert forall i :: 0 < i < |blocks| ==> blocks[i] == rest[i - 1];
        assert forall b :: b in blocks <==> b == blocks[0] || b in rest;
      } else {
        assert blocks[0].number > upTo;
        if forall b :: b in blocks ==> b.number > upTo {
          assert forall j :: 0 <= j < |blocks| ==> blocks[j] in blocks;
        } else {
          var j :| 0 <= j < |blocks| && blocks[j].number <= upTo;
          assert 0 < j;
        }
      }
    }
  }

  // ---- what the indexes say ----

  /** The number index gives the last block of that number. */
  lemma {:induction false} ByNumberIsLast(blocks: seq<BufferedBlock>, number: nat)
    ensures number in ByNumberOf(blocks) <==> exists i :: 0 <= i < |blocks| && blocks[i].number == number
    ensures number in ByNumberOf(blocks) ==>
      var pos := ByNumberOf(blocks)[number];
      && pos < |blocks| && blocks[pos].number == number
      && forall k :: pos < k < |blocks| ==> blocks[k].number != number
    decreases |blocks|
  {
    if blocks != [] {
      var n := |blocks| - 1;
      var front := blocks[..n];
      ByNumberIsLast(front, number);
      assert forall i :: 0 <= i < n ==> front[i] == blocks[i];
      if blocks[n].number != number && number in ByNumberOf(front) {
        assert blocks[ByNumberOf(front)[number]].number == number;
      }
    }
  }

  ghost predicate HashesTo(e: Extrinsic, h: Hash) { DecodeHex32(e.hash) == Some(h) }

  ghost predicate BlockHasHash(exts: seq<Extrinsic>, h: Hash) {
    exists j :: 0 <= j < |exts| && HashesTo(exts[j], h)
  }

  lemma BlockHasHashSnoc(exts: seq<Extrinsic>, e: Extrinsic, h: Hash)
    ensures BlockHasHash(exts + [e], h) <==> BlockHasHash(exts, h) || HashesTo(e, h)
  {
    hide DecodeHex32;
    if HashesTo(e, h) { assert (exts + [e])[|exts|] == e; }
    if BlockHasHash(exts, h) {
      var j :| 0 <= j < |exts| && HashesTo(exts[j], h);
      assert (exts + [e])[j] == exts[j];
    }
  }

  /** Indexing a block: its hashes are overwritten and the others stay. */
  lemma {:induction false} IndexExtrinsicsAt(m: map<Hash, (nat, nat)>, number: nat, exts: seq<Extrinsic>, h: Hash)
    ensures h in IndexExtrinsics(m, number, exts) <==> h in m || BlockHasHash(exts, h)
    ensures !BlockHasHash(exts, h) && h in m ==> IndexExtrinsics(m, number, exts)[h] == m[h]
    decreases |exts|
  {
    if exts != [] {
      var k := |exts| - 1;
      assert exts == exts[..k] + [exts[k]];
      BlockHasHashSnoc(exts[..k], exts[k], h);
      hide DecodeHex32, BlockHasHash;
      IndexExtrinsicsAt(m, number, exts[..k], h);
    }
  }

  lemma {:induction false} IndexExtrinsicsOwn(m: map<Hash, (nat, nat)>, number: nat, exts: seq<Extrinsic>, h: Hash)
    returns (j: nat)
    requires BlockHasHash(exts, h)
    ensures j < |exts| && HashesTo(exts[j], h)
    ensures h in IndexExtrinsics(m, number, exts) && IndexExtrinsics(m, number, exts)[h] == (number, exts[j].index)
    decreases |exts|
  {
    var k := |exts| - 1;
    assert exts == exts[..k] + [exts[k]];
    BlockHasHashSnoc(exts[..k], exts[k], h);
    hide DecodeHex32, BlockHasHash;
    if HashesTo(exts[k], h) {
      j := k;
    } else {
      j := IndexExtrinsicsOwn(m, number, exts[..k], h);
    }
  }

  /** The entry of `h` is extrinsic `j` of block `i`, and no later block has the hash. */
  ghost predicate PointsAt(entry: (nat, nat), blocks: seq<BufferedBlock>, h: Hash, i: nat, j: nat) {
    && i < |blocks| && j < |blocks[i].extrinsics|
    && HashesTo(blocks[i].extrinsics[j], h)
    && entry == (blocks[i].number, blocks[i].extrinsics[j].index)
    && forall k :: i < k < |blocks| ==> !BlockHasHash(blocks[k].extrinsics, h)
  }

  ghost predicate Buffered(blocks: seq<BufferedBlock>, h: Hash) {
    exists i :: 0 <= i < |blocks| && BlockHasHash(blocks[i].extrinsics, h)
  }

  /** The hash index knows exactly the buffered hashes. */
  lemma {:induction false} ByHashKnows(blocks: seq<BufferedBlock>, h: Hash)
    ensures h in ByHashOf(blocks) <==> Buffered(blocks, h)
    decreases |blocks|
  {
    if blocks != [] {
      var n := |blocks| - 1;
      var front := blocks[..n];
      ByHashKnows(front, h);
      assert blocks == front + [blocks[n]];
      IndexExtrinsicsAt(ByHashOf(front), blocks[n].number, blocks[n].extrinsics, h);
      hide BlockHasHash, IndexExtrinsics;
      if Buffered(front, h) {
        var i :| 0 <= i < n && BlockHasHash(front[i].extrinsics, h);
        assert blocks[i] == front[i];
      }
      if Buffered(blocks, h) {
        var i :| 0 <= i < |blocks| && BlockHasHash(blocks[i].extrinsics, h);
        if i < n { assert front[i] == blocks[i]; }
      }
    }
  }

  /** The hash index points into the last block that has the hash. */
  lemma {:induction false} ByHashIsLast(blocks: seq<BufferedBlock>, h: Hash) returns (i: nat, j: nat)
    requires h in ByHashOf(blocks)
    ensures PointsAt(ByHashOf(blocks)[h], blocks, h, i, j)
    decreases |blocks|
  {
    hide BlockHasHash, IndexExtrinsics, HashesTo;
    var n := |blocks| - 1;
    var front, last := blocks[..n], blocks[n];
    if BlockHasHash(last.extrinsics, h) {
      i := n;
      j := IndexExtrinsicsOwn(ByHashOf(front), last.number, last.extrinsics, h);
    } else {
      IndexExtrinsicsAt(ByHashOf(front), last.number, last.extrinsics, h);
      i, j := ByHashIsLast(front, h);
      assert forall k :: 0 <= k < n ==> front[k] == blocks[k];
    }
  }

  /** The extrinsics of every block have distinct indexes. */
  ghost predicate Indexed(blocks: seq<BufferedBlock>) {
    forall i :: 0 <= i < |blocks| ==> DistinctIndexes(blocks[i].extrinsics)
  }

  ghost predicate DistinctIndexes(exts: seq<Extrinsic>) {
    forall i, j :: 0 <= i < j < |exts| ==> exts[i].index != exts[j].index
  }

  ghost predicate DistinctNumbers(blocks: seq<BufferedBlock>) {
    forall i, j :: 0 <= i < j < |blocks| ==> blocks[i].number != blocks[j].number
  }

  lemma {:induction false} FindsOwnIndex(exts: seq<Extrinsic>, j: nat)
    requires j < |exts| && DistinctIndexes(exts)
    ensures FindIndex(exts, exts[j].index) == Some(exts[j])
    decreases j
  {
    if j > 0 { FindsOwnIndex(exts[1..], j - 1); }
  }

  lemma {:induction false} FoundIsMember(exts: seq<Extrinsic>, idx: nat)
    requires FindIndex(exts, idx).Some?
    ensures FindIndex(exts, idx).value in exts
    decreases |exts|
  {
    if exts[0].index != idx { FoundIsMember(exts[1..], idx); }
  }

  /** A search by index finds the first extrinsic that has it, or nothing if none does. */
  lemma {:induction false} FindIndexIff(exts: seq<Extrinsic>, idx: nat)
    ensures FindIndex(exts, idx) == None <==> forall j :: 0 <= j < |exts| ==> exts[j].index != idx
    ensures forall j :: 0 <= j < |exts| && exts[j].index == idx && (forall k :: 0 <= k < j ==> exts[k].index != idx) ==>
      FindIndex(exts, idx) == Some(exts[j])
    decreases |exts|
  {
    if exts != [] {
      var rest := exts[1..];
      FindIndexIff(rest, idx);
      assert forall j :: 0 < j < |exts| ==> exts[j] == rest[j - 1];
      assert forall j :: 0 <= j < |rest| ==> rest[j] == exts[j + 1];
    }
  }

  /**
   * A lookup by number and index answers with an extrinsic iff the last block of the number has one of that
   * index, and then with the first such.
   */
  lemma LookupAtIff(blocks: seq<BufferedBlock>, number: nat, idx: nat)
    ensures LookupAt(blocks, ByNumberOf(blocks), number, idx) == None <==>
      forall i :: 0 <= i < |blocks| && blocks[i].number == number && NumberLast(blocks, i) ==>
        forall j :: 0 <= j < |blocks[i].extrinsics| ==> blocks[i].extrinsics[j].index != idx
    ensures forall i, j :: (
      && 0 <= i < |blocks| && blocks[i].number == number && NumberLast(blocks, i)
      && 0 <= j < |blocks[i].extrinsics| && blocks[i].extrinsics[j].index == idx
      && (forall k :: 0 <= k < j ==> blocks[i].extrinsics[k].index != idx)) ==>
        LookupAt(blocks, ByNumberOf(blocks), number, idx) == Some(blocks[i].extrinsics[j])
  {
    ByNumberIsLast(blocks, number);
    hide FindIndex, ByNumberOf;
    if number in ByNumberOf(blocks) {
      var pos := ByNumberOf(blocks)[number];
      FindIndexIff(blocks[pos].extrinsics, idx);
      assert NumberLast(blocks, pos);
      assert forall i :: 0 <= i < |blocks| && blocks[i].number == number && NumberLast(blocks, i) ==> i == pos;
    }
  }

  /** Block `i` is the last one that has the hash. */
  ghost predicate LastWith(blocks: seq<BufferedBlock>, h: Hash, i: nat) {
    && i < |blocks| && BlockHasHash(blocks[i].extrinsics, h)
    && forall k :: i < k < |blocks| ==> !BlockHasHash(blocks[k].extrinsics, h)
  }

  /** No block after `i` has its number. */
  ghost predicate NumberLast(blocks: seq<BufferedBlock>, i: nat)
    requires i < |blocks|
  {
    forall k :: i < k < |blocks| ==> blocks[k].number != blocks[i].number
  }

  lemma EntryOfLast(blocks: seq<BufferedBlock>, h: Hash, i: nat) returns (j: nat)
    requires LastWith(blocks, h, i)
    ensures h in ByHashOf(blocks) && PointsAt(ByHashOf(blocks)[h], blocks, h, i, j)
  {
    hide DecodeHex32, IndexExtrinsics;
    ByHashKnows(blocks, h);
    var i', j' := ByHashIsLast(blocks, h);
    PointsAtHas(blocks, h, i', j');
    hide BlockHasHash, HashesTo;
    assert i' == i;
    j := j';
  }

  lemma PointsAtHas(blocks: seq<BufferedBlock>, h: Hash, i: nat, j: nat)
    requires i < |blocks| && j < |blocks[i].extrinsics| && HashesTo(blocks[i].extrinsics[j], h)
    ensures BlockHasHash(blocks[i].extrinsics, h)
  {
  }

  /**
   * A buffered hash resolves to an extrinsic that has it iff the last block with the hash is the last
   * block of its number; the extrinsic is then one of that block. Forks are what breaks it.
   */
  lemma HashLookupExactIff(blocks: seq<BufferedBlock>, h: Hash, i: nat)
    requires Indexed(blocks) && LastWith(blocks, h, i)
    ensures var r := LookupHash(blocks, ByNumberOf(blocks), ByHashOf(blocks), h);
      && (r.Some? && HashesTo(r.value, h) <==> NumberLast(blocks, i))
      && (NumberLast(blocks, i) ==> r.Some? && r.value in blocks[i].extrinsics)
  {
    var j := EntryOfLast(blocks, h, i);
    ByNumberIsLast(blocks, blocks[i].number);
    hide ByHashOf, ByNumberOf, HashesTo;
    var pos, idx := ByNumberOf(blocks)[blocks[i].number], blocks[i].extrinsics[j].index;
    if NumberLast(blocks, i) {
      assert pos == i;
      FindsOwnIndex(blocks[i].extrinsics, j);
    } else {
      assert i < pos;
      var r := FindIndex(blocks[pos].extrinsics, idx);
      if r.Some? {
        FoundIsMember(blocks[pos].extrinsics, idx);
        NotOfBlock(blocks[pos].extrinsics, r.value, h);
      }
    }
  }

  lemma NotOfBlock(exts: seq<Extrinsic>, e: Extrinsic, h: Hash)
    requires e in exts && !BlockHasHash(exts, h)
    ensures !HashesTo(e, h)
  {
    hide DecodeHex32;
    var j :| 0 <= j < |exts| && exts[j] == e;
  }

  /** A hash that is not buffered is not found. */
  lemma UnknownHashNotFound(blocks: seq<BufferedBlock>, h: Hash)
    requires !Buffered(blocks, h)
    ensures LookupHash(blocks, ByNumberOf(blocks), ByHashOf(blocks), h) == None
  {
    ByHashKnows(blocks, h);
  }

  /**
   * What a fork does: when a later block has the number of the last block with the hash, the lookup
   * answers with whatever the last such block has at that index, another extrinsic or none.
   */
  lemma ForkMisleadsHashLookup(blocks: seq<BufferedBlock>, h: Hash, i: nat, m: nat) returns (j: nat)
    requires LastWith(blocks, h, i) && i < m < |blocks|
    requires blocks[m].number == blocks[i].number && NumberLast(blocks, m)
    ensures j < |blocks[i].extrinsics| && HashesTo(blocks[i].extrinsics[j], h)
    ensures var r := LookupHash(blocks, ByNumberOf(blocks), ByHashOf(blocks), h);
      && r == FindIndex(blocks[m].extrinsics, blocks[i].extrinsics[j].index)
      && (r.Some? ==> r.value in blocks[m].extrinsics && !HashesTo(r.value, h))
  {
    j := EntryOfLast(blocks, h, i);
    ByNumberIsLast(blocks, blocks[i].number);
    hide ByHashOf, ByNumberOf, HashesTo;
    var idx := blocks[i].extrinsics[j].index;
    assert ByNumberOf(blocks)[blocks[i].number] == m;
    var r := FindIndex(blocks[m].extrinsics, idx);
    if r.Some? {
      FoundIsMember(blocks[m].extrinsics, idx);
      NotOfBlock(blocks[m].extrinsics, r.value, h);
    }
  }

  lemma {:induction false} LastWithExists(blocks: seq<BufferedBlock>, h: Hash) returns (i: nat)
    requires Buffered(blocks, h)
    ensures LastWith(blocks, h, i)
  {
    hide BlockHasHash;
    i := |blocks| - 1;
    while !BlockHasHash(blocks[i].extrinsics, h)
      invariant i < |blocks|
      invariant forall k :: i < k < |blocks| ==> !BlockHasHash(blocks[k].extrinsics, h)
      decreases i
    {
      i := i - 1;
    }
  }

  /**
   * With distinct numbers and indexes, a lookup by hash succeeds iff a buffered extrinsic has that
   * hash, and returns one that has it, from the latest block that does.
   */
  lemma HashLookupIff(blocks: seq<BufferedBlock>, h: Hash)
    requires DistinctNumbers(blocks) && Indexed(blocks)
    ensures var r := LookupHash(blocks, ByNumberOf(blocks), ByHashOf(blocks), h);
      && (r.Some? <==> Buffered(blocks, h))
      && (r.Some? ==> HashesTo(r.value, h))
      && (r.Some? ==> exists i: nat :: LastWith(blocks, h, i) && r.value in blocks[i].extrinsics)
  {
    if Buffered(blocks, h) {
      var i := LastWithExists(blocks, h);
      HashLookupExactIff(blocks, h, i);
    } else {
      UnknownHashNotFound(blocks, h);
    }
  }
}
