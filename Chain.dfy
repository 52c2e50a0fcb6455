/** The hash-linked block chain of main.go: the Block record, its digest,
    the derivation of a successor block and the in-memory chain that the
    `/addBlock` handler extends. */
module Chain {
  import opened Decimal

  const MinInt64: int := -0x8000_0000_0000_0000
  const MaxInt64: int := 0x7fff_ffff_ffff_ffff

  /** Go's `int` on a 64-bit platform. */
  type Int64 = i: int | MinInt64 <= i <= MaxInt64

  /** Go's `i + 1` on an `int`: two's-complement addition. */
  function Inc(i: Int64): Int64 {
    if i == MaxInt64 then MinInt64 else i + 1
  }

  /** Inc is addition of one modulo 2^64, and it is plain `+ 1` everywhere
      except at the largest value. */
  lemma IncModulo(i: Int64)
    ensures (Inc(i) - i - 1) % 0x1_0000_0000_0000_0000 == 0
    ensures i < MaxInt64 <==> Inc(i) == i + 1
  {
  }

  /** A `float64`, kept as its IEEE 754 bit pattern: the chain only copies it. */
  datatype Float64 = Float64(bits: bv64)

  datatype Block = Block(
    index: Int64,
    timestamp: string,
    data: string,
    prevHash: string,
    hash: string,
    miner: string,
    reward: Float64)

  /** SHA-256 of the bytes of a string, rendered as lower-case hexadecimal.
      It is a parameter of the model: nothing is assumed of it except that it
      is a function, i.e. deterministic. */
  type HashFn = string -> string

  /** The string calculateHash feeds to the hash: `%d%s%s%s%s` of index,
      timestamp, data, previous hash and miner, with no separators. */
  function Encode(b: Block): (s: string)
    ensures |s| == |FormatInt(b.index)| + |b.timestamp| + |b.data| + |b.prevHash| + |b.miner|
    ensures FormatInt(b.index) <= s
  {
    FormatInt(b.index) + b.timestamp + b.data + b.prevHash + b.miner
  }

  /** calculateHash: the hash of the encoding. The stored hash and the
      reward may be anything; the digest is that of the block with both
      cleared, as createNewBlock has it before it fills in the hash. */
  function CalculateHash(h: HashFn, b: Block): (digest: string)
    ensures digest == h(Encode(b.(hash := "", reward := Float64(0))))
  {
    h(Encode(b))
  }

  /** The digest depends on index, timestamp, data, previous hash and miner
      only: the reward and the stored hash are not part of it. */
  lemma CalculateHashFields(h: HashFn, b1: Block, b2: Block)
    requires b1.index == b2.index && b1.timestamp == b2.timestamp && b1.data == b2.data
    requires b1.prevHash == b2.prevHash && b1.miner == b2.miner
    ensures CalculateHash(h, b1) == CalculateHash(h, b2)
  {
  }

  /** Without separators the encoding is ambiguous at the index/timestamp
      boundary: two blocks that differ in index and timestamp have the same
      digest under every hash function. */
  lemma {:induction false} IndexTimestampAmbiguous(h: HashFn, b: Block)
    ensures var b1 := b.(index := 1, timestamp := "23");
            var b2 := b.(index := 12, timestamp := "3");
            b1.index != b2.index && CalculateHash(h, b1) == CalculateHash(h, b2)
  {
    var b1 := b.(index := 1, timestamp := "23");
    var b2 := b.(index := 12, timestamp := "3");
    assert FormatInt(1) == "1";
    assert NatDigits(12) == NatDigits(1) + [DigitChar(2)];
    assert FormatInt(12) == "12";
    assert Encode(b1) == Encode(b2);
  }

  /** createNewBlock: the successor of `prev` carrying the caller's data,
      miner and reward, stamped with `now` (time.Now() of the source). */
  function CreateNewBlock(h: HashFn, prev: Block, data: string, miner: string, reward: Float64, now: string): (b: Block)
    ensures b.index == Inc(prev.index) && b.prevHash == prev.hash
    ensures b.timestamp == now && b.data == data && b.miner == miner && b.reward == reward
    ensures b.hash == CalculateHash(h, b)
  {
    var unhashed := Block(Inc(prev.index), now, data, prev.hash, "", miner, reward);
    unhashed.(hash := CalculateHash(h, unhashed))
  }

  /** createNewBlock has no state and does not advance on its own: two
      successors of the same predecessor share index and previous hash,
      whatever their data, miner, reward and time, and each of them extends
      the predecessor to a linked two-block chain (a fork). */
  lemma CreateNewBlockSiblings(h: HashFn, prev: Block,
                               data1: string, miner1: string, reward1: Float64, now1: string,
                               data2: string, miner2: string, reward2: Float64, now2: string)
    ensures var b1 := CreateNewBlock(h, prev, data1, miner1, reward1, now1);
            var b2 := CreateNewBlock(h, prev, data2, miner2, reward2, now2);
            b1.index == b2.index && b1.prevHash == b2.prevHash &&
            Linked(h, [prev, b1]) && Linked(h, [prev, b2])
  {
  }

  /** `b` is a well-formed successor of `prev`. */
  predicate Follows(h: HashFn, prev: Block, b: Block) {
    b.prevHash == prev.hash && b.index == Inc(prev.index) && b.hash == CalculateHash(h, b)
  }

  /** Every block after the first is linked to its predecessor, has the next
      index and carries its own digest. The first block is not constrained. */
  ghost predicate Linked(h: HashFn, c: seq<Block>): (linked: bool)
    ensures |c| <= 1 ==> linked
    ensures linked && |c| > 1 ==> c[|c| - 1].prevHash == c[|c| - 2].hash && c[|c| - 1].index == Inc(c[|c| - 2].index)
  {
    forall i :: 0 < i < |c| ==> Follows(h, c[i - 1], c[i])
  }

  /** The chain after the `/addBlock` handler: the last block's successor
      appended at the end. */
  function AppendBlock(h: HashFn, c: seq<Block>, data: string, miner: string, reward: Float64, now: string): (c': seq<Block>)
    requires |c| > 0
    ensures |c'| == |c| + 1 && c'[..|c|] == c
    ensures Follows(h, c[|c| - 1], c'[|c|]) && c'[|c|].data == data && c'[|c|].miner == miner
    ensures c'[|c|].reward == reward && c'[|c|].timestamp == now
  {
    c + [CreateNewBlock(h, c[|c| - 1], data, miner, reward, now)]
  }

  /** Appending keeps the chain linked; conversely the chain before was
      linked if it is after. */
  lemma AppendBlockLinked(h: HashFn, c: seq<Block>, data: string, miner: string, reward: Float64, now: string)
    requires |c| > 0
    ensures Linked(h, c) <==> Linked(h, AppendBlock(h, c, data, miner, reward, now))
  {
  }

  /** One `/addBlock` request: the body fields and the time it is handled. */
  datatype AddBlockRequest = AddBlockRequest(data: string, miner: string, reward: Float64, now: string)

  /** The chain after serving `reqs` in order. */
  function Serve(h: HashFn, c: seq<Block>, reqs: seq<AddBlockRequest>): seq<Block>
    requires |c| > 0
    decreases |reqs|
  {
    if reqs == [] then c
    else
      var r := reqs[0];
      Serve(h, AppendBlock(h, c, r.data, r.miner, r.reward, r.now), reqs[1..])
  }

  /** A chain that starts linked stays linked under any sequence of
      appends, which only ever extend it. */
  lemma {:induction false} ServeLinked(h: HashFn, c: seq<Block>, reqs: seq<AddBlockRequest>)
    requires |c| > 0 && Linked(h, c)
    ensures var c' := Serve(h, c, reqs);
            |c'| == |c| + |reqs| && c'[..|c|] == c && Linked(h, c')
    decreases |reqs|
  {
    if reqs != [] {
      var r := reqs[0];
      var c1 := AppendBlock(h, c, r.data, r.miner, r.reward, r.now);
      AppendBlockLinked(h, c, r.data, r.miner, r.reward, r.now);
      ServeLinked(h, c1, reqs[1..]);
      var c' := Serve(h, c1, reqs[1..]);
      assert c'[..|c|] == c'[..|c1|][..|c|];
    }
  }

  /** In a linked chain that does not reach the largest 64-bit index, the
      block at position i has index `c[0].index + i`. */
  lemma {:induction false} LinkedIndex(h: HashFn, c: seq<Block>, i: nat)
    requires Linked(h, c) && i < |c|
    requires c[0].index + |c| - 1 <= MaxInt64
    ensures c[i].index == c[0].index + i
  {
    if i > 0 {
      LinkedIndex(h, c, i - 1);
      assert Follows(h, c[i - 1], c[i]);
      assert c[i - 1].index < MaxInt64;
      assert c[i].index == Inc(c[i - 1].index) == c[i - 1].index + 1;
    }
  }

  /** Serving n requests on a one-block chain whose index g leaves room for
      n more gives indices g, g+1, ..., g+n. */
  lemma ServeIndices(h: HashFn, genesis: Block, reqs: seq<AddBlockRequest>)
    requires genesis.index + |reqs| <= MaxInt64
    ensures var c := Serve(h, [genesis], reqs);
            |c| == |reqs| + 1 && c[0] == genesis &&
            forall i :: 0 <= i < |c| ==> c[i].index == genesis.index + i
  {
    ServeLinked(h, [genesis], reqs);
    var c := Serve(h, [genesis], reqs);
    assert c[0] == c[..1][0];
    forall i | 0 <= i < |c| ensures c[i].index == genesis.index + i {
      LinkedIndex(h, c, i);
    }
  }

  /** The reward is outside the digest: rewriting any block's reward keeps a
      linked chain linked, so the linkage cannot reveal such an edit. */
  lemma RewardEditKeepsLinked(h: HashFn, c: seq<Block>, k: nat, reward: Float64)
    requires Linked(h, c) && k < |c|
    ensures Linked(h, c[k := c[k].(reward := reward)])
  {
  }

  /** Re-splitting timestamp + data gives the same digest input. */
  lemma EncodeShift(b: Block, timestamp: string, data: string)
    requires timestamp + data == b.timestamp + b.data
    ensures Encode(b.(timestamp := timestamp, data := data)) == Encode(b)
  {
    var d := FormatInt(b.index);
    calc {
      Encode(b.(timestamp := timestamp, data := data));
      d + timestamp + data + b.prevHash + b.miner;
      d + (timestamp + data) + b.prevHash + b.miner;
      d + (b.timestamp + b.data) + b.prevHash + b.miner;
      Encode(b);
    }
  }

  /** Moving characters between the timestamp and the data of a block
      leaves its digest as it was, so the linkage cannot reveal that edit
      either. */
  lemma TimestampDataShiftKeepsLinked(h: HashFn, c: seq<Block>, k: nat, timestamp: string, data: string)
    requires Linked(h, c) && k < |c|
    requires timestamp + data == c[k].timestamp + c[k].data
    ensures Linked(h, c[k := c[k].(timestamp := timestamp, data := data)])
  {
    var c' := c[k := c[k].(timestamp := timestamp, data := data)];
    EncodeShift(c[k], timestamp, data);
    assert CalculateHash(h, c'[k]) == CalculateHash(h, c[k]);
    forall i | 0 < i < |c'| ensures Follows(h, c'[i - 1], c'[i]) {
      assert Follows(h, c[i - 1], c[i]);
    }
  }

  /** The index is inside the linkage: changing the index of any block after
      the first breaks a linked chain, even when the timestamp is changed so
      that the digest input stays the same (IndexTimestampAmbiguous). */
  lemma IndexEditBreaksLinked(h: HashFn, c: seq<Block>, k: nat, index: Int64, timestamp: string)
    requires Linked(h, c) && 0 < k < |c| && index != c[k].index
    ensures !Linked(h, c[k := c[k].(index := index, timestamp := timestamp)])
  {
    var c' := c[k := c[k].(index := index, timestamp := timestamp)];
    assert Follows(h, c[k - 1], c[k]);
    assert c'[k - 1] == c[k - 1] && c'[k].index == index;
    assert !Follows(h, c'[k - 1], c'[k]);
  }

  /** The in-memory chain of the program (the package-level `Blockchain`
      slice) together with the hash function its digests use. */
  class Blockchain {
    const hash: HashFn
    var blocks: seq<Block>

    /** The chain as loaded at start-up, in ascending index order. */
    constructor (hash: HashFn, loaded: seq<Block>)
      ensures this.hash == hash && blocks == loaded
    {
      this.hash := hash;
      blocks := loaded;
    }

    /** The chain work of the `/addBlock` handler: derive the successor of the
        last block and append it. The handler indexes the last element, so the
        chain must not be empty. */
    method AddBlock(data: string, miner: string, reward: Float64, now: string) returns (newBlock: Block)
      requires |blocks| > 0
      modifies this
      ensures blocks == AppendBlock(hash, old(blocks), data, miner, reward, now)
      ensures newBlock == blocks[|blocks| - 1] && blocks[..|old(blocks)|] == old(blocks)
      ensures Linked(hash, old(blocks)) ==> Linked(hash, blocks)
    {
      var lastBlock := blocks[|blocks| - 1];
      newBlock := CreateNewBlock(hash, lastBlock, data, miner, reward, now);
      AppendBlockLinked(hash, blocks, data, miner, reward, now);
      blocks := blocks + [newBlock];
    }
  }
}
