/** The weighted choice of a mutation operator in havoc.rs. */
module Havoc {
  import opened Prelude
  import SplitMix

  datatype HavocOp = ByteFlip | BlockCopy | BlockInsert | BlockDelete | ChunkRepeat | XdrTagFlip | ScValMutate

  datatype Weights = Weights(byteFlip: u32, blockCopy: u32, blockInsert: u32, blockDelete: u32,
                             chunkRepeat: u32, xdrTagFlip: u32, scvalMutate: u32) {
    function Of(op: HavocOp): u32 {
      match op
      case ByteFlip => byteFlip
      case BlockCopy => blockCopy
      case BlockInsert => blockInsert
      case BlockDelete => blockDelete
      case ChunkRepeat => chunkRepeat
      case XdrTagFlip => xdrTagFlip
      case ScValMutate => scvalMutate
    }

    function Total(): nat {
      byteFlip + blockCopy + blockInsert + blockDelete + chunkRepeat + xdrTagFlip + scvalMutate
    }
  }

  /** The weight of all operators tried before this one. */
  function Before(w: Weights, op: HavocOp): nat {
    match op
    case ByteFlip => 0
    case BlockCopy => w.byteFlip
    case BlockInsert => w.byteFlip + w.blockCopy
    case BlockDelete => w.byteFlip + w.blockCopy + w.blockInsert
    case ChunkRepeat => w.byteFlip + w.blockCopy + w.blockInsert + w.blockDelete
    case XdrTagFlip => w.byteFlip + w.blockCopy + w.blockInsert + w.blockDelete + w.chunkRepeat
    case ScValMutate => w.byteFlip + w.blockCopy + w.blockInsert + w.blockDelete + w.chunkRepeat + w.xdrTagFlip
  }

  /** The residues that choose this operator: a slot as wide as its weight. */
  predicate InSlot(w: Weights, op: HavocOp, pick: nat) {
    Between(Before(w, op), Before(w, op) + w.Of(op), pick)
  }

  predicate Between(lo: nat, hi: nat, x: nat) { lo <= x < hi }

  /** `select_op`: a zero total draws nothing and flips a byte; otherwise one draw,
      reduced modulo the total, lands in the chosen operator's slot. The u32 sum of the
      weights must not overflow. */
  method SelectOp(w: Weights, state: bv64) returns (op: HavocOp, state': bv64)
    requires w.Total() < TWO_32
    ensures w.Total() == 0 ==> op == ByteFlip && state' == state
    ensures w.Total() > 0 ==> state' == SplitMix.NextState(state)
                              && InSlot(w, op, (SplitMix.Finalize(state') as int) % w.Total())
  {
    var total := w.Total();
    if total == 0 {
      return ByteFlip, state;
    }
    var r;
    r, state' := SplitMix.NextU64(state);
    var pick := (r as int) % total;
    var acc := w.byteFlip;
    if pick < acc {
      return ByteFlip, state';
    }
    acc := acc + w.blockCopy;
    if pick < acc {
      return BlockCopy, state';
    }
    acc := acc + w.blockInsert;
    if pick < acc {
      return BlockInsert, state';
    }
    acc := acc + w.blockDelete;
    if pick < acc {
      return BlockDelete, state';
    }
    acc := acc + w.chunkRepeat;
    if pick < acc {
      return ChunkRepeat, state';
    }
    acc := acc + w.xdrTagFlip;
    if pick < acc {
      return XdrTagFlip, state';
    }
    return ScValMutate, state';
  }

  /** Every residue lies in exactly one slot, so `SelectOp` is determined by its draw. */
  lemma {:induction false} SlotsPartition(w: Weights, pick: nat)
    requires pick < w.Total()
    ensures exists op: HavocOp :: InSlot(w, op, pick)
    ensures forall op: HavocOp, other: HavocOp :: InSlot(w, op, pick) && InSlot(w, other, pick) ==> op == other
  {
    assert InSlot(w, ByteFlip, pick) || InSlot(w, BlockCopy, pick) || InSlot(w, BlockInsert, pick)
        || InSlot(w, BlockDelete, pick) || InSlot(w, ChunkRepeat, pick) || InSlot(w, XdrTagFlip, pick)
        || InSlot(w, ScValMutate, pick);
    forall op: HavocOp, other: HavocOp | op != other
      ensures !(InSlot(w, op, pick) && InSlot(w, other, pick))
    {
      assert Before(w, op) + w.Of(op) <= Before(w, other) || Before(w, other) + w.Of(other) <= Before(w, op);
    }
  }

  function Window(lo: nat, hi: nat, n: nat): set<nat> { set x: nat | x < n && Between(lo, hi, x) }

  lemma {:induction false} WindowSize(lo: nat, hi: nat, n: nat)
    requires lo <= hi <= n
    ensures |Window(lo, hi, n)| == hi - lo
  {
    if lo == hi {
      assert Window(lo, hi, n) == {};
    } else {
      WindowSize(lo, hi - 1, n);
      assert Window(lo, hi, n) == Window(lo, hi - 1, n) + {hi - 1};
    }
  }

  /** The residues of a draw that choose the operator. */
  function Picks(w: Weights, op: HavocOp): set<nat> { set pick: nat | pick < w.Total() && InSlot(w, op, pick) }

  /** Exactly weight-many of the total residues choose each operator. */
  lemma {:induction false} ExactShares(w: Weights, op: HavocOp)
    ensures |Picks(w, op)| == w.Of(op)
  {
    var lo := Before(w, op);
    WindowSize(lo, lo + w.Of(op), w.Total());
    assert Picks(w, op) == Window(lo, lo + w.Of(op), w.Total());
  }
}
