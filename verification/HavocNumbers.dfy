/** What the operators of havoc.rs do, byte by byte and draw by draw, in numbers. */
module HavocNumbers {
  import opened Prelude
  import opened Havoc
  import opened HavocOps
  import opened HavocEffects

  /** The i-th draw that is left. */
  function D(t: Tape, i: nat): u64 { t.draws(t.used + i) }

  /** The highest byte of a draw. */
  predicate IsTop(b: bv8, w: u64) { b == (w / 0x100_0000_0000_0000) as bv8 }

  lemma {:induction false} TopByNumbers(w: u64)
    ensures IsTop(TopByte(w), w)
  {}

  // ----- one byte -----

  /** One bit turned. */
  predicate BitTurned(w: u64, x: bv8, y: bv8) { y ^ x == [1, 2, 4, 8, 16, 32, 64, 128][w % 8] }

  /** All bits turned. */
  predicate AllTurned(x: bv8, y: bv8) { x as int + y as int == 255 }

  /** One up or down, around the clock. */
  predicate Neighbour(w: u64, x: bv8, y: bv8) { y as int == (if w % 2 == 1 then (x as int + 1) % 256 else (x as int + 255) % 256) }

  /** The top byte of a draw, or every other bit turned where that would change nothing. */
  predicate Fresh(w: u64, x: bv8, y: bv8) { if IsTop(x, w) then y ^ x == 0xAA else IsTop(y, w) }

  /** How the first draw, modulo 4, and the second one change a byte x to y. */
  predicate ByteByNumbers(kind: u64, w: u64, x: bv8, y: bv8) {
    match kind % 4
    case 0 => BitTurned(w, x, y)
    case 1 => AllTurned(x, y)
    case 2 => Neighbour(w, x, y)
    case _ => Fresh(w, x, y)
  }

  lemma {:induction false} XorBack(x: bv8, m: bv8)
    ensures (x ^ m) ^ x == m
  {}

  lemma {:induction false} ComplementByNumbers(x: bv8)
    ensures x as int + (x ^ 0xFF) as int == 255
  {}

  lemma {:induction false} UpByNumbers(x: bv8)
    ensures (x + 1) as int == (x as int + 1) % 256
  {}

  lemma {:induction false} DownByNumbers(x: bv8)
    ensures (x + 0xFF) as int == (x as int + 255) % 256
  {}

  lemma {:induction false} TopIsOne(x: bv8, w: u64)
    ensures IsTop(x, w) <==> x == TopByte(w)
  {
    TopByNumbers(w);
  }

  lemma {:induction false} TurnsBit(t: Tape, x: bv8)
    ensures BitTurned(D(t, 0), x, ChangedBy(0, t, x).value)
  {
    XorBack(x, Mask(t.Below(8)));
  }

  lemma {:induction false} TurnsAll(t: Tape, x: bv8)
    ensures AllTurned(x, ChangedBy(1, t, x).value)
  {
    ComplementByNumbers(x);
  }

  lemma {:induction false} StepsAside(t: Tape, x: bv8)
    ensures Neighbour(D(t, 0), x, ChangedBy(2, t, x).value)
  {
    UpByNumbers(x);
    DownByNumbers(x);
  }

  lemma {:induction false} TakesFresh(t: Tape, x: bv8)
    ensures Fresh(D(t, 0), x, ChangedBy(3, t, x).value)
  {
    TopIsOne(x, D(t, 0));
    TopIsOne(TopByte(D(t, 0)), D(t, 0));
    XorBack(x, 0xAA);
  }

  lemma {:induction false} ChangeByNumbers(t: Tape, x: bv8)
    ensures ByteByNumbers(D(t, 0), D(t, 1), x, Changed(t, x).value)
  {
    TurnsBit(t.Rest(), x);
    TurnsAll(t.Rest(), x);
    StepsAside(t.Rest(), x);
    TakesFresh(t.Rest(), x);
    KindChosen(D(t, 0), D(t, 1), x, ChangedBy(D(t, 0) % 4, t.Rest(), x).value, t.Rest());
  }

  lemma {:induction false} KindChosen(kind: u64, w: u64, x: bv8, y: bv8, t: Tape)
    requires y == ChangedBy(kind % 4, t, x).value && w == D(t, 0)
    requires BitTurned(w, x, ChangedBy(0, t, x).value) && AllTurned(x, ChangedBy(1, t, x).value)
    requires Neighbour(w, x, ChangedBy(2, t, x).value) && Fresh(w, x, ChangedBy(3, t, x).value)
    ensures ByteByNumbers(kind, w, x, y)
  {}

  /** A flip changes the byte at the first draw modulo the length, by the next two draws. */
  lemma {:induction false} FlipByNumbers(t: Tape, p: Bytes)
    requires p != []
    ensures var i, q := D(t, 0) % |p|, Flip(t, p).value;
            q == p[i := q[i]] && ByteByNumbers(D(t, 1), D(t, 2), p[i], q[i])
  {
    ChangeByNumbers(t.Rest(), p[t.Below(|p|)]);
  }

  // ----- blocks -----

  /** A length from one to the most, by the next draw where there is a choice. */
  function LengthBy(t: Tape, most: nat): nat { if most <= 1 then 1 else 1 + D(t, 0) % most }

  function DrawsFor(most: nat): nat { if most <= 1 then 0 else 1 }

  lemma {:induction false} RangeByNumbers(t: Tape, most: nat)
    ensures InRange(t, 1, most) == Drawn(LengthBy(t, most), Tape(t.draws, t.used + DrawsFor(most)))
  {}

  /** Copying takes the byte from the drawn source for every position of the drawn
      destination, which is one further, or one before, where the two coincide. */
  lemma {:induction false} CopyByNumbers(t: Tape, p: Bytes, len: nat)
    requires 0 < len < |p|
    ensures var n := |p| - len + 1;
            var src, drawn := D(t, 0) % n, D(t, 1) % n;
            var dst := if src != drawn then drawn else if src + len < |p| then src + 1 else src - 1;
            && dst >= 0
            && CopyOf(t, p, len).value == Flip(Tape(t.draws, t.used + 2), CopiedTo(p, src, dst, len)).value
            && TakenFrom(p, src, dst, len, CopiedTo(p, src, dst, len))
  {
    var src := D(t, 0) % (|p| - len + 1);
    CopiedByNumbers(p, src, Apart(src, D(t, 1) % (|p| - len + 1), len, |p|), len);
  }

  /** q is p with the bytes from src on at dst. */
  ghost predicate TakenFrom(p: Bytes, src: nat, dst: nat, len: nat, q: Bytes) {
    && src + len <= |p| && |q| == |p|
    && forall i :: 0 <= i < |p| ==> q[i] == if dst <= i < dst + len then p[src + (i - dst)] else p[i]
  }

  lemma {:induction false} CopiedByNumbers(p: Bytes, src: nat, dst: nat, len: nat)
    requires src + len <= |p| && dst + len <= |p|
    ensures TakenFrom(p, src, dst, len, CopiedTo(p, src, dst, len))
  {}

  /** How long a copied block is. */
  lemma {:induction false} CopyLengthByNumbers(b: Bounds, t: Tape, p: Bytes)
    requires |p| >= 2
    ensures var most := Max(Min(|p| / 2, b.maxGrowth), 1);
            Copy(b, t, p) == CopyOf(Tape(t.draws, t.used + DrawsFor(most)), p, LengthBy(t, most))
  {
    RangeByNumbers(t, CopyLimit(b, p));
  }

  lemma {:induction false} FreshByNumbers(t: Tape, n: nat, i: nat)
    ensures FreshBytes(t, n).tape == Tape(t.draws, t.used + n)
    ensures i < n ==> IsTop(FreshBytes(t, n).value[i], D(t, i))
  {
    if n > 0 {
      FreshByNumbers(t, n - 1, i);
      TopByNumbers(D(t, n - 1));
    }
  }

  /** What is inserted: by an odd draw the top byte of the next one over and over, by an
      even one the top bytes of the next ones. */
  lemma {:induction false} DataByNumbers(t: Tape, n: nat, i: nat)
    requires i < n
    ensures IsTop(BlockData(t, n).value[i], D(t, 1 + if D(t, 0) % 2 == 1 then 0 else i))
  {
    TopByNumbers(D(t, 1));
    FreshByNumbers(t.Rest(), n, i);
  }

  /** Inserting keeps what is before and after the drawn place. */
  lemma {:induction false} InsertByNumbers(b: Bounds, t: Tape, p: Bytes)
    requires 0 < |p| < b.maxLen
    ensures var most := Min(b.maxLen - |p|, b.maxGrowth);
            var len, k := LengthBy(t, most), DrawsFor(most);
            var pos := D(t, k) % (|p| + 1);
            Insert(b, t, p).value == p[..pos] + BlockData(Tape(t.draws, t.used + k + 1), len).value + p[pos..]
  {
    RangeByNumbers(t, Min(b.maxLen - |p|, b.maxGrowth));
  }

  /** Deleting keeps what is before and after the drawn block. */
  lemma {:induction false} DeleteByNumbers(b: Bounds, t: Tape, p: Bytes)
    requires |p| > b.minLen
    ensures var most := Min(|p| - b.minLen, b.maxGrowth);
            var len, k := LengthBy(t, most), DrawsFor(most);
            && 0 < len <= |p|
            && var pos := D(t, k) % (|p| - len + 1);
               Delete(b, t, p).value == p[..pos] + p[pos + len..]
  {
    RangeByNumbers(t, Min(|p| - b.minLen, b.maxGrowth));
  }

  /** The repeats of a chunk, one after the other. */
  lemma {:induction false} RepeatAt(chunk: Bytes, count: nat, c: nat, i: nat)
    requires c < count && i < |chunk|
    ensures |Repeat(chunk, count)| == |chunk| * count && |chunk| * c + i < |chunk| * count
    ensures Repeat(chunk, count)[|chunk| * c + i] == chunk[i]
  {
    RepeatLength(chunk, count);
    RepeatLength(chunk, count - 1);
    assert |chunk| * count == |chunk| * (count - 1) + |chunk|;
    if c < count - 1 {
      RepeatAt(chunk, count - 1, c, i);
    }
  }

  lemma {:induction false} RepeatLength(chunk: Bytes, count: nat)
    ensures |Repeat(chunk, count)| == |chunk| * count
  {
    if count > 0 {
      RepeatLength(chunk, count - 1);
      assert |chunk| * count == |chunk| * (count - 1) + |chunk|;
    }
  }

  /** A drawn chunk is followed by as many copies of itself as drawn. */
  lemma {:induction false} RepeatByNumbers(t: Tape, p: Bytes, len: nat, most: nat)
    requires 0 < len <= |p|
    ensures var pos, count := D(t, 0) % (|p| - len + 1), LengthBy(Tape(t.draws, t.used + 1), most);
            RepeatOf(t, p, len, most).value == p[..pos + len] + Repeat(p[pos..pos + len], count) + p[pos + len..]
  {
    RangeByNumbers(t.Rest(), most);
  }

  lemma {:induction false} RepeatLengthByNumbers(b: Bounds, t: Tape, p: Bytes)
    requires 0 < |p| < b.maxLen
    ensures var most := Max(Min(|p|, b.maxGrowth), 1);
            var len := LengthBy(t, most);
            RepeatChunk(b, t, p) == RepeatOf(Tape(t.draws, t.used + DrawsFor(most)), p, len, Max(Min((b.maxLen - |p|) / len, 4), 1))
  {
    RangeByNumbers(t, AtLeastOne(Min(|p|, b.maxGrowth)));
  }

  // ----- tags -----

  /** The tag two draws give: an odd first one chooses 0x7F, 0x80, 0xFE or 0xFF, an even one
      0 to 3. */
  predicate TagByNumbers(t: Tape, tag: bv8) {
    tag == if D(t, 0) % 2 == 1 then [0x7F, 0x80, 0xFE, 0xFF][D(t, 1) % 4] else [0, 1, 2, 3][D(t, 1) % 4]
  }

  lemma {:induction false} NewTagByNumbers(t: Tape)
    ensures TagByNumbers(t, AnyTag(t).value) && AnyTag(t).tape == Tape(t.draws, t.used + 2)
  {}

  /** In place of a tag the next valid one is taken where the drawn valid one is already
      there. */
  lemma {:induction false} OtherTagByNumbers(t: Tape, current: bv8)
    ensures var tag := OtherTag(t, current).value;
            if D(t, 0) % 2 == 0 && TagByNumbers(t, current) then tag == [1, 2, 3, 0][D(t, 1) % 4] else TagByNumbers(t, tag)
  {}

  /** The byte after the first 0xE0 is replaced by such a tag; without one to replace, 0xE0
      and a tag go to the place of the third draw, or over the start, or in place of all. */
  lemma {:induction false} TagFlipByNumbers(b: Bounds, t: Tape, p: Bytes, k: nat)
    requires k <= |p| && (forall i :: 0 <= i < k ==> p[i] != 0xE0) && (k < |p| ==> p[k] == 0xE0)
    ensures var q := FlipTag(b, t, p).value;
            if k + 1 < |p| then q == p[k + 1 := OtherTag(t, p[k + 1]).value]
            else
              var put := [0xE0, AnyTag(t).value];
              if |p| + 2 <= b.maxLen then (var pos := if p == [] then 0 else D(t, 2) % (|p| + 1); q == p[..pos] + put + p[pos..])
              else if |p| >= 2 then q == put + p[2..]
              else q == put
  {
    MarkerByNumbers(p, k);
    NewTagByNumbers(t);
  }

  lemma {:induction false} MarkerByNumbers(p: Bytes, k: nat)
    requires k <= |p| && (forall i :: 0 <= i < k ==> p[i] != 0xE0) && (k < |p| ==> p[k] == 0xE0)
    ensures MarkerIn(p) == k
  {
    var m := MarkerIn(p);
    forall i | 0 <= i < m ensures p[i] != 0xE0 {
      assert p[..m][i] == p[i];
    }
  }

  // ----- bounds -----

  /** Too short a result is padded with the top bytes of the next draws, too long a one is
      cut. */
  lemma {:induction false} BoundsByNumbers(b: Bounds, q: Drawn<Bytes>, i: nat)
    requires i < |Bounded(b, q).value|
    ensures |Bounded(b, q).value| == if |q.value| < b.minLen then b.minLen else if |q.value| > b.maxLen then b.maxLen else |q.value|
    ensures if i < |q.value| then Bounded(b, q).value[i] == q.value[i] else IsTop(Bounded(b, q).value[i], D(q.tape, i - |q.value|))
  {
    if |q.value| < b.minLen && i >= |q.value| {
      FreshByNumbers(q.tape, b.minLen - |q.value|, i - |q.value|);
    }
  }

  // ----- the choice of an operator -----

  /** With the default weights the operators are chosen by these residues of 130. */
  lemma {:induction false} DefaultShares(op: HavocOp, pick: nat)
    requires pick < 130
    ensures InSlot(Weights(20, 15, 15, 15, 15, 20, 30), op, pick) <==>
              match op
              case ByteFlip => pick < 20
              case BlockCopy => 20 <= pick < 35
              case BlockInsert => 35 <= pick < 50
              case BlockDelete => 50 <= pick < 65
              case ChunkRepeat => 65 <= pick < 80
              case XdrTagFlip => 80 <= pick < 100
              case ScValMutate => 100 <= pick
  {}
}
