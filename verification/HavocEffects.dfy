/** What the operators of havoc.rs may do to a payload whatever is drawn: the edits, the
    length bounds, which operators always change something, and exactly which payloads the
    others can leave as they were. */
module HavocEffects {
  import opened Prelude
  import opened Havoc
  import opened HavocOps
  import SplitMix

  // ----- what the operators may do -----

  ghost predicate SameBut(p: Bytes, q: Bytes, i: nat) { i < |p| == |q| && p[i] != q[i] && q == p[i := q[i]] }

  /** Exactly one byte differs. */
  ghost predicate OneByteChanged(p: Bytes, q: Bytes) { exists i: nat :: SameBut(p, q, i) }

  ghost predicate Flipped(p: Bytes, q: Bytes) { if p == [] then |q| == 1 else OneByteChanged(p, q) }

  ghost predicate InsertedAt(p: Bytes, q: Bytes, pos: nat, n: nat) {
    pos <= |p| && |q| == |p| + n && q[..pos] == p[..pos] && q[pos + n..] == p[pos..]
  }

  /** Between one and limit bytes inserted somewhere. */
  ghost predicate Grown(p: Bytes, q: Bytes, limit: nat) { exists pos: nat, n: nat :: 1 <= n <= limit && InsertedAt(p, q, pos, n) }

  /** Between one and limit bytes cut out somewhere. */
  ghost predicate Shrunk(p: Bytes, q: Bytes, limit: nat) { Grown(q, p, limit) }

  ghost predicate RepeatedAt(p: Bytes, q: Bytes, pos: nat, len: nat, count: nat) {
    pos + len <= |p| && q == p[..pos + len] + Repeat(p[pos..pos + len], count) + p[pos + len..]
  }

  /** A chunk of the payload repeated up to four times right after itself, and more than
      once only where there is room. */
  ghost predicate ChunkRepeated(p: Bytes, q: Bytes, limit: nat, room: nat) {
    exists pos: nat, len: nat, count: nat ::
      1 <= len <= limit && 1 <= count <= 4 && (count == 1 || Product(count, len) <= room) && RepeatedAt(p, q, pos, len, count)
  }

  function Product(m: nat, n: nat): nat { m * n }

  /** A block copied to another place, then one byte flipped. */
  ghost predicate Copied(p: Bytes, q: Bytes, limit: nat) {
    exists src: nat, dst: nat, len: nat ::
      1 <= len <= limit && src + len <= |p| && dst + len <= |p| && src != dst && OneByteChanged(CopiedTo(p, src, dst, len), q)
  }

  ghost predicate InsertResult(b: Bounds, p: Bytes, q: Bytes) {
    if |p| >= b.maxLen then Flipped(p, q) else Grown(p, q, AtLeastOne(Min(b.maxLen - |p|, b.maxGrowth)))
  }

  ghost predicate DeleteResult(b: Bounds, p: Bytes, q: Bytes) {
    if |p| <= b.minLen then InsertResult(b, p, q) else Shrunk(p, q, AtLeastOne(Min(|p| - b.minLen, b.maxGrowth)))
  }

  ghost predicate RepeatResult(b: Bounds, p: Bytes, q: Bytes) {
    if p == [] || |p| >= b.maxLen then InsertResult(b, p, q)
    else ChunkRepeated(p, q, AtLeastOne(Min(|p|, b.maxGrowth)), b.maxLen - |p|)
  }

  ghost predicate CopyResult(b: Bounds, p: Bytes, q: Bytes) { if |p| < 2 then Flipped(p, q) else Copied(p, q, CopyLimit(b, p)) }

  predicate Tag(t: bv8) { t in VALID_TAGS || t in INVALID_TAGS }

  /** The tag after the first marker replaced; a valid replacement is a different one. */
  ghost predicate Retagged(p: Bytes, q: Bytes) {
    var k := MarkerIn(p) + 1;
    k < |p| == |q| && q == p[k := q[k]] && (q[k] in INVALID_TAGS || (q[k] in VALID_TAGS && q[k] != p[k]))
  }

  ghost predicate Tagged(b: Bounds, p: Bytes, q: Bytes) {
    exists t: bv8 :: Tag(t) &&
      if |p| + 2 <= b.maxLen then exists pos: nat :: InsertedAt(p, q, pos, 2) && q[pos..pos + 2] == [ENUM_MARKER, t]
      else if |p| >= 2 then q == p[0 := ENUM_MARKER][1 := t]
      else q == [ENUM_MARKER, t]
  }

  ghost predicate TagResult(b: Bounds, p: Bytes, q: Bytes) {
    if MarkerIn(p) + 1 < |p| then Retagged(p, q) else Tagged(b, p, q)
  }

  ghost predicate OpResult(b: Bounds, op: HavocOp, typed: Typed, p: Bytes, q: Bytes) {
    match op
    case ByteFlip => Flipped(p, q)
    case BlockCopy => CopyResult(b, p, q)
    case BlockInsert => InsertResult(b, p, q)
    case BlockDelete => DeleteResult(b, p, q)
    case ChunkRepeat => RepeatResult(b, p, q)
    case XdrTagFlip => TagResult(b, p, q)
    case ScValMutate => if typed.payload.Some? then q == typed.payload.value else Flipped(p, q)
  }

  lemma {:induction false} ByteChanges(x: bv8, m: bv8)
    ensures m != 0 ==> x ^ m != x
    ensures x + 1 != x && x + 0xFF != x && x ^ 0xFF != x && x ^ 0xAA != x
  {}

  lemma {:induction false} ChangedIsDifferent(t: Tape, x: bv8)
    ensures Changed(t, x).value != x
  {
    ByteChanges(x, Mask(t.Rest().Below(8)));
  }

  lemma {:induction false} FlipFits(t: Tape, p: Bytes)
    ensures Flipped(p, Flip(t, p).value)
  {
    if p != [] {
      ChangedIsDifferent(t.Rest(), p[t.Below(|p|)]);
      assert SameBut(p, Flip(t, p).value, t.Below(|p|));
    }
  }

  lemma {:induction false} CopyFits(b: Bounds, t: Tape, p: Bytes)
    ensures CopyResult(b, p, Copy(b, t, p).value)
  {
    if |p| < 2 {
      FlipFits(t, p);
    } else {
      var drawn := InRange(t, 1, CopyLimit(b, p));
      var len, u := drawn.value, drawn.tape;
      var src := u.Below(|p| - len + 1);
      var dst := Apart(src, u.Rest().Below(|p| - len + 1), len, |p|);
      FlipFits(u.Rest().Rest(), CopiedTo(p, src, dst, len));
    }
  }

  lemma {:induction false} InsertFits(b: Bounds, t: Tape, p: Bytes)
    ensures InsertResult(b, p, Insert(b, t, p).value)
  {
    if |p| >= b.maxLen {
      FlipFits(t, p);
    } else {
      var len := InRange(t, 1, Min(b.maxLen - |p|, b.maxGrowth));
      var pos := Place(len.tape, p);
      assert InsertedAt(p, Insert(b, t, p).value, pos.value, len.value);
    }
  }

  lemma {:induction false} DeleteFits(b: Bounds, t: Tape, p: Bytes)
    ensures DeleteResult(b, p, Delete(b, t, p).value)
  {
    if |p| <= b.minLen {
      InsertFits(b, t, p);
    } else {
      var len := InRange(t, 1, Min(|p| - b.minLen, b.maxGrowth));
      var pos := len.tape.Below(|p| - len.value + 1);
      assert InsertedAt(Delete(b, t, p).value, p, pos, len.value);
    }
  }

  lemma {:induction false} RepeatsFit(room: nat, len: nat, count: nat)
    requires len > 0 && count <= room / len
    ensures Product(count, len) <= room
  {
    var q := room / len;
    assert room == q * len + room % len;
    assert count * len <= q * len;
  }

  lemma {:induction false} RepeatFits(b: Bounds, t: Tape, p: Bytes)
    ensures RepeatResult(b, p, RepeatChunk(b, t, p).value)
  {
    if p == [] || |p| >= b.maxLen {
      InsertFits(b, t, p);
    } else {
      var drawn := InRange(t, 1, AtLeastOne(Min(|p|, b.maxGrowth)));
      var len, u := drawn.value, drawn.tape;
      var room := b.maxLen - |p|;
      var count := InRange(u.Rest(), 1, AtLeastOne(Min(room / len, 4))).value;
      if count > 1 {
        RepeatsFit(room, len, count);
      }
      assert RepeatedAt(p, RepeatChunk(b, t, p).value, u.Below(|p| - len + 1), len, count);
    }
  }

  lemma {:induction false} TagFits(b: Bounds, t: Tape, p: Bytes)
    ensures TagResult(b, p, FlipTag(b, t, p).value)
  {
    if MarkerIn(p) + 1 >= |p| {
      var tag := AnyTag(t);
      assert Tag(tag.value);
      if |p| + 2 <= b.maxLen {
        var pos := Place(tag.tape, p).value;
        var q := FlipTag(b, t, p).value;
        assert InsertedAt(p, q, pos, 2) && q[pos..pos + 2] == [ENUM_MARKER, tag.value];
      }
    }
  }

  /** Whatever is drawn, an operator does to the payload what its name says. */
  lemma {:induction false} OperatorFits(b: Bounds, op: HavocOp, typed: Typed, t: Tape, p: Bytes)
    ensures OpResult(b, op, typed, p, Operate(b, op, typed, t, p).value)
  {
    match op {
      case ByteFlip => FlipFits(t, p);
      case BlockCopy => CopyFits(b, t, p);
      case BlockInsert => InsertFits(b, t, p);
      case BlockDelete => DeleteFits(b, t, p);
      case ChunkRepeat => RepeatFits(b, t, p);
      case XdrTagFlip => TagFits(b, t, p);
      case ScValMutate => FlipFits(TapeFrom(typed.state), p);
    }
  }

  // ----- bounds and progress -----

  /** Whatever an operator does, the result is within bounds that can be met. */
  lemma {:induction false} WithinBounds(b: Bounds, op: HavocOp, typed: Typed, t: Tape, p: Bytes)
    requires b.minLen <= b.maxLen
    ensures b.minLen <= |Applied(b, op, typed, t, p).value| <= b.maxLen
  {}

  /** The operators that promise a change. */
  predicate Advances(op: HavocOp) { op in {ByteFlip, BlockInsert, BlockDelete, ChunkRepeat} }

  lemma {:induction false} RepeatNotEmpty(chunk: Bytes, count: nat)
    requires chunk != [] && count > 0
    ensures Repeat(chunk, count) != []
  {}

  lemma {:induction false} ChunkRepeatedGrows(p: Bytes, q: Bytes, limit: nat, room: nat)
    requires ChunkRepeated(p, q, limit, room)
    ensures |q| > |p|
  {
    var pos: nat, len: nat, count: nat :|
      1 <= len <= limit && 1 <= count <= 4 && (count == 1 || Product(count, len) <= room) && RepeatedAt(p, q, pos, len, count);
    RepeatNotEmpty(p[pos..pos + len], count);
  }

  /** Before bounding, an advancing operator changes the payload, and only an operator that
      puts something in makes it longer than the maximum. */
  lemma {:induction false} RawProgress(b: Bounds, op: HavocOp, typed: Typed, p: Bytes, q: Bytes)
    requires Advances(op) && b.minLen <= |p| <= b.maxLen && OpResult(b, op, typed, p, q)
    ensures q != p && |q| >= b.minLen
    ensures |q| > b.maxLen ==> |p| < b.maxLen || p == []
  {
    if op == ChunkRepeat && p != [] && |p| < b.maxLen {
      ChunkRepeatedGrows(p, q, AtLeastOne(Min(|p|, b.maxGrowth)), b.maxLen - |p|);
    }
  }

  /** Flipping a byte, inserting, deleting and repeating change every payload whatever is
      drawn, except the empty one under a maximum of zero, and that one never. */
  lemma {:induction false} AdvancingOperatorsProgress(b: Bounds, op: HavocOp, typed: Typed, t: Tape, p: Bytes)
    requires Advances(op) && b.minLen <= b.maxLen
    ensures Applied(b, op, typed, t, p).value != p <==> p != [] || b.maxLen > 0
  {
    if b.minLen <= |p| <= b.maxLen {
      OperatorFits(b, op, typed, t, p);
      RawProgress(b, op, typed, p, Operate(b, op, typed, t, p).value);
    }
  }

  // ----- copies that are undone -----

  /** Not all bytes are the same. */
  ghost predicate Differing(p: Bytes) { exists i, j :: 0 <= i < |p| && 0 <= j < |p| && p[i] != p[j] }

  lemma {:induction false} UniformCopy(p: Bytes, src: nat, dst: nat, len: nat)
    requires !Differing(p) && src + len <= |p| && dst + len <= |p|
    ensures CopiedTo(p, src, dst, len) == p
  {
    var q := CopiedTo(p, src, dst, len);
    forall i | 0 <= i < |p| ensures q[i] == p[i] {
      assert q[i] == p[if dst <= i < dst + len then src + (i - dst) else i];
    }
  }

  lemma {:induction false} UniformCopyChanges(b: Bounds, t: Tape, p: Bytes)
    requires p != [] && !Differing(p)
    ensures Copy(b, t, p).value != p && |Copy(b, t, p).value| == |p|
  {
    CopyFits(b, t, p);
    if |p| >= 2 {
      var q := Copy(b, t, p).value;
      var src: nat, dst: nat, len: nat :|
        1 <= len <= CopyLimit(b, p) && src + len <= |p| && dst + len <= |p| && src != dst
        && OneByteChanged(CopiedTo(p, src, dst, len), q);
      UniformCopy(p, src, dst, len);
    }
  }

  /** For given draws: the copy changed one byte only, and the flip hits that byte and puts
      the old one back. */
  lemma {:induction false} CopyChangesNothingIff(t: Tape, p: Bytes, len: nat)
    requires 0 < len < |p|
    ensures var src := t.Below(|p| - len + 1);
            var q := CopiedTo(p, src, Apart(src, t.Rest().Below(|p| - len + 1), len, |p|), len);
            var u := t.Rest().Rest();
            var i := u.Below(|p|);
            CopyOf(t, p, len).value == p <==> SameBut(p, q, i) && Changed(u.Rest(), q[i]).value == p[i]
  {
    var src := t.Below(|p| - len + 1);
    var q := CopiedTo(p, src, Apart(src, t.Rest().Below(|p| - len + 1), len, |p|), len);
    var u := t.Rest().Rest();
    RestoredIff(u, p, q);
  }

  lemma {:induction false} RestoredIff(u: Tape, p: Bytes, q: Bytes)
    requires p != [] && |q| == |p|
    ensures var i := u.Below(|p|);
            Flip(u, q).value == p <==> SameBut(p, q, i) && Changed(u.Rest(), q[i]).value == p[i]
  {
    var i := u.Below(|p|);
    ChangedIsDifferent(u.Rest(), q[i]);
    var r := Flip(u, q).value;
    assert r == q[i := Changed(u.Rest(), q[i]).value];
    if r == p {
      assert p[i] == Changed(u.Rest(), q[i]).value;
      assert q == p[i := q[i]];
    }
    if SameBut(p, q, i) && Changed(u.Rest(), q[i]).value == p[i] {
      assert r == p;
    }
  }

  lemma {:induction false} CopyKeepsLength(b: Bounds, t: Tape, p: Bytes)
    requires p != []
    ensures |Copy(b, t, p).value| == |p|
  {}

  /** A tape with these draws first. */
  function TapeOf(ws: seq<u64>): Tape { Tape((k: nat) => if k < |ws| then ws[k] else 0, 0) }

  function ByteWord(x: bv8): u64 { (x as int) * 0x100_0000_0000_0000 }

  /** Draws that copy byte i over byte j and then put the old byte j back. */
  function UndoingTape(b: Bounds, p: Bytes, i: nat, j: nat): Tape
    requires i < |p| && j < |p| < TWO_64
  {
    TapeOf((if CopyLimit(b, p) > 1 then [0] else []) + [i, j, j, 3, ByteWord(p[j])])
  }

  lemma {:induction false} SmallResidue(i: nat, n: nat)
    requires i < n
    ensures i % n == i
  {}

  /** Byte i over byte j, and byte j put back. */
  lemma {:induction false} CopyUndone(t: Tape, p: Bytes, i: nat, j: nat)
    requires i < |p| && j < |p| && p[i] != p[j] && t.Word() == i && t.Rest().Word() == j
    requires var u := t.Rest().Rest(); u.Word() == j && u.Rest().Word() == 3 && u.Rest().Rest().Word() == ByteWord(p[j])
    ensures CopyOf(t, p, 1).value == p
  {
    SmallResidue(i, |p|);
    SmallResidue(j, |p|);
    FlipPutsBack(t.Rest().Rest(), CopiedTo(p, i, j, 1), j, p[j]);
  }

  lemma {:induction false} FlipPutsBack(u: Tape, q: Bytes, j: nat, x: bv8)
    requires j < |q| && q[j] != x && u.Word() == j && u.Rest().Word() == 3 && u.Rest().Rest().Word() == ByteWord(x)
    ensures Flip(u, q).value == q[j := x]
  {
    SmallResidue(j, |q|);
    ChangedPutsBack(u.Rest(), q[j], x);
  }

  lemma {:induction false} ChangedPutsBack(t: Tape, y: bv8, x: bv8)
    requires y != x && t.Word() == 3 && t.Rest().Word() == ByteWord(x)
    ensures Changed(t, y).value == x
  {
    ByteWordTop(x);
  }

  lemma {:induction false} ByteWordTop(x: bv8)
    ensures TopByte(ByteWord(x)) == x
  {
    ScaledBack(x as int);
  }

  lemma {:induction false} ScaledBack(n: nat)
    ensures n * 0x100_0000_0000_0000 / 0x100_0000_0000_0000 == n
  {}

  lemma {:induction false} UndoingTapeUndoes(b: Bounds, p: Bytes, i: nat, j: nat)
    requires i < |p| && j < |p| < TWO_64 && p[i] != p[j]
    ensures Copy(b, UndoingTape(b, p, i, j), p).value == p
  {
    var t := UndoingTape(b, p, i, j);
    var u := if CopyLimit(b, p) > 1 then t.Rest() else t;
    SmallResidue(0, CopyLimit(b, p));
    assert InRange(t, 1, CopyLimit(b, p)) == Drawn(1, u);
    CopyUndone(u, p, i, j);
  }

  /** Some draws put back what a copy overwrote; an empty payload gets a byte, which only a
      maximum of zero takes away again. */
  ghost predicate CopyCanStay(b: Bounds, p: Bytes) {
    if p == [] then b.minLen <= 1 && b.maxLen == 0 else b.minLen <= |p| <= b.maxLen && Differing(p)
  }

  lemma {:induction false} OnlySuchCopiesStay(b: Bounds, t: Tape, p: Bytes)
    requires Bounded(b, Copy(b, t, p)).value == p
    ensures CopyCanStay(b, p)
  {
    if p != [] {
      CopyKeepsLength(b, t, p);
      if !Differing(p) {
        UniformCopyChanges(b, t, p);
      }
    }
  }

  lemma {:induction false} SuchCopiesStay(b: Bounds, p: Bytes) returns (t: Tape)
    requires CopyCanStay(b, p) && |p| < TWO_64
    ensures Bounded(b, Copy(b, t, p)).value == p
  {
    if p == [] {
      t := TapeOf([]);
    } else {
      var i: nat, j: nat :| i < |p| && j < |p| && p[i] != p[j];
      t := UndoingTape(b, p, i, j);
      UndoingTapeUndoes(b, p, i, j);
    }
  }

  /** Copying a block can leave a payload as it was if and only if its bytes are not all the
      same. */
  lemma {:induction false} CopyMayChangeNothingIff(b: Bounds, typed: Typed, p: Bytes)
    requires |p| < TWO_64
    ensures (exists t: Tape :: Applied(b, BlockCopy, typed, t, p).value == p) <==> CopyCanStay(b, p)
  {
    forall t: Tape | Applied(b, BlockCopy, typed, t, p).value == p
      ensures CopyCanStay(b, p)
    {
      OnlySuchCopiesStay(b, t, p);
    }
    if CopyCanStay(b, p) {
      var t := SuchCopiesStay(b, p);
      assert Applied(b, BlockCopy, typed, t, p).value == p;
    }
  }

  /** The draws from a state are those of the generator, one after the other. */
  lemma {:induction false} NextWord(state: bv64, t: Tape, w: bv64)
    requires Yields(state, t) && SplitMix.Finalize(SplitMix.NextState(state)) == w
    ensures t.Word() == Number(w) && Yields(SplitMix.NextState(state), t.Rest())
  {
    YieldsNext(state, t);
  }

  lemma {:induction false} FirstWords(state: bv64, w: bv64, x: bv64)
    requires SplitMix.Finalize(SplitMix.NextState(state)) == w
    requires SplitMix.Finalize(SplitMix.NextState(SplitMix.NextState(state))) == x
    ensures TapeFrom(state).Word() == Number(w) && TapeFrom(state).Rest().Word() == Number(x)
    ensures Yields(SplitMix.NextState(SplitMix.NextState(state)), TapeFrom(state).Rest().Rest())
  {
    StateYields(state);
    NextWord(state, TapeFrom(state), w);
    NextWord(SplitMix.NextState(state), TapeFrom(state).Rest(), x);
  }

  /** The first byte copied over the second, and that inverted. */
  lemma {:induction false} InversionUndoes(b: Bounds, t: Tape, x: bv8)
    requires t.Below(2) == 0 && t.Rest().Below(2) == 0
    requires t.Rest().Rest().Below(2) == 1 && t.Rest().Rest().Rest().Below(4) == 1
    ensures Copy(b, t, [x, x ^ 0xFF]).value == [x, x ^ 0xFF]
  {
    var u, p := t.Rest().Rest(), [x, x ^ 0xFF];
    assert CopyLimit(b, p) == 1;
    assert CopiedTo(p, 0, 1, 1) == [x, x];
    assert Flip(u, [x, x]).value == [x, x][1 := x ^ 0xFF];
  }

  /** The generator really gets there: from state 5 the copy of a byte over its complement
      is undone. */
  lemma {:induction false} CopyUndoneFromState(b: Bounds, typed: Typed, x: bv8)
    requires b.minLen <= 2 <= b.maxLen
    ensures Applied(b, BlockCopy, typed, TapeFrom(5), [x, x ^ 0xFF]).value == [x, x ^ 0xFF]
  {
    DrawsFrom5();
    InversionUndoes(b, TapeFrom(5), x);
  }

  lemma {:induction false} DrawsFrom5()
    ensures var t := TapeFrom(5);
            && t.Below(2) == 0 && t.Rest().Below(2) == 0
            && t.Rest().Rest().Below(2) == 1 && t.Rest().Rest().Rest().Below(4) == 1
  {
    var t := TapeFrom(5);
    FirstWords(5, 0x6303_3B0C_A389_C35A, 0xC097_314D_9397_36F8);
    var s := SplitMix.NextState(SplitMix.NextState(5));
    NextWord(s, t.Rest().Rest(), 0x3B92_D3F0_106B_C147);
    NextWord(SplitMix.NextState(s), t.Rest().Rest().Rest(), 0x196E_4EC2_DA05_B945);
  }

  // ----- tags that stay -----

  /** An invalid tag after the first marker; or a marker that is put in and cut away. */
  predicate TagCanStay(b: Bounds, p: Bytes) {
    var k := MarkerIn(p) + 1;
    if k < |p| then b.minLen <= |p| <= b.maxLen && p[k] in INVALID_TAGS
    else b.minLen <= 2 && ((b.maxLen == 0 && p == []) || (b.maxLen == 1 && p == [ENUM_MARKER]))
  }

  lemma {:induction false} OtherTagDiffers(t: Tape, x: bv8)
    requires x !in INVALID_TAGS
    ensures OtherTag(t, x).value != x
  {}

  lemma {:induction false} OnlySuchTagsStay(b: Bounds, typed: Typed, t: Tape, p: Bytes)
    requires Applied(b, XdrTagFlip, typed, t, p).value == p
    ensures TagCanStay(b, p)
  {
    var k := MarkerIn(p) + 1;
    if k < |p| && p[k] !in INVALID_TAGS {
      OtherTagDiffers(t, p[k]);
    }
  }

  lemma {:induction false} AsksFor(i: nat, state: bv64, w: bv64, x: bv64)
    requires SplitMix.Finalize(SplitMix.NextState(state)) == w
    requires SplitMix.Finalize(SplitMix.NextState(SplitMix.NextState(state))) == x
    requires Number(w) % 2 == 1 && Number(x) % 4 == i
    ensures var t := TapeFrom(state); t.Odd() && t.Rest().Below(|INVALID_TAGS|) == i
  {
    FirstWords(state, w, x);
  }

  /** A state whose first two draws ask for the i-th invalid tag. */
  lemma {:induction false} StateFor(i: nat) returns (state: bv64)
    requires i < |INVALID_TAGS|
    ensures var t := TapeFrom(state); t.Odd() && t.Rest().Below(|INVALID_TAGS|) == i
  {
    state := [0, 3, 35, 1][i];
    match i {
      case 0 => AsksFor(i, 0, 0xE220_A839_7B1D_CDAF, 0x6E78_9E6A_A1B9_65F4);
      case 1 => AsksFor(i, 3, 0x1D0B_14E4_DB01_8FED, 0xB346_6F8A_7B81_A989);
      case 2 => AsksFor(i, 35, 0x4D5C_B825_DFAA_B05B, 0x9A8C_5059_7193_9232);
      case 3 => AsksFor(i, 1, 0x910A_2DEC_8902_5CC1, 0xBEEB_8DA1_658E_EC67);
    }
  }

  lemma {:induction false} InvalidTagStays(b: Bounds, t: Tape, p: Bytes, i: nat)
    requires i < |INVALID_TAGS| && t.Odd() && t.Rest().Below(|INVALID_TAGS|) == i
    requires MarkerIn(p) + 1 < |p| && p[MarkerIn(p) + 1] == INVALID_TAGS[i]
    ensures FlipTag(b, t, p).value == p
  {}

  lemma {:induction false} CutTagStays(b: Bounds, t: Tape, p: Bytes)
    requires TagCanStay(b, p) && MarkerIn(p) + 1 >= |p|
    ensures Bounded(b, FlipTag(b, t, p)).value == p
  {}

  lemma {:induction false} SuchTagsStay(b: Bounds, typed: Typed, p: Bytes) returns (state: bv64)
    requires TagCanStay(b, p)
    ensures Applied(b, XdrTagFlip, typed, TapeFrom(state), p).value == p
  {
    var k := MarkerIn(p) + 1;
    if k < |p| {
      var i :| 0 <= i < |INVALID_TAGS| && INVALID_TAGS[i] == p[k];
      state := StateFor(i);
      InvalidTagStays(b, TapeFrom(state), p, i);
    } else {
      state := 0;
      CutTagStays(b, TapeFrom(state), p);
    }
  }

  /** Flipping a tag leaves the payload as it was, for some state of the generator, if and
      only if the first marker is followed by an invalid tag, or the bounds cut away what
      was put in. */
  lemma {:induction false} TagMayChangeNothingIff(b: Bounds, typed: Typed, p: Bytes)
    ensures (exists state: bv64 :: Applied(b, XdrTagFlip, typed, TapeFrom(state), p).value == p) <==> TagCanStay(b, p)
  {
    forall state: bv64 | Applied(b, XdrTagFlip, typed, TapeFrom(state), p).value == p
      ensures TagCanStay(b, p)
    {
      OnlySuchTagsStay(b, typed, TapeFrom(state), p);
    }
    if TagCanStay(b, p) {
      var state := SuchTagsStay(b, typed, p);
    }
  }
}
