/** The byte, block, chunk and tag operators of havoc.rs, draw by draw.

    The outcome of the type-directed operator (scval_mutator.rs is not part of this model)
    arrives as a parameter. */
module HavocOps {
  import opened Prelude
  import opened Havoc
  import SplitMix

  type Bytes = seq<bv8>

  datatype Bounds = Bounds(minLen: nat, maxLen: nat, maxGrowth: nat)

  const ENUM_MARKER: bv8 := 0xE0
  const VALID_TAGS: Bytes := [0x00, 0x01, 0x02, 0x03]
  const INVALID_TAGS: Bytes := [0x7F, 0x80, 0xFE, 0xFF]

  // ----- draws -----

  /** An endless sequence of draws and how many of them are used up. */
  datatype Tape = Tape(draws: nat -> u64, used: nat) {
    function Word(): u64 { draws(used) }

    function Rest(): Tape { Tape(draws, used + 1) }

    /** `next_usize(state) % n`. */
    function Below(n: nat): (i: nat)
      requires n > 0
      ensures i < n
    {
      Word() % n
    }

    /** `next_byte`. */
    function Byte(): bv8 { TopByte(Word()) }

    function Odd(): bool { Word() % 2 == 1 }
  }

  /** The highest byte of a word. */
  function TopByte(w: u64): bv8 { (w / 0x100_0000_0000_0000) as bv8 }

  /** What SplitMix64 draws from a state, as numbers. */
  function Draws(state: bv64): nat -> u64 { (k: nat) => Number(SplitMix.Draw(state, k + 1)) }

  function Number(w: bv64): u64 { w as int }

  function TapeFrom(state: bv64): Tape { Tape(Draws(state), 0) }

  /** The k-th draw still to come. */
  function Ahead(t: Tape, k: nat): u64 { t.draws(t.used + k) }

  /** A generator in this state draws what is left on the tape. */
  ghost predicate Yields(state: bv64, t: Tape) { forall k: nat :: Ahead(t, k) == Number(SplitMix.Draw(state, k + 1)) }

  lemma {:induction false} StateYields(state: bv64)
    ensures Yields(state, TapeFrom(state))
  {
    forall k: nat ensures Ahead(TapeFrom(state), k) == Number(SplitMix.Draw(state, k + 1)) {
      assert TapeFrom(state).draws(0 + k) == Draws(state)(k);
    }
  }

  lemma {:induction false} YieldsNext(state: bv64, t: Tape)
    requires Yields(state, t)
    ensures t.Word() == Number(SplitMix.Finalize(SplitMix.NextState(state)))
    ensures Yields(SplitMix.NextState(state), t.Rest())
  {
    assert Ahead(t, 0) == Number(SplitMix.Draw(state, 1));
    assert SplitMix.StateAfter(state, 1) == SplitMix.NextState(SplitMix.StateAfter(state, 0));
    forall k: nat ensures Ahead(t.Rest(), k) == Number(SplitMix.Draw(SplitMix.NextState(state), k + 1)) {
      assert Ahead(t.Rest(), k) == Ahead(t, k + 1);
      NextStateFirst(state, k + 1);
    }
  }

  lemma {:induction false} NextStateFirst(state: bv64, k: nat)
    ensures SplitMix.StateAfter(SplitMix.NextState(state), k) == SplitMix.StateAfter(state, k + 1)
  {
    if k > 0 {
      NextStateFirst(state, k - 1);
    }
  }

  /** Something drawn, and the rest of the tape. */
  datatype Drawn<T> = Drawn(value: T, tape: Tape)

  /** `next_range`: an empty range gives its lower end without a draw. */
  function InRange(t: Tape, min: nat, max: nat): (r: Drawn<nat>)
    ensures min <= r.value && (r.value <= max || r.value == min)
  {
    if min >= max then Drawn(min, t) else Drawn(min + t.Below(max - min + 1), t.Rest())
  }

  /** A place to insert at. */
  function Place(t: Tape, p: Bytes): (r: Drawn<nat>)
    ensures r.value <= |p|
  {
    if p == [] then Drawn(0, t) else Drawn(t.Below(|p| + 1), t.Rest())
  }

  function FreshBytes(t: Tape, n: nat): (r: Drawn<Bytes>)
    ensures |r.value| == n
  {
    if n == 0 then Drawn([], t)
    else
      var init := FreshBytes(t, n - 1);
      Drawn(init.value + [init.tape.Byte()], init.tape.Rest())
  }

  // ----- the operators, draw by draw -----

  function Mask(k: nat): (m: bv8)
    requires k < 8
    ensures m != 0
  {
    [1, 2, 4, 8, 16, 32, 64, 128][k]
  }

  /** A bit flipped, all bits flipped, one up or down, or a fresh byte. */
  function Changed(t: Tape, x: bv8): Drawn<bv8> { ChangedBy(t.Below(4), t.Rest(), x) }

  function ChangedBy(kind: nat, t: Tape, x: bv8): Drawn<bv8> {
    match kind
    case 0 => Drawn(x ^ Mask(t.Below(8)), t.Rest())
    case 1 => Drawn(x ^ 0xFF, t)
    case 2 => Drawn(if t.Odd() then x + 1 else x + 0xFF, t.Rest())
    case _ => Drawn(if t.Byte() == x then x ^ 0xAA else t.Byte(), t.Rest())
  }

  function Flip(t: Tape, p: Bytes): Drawn<Bytes> {
    if p == [] then Drawn([t.Byte()], t.Rest())
    else
      var i := t.Below(|p|);
      var c := Changed(t.Rest(), p[i]);
      Drawn(p[i := c.value], c.tape)
  }

  function CopiedTo(p: Bytes, src: nat, dst: nat, len: nat): Bytes
    requires src + len <= |p| && dst + len <= |p|
  {
    p[..dst] + p[src..src + len] + p[dst + len..]
  }

  /** A destination that is the source moves by one where it can. */
  function Apart(src: nat, dst: nat, len: nat, size: nat): (d: nat)
    requires src + len <= size && dst + len <= size
    ensures d + len <= size && (len < size ==> d != src)
  {
    if src != dst then dst else if src + len < size then src + 1 else if src > 0 then src - 1 else dst
  }

  /** A block copied over another one, then one byte flipped. */
  function Copy(b: Bounds, t: Tape, p: Bytes): Drawn<Bytes> {
    if |p| < 2 then Flip(t, p)
    else
      var len := InRange(t, 1, CopyLimit(b, p));
      CopyOf(len.tape, p, len.value)
  }

  function CopyOf(t: Tape, p: Bytes, len: nat): Drawn<Bytes>
    requires len <= |p|
  {
    var src, dst := t.Below(|p| - len + 1), t.Rest().Below(|p| - len + 1);
    Flip(t.Rest().Rest(), CopiedTo(p, src, Apart(src, dst, len, |p|), len))
  }

  function CopyLimit(b: Bounds, p: Bytes): nat { AtLeastOne(Min(|p| / 2, b.maxGrowth)) }

  /** One byte over and over, or fresh bytes. */
  function BlockData(t: Tape, n: nat): (r: Drawn<Bytes>)
    ensures |r.value| == n
  {
    if t.Odd() then Drawn(seq(n, _ => t.Rest().Byte()), t.Rest().Rest()) else FreshBytes(t.Rest(), n)
  }

  function Insert(b: Bounds, t: Tape, p: Bytes): Drawn<Bytes> {
    if |p| >= b.maxLen then Flip(t, p)
    else
      var len := InRange(t, 1, Min(b.maxLen - |p|, b.maxGrowth));
      var pos := Place(len.tape, p);
      var data := BlockData(pos.tape, len.value);
      Drawn(p[..pos.value] + data.value + p[pos.value..], data.tape)
  }

  function Delete(b: Bounds, t: Tape, p: Bytes): Drawn<Bytes> {
    if |p| <= b.minLen then Insert(b, t, p)
    else
      var len := InRange(t, 1, Min(|p| - b.minLen, b.maxGrowth));
      var pos := len.tape.Below(|p| - len.value + 1);
      Drawn(p[..pos] + p[pos + len.value..], len.tape.Rest())
  }

  function Repeat(chunk: Bytes, count: nat): Bytes { if count == 0 then [] else Repeat(chunk, count - 1) + chunk }

  /** A chunk repeated right after itself, as often as the room allows, at most four times
      and at least once. */
  function RepeatChunk(b: Bounds, t: Tape, p: Bytes): Drawn<Bytes> {
    if p == [] || |p| >= b.maxLen then Insert(b, t, p)
    else
      var len := InRange(t, 1, AtLeastOne(Min(|p|, b.maxGrowth)));
      RepeatOf(len.tape, p, len.value, AtLeastOne(Min((b.maxLen - |p|) / len.value, 4)))
  }

  function RepeatOf(t: Tape, p: Bytes, len: nat, most: nat): Drawn<Bytes>
    requires 0 < len <= |p|
  {
    var pos := t.Below(|p| - len + 1);
    var count := InRange(t.Rest(), 1, most);
    Drawn(p[..pos + len] + Repeat(p[pos..pos + len], count.value) + p[pos + len..], count.tape)
  }

  /** The position of the first marker of the payload, or its length. */
  function MarkerIn(p: Bytes): (k: nat)
    ensures k <= |p| && ENUM_MARKER !in p[..k] && (k < |p| ==> p[k] == ENUM_MARKER)
  {
    if p == [] || p[0] == ENUM_MARKER then 0 else 1 + MarkerIn(p[1..])
  }

  function InvalidTag(t: Tape): Drawn<bv8> { Drawn(INVALID_TAGS[t.Below(|INVALID_TAGS|)], t.Rest()) }

  /** A tag in place of the given one: an invalid one, or a valid one that is different. */
  function OtherTag(t: Tape, current: bv8): Drawn<bv8> {
    if t.Odd() then InvalidTag(t.Rest())
    else
      var i := t.Rest().Below(|VALID_TAGS|);
      Drawn(if VALID_TAGS[i] == current then VALID_TAGS[(i + 1) % |VALID_TAGS|] else VALID_TAGS[i], t.Rest().Rest())
  }

  function AnyTag(t: Tape): Drawn<bv8> {
    if t.Odd() then InvalidTag(t.Rest()) else Drawn(VALID_TAGS[t.Rest().Below(|VALID_TAGS|)], t.Rest().Rest())
  }

  /** A marker and a tag put in somewhere, or over the first two bytes when there is no room,
      or in place of a payload of at most one byte. */
  function PutTag(b: Bounds, t: Tape, p: Bytes, tag: bv8): Drawn<Bytes> {
    if |p| + 2 <= b.maxLen then
      var pos := Place(t, p);
      Drawn(p[..pos.value] + [ENUM_MARKER, tag] + p[pos.value..], pos.tape)
    else if |p| >= 2 then Drawn(p[0 := ENUM_MARKER][1 := tag], t)
    else Drawn([ENUM_MARKER, tag], t)
  }

  /** The tag after the first marker replaced; where none follows one, a tag put in. */
  function FlipTag(b: Bounds, t: Tape, p: Bytes): Drawn<Bytes> {
    var k := MarkerIn(p);
    if k + 1 < |p| then
      var tag := OtherTag(t, p[k + 1]);
      Drawn(p[k + 1 := tag.value], tag.tape)
    else
      var tag := AnyTag(t);
      PutTag(b, tag.tape, p, tag.value)
  }

  /** What the type-directed operator returned: the generator state it left, and the new
      payload unless it failed. */
  datatype Typed = Typed(state: bv64, payload: Option<Bytes>)

  /** An operator alone, before the length is brought within bounds. */
  function Operate(b: Bounds, op: HavocOp, typed: Typed, t: Tape, p: Bytes): Drawn<Bytes> {
    match op
    case ByteFlip => Flip(t, p)
    case BlockCopy => Copy(b, t, p)
    case BlockInsert => Insert(b, t, p)
    case BlockDelete => Delete(b, t, p)
    case ChunkRepeat => RepeatChunk(b, t, p)
    case XdrTagFlip => FlipTag(b, t, p)
    case ScValMutate =>
      match typed.payload
      case Some(q) => Drawn(q, TapeFrom(typed.state))
      case None => Flip(TapeFrom(typed.state), p)
  }

  /** Padded at the end with fresh bytes, or else cut. */
  function Bounded(b: Bounds, q: Drawn<Bytes>): Drawn<Bytes> {
    if |q.value| < b.minLen then
      var pad := FreshBytes(q.tape, b.minLen - |q.value|);
      Drawn(q.value + pad.value, pad.tape)
    else if |q.value| > b.maxLen then Drawn(q.value[..b.maxLen], q.tape)
    else q
  }

  /** `apply_specific_op`. */
  function Applied(b: Bounds, op: HavocOp, typed: Typed, t: Tape, p: Bytes): Drawn<Bytes> {
    Bounded(b, Operate(b, op, typed, t, p))
  }

  function AtLeastOne(n: nat): nat { if n == 0 then 1 else n }

  // ----- the code -----

  class Mutation {
    const bounds: Bounds
    var payload: Bytes
    var rng: bv64
    ghost var tape: Tape

    /** The generator will draw what is left on the tape. */
    ghost predicate Valid()
      reads this
    {
      Yields(rng, tape)
    }

    constructor (bounds: Bounds, payload: Bytes, rng: bv64)
      ensures Valid() && this.bounds == bounds && this.payload == payload && this.rng == rng && tape == TapeFrom(rng)
    {
      this.bounds, this.payload, this.rng, tape := bounds, payload, rng, TapeFrom(rng);
      StateYields(rng);
    }

    method NextU64() returns (r: u64)
      requires Valid()
      modifies this`rng, this`tape
      ensures Valid() && r == old(tape).Word() && tape == old(tape).Rest()
    {
      YieldsNext(rng, tape);
      var w;
      w, rng := SplitMix.NextU64(rng);
      r := Number(w);
      tape := tape.Rest();
    }

    method NextBelow(n: nat) returns (i: nat)
      requires Valid() && n > 0
      modifies this`rng, this`tape
      ensures Valid() && i == old(tape).Below(n) && tape == old(tape).Rest()
    {
      var r := NextU64();
      i := r % n;
    }

    method NextRange(min: nat, max: nat) returns (r: nat)
      requires Valid()
      modifies this`rng, this`tape
      ensures Valid() && Drawn(r, tape) == InRange(old(tape), min, max)
    {
      if min >= max {
        return min;
      }
      var k := NextBelow(max - min + 1);
      r := min + k;
    }

    method NextByte() returns (b: bv8)
      requires Valid()
      modifies this`rng, this`tape
      ensures Valid() && b == old(tape).Byte() && tape == old(tape).Rest()
    {
      var r := NextU64();
      b := TopByte(r);
    }

    method NextBit() returns (b: bool)
      requires Valid()
      modifies this`rng, this`tape
      ensures Valid() && b == old(tape).Odd() && tape == old(tape).Rest()
    {
      var r := NextU64();
      b := r % 2 == 1;
    }

    method NextPlace() returns (pos: nat)
      requires Valid()
      modifies this`rng, this`tape
      ensures Valid() && Drawn(pos, tape) == Place(old(tape), payload)
    {
      if payload == [] {
        return 0;
      }
      pos := NextBelow(|payload| + 1);
    }

    method ChangedByte(x: bv8) returns (b: bv8)
      requires Valid()
      modifies this`rng, this`tape
      ensures Valid() && Drawn(b, tape) == Changed(old(tape), x)
    {
      var kind := NextBelow(4);
      b := ChangeByte(kind, x);
    }

    method ChangeByte(kind: nat, x: bv8) returns (b: bv8)
      requires Valid()
      modifies this`rng, this`tape
      ensures Valid() && Drawn(b, tape) == ChangedBy(kind, old(tape), x)
    {
      if kind == 0 {
        var bit := NextBelow(8);
        b := x ^ Mask(bit);
      } else if kind == 1 {
        b := x ^ 0xFF;
      } else if kind == 2 {
        var up := NextBit();
        b := if up then x + 1 else x + 0xFF;
      } else {
        b := NextByte();
        if b == x {
          b := x ^ 0xAA;
        }
      }
    }

    /** `apply_byte_flip`. */
    method ByteFlip()
      requires Valid()
      modifies this`payload, this`rng, this`tape
      ensures Valid() && Drawn(payload, tape) == Flip(old(tape), old(payload))
    {
      if payload == [] {
        var b := NextByte();
        payload := [b];
        return;
      }
      var idx := NextBelow(|payload|);
      var b := ChangedByte(payload[idx]);
      payload := payload[idx := b];
    }

    /** `apply_block_copy`. */
    method BlockCopy()
      requires Valid()
      modifies this`payload, this`rng, this`tape
      ensures Valid() && Drawn(payload, tape) == Copy(bounds, old(tape), old(payload))
    {
      if |payload| < 2 {
        ByteFlip();
        return;
      }
      var maxLen := CopyLimit(bounds, payload);
      var copyLen := NextRange(1, maxLen);
      CopyBlock(copyLen);
    }

    method CopyBlock(len: nat)
      requires Valid() && len <= |payload|
      modifies this`payload, this`rng, this`tape
      ensures Valid() && Drawn(payload, tape) == CopyOf(old(tape), old(payload), len)
    {
      var src := NextBelow(|payload| - len + 1);
      var dst := NextBelow(|payload| - len + 1);
      if src == dst {
        dst := if src + len < |payload| then src + 1 else if src > 0 then src - 1 else dst;
      }
      Overwrite(src, dst, len);
    }

    method Overwrite(src: nat, dst: nat, len: nat)
      requires Valid() && src + len <= |payload| && dst + len <= |payload|
      modifies this`payload, this`rng, this`tape
      ensures Valid() && Drawn(payload, tape) == Flip(old(tape), CopiedTo(old(payload), src, dst, len))
    {
      payload := CopiedTo(payload, src, dst, len);
      ByteFlip();
    }

    /** `apply_block_insert`. */
    method BlockInsert()
      requires Valid()
      modifies this`payload, this`rng, this`tape
      ensures Valid() && Drawn(payload, tape) == Insert(bounds, old(tape), old(payload))
    {
      if |payload| >= bounds.maxLen {
        ByteFlip();
        return;
      }
      var room := bounds.maxLen - |payload|;
      var insLen := NextRange(1, Min(room, bounds.maxGrowth));
      var pos := NextPlace();
      var data := InsertedData(insLen);
      payload := payload[..pos] + data + payload[pos..];
    }

    method InsertedData(n: nat) returns (data: Bytes)
      requires Valid()
      modifies this`rng, this`tape
      ensures Valid() && Drawn(data, tape) == BlockData(old(tape), n)
    {
      var same := NextBit();
      if same {
        var b := NextByte();
        return seq(n, _ => b);
      }
      data := [];
      ghost var from := tape;
      for i := 0 to n
        invariant Valid() && Drawn(data, tape) == FreshBytes(from, i)
      {
        var b := NextByte();
        data := data + [b];
      }
    }

    /** `apply_block_delete`. */
    method BlockDelete()
      requires Valid()
      modifies this`payload, this`rng, this`tape
      ensures Valid() && Drawn(payload, tape) == Delete(bounds, old(tape), old(payload))
    {
      if |payload| <= bounds.minLen {
        BlockInsert();
        return;
      }
      var excess := |payload| - bounds.minLen;
      var delLen := NextRange(1, Min(excess, bounds.maxGrowth));
      var pos := NextBelow(|payload| - delLen + 1);
      payload := payload[..pos] + payload[pos + delLen..];
    }

    /** `apply_chunk_repeat`. */
    method ChunkRepeat()
      requires Valid()
      modifies this`payload, this`rng, this`tape
      ensures Valid() && Drawn(payload, tape) == RepeatChunk(bounds, old(tape), old(payload))
    {
      if payload == [] || |payload| >= bounds.maxLen {
        BlockInsert();
        return;
      }
      var room := bounds.maxLen - |payload|;
      var maxChunk := AtLeastOne(Min(|payload|, bounds.maxGrowth));
      var chunkLen := NextRange(1, maxChunk);
      var maxRepeats := AtLeastOne(Min(room / chunkLen, 4));
      RepeatBlock(chunkLen, maxRepeats);
    }

    method RepeatBlock(len: nat, maxRepeats: nat)
      requires Valid() && 0 < len <= |payload|
      modifies this`payload, this`rng, this`tape
      ensures Valid() && Drawn(payload, tape) == RepeatOf(old(tape), old(payload), len, maxRepeats)
    {
      var pos := NextBelow(|payload| - len + 1);
      var chunk := payload[pos..pos + len];
      var count := NextRange(1, maxRepeats);
      var insertion: Bytes := [];
      for i := 0 to count
        invariant insertion == Repeat(chunk, i)
      {
        insertion := insertion + chunk;
      }
      payload := payload[..pos + len] + insertion + payload[pos + len..];
    }

    method FindMarker() returns (k: nat)
      ensures k == MarkerIn(payload)
    {
      k := 0;
      while k < |payload| && payload[k] != ENUM_MARKER
        invariant k <= |payload| && MarkerIn(payload) == k + MarkerIn(payload[k..])
      {
        k := k + 1;
      }
    }

    method DrawTag(current: Option<bv8>) returns (tag: bv8)
      requires Valid()
      modifies this`rng, this`tape
      ensures Valid()
      ensures Drawn(tag, tape) == match current
                                  case Some(c) => OtherTag(old(tape), c)
                                  case None => AnyTag(old(tape))
    {
      var invalid := NextBit();
      if invalid {
        var k := NextBelow(|INVALID_TAGS|);
        return INVALID_TAGS[k];
      }
      var idx := NextBelow(|VALID_TAGS|);
      if current == Some(VALID_TAGS[idx]) {
        idx := (idx + 1) % |VALID_TAGS|;
      }
      tag := VALID_TAGS[idx];
    }

    /** `apply_xdr_tag_flip`. */
    method XdrTagFlip()
      requires Valid()
      modifies this`payload, this`rng, this`tape
      ensures Valid() && Drawn(payload, tape) == FlipTag(bounds, old(tape), old(payload))
    {
      var k := FindMarker();
      if k + 1 < |payload| {
        var tag := DrawTag(Some(payload[k + 1]));
        payload := payload[k + 1 := tag];
        return;
      }
      var tag := DrawTag(None);
      InsertTag(tag);
    }

    method InsertTag(tag: bv8)
      requires Valid()
      modifies this`payload, this`rng, this`tape
      ensures Valid() && Drawn(payload, tape) == PutTag(bounds, old(tape), old(payload), tag)
    {
      if |payload| + 2 <= bounds.maxLen {
        var pos := NextPlace();
        payload := payload[..pos] + [ENUM_MARKER, tag] + payload[pos..];
      } else if |payload| >= 2 {
        payload := payload[0 := ENUM_MARKER][1 := tag];
      } else {
        payload := [ENUM_MARKER, tag];
      }
    }

    method ScValMutate(typed: Typed)
      requires Valid()
      modifies this
      ensures Valid() && Drawn(payload, tape) == Operate(bounds, HavocOp.ScValMutate, typed, old(tape), old(payload))
    {
      rng := typed.state;
      tape := TapeFrom(rng);
      StateYields(rng);
      match typed.payload {
        case Some(q) => payload := q;
        case None => ByteFlip();
      }
    }

    method ApplyOp(op: HavocOp, typed: Typed)
      requires Valid()
      modifies this
      ensures Valid() && Drawn(payload, tape) == Operate(bounds, op, typed, old(tape), old(payload))
    {
      match op {
        case ByteFlip => ByteFlip();
        case BlockCopy => BlockCopy();
        case BlockInsert => BlockInsert();
        case BlockDelete => BlockDelete();
        case ChunkRepeat => ChunkRepeat();
        case XdrTagFlip => XdrTagFlip();
        case ScValMutate => ScValMutate(typed);
      }
    }

    /** `apply_specific_op`. */
    method ApplySpecificOp(op: HavocOp, typed: Typed)
      requires Valid()
      modifies this
      ensures Valid() && Drawn(payload, tape) == Applied(bounds, op, typed, old(tape), old(payload))
    {
      ApplyOp(op, typed);
      BringWithinBounds();
    }

    method BringWithinBounds()
      requires Valid()
      modifies this`payload, this`rng, this`tape
      ensures Valid() && Drawn(payload, tape) == Bounded(bounds, Drawn(old(payload), old(tape)))
    {
      ghost var q := Drawn(payload, tape);
      if |payload| < bounds.minLen {
        while |payload| < bounds.minLen
          invariant Valid() && |q.value| <= |payload| <= bounds.minLen
          invariant payload == q.value + FreshBytes(q.tape, |payload| - |q.value|).value
          invariant tape == FreshBytes(q.tape, |payload| - |q.value|).tape
        {
          var b := NextByte();
          payload := payload + [b];
        }
      } else if |payload| > bounds.maxLen {
        payload := payload[..bounds.maxLen];
      }
    }
  }
}
