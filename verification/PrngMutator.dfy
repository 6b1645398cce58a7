/** The neighbour-preserving mutator of prng.rs: which bytes it replaces and by what, and
    that the scheduler's state never meets itself again from two different states. */
module PrngMutators {
  import opened Prelude
  import opened Sorting
  import opened Prng

  /** The positions of a payload but one. */
  function AllBut(n: nat, skip: nat): seq<nat> {
    if n == 0 then [] else AllBut(n - 1, skip) + (if n - 1 == skip then [] else [n - 1])
  }

  lemma {:induction false} AllButMeans(n: nat, skip: nat)
    ensures |AllBut(n, skip)| == n - (if skip < n then 1 else 0)
    ensures forall p: nat :: p in AllBut(n, skip) <==> p < n && p != skip
    ensures Distinct(AllBut(n, skip))
  {
    if n > 0 {
      AllButMeans(n - 1, skip);
      var before := AllBut(n - 1, skip);
      forall i | 0 <= i < |before| ensures before[i] != n - 1 {
        assert before[i] in before;
      }
    }
  }

  /** What is drawn: the d-th draw reduced to a position below n, and its top byte. */
  datatype Stream = Stream(position: (nat, nat) -> nat, byte: nat -> u8)

  function StreamOf(seedId: bv64): Stream {
    Stream((d: nat, n: nat) => if n == 0 then 0 else Index(Draw(seedId, d), n), (d: nat) => TopByte(Draw(seedId, d)))
  }

  /** The drawn position; one out of range, which no draw gives, would count as the first. */
  function Pick(s: Stream, d: nat, n: nat): (k: nat)
    requires n > 0
    ensures k < n
  {
    if s.position(d, n) < n then s.position(d, n) else 0
  }

  function Without(s: seq<nat>, k: nat): seq<nat>
    requires k < |s|
  {
    s[..k] + s[k + 1..]
  }

  /** The positions drawn one after the other, every second draw from the d-th on, each
      from those that are left. */
  function Chosen(s: Stream, left: seq<nat>, d: nat, count: nat): seq<nat>
    requires count <= |left|
    decreases count
  {
    if count == 0 then []
    else
      var k := Pick(s, d, |left|);
      [left[k]] + Chosen(s, Without(left, k), d + 2, count - 1)
  }

  /** No position is drawn twice. */
  lemma {:induction false} ChosenDistinct(s: Stream, left: seq<nat>, d: nat, count: nat)
    requires count <= |left| && Distinct(left)
    ensures Distinct(Chosen(s, left, d, count)) && |Chosen(s, left, d, count)| == count
    ensures forall p :: p in Chosen(s, left, d, count) ==> p in left
    decreases count
  {
    if count > 0 {
      var k := Pick(s, d, |left|);
      var rest := Without(left, k);
      WithoutDistinct(left, k);
      ChosenDistinct(s, rest, d + 2, count - 1);
    }
  }

  lemma {:induction false} AllButWithin(n: nat, skip: nat)
    ensures Within(AllBut(n, skip), n)
  {
    AllButMeans(n, skip);
    var all := AllBut(n, skip);
    forall i | 0 <= i < |all| ensures all[i] < n {
      assert all[i] in all;
    }
  }

  predicate Within(left: seq<nat>, n: nat) { forall i :: 0 <= i < |left| ==> left[i] < n }

  lemma {:induction false} StillWithin(left: seq<nat>, k: nat, n: nat)
    requires Within(left, n) && k < |left|
    ensures Within(Without(left, k), n)
  {}

  /** The rounds still to come: a position drawn and taken out, a byte drawn and written. */
  function Rewritten(s: Stream, payload: seq<u8>, left: seq<nat>, d: nat, count: nat): seq<u8>
    requires count <= |left| && Within(left, |payload|)
    decreases count
  {
    if count == 0 then payload
    else
      var k := Pick(s, d, |left|);
      StillWithin(left, k, |payload|);
      Rewritten(s, payload[left[k] := s.byte(d + 1)], Without(left, k), d + 2, count - 1)
  }

  /** Exactly the chosen positions are written, the j-th with its own draw. */
  lemma {:induction false} RewrittenMeans(s: Stream, payload: seq<u8>, left: seq<nat>, d: nat, count: nat)
    requires count <= |left| && Within(left, |payload|) && Distinct(left)
    ensures var out, chosen := Rewritten(s, payload, left, d, count), Chosen(s, left, d, count);
            && |out| == |payload| && |chosen| == count
            && (forall p :: 0 <= p < |payload| && p !in chosen ==> out[p] == payload[p])
            && (forall j :: 0 <= j < count ==> chosen[j] < |payload| && out[chosen[j]] == s.byte(d + 1 + 2 * j))
    decreases count
  {
    if count > 0 {
      var k := Pick(s, d, |left|);
      var rest := Without(left, k);
      var written := payload[left[k] := s.byte(d + 1)];
      StillWithin(left, k, |payload|);
      WithoutDistinct(left, k);
      RewrittenMeans(s, written, rest, d + 2, count - 1);
      ChosenDistinct(s, rest, d + 2, count - 1);
      var out, later := Rewritten(s, written, rest, d + 2, count - 1), Chosen(s, rest, d + 2, count - 1);
      assert Chosen(s, left, d, count) == [left[k]] + later;
      OwnDraws(s, out, later, left[k], d, count);
      OthersStay(payload, written, out, later, left[k]);
    }
  }

  lemma {:induction false} OthersStay(payload: seq<u8>, written: seq<u8>, out: seq<u8>, later: seq<nat>, first: nat)
    requires first < |payload| == |written| == |out| && written == payload[first := written[first]]
    requires forall p :: 0 <= p < |written| && p !in later ==> out[p] == written[p]
    ensures forall p :: 0 <= p < |payload| && p !in [first] + later ==> out[p] == payload[p]
  {}

  lemma {:induction false} OwnDraws(s: Stream, out: seq<u8>, later: seq<nat>, first: nat, d: nat, count: nat)
    requires |later| == count - 1 && first < |out| && out[first] == s.byte(d + 1)
    requires forall j :: 0 <= j < |later| ==> later[j] < |out| && out[later[j]] == s.byte(d + 2 + 1 + 2 * j)
    ensures var chosen := [first] + later;
            forall j :: 0 <= j < count ==> chosen[j] < |out| && out[chosen[j]] == s.byte(d + 1 + 2 * j)
  {
    var chosen := [first] + later;
    forall j | 0 <= j < count
      ensures chosen[j] < |out| && out[chosen[j]] == s.byte(d + 1 + 2 * j)
    {
      if j > 0 {
        assert chosen[j] == later[j - 1];
      }
    }
  }

  lemma {:induction false} WithoutDistinct(left: seq<nat>, k: nat)
    requires Distinct(left) && k < |left|
    ensures Distinct(Without(left, k)) && left[k] !in Without(left, k)
    ensures forall p :: p in Without(left, k) ==> p in left
  {
    var rest := Without(left, k);
    forall i, j | 0 <= i < j < |rest| ensures rest[i] != rest[j] {
      assert rest[i] == left[if i < k then i else i + 1] && rest[j] == left[if j < k then j else j + 1];
    }
    forall i | 0 <= i < |rest| ensures rest[i] != left[k] && rest[i] in left {
      assert rest[i] == left[if i < k then i else i + 1];
    }
  }

  datatype Mutated = Mutated(payload: seq<u8>, rngState: bv64)

  /** How many positions are rewritten. */
  function MutateCount(n: nat): nat { if n < 2 then 0 else Min(Max(n / 2, 1), n - 1) }

  function MutatedPayload(s: Stream, payload: seq<u8>): seq<u8> {
    var n := |payload|;
    if n < 2 then [s.byte(2)]
    else
      AllButMeans(n, Pick(s, 2, n));
      AllButWithin(n, Pick(s, 2, n));
      Rewritten(s, payload, AllBut(n, Pick(s, 2, n)), 3, MutateCount(n))
  }

  /** What `mutate` makes of a payload, draw by draw. */
  function MutatedBy(id: bv64, payload: seq<u8>, rngState: bv64): Mutated {
    Mutated(MutatedPayload(StreamOf(id ^ rngState), payload), Draw(id ^ rngState, 1))
  }

  // ----- the mutator -----

  ghost predicate Draws(s: Stream, seedId: bv64) {
    && (forall d: nat, n: nat :: n > 0 ==> s.position(d, n) == Index(Draw(seedId, d), n))
    && (forall d: nat :: s.byte(d) == TopByte(Draw(seedId, d)))
  }

  ghost predicate Stands(prng: SeededPrng, seedId: bv64, k: nat)
    reads prng
  {
    prng.state == StateAfter(seedId, k)
  }

  method NextPick(prng: SeededPrng, n: nat, ghost s: Stream, ghost seedId: bv64, ghost k: nat) returns (i: nat)
    requires n > 0 && Draws(s, seedId) && Stands(prng, seedId, k)
    modifies prng
    ensures Stands(prng, seedId, k + 1) && i == Pick(s, k + 1, n)
  {
    var r := prng.NextU64();
    i := Index(r, n);
  }

  method NextByteOf(prng: SeededPrng, ghost s: Stream, ghost seedId: bv64, ghost k: nat) returns (b: u8)
    requires Draws(s, seedId) && Stands(prng, seedId, k)
    modifies prng
    ensures Stands(prng, seedId, k + 1) && b == s.byte(k + 1)
  {
    b := prng.NextByte();
  }

  /** `PrngMutator::mutate`. */
  method Mutate(id: bv64, payload: seq<u8>, rngState: bv64) returns (mutated: seq<u8>, rngState': bv64)
    ensures Mutated(mutated, rngState') == MutatedBy(id, payload, rngState)
  {
    var prng := new SeededPrng(id ^ rngState);
    rngState' := prng.NextU64();
    mutated := MutatePayload(payload, prng, StreamOf(id ^ rngState), id ^ rngState);
  }

  method MutatePayload(payload: seq<u8>, prng: SeededPrng, ghost s: Stream, ghost seedId: bv64) returns (mutated: seq<u8>)
    requires Draws(s, seedId) && Stands(prng, seedId, 1)
    modifies prng
    ensures mutated == MutatedPayload(s, payload)
  {
    var n := |payload|;
    if n == 0 {
      var b := NextByteOf(prng, s, seedId, 1);
      return [b];
    }
    if n == 1 {
      var b := NextByteOf(prng, s, seedId, 1);
      return payload[0 := b];
    }
    var preserved := NextPick(prng, n, s, seedId, 1);
    AllButMeans(n, preserved);
    AllButWithin(n, preserved);
    mutated := Rewrite(payload, AllBut(n, preserved), MutateCount(n), prng, s, seedId);
  }

  /** The rewriting loop: a candidate position drawn and removed, then its new byte. */
  method Rewrite(payload: seq<u8>, candidates: seq<nat>, count: nat, prng: SeededPrng, ghost s: Stream, ghost seedId: bv64)
    returns (mutated: seq<u8>)
    requires count <= |candidates| && Within(candidates, |payload|)
    requires Draws(s, seedId) && Stands(prng, seedId, 2)
    modifies prng
    ensures mutated == Rewritten(s, payload, candidates, 3, count)
  {
    mutated := payload;
    var left := candidates;
    ghost var d := 2;
    for j := 0 to count
      invariant Stands(prng, seedId, d) && Remains(s, mutated, left, d + 1, count - j, Rewritten(s, payload, candidates, 3, count))
    {
      RemainsNext(s, mutated, left, d + 1, count - j, Rewritten(s, payload, candidates, 3, count));
      var k := NextPick(prng, |left|, s, seedId, d);
      var b := NextByteOf(prng, s, seedId, d + 1);
      mutated := mutated[left[k] := b];
      left := Without(left, k);
      d := d + 2;
    }
  }

  /** The rounds still to come lead to the given end. */
  ghost predicate Remains(s: Stream, payload: seq<u8>, left: seq<nat>, d: nat, count: nat, end: seq<u8>) {
    count <= |left| && Within(left, |payload|) && Rewritten(s, payload, left, d, count) == end
  }

  lemma {:induction false} RemainsNext(s: Stream, payload: seq<u8>, left: seq<nat>, d: nat, count: nat, end: seq<u8>)
    requires Remains(s, payload, left, d, count, end) && count > 0
    ensures var k := Pick(s, d, |left|);
            left[k] < |payload| && Remains(s, payload[left[k] := s.byte(d + 1)], Without(left, k), d + 2, count - 1, end)
  {
    StillWithin(left, Pick(s, d, |left|), |payload|);
  }

  /** Half the positions are rewritten, each once and with a draw of its own, and at least
      the preserved one keeps its byte; shorter payloads become one fresh byte. */
  lemma {:induction false} MutateRewritesHalf(s: Stream, payload: seq<u8>) returns (chosen: seq<nat>, kept: nat)
    requires |payload| >= 2
    ensures var out := MutatedPayload(s, payload);
            && |out| == |payload| && |chosen| == |payload| / 2 && Distinct(chosen)
            && kept < |payload| && kept == Pick(s, 2, |payload|) && kept !in chosen
            && (forall p :: 0 <= p < |payload| && p !in chosen ==> out[p] == payload[p])
            && (forall j :: 0 <= j < |chosen| ==> chosen[j] < |payload| && out[chosen[j]] == s.byte(4 + 2 * j))
  {
    var n := |payload|;
    kept := Pick(s, 2, n);
    AllButMeans(n, kept);
    AllButWithin(n, kept);
    var left := AllBut(n, kept);
    chosen := Chosen(s, left, 3, MutateCount(n));
    ChosenDistinct(s, left, 3, MutateCount(n));
    RewrittenMeans(s, payload, left, 3, MutateCount(n));
  }

  lemma {:induction false} XorCancels(id: bv64, a: bv64, b: bv64)
    ensures id ^ a == id ^ b <==> a == b
  {}

  /** For one seed, two scheduler states lead to the same next state only if they are the
      same: no mutation merges two schedules. */
  lemma {:induction false} SchedulesNeverMerge(id: bv64, p: seq<u8>, q: seq<u8>, a: bv64, b: bv64)
    ensures MutatedBy(id, p, a).rngState == MutatedBy(id, q, b).rngState <==> a == b
  {
    StreamsDiffer(id ^ a, id ^ b);
    XorCancels(id, a, b);
  }

  lemma {:induction false} StreamsDiffer(a: bv64, b: bv64)
    ensures Draw(a, 1) == Draw(b, 1) <==> a == b
  {
    DrawsDetermineSeed(a, b, 1);
  }
}
