/** Run checkpoints (checkpoint.rs): progress that saturates at the schedule, a checksum
    over every other field, validation before resuming, and the file round trip.

    JSON text is opaque: `Json` packages the compact and pretty writers and the parser. */
module Checkpoint {
  import opened Prelude
  import Crc32

  const SCHEMA_VERSION: u32 := 3

  datatype CheckpointData = CheckpointData(
    schema: u32,
    campaignId: string,
    nextSeedIndex: u64,
    totalSeeds: u64,
    ringCoverage: set<u64>,
    generation: u64,
    crc32: bv32)

  datatype CheckpointError =
    | CampaignMismatch(recordedCampaign: string, actualCampaign: string)
    | IndexPastEnd(nextSeedIndex: u64, seedsLen: u64)
    | TotalMismatch(recordedTotal: u64, actualTotal: u64)
    | UnsupportedSchema(schema: u32)
    | CrcMismatch(recorded: bv32, computed: bv32)

  datatype Json = Json(compact: CheckpointData -> seq<bv8>,
                       pretty: CheckpointData -> seq<bv8>,
                       parse: seq<bv8> -> Option<CheckpointData>)

  function ComputeCrc32(j: Json, cp: CheckpointData): bv32 { Crc32.Checksum(j.compact(cp.(crc32 := 0))) }

  predicate VerifyCrc(j: Json, cp: CheckpointData) { cp.crc32 == ComputeCrc32(j, cp) }

  function ValidateRun(cp: CheckpointData, campaignId: string, totalSeeds: u64): Result<(), CheckpointError> {
    if cp.schema !in {1, 2, 3} then Err(UnsupportedSchema(cp.schema))
    else if cp.campaignId != campaignId then Err(CampaignMismatch(cp.campaignId, campaignId))
    else if cp.totalSeeds != totalSeeds then Err(TotalMismatch(cp.totalSeeds, totalSeeds))
    else if cp.nextSeedIndex > totalSeeds then Err(IndexPastEnd(cp.nextSeedIndex, totalSeeds))
    else Ok(())
  }

  /** A checkpoint may be resumed exactly when its schema is one of the three known, and
      campaign, schedule and progress fit; otherwise the first of these that does not is
      reported, with both sides. */
  lemma {:induction false} ValidationByCases(cp: CheckpointData, campaignId: string, totalSeeds: u64)
    ensures ValidateRun(cp, campaignId, totalSeeds).Ok?
       <==> 1 <= cp.schema <= 3 && cp.campaignId == campaignId && cp.totalSeeds == totalSeeds && cp.nextSeedIndex <= totalSeeds
    ensures ValidateRun(cp, campaignId, totalSeeds).Err? ==>
              match ValidateRun(cp, campaignId, totalSeeds).error
              case UnsupportedSchema(schema) => schema == cp.schema && (schema == 0 || schema > 3)
              case CampaignMismatch(recorded, actual) =>
                1 <= cp.schema <= 3 && recorded == cp.campaignId && actual == campaignId && recorded != actual
              case TotalMismatch(recorded, actual) =>
                && 1 <= cp.schema <= 3 && cp.campaignId == campaignId
                && recorded == cp.totalSeeds && actual == totalSeeds && recorded != actual
              case IndexPastEnd(next, seeds) =>
                && 1 <= cp.schema <= 3 && cp.campaignId == campaignId && cp.totalSeeds == totalSeeds
                && next == cp.nextSeedIndex && seeds == totalSeeds && next > seeds
              case CrcMismatch(_, _) => false
  {}

  predicate IsComplete(cp: CheckpointData, seedsLen: u64) { cp.nextSeedIndex >= seedsLen }

  // ----- progress -----

  function NewRunData(j: Json, campaignId: string, totalSeeds: u64): CheckpointData {
    var cp := CheckpointData(SCHEMA_VERSION, campaignId, 0, totalSeeds, {}, 1, 0);
    cp.(crc32 := ComputeCrc32(j, cp))
  }

  /** `advance_by`: a saturating add, cut at the schedule, and a fresh checksum. */
  function AdvancedBy(j: Json, cp: CheckpointData, count: u64): CheckpointData {
    var moved := cp.(nextSeedIndex := Min(Min(cp.nextSeedIndex + count, U64_MAX), cp.totalSeeds));
    moved.(crc32 := ComputeCrc32(j, moved))
  }

  class RunCheckpoint {
    const json: Json
    var schema: u32
    var campaignId: string
    var nextSeedIndex: u64
    var totalSeeds: u64
    var ringCoverage: set<u64>
    var generation: u64
    var crc32: bv32

    function Data(): CheckpointData
      reads this
    {
      CheckpointData(schema, campaignId, nextSeedIndex, totalSeeds, ringCoverage, generation, crc32)
    }

    constructor NewRun(json: Json, campaignId: string, totalSeeds: u64)
      ensures this.json == json && Data() == NewRunData(json, campaignId, totalSeeds)
    {
      this.json := json;
      schema, generation := SCHEMA_VERSION, 1;
      this.campaignId, this.totalSeeds := campaignId, totalSeeds;
      nextSeedIndex, ringCoverage, crc32 := 0, {}, 0;
      new;
      crc32 := ComputeCrc32(json, Data());
    }

    method AdvanceBy(count: u64)
      modifies this`nextSeedIndex, this`crc32
      ensures Data() == AdvancedBy(json, old(Data()), count)
    {
      nextSeedIndex := Min(Min(nextSeedIndex + count, U64_MAX), totalSeeds);
      crc32 := ComputeCrc32(json, Data());
    }
  }

  /** The checkpoint of a new run after advancing by each of the counts in turn. */
  function Progress(j: Json, campaignId: string, totalSeeds: u64, counts: seq<u64>): CheckpointData {
    if counts == [] then NewRunData(j, campaignId, totalSeeds)
    else AdvancedBy(j, Progress(j, campaignId, totalSeeds, counts[..|counts| - 1]), counts[|counts| - 1])
  }

  function Total(counts: seq<u64>): nat {
    if counts == [] then 0 else Total(counts[..|counts| - 1]) + counts[|counts| - 1]
  }

  /** However a run advances, its checkpoint stands at the sum of the counts or the end of
      the schedule, verifies its checksum, may be resumed, and is complete exactly when
      the counts reach the schedule. */
  lemma {:induction false} ProgressIsExact(j: Json, campaignId: string, totalSeeds: u64, counts: seq<u64>)
    ensures var cp := Progress(j, campaignId, totalSeeds, counts);
            && cp.nextSeedIndex == Min(Total(counts), totalSeeds)
            && cp.totalSeeds == totalSeeds && cp.campaignId == campaignId && cp.schema == SCHEMA_VERSION
            && VerifyCrc(j, cp)
            && ValidateRun(cp, campaignId, totalSeeds) == Ok(())
            && (IsComplete(cp, totalSeeds) <==> Total(counts) >= totalSeeds)
  {
    if counts == [] {
      CrcIgnoresItself(j, NewRunData(j, campaignId, totalSeeds));
    } else {
      ProgressIsExact(j, campaignId, totalSeeds, counts[..|counts| - 1]);
      CrcIgnoresItself(j, Progress(j, campaignId, totalSeeds, counts));
    }
  }

  lemma {:induction false} CrcIgnoresItself(j: Json, cp: CheckpointData)
    ensures forall c: bv32 :: ComputeCrc32(j, cp.(crc32 := c)) == ComputeCrc32(j, cp)
  {
    forall c: bv32
      ensures ComputeCrc32(j, cp.(crc32 := c)) == ComputeCrc32(j, cp)
    {
      assert cp.(crc32 := c).(crc32 := 0) == cp.(crc32 := 0);
    }
  }

  /** A changed field is noticed whenever it disturbs the compact text only within four
      consecutive bytes. */
  lemma {:induction false} CrcDetectsTampering(j: Json, cp: CheckpointData, changed: CheckpointData, w: nat)
    requires VerifyCrc(j, cp) && changed.crc32 == cp.crc32
    requires var a, b := j.compact(cp.(crc32 := 0)), j.compact(changed.(crc32 := 0));
             |a| == |b| && a != b && forall i :: 0 <= i < |a| && a[i] != b[i] ==> w <= i < w + 4
    ensures !VerifyCrc(j, changed)
  {
    Crc32.DetectsFourByteBurst(j.compact(cp.(crc32 := 0)), j.compact(changed.(crc32 := 0)), w);
  }

  // ----- the file round trip -----

  function WriteCheckpoint(j: Json, cp: CheckpointData, generation: u64): seq<bv8> {
    j.pretty(Stamped(j, cp, generation))
  }

  /** What is written: the given generation and a fresh checksum. */
  function Stamped(j: Json, cp: CheckpointData, generation: u64): CheckpointData {
    var stamped := cp.(generation := generation);
    stamped.(crc32 := ComputeCrc32(j, stamped))
  }

  /** Schemas below the current one are raised while loading. */
  function Upgraded(cp: CheckpointData): CheckpointData {
    if cp.schema < SCHEMA_VERSION then cp.(schema := SCHEMA_VERSION) else cp
  }

  function LoadCheckpoint(j: Json, bytes: seq<bv8>): Result<CheckpointData, CheckpointError> {
    match j.parse(bytes)
    case None => Err(UnsupportedSchema(0))
    case Some(parsed) =>
      var cp := Upgraded(parsed);
      if cp.crc32 != 0 && !VerifyCrc(j, cp) then Err(CrcMismatch(cp.crc32, ComputeCrc32(j, cp)))
      else Ok(cp)
  }

  /** What is assumed of the JSON layer: parsing undoes pretty-printing, and two
      checkpoints that differ only in a one-digit schema have compact texts that differ
      in exactly one byte. */
  ghost predicate Faithful(j: Json) {
    && (forall cp :: j.parse(j.pretty(cp)) == Some(cp))
    && (forall cp: CheckpointData, s: u32 :: cp.schema < s < 10 ==> SchemaByte(j.compact(cp), j.compact(cp.(schema := s))))
  }

  ghost predicate SchemaByte(a: seq<bv8>, b: seq<bv8>) {
    |a| == |b| && exists w :: 0 <= w < |a| && a[w] != b[w] && a[..w] == b[..w] && a[w + 1..] == b[w + 1..]
  }

  lemma {:induction false} OneByteChangesCrc(a: seq<bv8>, b: seq<bv8>)
    requires SchemaByte(a, b)
    ensures Crc32.Checksum(a) != Crc32.Checksum(b)
  {
    var w :| 0 <= w < |a| && a[w] != b[w] && a[..w] == b[..w] && a[w + 1..] == b[w + 1..];
    forall i | 0 <= i < w ensures a[i] == b[i] {
      assert a[i] == a[..w][i] && b[i] == b[..w][i];
    }
    forall i | w < i < |a| ensures a[i] == b[i] {
      assert a[i] == a[w + 1..][i - w - 1] && b[i] == b[w + 1..][i - w - 1];
    }
    Crc32.DetectsFourByteBurst(a, b, w);
  }

  lemma {:induction false} SchemaChangesCrc(j: Json, cp: CheckpointData, s: u32)
    requires Faithful(j) && cp.schema < s < 10
    ensures ComputeCrc32(j, cp.(schema := s)) != ComputeCrc32(j, cp)
  {
    assert cp.(schema := s).(crc32 := 0) == cp.(crc32 := 0).(schema := s);
    OneByteChangesCrc(j.compact(cp.(crc32 := 0)), j.compact(cp.(crc32 := 0).(schema := s)));
  }

  /** A written checkpoint loads back, upgraded but otherwise as written, exactly when its
      schema is current or newer, or its checksum happens to be zero: loading raises an
      older schema before it checks the checksum that was computed with the older one. */
  lemma {:induction false} LoadUndoesWrite(j: Json, cp: CheckpointData, generation: u64)
    requires Faithful(j)
    ensures var written := Stamped(j, cp, generation);
            LoadCheckpoint(j, WriteCheckpoint(j, cp, generation))
            == if cp.schema >= SCHEMA_VERSION || written.crc32 == 0 then Ok(Upgraded(written))
               else Err(CrcMismatch(written.crc32, ComputeCrc32(j, Upgraded(written))))
  {
    var stamped := cp.(generation := generation);
    var written := Stamped(j, cp, generation);
    CrcIgnoresItself(j, stamped);
    if cp.schema < SCHEMA_VERSION {
      SchemaChangesCrc(j, written, SCHEMA_VERSION);
    }
  }

  /** Of all older schemas a checkpoint could be written with, at most one loads: the others
      have a checksum that is not zero, and fail. */
  lemma {:induction false} OldSchemasFail(j: Json, cp: CheckpointData, generation: u64, s: u32, t: u32)
    requires Faithful(j) && s < t < SCHEMA_VERSION
    ensures LoadCheckpoint(j, WriteCheckpoint(j, cp.(schema := s), generation)).Err?
         || LoadCheckpoint(j, WriteCheckpoint(j, cp.(schema := t), generation)).Err?
  {
    var older, newer := cp.(schema := s), cp.(schema := t);
    LoadUndoesWrite(j, older, generation);
    LoadUndoesWrite(j, newer, generation);
    SchemaChangesCrc(j, older.(generation := generation), t);
    assert older.(generation := generation).(schema := t) == newer.(generation := generation);
  }

  /** What is written carries the given generation, the checkpoint's other fields, and a
      checksum that verifies; loaded, it has schema 3 unless it is newer. */
  lemma {:induction false} WrittenByFields(j: Json, cp: CheckpointData, generation: u64)
    ensures var w := Stamped(j, cp, generation);
            && w.generation == generation && VerifyCrc(j, w)
            && w.schema == cp.schema && w.campaignId == cp.campaignId && w.nextSeedIndex == cp.nextSeedIndex
            && w.totalSeeds == cp.totalSeeds && w.ringCoverage == cp.ringCoverage
            && Upgraded(w) == w.(schema := if w.schema <= 3 then 3 else w.schema)
  {
    CrcIgnoresItself(j, cp.(generation := generation));
  }

  /** Loading any file: one that does not parse reads as schema 0; schemas below 3 become 3;
      a checksum other than 0 must be that of the text written without it. */
  lemma {:induction false} LoadByCases(j: Json, bytes: seq<bv8>)
    ensures match j.parse(bytes)
            case None => LoadCheckpoint(j, bytes) == Err(UnsupportedSchema(0))
            case Some(cp) =>
              var raised := cp.(schema := if cp.schema <= 3 then 3 else cp.schema);
              var crc := Crc32.Checksum(j.compact(raised.(crc32 := 0)));
              LoadCheckpoint(j, bytes) == if cp.crc32 == 0 || cp.crc32 == crc then Ok(raised) else Err(CrcMismatch(cp.crc32, crc))
  {}

  /** A new run starts at seed 0 of its schedule, with schema 3 and generation 1. */
  lemma {:induction false} NewRunByFields(j: Json, campaignId: string, totalSeeds: u64)
    ensures var cp := NewRunData(j, campaignId, totalSeeds);
            && cp == CheckpointData(3, campaignId, 0, totalSeeds, {}, 1, cp.crc32) && VerifyCrc(j, cp)
            && (forall n: u64 :: IsComplete(cp, n) <==> n == 0)
  {
    CrcIgnoresItself(j, NewRunData(j, campaignId, totalSeeds));
  }
}
