/** The modified-base caller's index arithmetic: where a model's motif
    occurs in a called sequence, which signal window each hit reads, which
    score row each hit lands in, and how the per-base probability columns of
    several models are laid out side by side.

    Strings are sequences of characters; `size_t` values are naturals,
    reduced modulo 2^64 where the source's arithmetic can wrap. */
module Remora {
  import opened Common

  const SizeModulus: nat := 0x1_0000_0000_0000_0000

  /** The "not found" value of a string search: the largest `size_t`. */
  const Npos: nat := SizeModulus - 1

  /** An unbounded integer as the `size_t` it wraps to. */
  function SizeT(x: int): (r: nat)
    ensures r < SizeModulus
    ensures 0 <= x < SizeModulus ==> r == x
  {
    x % SizeModulus
  }

  // ---------------------------------------------------------- motif hits

  /** Whether `motif` occurs in `text` starting at `p`. */
  predicate OccursAt(text: string, motif: string, p: nat)
  {
    p + |motif| <= |text| && text[p..p + |motif|] == motif
  }

  /** The starts of all occurrences at or after `from`, overlapping ones
      included, in ascending order. */
  function OccurrencesFrom(text: string, motif: string, from: nat): seq<nat>
    decreases |text| - from
  {
    if from + |motif| > |text| then []
    else (if OccursAt(text, motif, from) then [from] else []) + OccurrencesFrom(text, motif, from + 1)
  }

  /** The standard string search: the first start at or after `from`, or
      none. */
  function Find(text: string, motif: string, from: nat): (r: Option<nat>)
    ensures r.Some? ==> from <= r.value && OccursAt(text, motif, r.value)
    ensures r.Some? ==> forall q :: from <= q < r.value ==> !OccursAt(text, motif, q)
    ensures r.None? ==> forall q :: from <= q ==> !OccursAt(text, motif, q)
    decreases |text| - from
  {
    if from + |motif| > |text| then None
    else if OccursAt(text, motif, from) then Some(from)
    else Find(text, motif, from + 1)
  }

  /** Exactly the occurrences at or after `from` are listed. */
  lemma {:induction false} OccurrencesMembers(text: string, motif: string, from: nat, p: nat)
    ensures p in OccurrencesFrom(text, motif, from) <==> from <= p && OccursAt(text, motif, p)
    decreases |text| - from
  {
    if from + |motif| <= |text| {
      OccurrencesMembers(text, motif, from + 1, p);
    }
  }

  predicate StrictlyIncreasing(s: seq<nat>)
  {
    forall i, j :: 0 <= i < j < |s| ==> s[i] < s[j]
  }

  /** The occurrences are listed in strictly increasing order. */
  lemma {:induction false} OccurrencesIncreasing(text: string, motif: string, from: nat)
    ensures StrictlyIncreasing(OccurrencesFrom(text, motif, from))
    decreases |text| - from
  {
    if from + |motif| <= |text| {
      OccurrencesIncreasing(text, motif, from + 1);
      var rest := OccurrencesFrom(text, motif, from + 1);
      forall k | 0 <= k < |rest|
        ensures from < rest[k]
      {
        OccurrencesMembers(text, motif, from + 1, rest[k]);
      }
      if OccursAt(text, motif, from) {
        var occ := [from] + rest;
        forall i, j | 0 <= i < j < |occ|
          ensures occ[i] < occ[j]
        {
          if i > 0 {
            assert occ[i] == rest[i - 1] && occ[j] == rest[j - 1];
          }
        }
      }
    }
  }

  /** A search from `from` splits the remaining occurrences into the one it
      finds and those after it. */
  lemma {:induction false} FindSplits(text: string, motif: string, from: nat)
    ensures Find(text, motif, from).None? ==> OccurrencesFrom(text, motif, from) == []
    ensures Find(text, motif, from).Some? ==>
              var p := Find(text, motif, from).value;
              OccurrencesFrom(text, motif, from) == [p] + OccurrencesFrom(text, motif, p + 1)
    decreases |text| - from
  {
    if from + |motif| <= |text| {
      if OccursAt(text, motif, from) {
        assert OccurrencesFrom(text, motif, from) == [from] + OccurrencesFrom(text, motif, from + 1);
      } else {
        FindSplits(text, motif, from + 1);
        assert Find(text, motif, from) == Find(text, motif, from + 1);
        assert OccurrencesFrom(text, motif, from) == OccurrencesFrom(text, motif, from + 1);
      }
    }
  }

  /** Every element of `starts` moved up by `offset`. */
  function Shift(starts: seq<nat>, offset: nat): (r: seq<nat>)
    ensures |r| == |starts|
    ensures forall i :: 0 <= i < |r| ==> r[i] == starts[i] + offset
  {
    seq(|starts|, i requires 0 <= i < |starts| => starts[i] + offset)
  }

  /** The motif hits of `text`: the start of every occurrence of the motif,
      overlapping ones included, moved up by the motif offset, in increasing
      order (`ShiftedOccurrences` states what that list holds).  The loop bound is computed in `size_t`, so for a text shorter
      than the motif it wraps; the search then finds nothing and the loop
      stops. */
  method GetMotifHits(text: string, motif: string, motifOffset: nat) returns (hits: seq<nat>)
    requires |text| < Npos
    ensures hits == Shift(OccurrencesFrom(text, motif, 0), motifOffset)
    ensures StrictlyIncreasing(hits)
    ensures |text| < |motif| ==> hits == []
  {
    hits := [];
    ghost var starts: seq<nat> := [];
    var kmerLength := |motif|;
    var searchPos: nat := 0;
    var bound := SizeT(|text| - kmerLength + 1);
    while searchPos < bound
      invariant searchPos <= Npos
      invariant starts + OccurrencesFrom(text, motif, searchPos) == OccurrencesFrom(text, motif, 0)
      invariant hits == Shift(starts, motifOffset)
      decreases Npos - searchPos
    {
      SearchStep(text, motif, starts, searchPos);
      var found := Find(text, motif, searchPos);
      if found.Some? {
        ShiftSnoc(starts, found.value, motifOffset);
        starts := starts + [found.value];
        hits := hits + [found.value + motifOffset];
        searchPos := found.value + 1;
      } else {
        searchPos := Npos;
      }
    }
    NothingPastBound(text, motif, searchPos);
    assert starts == OccurrencesFrom(text, motif, 0);
    ShiftedOccurrences(text, motif, motifOffset);
  }

  /** One round of the search keeps the found starts followed by the
      occurrences still ahead equal to all occurrences. */
  lemma SearchStep(text: string, motif: string, starts: seq<nat>, searchPos: nat)
    requires |text| < Npos
    requires starts + OccurrencesFrom(text, motif, searchPos) == OccurrencesFrom(text, motif, 0)
    ensures Find(text, motif, searchPos).Some? ==>
              var p := Find(text, motif, searchPos).value;
              p < Npos && (starts + [p]) + OccurrencesFrom(text, motif, p + 1) == OccurrencesFrom(text, motif, 0)
    ensures Find(text, motif, searchPos).None? ==>
              starts + OccurrencesFrom(text, motif, Npos) == OccurrencesFrom(text, motif, 0)
  {
    FindSplits(text, motif, searchPos);
    var rest := OccurrencesFrom(text, motif, searchPos);
    if Find(text, motif, searchPos).Some? {
      var p := Find(text, motif, searchPos).value;
      assert starts + rest == (starts + [p]) + OccurrencesFrom(text, motif, p + 1);
    } else {
      assert starts + rest == starts;
    }
  }

  lemma ShiftSnoc(starts: seq<nat>, next: nat, offset: nat)
    ensures Shift(starts + [next], offset) == Shift(starts, offset) + [next + offset]
  {
  }

  /** Once the search position reaches the wrapped loop bound, no
      occurrence is left to find. */
  lemma NothingPastBound(text: string, motif: string, searchPos: nat)
    requires |text| < Npos
    requires searchPos >= SizeT(|text| - |motif| + 1)
    ensures OccurrencesFrom(text, motif, searchPos) == []
  {
  }

  /** The shifted occurrence list holds exactly the shifted occurrences, in
      increasing order. */
  lemma ShiftedOccurrences(text: string, motif: string, motifOffset: nat)
    ensures var hits := Shift(OccurrencesFrom(text, motif, 0), motifOffset);
            && (forall i :: 0 <= i < |hits| ==> motifOffset <= hits[i] && OccursAt(text, motif, hits[i] - motifOffset))
            && (forall p: nat :: OccursAt(text, motif, p) ==> p + motifOffset in hits)
            && StrictlyIncreasing(hits)
  {
    ShiftedOccurrencesSound(text, motif, motifOffset);
    ShiftedOccurrencesComplete(text, motif, motifOffset);
    OccurrencesIncreasing(text, motif, 0);
  }

  lemma ShiftedOccurrencesSound(text: string, motif: string, motifOffset: nat)
    ensures var hits := Shift(OccurrencesFrom(text, motif, 0), motifOffset);
            forall i :: 0 <= i < |hits| ==> motifOffset <= hits[i] && OccursAt(text, motif, hits[i] - motifOffset)
  {
    var starts := OccurrencesFrom(text, motif, 0);
    forall i | 0 <= i < |starts|
      ensures OccursAt(text, motif, starts[i])
    {
      OccurrencesMembers(text, motif, 0, starts[i]);
    }
  }

  lemma ShiftedOccurrencesComplete(text: string, motif: string, motifOffset: nat)
    ensures var hits := Shift(OccurrencesFrom(text, motif, 0), motifOffset);
            forall p: nat :: OccursAt(text, motif, p) ==> p + motifOffset in hits
  {
    var starts := OccurrencesFrom(text, motif, 0);
    var hits := Shift(starts, motifOffset);
    forall p: nat | OccursAt(text, motif, p)
      ensures p + motifOffset in hits
    {
      OccurrencesMembers(text, motif, 0, p);
      var k :| 0 <= k < |starts| && starts[k] == p;
      assert hits[k] == p + motifOffset;
    }
  }

  /** An empty motif occurs at every position, the end of the text
      included. */
  lemma {:induction false} EmptyMotifOccursEverywhere(text: string, from: nat)
    requires from <= |text| + 1
    ensures |OccurrencesFrom(text, "", from)| == |text| + 1 - from
    ensures forall i :: 0 <= i < |text| + 1 - from ==> OccurrencesFrom(text, "", from)[i] == from + i
    decreases |text| + 1 - from
  {
    if from <= |text| {
      assert OccursAt(text, "", from);
      EmptyMotifOccursEverywhere(text, from + 1);
    }
  }

  // ------------------------------------------------------ signal windows

  /** The signal context the encoder chose for one hit: where it starts in
      the signal, how many samples it takes, and how many zero samples go
      before and after them in the model input. */
  datatype Context = Context(firstSample: nat, numSamples: nat, leadSamplesNeeded: nat, tailSamplesNeeded: nat)

  /** The copy that fills one row of the model input: signal samples
      `[sourceStart, sourceEnd)` into input positions `[destStart, destEnd)`,
      with `tailSamplesNeeded` zeros after them. */
  datatype Window = Window(sourceStart: nat, sourceEnd: nat, destStart: nat, destEnd: nat, tailSamplesNeeded: nat)

  /** A context that runs past the end of the signal is cut at the end; the
      samples cut off become extra zero padding at the tail.  The
      destination end is a `size_t` subtraction. */
  function ClampToSignal(c: Context, signalLength: nat): (w: Window)
    ensures w.sourceStart == c.firstSample && w.destStart == c.leadSamplesNeeded
    ensures c.firstSample + c.numSamples <= signalLength ==>
              && w.sourceEnd == c.firstSample + c.numSamples
              && w.destEnd == c.leadSamplesNeeded + c.numSamples
              && w.tailSamplesNeeded == c.tailSamplesNeeded
    ensures c.firstSample + c.numSamples > signalLength ==>
              && w.sourceEnd == signalLength
              && w.tailSamplesNeeded == c.tailSamplesNeeded + (c.firstSample + c.numSamples - signalLength)
    ensures c.firstSample <= signalLength && c.leadSamplesNeeded + c.numSamples < SizeModulus ==>
              && w.sourceStart <= w.sourceEnd <= signalLength
              && w.destStart <= w.destEnd
              && w.sourceEnd - w.sourceStart == w.destEnd - w.destStart
              && w.destEnd + w.tailSamplesNeeded == c.leadSamplesNeeded + c.numSamples + c.tailSamplesNeeded
  {
    var lastSource := c.firstSample + c.numSamples;
    var lastDest := c.leadSamplesNeeded + c.numSamples;
    if lastSource > signalLength then
      var overrun := lastSource - signalLength;
      Window(c.firstSample, lastSource - overrun, c.leadSamplesNeeded, SizeT(lastDest - overrun),
             c.tailSamplesNeeded + overrun)
    else
      Window(c.firstSample, lastSource, c.leadSamplesNeeded, lastDest, c.tailSamplesNeeded)
  }

  // ---------------------------------------------------------- score rows

  /** One forward pass of the model: it scores the first `rows` slots of the
      input batch and writes them to score rows `[start, start + rows)`. */
  datatype Batch = Batch(start: nat, rows: nat)

  /** The score writes of a run of batches, as (score row, hit) pairs: slot
      `j` of a batch holds the hit placed in it. */
  function Writes(batches: seq<Batch>, slotHits: seq<seq<nat>>): seq<(nat, nat)>
    requires |batches| == |slotHits|
    requires forall b :: 0 <= b < |batches| ==> |slotHits[b]| == batches[b].rows
  {
    if batches == [] then []
    else
      var last := |batches| - 1;
      Writes(batches[..last], slotHits[..last])
      + seq(batches[last].rows, j requires 0 <= j < batches[last].rows => (batches[last].start + j, slotHits[last][j]))
  }

  /** A placement of `hitCount` hits into batches of `batchSize` slots:
      batch `b` starts at score row `b * batchSize`, holds between one and
      `batchSize` hits, and every batch but the last is full; together the
      batches write hit `k` to row `k`, each exactly once. */
  predicate Placement(batches: seq<Batch>, slotHits: seq<seq<nat>>, batchSize: nat, hitCount: nat)
  {
    && |batches| == |slotHits|
    && (forall b :: 0 <= b < |batches| ==> |slotHits[b]| == batches[b].rows)
    && (forall b :: 0 <= b < |batches| ==> batches[b].start == b * batchSize)
    && (forall b :: 0 <= b < |batches| ==> 0 < batches[b].rows <= batchSize)
    && (forall b :: 0 <= b < |batches| - 1 ==> batches[b].rows == batchSize)
    && Writes(batches, slotHits) == seq(hitCount, k => (k, k))
  }

  /** The full batches scored before row `index`. */
  predicate FullBatches(batches: seq<Batch>, slotHits: seq<seq<nat>>, batchSize: nat, index: nat)
  {
    && |batches| == |slotHits|
    && index == |batches| * batchSize
    && (forall b :: 0 <= b < |batches| ==> |slotHits[b]| == batches[b].rows)
    && (forall b :: 0 <= b < |batches| ==> batches[b] == Batch(b * batchSize, batchSize))
    && Writes(batches, slotHits) == seq(index, k => (k, k))
  }

  /** Places `hitCount` hits into batches of `batchSize` input slots: each
      full batch is scored as soon as it fills, and a final partial batch
      after the last hit.  The result lists the batches scored and, for
      each, the hits in its slots.  A zero batch size has no slot to place a
      hit in. */
  method PlaceHits(hitCount: nat, batchSize: nat) returns (res: Option<(seq<Batch>, seq<seq<nat>>)>)
    ensures res.None? <==> batchSize == 0 && hitCount > 0
    ensures res.Some? ==> Placement(res.value.0, res.value.1, batchSize, hitCount)
  {
    if batchSize == 0 {
      return if hitCount == 0 then Some(([], [])) else None;
    }
    var counter: nat := 0;
    var index: nat := 0;
    var batches: seq<Batch> := [];
    var slotHits: seq<seq<nat>> := [];
    var slots: seq<nat> := [];
    for hit := 0 to hitCount
      invariant counter < batchSize && |slots| == counter && hit == index + counter
      invariant forall j :: 0 <= j < counter ==> slots[j] == index + j
      invariant FullBatches(batches, slotHits, batchSize, index)
    {
      slots := slots + [hit];
      counter := counter + 1;
      if counter == batchSize {
        counter := 0;
        FlushFull(batches, slotHits, batchSize, index, slots);
        batches := batches + [Batch(index, batchSize)];
        slotHits := slotHits + [slots];
        slots := [];
        index := index + batchSize;
      }
    }
    FinishPlacement(batches, slotHits, batchSize, index, slots);
    if counter != 0 {
      batches := batches + [Batch(index, counter)];
      slotHits := slotHits + [slots];
    }
    return Some((batches, slotHits));
  }

  /** Scoring a batch whose slots hold the next hits in order extends the
      writes by one (row, hit) pair per slot, each hit to its own row. */
  lemma FlushExtends(batches: seq<Batch>, slotHits: seq<seq<nat>>, next: Batch, slots: seq<nat>)
    requires |batches| == |slotHits|
    requires forall b :: 0 <= b < |batches| ==> |slotHits[b]| == batches[b].rows
    requires Writes(batches, slotHits) == seq(next.start, k => (k, k))
    requires |slots| == next.rows && forall j :: 0 <= j < next.rows ==> slots[j] == next.start + j
    ensures Writes(batches + [next], slotHits + [slots]) == seq(next.start + next.rows, k => (k, k))
  {
    var batches', slotHits' := batches + [next], slotHits + [slots];
    assert batches'[..|batches|] == batches && slotHits'[..|batches|] == slotHits;
  }

  /** Scoring a full batch keeps the full batches in row order. */
  lemma FlushFull(batches: seq<Batch>, slotHits: seq<seq<nat>>, batchSize: nat, index: nat, slots: seq<nat>)
    requires FullBatches(batches, slotHits, batchSize, index)
    requires |slots| == batchSize && forall j :: 0 <= j < batchSize ==> slots[j] == index + j
    ensures FullBatches(batches + [Batch(index, batchSize)], slotHits + [slots], batchSize, index + batchSize)
  {
    FlushExtends(batches, slotHits, Batch(index, batchSize), slots);
    var batches' := batches + [Batch(index, batchSize)];
    assert (|batches| + 1) * batchSize == |batches| * batchSize + batchSize;
    forall b | 0 <= b < |batches'|
      ensures batches'[b] == Batch(b * batchSize, batchSize)
    {
      if b < |batches| {
        assert batches'[b] == batches[b];
      }
    }
  }

  /** The full batches, followed by the partial batch of the remaining
      slots when there are any, place every hit. */
  lemma FinishPlacement(batches: seq<Batch>, slotHits: seq<seq<nat>>, batchSize: nat, index: nat, slots: seq<nat>)
    requires FullBatches(batches, slotHits, batchSize, index)
    requires |slots| < batchSize && forall j :: 0 <= j < |slots| ==> slots[j] == index + j
    ensures |slots| == 0 ==> Placement(batches, slotHits, batchSize, index)
    ensures |slots| > 0 ==>
              Placement(batches + [Batch(index, |slots|)], slotHits + [slots], batchSize, index + |slots|)
  {
    if |slots| > 0 {
      FlushExtends(batches, slotHits, Batch(index, |slots|), slots);
      var batches' := batches + [Batch(index, |slots|)];
      forall b | 0 <= b < |batches'|
        ensures batches'[b].start == b * batchSize && 0 < batches'[b].rows <= batchSize
      {
        if b < |batches| {
          assert batches'[b] == batches[b];
        }
      }
    }
  }

  // ------------------------------------------------------- runner layout

  /** What the runner reads from one model's metadata. */
  datatype ModelParams = ModelParams(
    motif: string,
    motifOffset: nat,
    modBases: string,
    modLongNames: seq<string>,
    baseModCount: nat)

  datatype RemoraError = InvalidModelBase | InvalidSequenceCharacter

  /** The runner: its models, the number of probability columns per
      canonical base (A, C, G, T), the first column of each base, the total
      number of columns, and the alphabet and long names it reports. */
  datatype Runner = Runner(
    callers: seq<ModelParams>,
    baseCounts: seq<nat>,
    baseProbOffsets: seq<nat>,
    numStates: nat,
    alphabet: string,
    longNames: string)

  const CanonicalBases: string := "ACGT"

  /** The index of a canonical base, -1 for any other character. */
  function BaseIndex(c: char): (i: int)
    ensures -1 <= i < 4
    ensures i >= 0 <==> c in CanonicalBases
    ensures i >= 0 ==> CanonicalBases[i] == c
  {
    if c == 'A' then 0 else if c == 'C' then 1 else if c == 'G' then 2 else if c == 'T' then 3 else -1
  }

  /** A model whose motif names a canonical base at its offset.  An offset
      at the end of the motif reads the string terminator, which is not a
      base. */
  predicate ValidModel(m: ModelParams)
  {
    m.motifOffset < |m.motif| && BaseIndex(m.motif[m.motifOffset]) >= 0
  }

  function ModelBase(m: ModelParams): nat
    requires ValidModel(m)
  {
    BaseIndex(m.motif[m.motifOffset])
  }

  predicate AllValid(models: seq<ModelParams>)
  {
    forall i :: 0 <= i < |models| ==> ValidModel(models[i])
  }

  /** The columns base `b` gets: one for the canonical base, plus the
      modification count of the last model for that base. */
  function StatesFor(models: seq<ModelParams>, b: nat): (n: nat)
    requires AllValid(models)
    ensures n >= 1
  {
    if models == [] then 1
    else
      var last := models[|models| - 1];
      if ModelBase(last) == b then last.baseModCount + 1 else StatesFor(models[..|models| - 1], b)
  }

  /** The modification letters of every model for base `b`, in order. */
  function ModBasesFor(models: seq<ModelParams>, b: nat): string
    requires AllValid(models)
  {
    if models == [] then ""
    else
      var last := models[|models| - 1];
      ModBasesFor(models[..|models| - 1], b) + (if ModelBase(last) == b then last.modBases else "")
  }

  /** The long names of the last model for base `b`. */
  function LongNamesFor(models: seq<ModelParams>, b: nat): seq<string>
    requires AllValid(models)
  {
    if models == [] then []
    else
      var last := models[|models| - 1];
      if ModelBase(last) == b then last.modLongNames else LongNamesFor(models[..|models| - 1], b)
  }

  /** The modification counts of the models for base `b`, added up. */
  function ModCountFor(models: seq<ModelParams>, b: nat): nat
    requires AllValid(models)
  {
    if models == [] then 0
    else
      var last := models[|models| - 1];
      ModCountFor(models[..|models| - 1], b) + (if ModelBase(last) == b then last.baseModCount else 0)
  }

  /** The modification counts of all models, added up. */
  function ModCountTotal(models: seq<ModelParams>): nat
  {
    if models == [] then 0 else ModCountTotal(models[..|models| - 1]) + models[|models| - 1].baseModCount
  }

  /** How many of the models are for base `b`. */
  function ModelsFor(models: seq<ModelParams>, b: nat): nat
    requires AllValid(models)
  {
    if models == [] then 0
    else ModelsFor(models[..|models| - 1], b) + (if ModelBase(models[|models| - 1]) == b then 1 else 0)
  }

  /** Names joined by single spaces, where a name is only preceded by a
      space when something has been written before it. */
  function JoinNames(names: seq<string>): string
  {
    if names == [] then ""
    else
      var before := JoinNames(names[..|names| - 1]);
      if before != "" then before + " " + names[|names| - 1] else names[|names| - 1]
  }

  /** A layout the probability rows can be written in: four bases, each
      with at least one column, whose column ranges follow one another from
      column 0 and fit in the row. */
  predicate WellFormed(r: Runner)
  {
    && |r.baseCounts| == 4 && |r.baseProbOffsets| == 4
    && (forall b :: 0 <= b < 4 ==> r.baseCounts[b] >= 1)
    && r.baseProbOffsets[0] == 0
    && (forall b :: 0 <= b < 3 ==> r.baseProbOffsets[b + 1] == r.baseProbOffsets[b] + r.baseCounts[b])
    && r.baseProbOffsets[3] + r.baseCounts[3] <= r.numStates
    && (forall b :: 0 <= b < 4 ==> r.baseProbOffsets[b] < r.numStates)
  }

  /** The per-base state of the constructor after some of the models. */
  predicate Accumulated(models: seq<ModelParams>, counts: seq<nat>, modBases: seq<string>,
                        names: seq<seq<string>>, numStates: nat)
    requires AllValid(models)
  {
    && |counts| == 4 && |modBases| == 4 && |names| == 4
    && (forall b :: 0 <= b < 4 ==> counts[b] == StatesFor(models, b))
    && (forall b :: 0 <= b < 4 ==> modBases[b] == ModBasesFor(models, b))
    && (forall b :: 0 <= b < 4 ==> names[b] == LongNamesFor(models, b))
    && numStates == 4 + ModCountTotal(models)
  }

  /** The per-base totals the runner is built from. */
  datatype Filed = Filed(counts: seq<nat>, modBases: seq<string>, names: seq<seq<string>>, numStates: nat)

  /** Files each model under the canonical base at its motif offset; a
      model naming no canonical base is an error.  A later model for the
      same base replaces the column count and long names of an earlier one
      but adds its modification letters, and every model's modification
      count is added to the total number of columns. */
  method FileModels(models: seq<ModelParams>) returns (res: Result<Filed, RemoraError>)
    ensures res.Err? <==> !AllValid(models)
    ensures res.Err? ==> res.error == InvalidModelBase
    ensures res.Ok? ==>
              var f := res.value;
              AllValid(models) && Accumulated(models, f.counts, f.modBases, f.names, f.numStates)
  {
    var counts: seq<nat> := [1, 1, 1, 1];
    var modBases: seq<string> := ["", "", "", ""];
    var names: seq<seq<string>> := [[], [], [], []];
    var numStates: nat := 4;
    for i := 0 to |models|
      invariant AllValid(models[..i])
      invariant Accumulated(models[..i], counts, modBases, names, numStates)
    {
      var m := models[i];
      if !(m.motifOffset < |m.motif|) || BaseIndex(m.motif[m.motifOffset]) < 0 {
        assert !ValidModel(models[i]);
        return Err(InvalidModelBase);
      }
      var b := BaseIndex(m.motif[m.motifOffset]);
      assert models[..i + 1] == models[..i] + [m];
      AccumulateModel(models[..i], m, counts, modBases, names, numStates);
      names := names[b := m.modLongNames];
      modBases := modBases[b := modBases[b] + m.modBases];
      counts := counts[b := m.baseModCount + 1];
      numStates := numStates + m.baseModCount;
    }
    assert models[..|models|] == models;
    return Ok(Filed(counts, modBases, names, numStates));
  }

  /** Builds the runner from its models: the alphabet lists each canonical
      base followed by the modification letters filed under it, the long
      names follow the same order, and each base's columns start where the
      previous base's end. */
  method NewRunner(models: seq<ModelParams>) returns (res: Result<Runner, RemoraError>)
    ensures res.Err? <==> !AllValid(models)
    ensures res.Err? ==> res.error == InvalidModelBase
    ensures res.Ok? ==>
              var r := res.value;
              && AllValid(models)
              && r.callers == models
              && r.numStates == 4 + ModCountTotal(models)
              && |r.baseCounts| == 4
              && (forall b :: 0 <= b < 4 ==> r.baseCounts[b] == StatesFor(models, b))
              && r.alphabet == "A" + ModBasesFor(models, 0) + "C" + ModBasesFor(models, 1)
                               + "G" + ModBasesFor(models, 2) + "T" + ModBasesFor(models, 3)
              && r.longNames == JoinNames(LongNamesFor(models, 0) + LongNamesFor(models, 1)
                                          + LongNamesFor(models, 2) + LongNamesFor(models, 3))
              && WellFormed(r)
  {
    var filed := FileModels(models);
    if filed.Err? {
      return Err(filed.error);
    }
    var Filed(counts, modBases, names, numStates) := filed.value;
    var longNames := JoinNames(names[0] + names[1] + names[2] + names[3]);
    var alphabet := "A" + modBases[0] + "C" + modBases[1] + "G" + modBases[2] + "T" + modBases[3];
    var offsets := [0, counts[0], counts[0] + counts[1], counts[0] + counts[1] + counts[2]];
    var runner := Runner(models, counts, offsets, numStates, alphabet, longNames);
    RunnerWellFormed(runner);
    return Ok(runner);
  }

  /** Offsets laid end to end from the per-base column counts of valid
      models fit in a row of the total number of states. */
  lemma RunnerWellFormed(r: Runner)
    requires AllValid(r.callers)
    requires |r.baseCounts| == 4 && forall b :: 0 <= b < 4 ==> r.baseCounts[b] == StatesFor(r.callers, b)
    requires r.numStates == 4 + ModCountTotal(r.callers)
    requires r.baseProbOffsets == [0, r.baseCounts[0], r.baseCounts[0] + r.baseCounts[1],
                                   r.baseCounts[0] + r.baseCounts[1] + r.baseCounts[2]]
    ensures WellFormed(r)
  {
    StatesFitInRow(r.callers);
  }

  /** Filing one more model under its base: its column count and long
      names replace the base's, its letters are appended, and its count
      adds to the total. */
  lemma AccumulateModel(models: seq<ModelParams>, m: ModelParams, counts: seq<nat>, modBases: seq<string>,
                        names: seq<seq<string>>, numStates: nat)
    requires AllValid(models) && ValidModel(m)
    requires Accumulated(models, counts, modBases, names, numStates)
    ensures AllValid(models + [m])
    ensures var b := ModelBase(m);
            Accumulated(models + [m], counts[b := m.baseModCount + 1], modBases[b := modBases[b] + m.modBases],
                        names[b := m.modLongNames], numStates + m.baseModCount)
  {
    var models' := models + [m];
    assert models'[..|models'| - 1] == models;
  }

  /** A base's columns never exceed one plus the modification counts of
      its models, and equal that when at most one model is for it. */
  lemma {:induction false} StatesForBound(models: seq<ModelParams>, b: nat)
    requires AllValid(models)
    ensures StatesFor(models, b) <= 1 + ModCountFor(models, b)
    ensures ModelsFor(models, b) <= 1 ==> StatesFor(models, b) == 1 + ModCountFor(models, b)
  {
    if models != [] {
      var prefix := models[..|models| - 1];
      assert AllValid(prefix);
      StatesForBound(prefix, b);
      if ModelBase(models[|models| - 1]) == b {
        NoModelsNoCount(prefix, b);
      }
    }
  }

  lemma {:induction false} NoModelsNoCount(models: seq<ModelParams>, b: nat)
    requires AllValid(models)
    ensures ModelsFor(models, b) == 0 ==> ModCountFor(models, b) == 0
  {
    if models != [] {
      var prefix := models[..|models| - 1];
      assert AllValid(prefix);
      NoModelsNoCount(prefix, b);
    }
  }

  /** Every model's count is filed under exactly one base. */
  lemma {:induction false} ModCountsSplitByBase(models: seq<ModelParams>)
    requires AllValid(models)
    ensures ModCountFor(models, 0) + ModCountFor(models, 1) + ModCountFor(models, 2) + ModCountFor(models, 3)
            == ModCountTotal(models)
  {
    if models != [] {
      var prefix := models[..|models| - 1];
      assert AllValid(prefix);
      ModCountsSplitByBase(prefix);
    }
  }

  /** The four bases' columns fit in a row of `4 + ModCountTotal` columns. */
  lemma StatesFitInRow(models: seq<ModelParams>)
    requires AllValid(models)
    ensures StatesFor(models, 0) + StatesFor(models, 1) + StatesFor(models, 2) + StatesFor(models, 3)
            <= 4 + ModCountTotal(models)
  {
    StatesForBound(models, 0);
    StatesForBound(models, 1);
    StatesForBound(models, 2);
    StatesForBound(models, 3);
    ModCountsSplitByBase(models);
  }

  /** With at most one model per base, the row is exactly the four bases'
      columns side by side: the total is the sum of the base counts. */
  lemma DistinctBasesFillRow(models: seq<ModelParams>)
    requires AllValid(models)
    requires forall b :: 0 <= b < 4 ==> ModelsFor(models, b) <= 1
    ensures StatesFor(models, 0) + StatesFor(models, 1) + StatesFor(models, 2) + StatesFor(models, 3)
            == 4 + ModCountTotal(models)
  {
    StatesForBound(models, 0);
    StatesForBound(models, 1);
    StatesForBound(models, 2);
    StatesForBound(models, 3);
    ModCountsSplitByBase(models);
  }

  // ------------------------------------------------------ initial scores

  /** Starts every position of `text` as certainly its canonical base: row
      `i` has a one in the first column of the base at `i` and zeros
      elsewhere.  Any other character in the text is an error. */
  method InitialProbabilities(r: Runner, text: string) returns (res: Result<seq<seq<nat>>, RemoraError>)
    requires WellFormed(r)
    ensures res.Err? <==> exists i :: 0 <= i < |text| && BaseIndex(text[i]) < 0
    ensures res.Err? ==> res.error == InvalidSequenceCharacter
    ensures res.Ok? ==>
              var rows := res.value;
              && |rows| == |text|
              && forall i :: 0 <= i < |rows| ==>
                   && BaseIndex(text[i]) >= 0
                   && |rows[i]| == r.numStates
                   && Count(rows[i], 1) == 1
                   && rows[i][r.baseProbOffsets[BaseIndex(text[i])]] == 1
                   && forall j :: 0 <= j < r.numStates && j != r.baseProbOffsets[BaseIndex(text[i])] ==>
                        rows[i][j] == 0
  {
    var rows: seq<seq<nat>> := [];
    for i := 0 to |text|
      invariant |rows| == i
      invariant forall k :: 0 <= k < i ==>
                  && BaseIndex(text[k]) >= 0
                  && |rows[k]| == r.numStates
                  && Count(rows[k], 1) == 1
                  && rows[k][r.baseProbOffsets[BaseIndex(text[k])]] == 1
                  && forall j :: 0 <= j < r.numStates && j != r.baseProbOffsets[BaseIndex(text[k])] ==>
                       rows[k][j] == 0
    {
      var baseId := BaseIndex(text[i]);
      if baseId < 0 {
        return Err(InvalidSequenceCharacter);
      }
      var row := OneHot(r.numStates, r.baseProbOffsets[baseId]);
      rows := rows + [row];
    }
    return Ok(rows);
  }

  /** A row of `width` zeros with a one at `at`. */
  function OneHot(width: nat, at: nat): (row: seq<nat>)
    requires at < width
    ensures |row| == width && row[at] == 1
    ensures forall j :: 0 <= j < width && j != at ==> row[j] == 0
    ensures Count(row, 1) == 1
  {
    var zeros := seq(at, _ => 0);
    var rest := seq(width - at - 1, _ => 0);
    CountAbsent(zeros, 1);
    CountAbsent(rest, 1);
    CountAppend(zeros, [1], 1);
    CountAppend(zeros + [1], rest, 1);
    zeros + [1] + rest
  }
}
