/** The stereo duplex encoder: fuses a template read and its complement read
    into one 13-row feature buffer by walking a trimmed alignment of their
    base sequences, column by column, while four cursors advance: the two
    base-sequence cursors and the two signal-sample cursors.

    The alignment path and its trimmed start, end and cursors are inputs:
    the aligner and the trimming helper are not part of this model.  Samples
    are kept as opaque integers; the padding value and the quality rescale
    are floating point and appear as the symbolic cells `Pad` and `QScore`. */
module StereoEncode {
  import opened Common

  // Codes of an alignment path column.
  const AlignMatch := 0
  const AlignInsertionToTarget := 1
  const AlignInsertionToQuery := 2
  const AlignMismatch := 3

  /** Signal samples per move-table entry. */
  const Stride := 5

  /** The trimmed alignment must be strictly longer than this. */
  const MinTrimmedAlignmentLength := 200

  // Rows of the feature buffer.
  const NumFeatures := 13
  const FeatureTemplateSignal := 0
  const FeatureComplementSignal := 1
  const FeatureTemplateFirstNucleotide := 2
  const FeatureComplementFirstNucleotide := 6
  const FeatureMoveTable := 10
  const FeatureTemplateQScore := 11
  const FeatureComplementQScore := 12

  /** A basecalled simplex read: bases, per-base quality bytes, raw signal
      and the move table (one entry per `Stride` samples). */
  datatype SimplexRead = SimplexRead(
    id: string,
    bases: string,
    qstring: seq<Byte>,
    signal: seq<int>,
    moves: seq<Byte>)

  /** The aligner's path between the template and the reverse complement of
      the complement, with the trimmed column range and the sequence cursors
      at its start. */
  datatype Alignment = Alignment(
    path: seq<int>,
    startPos: int,
    endPos: int,
    targetCursor: int,
    queryCursor: int)

  /** One entry of the feature buffer. */
  datatype Cell = Zero | One | Pad | Sample(value: int) | QScore(q: Byte)

  /** The encoded read: its id and its feature rows. */
  datatype StereoRead = StereoRead(id: string, features: seq<seq<Cell>>)

  /** Why no stereo read was produced.  `LengthRatio` and `NoConsensus` are
      the two gates; `Fault` stands for the inputs on which the source reads
      out of bounds or throws. */
  datatype Reject = LengthRatio | NoConsensus | Fault

  /** Where the walk stands: signal cursors, sequence cursors and the
      global cursor into the output. */
  datatype Cursors = Cursors(
    templateSignal: nat,
    complementSignal: nat,
    target: int,
    query: int,
    global: nat)

  /** The effect of one alignment column: the cursors after it and the
      number of samples each side contributed. */
  datatype Column = Column(next: Cursors, templateSpan: nat, complementSpan: nat)

  // ---------------------------------------------------------------- gates

  /** The length-ratio gate, over integers: the reads' lengths differ by
      more than 5% of the longer one. */
  predicate LengthGateFails(templateLen: nat, complementLen: nat)
  {
    var longer := Max(templateLen, complementLen);
    20 * (longer - Min(templateLen, complementLen)) > longer
  }

  /** The integer form of the gate is exactly the rational comparison
      delta / longer > 0.05 that the source makes in floating point. */
  lemma LengthGateIsFivePercent(templateLen: nat, complementLen: nat)
    requires templateLen + complementLen > 0
    ensures var longer := Max(templateLen, complementLen);
            var delta := longer - Min(templateLen, complementLen);
            (LengthGateFails(templateLen, complementLen) <==> (delta as real) / (longer as real) > 0.05)
  {
    var longer := Max(templateLen, complementLen);
    var delta := longer - Min(templateLen, complementLen);
    DivideCompare(delta as real, longer as real, 0.05);
    assert (delta as real > 0.05 * (longer as real)) <==> 20 * delta > longer;
  }

  /** Comparing a quotient with a positive divisor is comparing the
      dividend with the scaled bound. */
  lemma DivideCompare(d: real, l: real, t: real)
    requires l > 0.0
    ensures d / l > t <==> d > t * l
  {
    var q := d / l;
    assert q * l == d;
    if q > t {
      assert q * l > t * l;
    } else {
      assert q * l <= t * l;
    }
  }

  /** The trimmed-alignment gate: a non-empty range strictly longer than
      the minimum. */
  predicate ConsensusPossible(aln: Alignment)
  {
    aln.startPos < aln.endPos && aln.endPos - aln.startPos > MinTrimmedAlignmentLength
  }

  // ------------------------------------------------------ bases and moves

  /** The Watson-Crick partner of a base; other characters are kept. */
  function ComplementBase(b: char): char
  {
    match b
    case 'A' => 'T'
    case 'C' => 'G'
    case 'G' => 'C'
    case 'T' => 'A'
    case _ => b
  }

  /** The complement strand read in the template's direction. */
  function ReverseComplement(s: string): (r: string)
    ensures |r| == |s|
    ensures forall i :: 0 <= i < |s| ==> r[i] == ComplementBase(s[|s| - 1 - i])
  {
    Reverse(seq(|s|, i requires 0 <= i < |s| => ComplementBase(s[i])))
  }

  /** Reverse-complementing twice gives back the ACGT sequence. */
  lemma ReverseComplementInvolutive(s: string)
    requires forall i :: 0 <= i < |s| ==> s[i] in "ACGT"
    ensures ReverseComplement(ReverseComplement(s)) == s
  {
    var r := ReverseComplement(ReverseComplement(s));
    forall i | 0 <= i < |s|
      ensures r[i] == s[i]
    {
      assert s[i] in "ACGT";
    }
  }

  /** The feature-row offset of a nucleotide: two bits of its character
      code, (c >> 2 ^ c >> 1) & 3. */
  function NucleotideOffset(nucleotide: char): (offset: nat)
    ensures offset < 4
    ensures nucleotide == 'A' ==> offset == 0
    ensures nucleotide == 'C' ==> offset == 1
    ensures nucleotide == 'G' ==> offset == 2
    ensures nucleotide == 'T' ==> offset == 3
  {
    var b := ((nucleotide as int) % 256) as bv8;
    (((b >> 2) ^ (b >> 1)) & 3) as int
  }

  /** Each move followed by `Stride - 1` zeros. */
  function Spread(moves: seq<Byte>): (e: seq<Byte>)
    ensures |e| == Stride * |moves|
  {
    if moves == [] then []
    else
      var head: seq<Byte> := [moves[0]] + seq(Stride - 1, _ => 0);
      head + Spread(moves[1..])
  }

  /** Entry `k` of the spread table is move `k / Stride` at a multiple of
      the stride and 0 everywhere else. */
  lemma {:induction false} SpreadAt(moves: seq<Byte>, k: nat)
    requires k < Stride * |moves|
    ensures Spread(moves)[k] == if k % Stride == 0 then moves[k / Stride] else 0
  {
    var head: seq<Byte> := [moves[0]] + seq(Stride - 1, _ => 0);
    assert Spread(moves) == head + Spread(moves[1..]);
    if k >= Stride {
      SpreadAt(moves[1..], k - Stride);
      assert (k - Stride) % Stride == k % Stride && (k - Stride) / Stride == k / Stride - 1;
    }
  }

  /** The expanded table spreads the moves as the source's loop does. */
  lemma SpreadEntries(moves: seq<Byte>)
    ensures forall k :: 0 <= k < |Spread(moves)| ==>
              Spread(moves)[k] == if k % Stride == 0 then moves[k / Stride] else 0
  {
    forall k | 0 <= k < |Spread(moves)|
      ensures Spread(moves)[k] == if k % Stride == 0 then moves[k / Stride] else 0
    {
      SpreadAt(moves, k);
    }
  }

  /** The move table expanded to one entry per signal sample, with the
      entries past the signal's end dropped. */
  function ExpandMoves(moves: seq<Byte>, signalLen: nat): (e: seq<Byte>)
    ensures |e| == Min(Stride * |moves|, signalLen)
    ensures forall k :: 0 <= k < |e| ==> e[k] == if k % Stride == 0 then moves[k / Stride] else 0
  {
    var full := Spread(moves);
    SpreadEntries(moves);
    if |full| > signalLen then full[..signalLen] else full
  }

  /** The complement's expanded table turned to run in the flipped signal's
      direction: push a 1, reverse, drop the last entry. */
  function Reorient(expanded: seq<Byte>): (r: seq<Byte>)
    ensures |r| == |expanded|
    ensures |expanded| > 0 ==> r[0] == 1
    ensures forall i :: 1 <= i < |expanded| ==> r[i] == expanded[|expanded| - i]
  {
    var flipped := Reverse(expanded + [1]);
    flipped[..|flipped| - 1]
  }

  // --------------------------------------------------------------- cursors

  /** The distance from `from` to the next 1 marker of `table`, or to the
      end of the table when there is none. */
  function NextMarker(table: seq<Byte>, from: nat): (n: nat)
    requires from <= |table|
    ensures from + n <= |table|
    ensures forall j :: from <= j < from + n ==> table[j] != 1
    ensures from + n < |table| ==> table[from + n] == 1
    decreases |table| - from
  {
    if from == |table| || table[from] == 1 then 0 else 1 + NextMarker(table, from + 1)
  }

  /** The samples a side contributes when it advances from signal cursor
      `at`: the sample under the cursor and all samples up to the next 1
      marker. */
  function SegmentLength(table: seq<Byte>, at: nat): (n: nat)
    requires at < |table|
    ensures 1 <= n && at + n <= |table|
    ensures forall j :: at < j < at + n ==> table[j] != 1
    ensures at + n < |table| ==> table[at + n] == 1
  {
    1 + NextMarker(table, at + 1)
  }

  /** The running marker count of the initial scan standing at index `c`:
      the seed plus the table entries at indices 1 to c. */
  function Seen(table: seq<Byte>, seed: nat, c: nat): nat
    requires c == 0 || c < |table|
  {
    if c == 0 then seed else seed + Sum(table[1..c + 1])
  }

  /** The running count never decreases as the scan moves on. */
  lemma SeenMonotone(table: seq<Byte>, seed: nat, a: nat, b: nat)
    requires a <= b && (b == 0 || b < |table|)
    ensures Seen(table, seed, a) <= Seen(table, seed, b)
  {
    if 0 < a {
      assert table[1..b + 1] == table[1..a + 1] + table[a + 1..b + 1];
      SumAppend(table[1..a + 1], table[a + 1..b + 1]);
    }
  }

  /** The initial scan: from index 0 with `seed` markers counted, step
      forward adding each new entry until `goal` markers are seen.  It stops
      at the first index whose running count reaches the goal, and fails
      exactly when even the whole table does not reach it. */
  function Seek(table: seq<Byte>, seed: nat, goal: int): (r: Option<nat>)
    ensures r.Some? ==> (r.value == 0 || r.value < |table|) && Seen(table, seed, r.value) >= goal
    ensures r.Some? && r.value > 0 ==> Seen(table, seed, r.value - 1) < goal
    ensures r.None? <==> seed < goal && (|table| <= 1 || Seen(table, seed, |table| - 1) < goal)
  {
    SeekFrom(table, seed, goal, 0)
  }

  /** The scan standing at `cursor`, every earlier index short of the goal. */
  function SeekFrom(table: seq<Byte>, seed: nat, goal: int, cursor: nat): (r: Option<nat>)
    requires cursor == 0 || cursor < |table|
    requires cursor > 0 ==> Seen(table, seed, cursor - 1) < goal
    ensures r.Some? ==> cursor <= r.value && (r.value == 0 || r.value < |table|) && Seen(table, seed, r.value) >= goal
    ensures r.Some? && r.value > 0 ==> Seen(table, seed, r.value - 1) < goal
    ensures r.None? <==>
              Seen(table, seed, cursor) < goal && (cursor + 1 >= |table| || Seen(table, seed, |table| - 1) < goal)
    decreases |table| - cursor
  {
    if Seen(table, seed, cursor) >= goal then Some(cursor)
    else if cursor + 1 >= |table| then None
    else
      SeenMonotone(table, seed, cursor + 1, |table| - 1);
      SeekFrom(table, seed, goal, cursor + 1)
  }

  /** One alignment column.  The template side advances on every column
      but an insertion to the query, the complement side on every column but
      an insertion to the target; an advancing side contributes its segment
      of samples, which ends at the next 1 marker of its move table, and the
      global cursor moves by the longer segment.  None when an advancing
      side's signal cursor stands at the end of its move table. */
  function StepColumn(code: int, c: Cursors, templateMoves: seq<Byte>, complementMoves: seq<Byte>): (r: Option<Column>)
    requires c.templateSignal <= |templateMoves| && c.complementSignal <= |complementMoves|
    ensures r.None? <==>
      || (code != AlignInsertionToQuery && c.templateSignal == |templateMoves|)
      || (code != AlignInsertionToTarget && c.complementSignal == |complementMoves|)
    ensures r.Some? ==>
      var col := r.value;
      && (col.templateSpan > 0 <==> code != AlignInsertionToQuery)
      && (col.complementSpan > 0 <==> code != AlignInsertionToTarget)
      && col.next.target == c.target + (if code != AlignInsertionToQuery then 1 else 0)
      && col.next.query == c.query + (if code != AlignInsertionToTarget then 1 else 0)
      && col.next.templateSignal == c.templateSignal + col.templateSpan <= |templateMoves|
      && col.next.complementSignal == c.complementSignal + col.complementSpan <= |complementMoves|
      && col.next.global == c.global + Max(col.templateSpan, col.complementSpan) > c.global
    ensures r.Some? && r.value.templateSpan > 0 ==>
      && (forall j :: c.templateSignal < j < r.value.next.templateSignal ==> templateMoves[j] != 1)
      && (r.value.next.templateSignal == |templateMoves| || templateMoves[r.value.next.templateSignal] == 1)
    ensures r.Some? && r.value.complementSpan > 0 ==>
      && (forall j :: c.complementSignal < j < r.value.next.complementSignal ==> complementMoves[j] != 1)
      && (r.value.next.complementSignal == |complementMoves| || complementMoves[r.value.next.complementSignal] == 1)
  {
    var templateSide := code != AlignInsertionToQuery;
    var complementSide := code != AlignInsertionToTarget;
    if (templateSide && c.templateSignal == |templateMoves|)
       || (complementSide && c.complementSignal == |complementMoves|) then
      None
    else
      var ts := if templateSide then SegmentLength(templateMoves, c.templateSignal) else 0;
      var cs := if complementSide then SegmentLength(complementMoves, c.complementSignal) else 0;
      var next := Cursors(
        c.templateSignal + ts,
        c.complementSignal + cs,
        c.target + (if templateSide then 1 else 0),
        c.query + (if complementSide then 1 else 0),
        c.global + Max(ts, cs));
      Some(Column(next, ts, cs))
  }

  // --------------------------------------------------------------- buffer

  /** The kinds of value each row may hold: signal rows hold padding or
      samples, the one-hot rows and the move row hold zeros and ones, the
      quality rows hold zeros and quality bytes. */
  predicate KindFits(row: int, c: Cell)
  {
    if row <= FeatureComplementSignal then c.Pad? || c.Sample?
    else if row <= FeatureMoveTable then c.Zero? || c.One?
    else c.Zero? || c.QScore?
  }

  predicate CellKinds(m: seq<seq<Cell>>)
  {
    forall r, k :: 0 <= r < |m| && 0 <= k < |m[r]| ==> KindFits(r, m[r][k])
  }

  /** A buffer of 13 rows of one width. */
  predicate Shaped(m: seq<seq<Cell>>, width: nat)
  {
    |m| == NumFeatures && forall r :: 0 <= r < NumFeatures ==> |m[r]| == width
  }

  /** `row` with the `len` positions from `at` set to `v`. */
  function Fill(row: seq<Cell>, at: nat, len: nat, v: Cell): (r: seq<Cell>)
    requires at + len <= |row|
    ensures |r| == |row|
    ensures forall k :: 0 <= k < |row| ==> r[k] == if at <= k < at + len then v else row[k]
  {
    row[..at] + seq(len, _ => v) + row[at + len..]
  }

  /** `row` with the samples of `src` copied in from position `at`. */
  function Blit(row: seq<Cell>, at: nat, src: seq<int>): (r: seq<Cell>)
    requires at + |src| <= |row|
    ensures |r| == |row|
    ensures forall k :: 0 <= k < |row| ==> r[k] == if at <= k < at + |src| then Sample(src[k - at]) else row[k]
  {
    row[..at] + seq(|src|, i requires 0 <= i < |src| => Sample(src[i])) + row[at + |src|..]
  }

  /** The buffer before the walk: signal rows padded, all else zero. */
  function InitialFeatures(width: nat): (m: seq<seq<Cell>>)
    ensures Shaped(m, width) && CellKinds(m)
    ensures forall k :: 0 <= k < width ==> m[FeatureMoveTable][k] == Zero
  {
    seq(NumFeatures, r =>
      seq(width, _ => if r <= FeatureComplementSignal then Pad else Zero))
  }

  /** Every row cut to its first `g` positions. */
  function Truncate(m: seq<seq<Cell>>, width: nat, g: nat): (m': seq<seq<Cell>>)
    requires Shaped(m, width) && g <= width
    ensures Shaped(m', g)
    ensures CellKinds(m) ==> CellKinds(m')
    ensures forall r :: 0 <= r < NumFeatures ==> m'[r] == m[r][..g]
  {
    seq(NumFeatures, r requires 0 <= r < NumFeatures => m[r][..g])
  }

  /** A base and its quality byte, as one side contributes them to a
      column. */
  datatype Call = Call(base: char, q: Byte)

  /** Rows `firstNucleotide` to `firstNucleotide + 3` and `qRow` of `m'`
      are those of `m`, except over the span `[g, g + total)` where a call
      sets its base's one-hot row to one and the quality row to its quality
      byte. */
  ghost predicate CallPainted(m: seq<seq<Cell>>, m': seq<seq<Cell>>, width: nat, firstNucleotide: nat, qRow: nat,
                        g: nat, total: nat, call: Option<Call>)
    requires Shaped(m, width) && Shaped(m', width)
    requires firstNucleotide + 4 <= NumFeatures && qRow < NumFeatures
  {
    forall r, k :: (firstNucleotide <= r < firstNucleotide + 4 || r == qRow) && 0 <= k < width ==>
      m'[r][k] == if call.Some? && g <= k < g + total && r == firstNucleotide + NucleotideOffset(call.value.base) then One
                  else if call.Some? && g <= k < g + total && r == qRow then QScore(call.value.q)
                  else m[r][k]
  }

  /** The one-hot row of a side's base and its quality row, filled over the
      column's span when the side contributes a call; all other rows kept. */
  function PaintCall(m: seq<seq<Cell>>, width: nat, firstNucleotide: nat, qRow: nat, g: nat, total: nat,
                     call: Option<Call>): (m': seq<seq<Cell>>)
    requires firstNucleotide + 4 <= FeatureMoveTable < qRow < NumFeatures
    requires FeatureComplementSignal < firstNucleotide
    requires Shaped(m, width) && g + total <= width
    ensures Shaped(m', width)
    ensures CellKinds(m) ==> CellKinds(m')
    ensures forall r :: 0 <= r < NumFeatures && r != qRow && !(firstNucleotide <= r < firstNucleotide + 4) ==> m'[r] == m[r]
    ensures CallPainted(m, m', width, firstNucleotide, qRow, g, total, call)
  {
    if call.None? then m
    else
      var row := firstNucleotide + NucleotideOffset(call.value.base);
      var m1 := m[row := Fill(m[row], g, total, One)];
      m1[qRow := Fill(m1[qRow], g, total, QScore(call.value.q))]
  }

  /** Painting carries over to buffers that agree on the painted rows. */
  lemma CallPaintedFrame(m0: seq<seq<Cell>>, m1: seq<seq<Cell>>, m2: seq<seq<Cell>>, m3: seq<seq<Cell>>,
                         width: nat, firstNucleotide: nat, qRow: nat, g: nat, total: nat, call: Option<Call>)
    requires Shaped(m0, width) && Shaped(m1, width) && Shaped(m2, width) && Shaped(m3, width)
    requires firstNucleotide + 4 <= NumFeatures && qRow < NumFeatures
    requires forall r :: firstNucleotide <= r < firstNucleotide + 4 || r == qRow ==> m1[r] == m0[r] && m3[r] == m2[r]
    requires CallPainted(m1, m2, width, firstNucleotide, qRow, g, total, call)
    ensures CallPainted(m0, m3, width, firstNucleotide, qRow, g, total, call)
  {
  }

  /** The sides' sample segments copied into the two signal rows from
      position `g`; all other rows kept. */
  function PaintSignals(m: seq<seq<Cell>>, width: nat, g: nat, templateSamples: seq<int>, complementSamples: seq<int>)
    : (m': seq<seq<Cell>>)
    requires Shaped(m, width) && g + |templateSamples| <= width && g + |complementSamples| <= width
    ensures Shaped(m', width)
    ensures CellKinds(m) ==> CellKinds(m')
    ensures forall r :: FeatureComplementSignal < r < NumFeatures ==> m'[r] == m[r]
    ensures forall k :: 0 <= k < width ==>
              m'[FeatureTemplateSignal][k]
              == if g <= k < g + |templateSamples| then Sample(templateSamples[k - g]) else m[FeatureTemplateSignal][k]
    ensures forall k :: 0 <= k < width ==>
              m'[FeatureComplementSignal][k]
              == if g <= k < g + |complementSamples| then Sample(complementSamples[k - g]) else m[FeatureComplementSignal][k]
  {
    var m1 := m[FeatureTemplateSignal := Blit(m[FeatureTemplateSignal], g, templateSamples)];
    m1[FeatureComplementSignal := Blit(m1[FeatureComplementSignal], g, complementSamples)]
  }

  /** Paints one column at global position `g`: the sides' sample segments
      into the signal rows, their calls into the one-hot and quality rows
      across the column's full span, and one mark into the move row.  Every
      other cell is kept. */
  function PaintColumn(m: seq<seq<Cell>>, width: nat, g: nat, total: nat,
                       templateSamples: seq<int>, complementSamples: seq<int>,
                       templateCall: Option<Call>, complementCall: Option<Call>): (m': seq<seq<Cell>>)
    requires Shaped(m, width) && 0 < total && g + total <= width
    requires |templateSamples| <= total && |complementSamples| <= total
    ensures Shaped(m', width)
    ensures CellKinds(m) ==> CellKinds(m')
    ensures forall k :: 0 <= k < width ==>
              m'[FeatureTemplateSignal][k]
              == if g <= k < g + |templateSamples| then Sample(templateSamples[k - g]) else m[FeatureTemplateSignal][k]
    ensures forall k :: 0 <= k < width ==>
              m'[FeatureComplementSignal][k]
              == if g <= k < g + |complementSamples| then Sample(complementSamples[k - g]) else m[FeatureComplementSignal][k]
    ensures CallPainted(m, m', width, FeatureTemplateFirstNucleotide, FeatureTemplateQScore, g, total, templateCall)
    ensures CallPainted(m, m', width, FeatureComplementFirstNucleotide, FeatureComplementQScore, g, total, complementCall)
    ensures m'[FeatureMoveTable] == m[FeatureMoveTable][g := One]
  {
    var m2 := PaintSignals(m, width, g, templateSamples, complementSamples);
    var m3 := PaintCall(m2, width, FeatureTemplateFirstNucleotide, FeatureTemplateQScore, g, total, templateCall);
    var m4 := PaintCall(m3, width, FeatureComplementFirstNucleotide, FeatureComplementQScore, g, total, complementCall);
    var m5 := m4[FeatureMoveTable := m4[FeatureMoveTable][g := One]];
    CallPaintedFrame(m, m2, m3, m5, width, FeatureTemplateFirstNucleotide, FeatureTemplateQScore, g, total, templateCall);
    CallPaintedFrame(m, m3, m4, m5, width, FeatureComplementFirstNucleotide, FeatureComplementQScore, g, total, complementCall);
    m5
  }

  /** Marking position `g` of a move row whose marks all lie before `g`
      adds one mark, and the row stays unmarked from `next` on. */
  lemma {:induction false} MarkColumn(row: seq<Cell>, g: nat, next: nat, columns: nat)
    requires g < next <= |row|
    requires Count(row[..g], One) == columns
    requires forall k :: g <= k < |row| ==> row[k] == Zero
    ensures Count(row[g := One][..next], One) == columns + 1
    ensures var marked := row[g := One];
            forall k :: next <= k < |row| ==> marked[k] == Zero
  {
    var marked := row[g := One];
    assert marked[..next] == row[..g] + [One] + marked[g + 1..next];
    CountAppend(row[..g] + [One], marked[g + 1..next], One);
    CountAppend(row[..g], [One], One);
    CountAbsent(marked[g + 1..next], One);
  }

  // -------------------------------------------------------------- encoder

  /** A side's inputs to the walk, already turned to the template's
      direction: bases, quality bytes, signal and expanded move table. */
  datatype Side = Side(bases: string, qstring: seq<Byte>, signal: seq<int>, moves: seq<Byte>)

  /** What holds between columns of the walk, `columns` columns after
      `start`: the signal cursors have only moved forward and stay within
      their move tables, the global cursor is at most the samples consumed,
      the buffer is 13 well-kinded rows as wide as both signals, and the move
      row holds one mark per column before the global cursor and none after. */
  predicate Walking(template: Side, complement: Side, start: Cursors, cur: Cursors,
                    features: seq<seq<Cell>>, columns: nat)
  {
    var width := |template.signal| + |complement.signal|;
    && |template.moves| <= |template.signal| && |complement.moves| <= |complement.signal|
    && start.templateSignal <= cur.templateSignal <= |template.moves|
    && start.complementSignal <= cur.complementSignal <= |complement.moves|
    && columns <= cur.global
    && cur.global <= (cur.templateSignal - start.templateSignal) + (cur.complementSignal - start.complementSignal)
    && Shaped(features, width) && CellKinds(features)
    && Count(features[FeatureMoveTable][..cur.global], One) == columns
    && (forall k :: cur.global <= k < width ==> features[FeatureMoveTable][k] == Zero)
  }

  /** The advancing sides of a column have a base and a quality byte at
      their sequence cursors: the template when the column is not an
      insertion to the query, the complement when it is not an insertion to
      the target. */
  predicate CallsInRange(template: Side, complement: Side, code: int, c: Cursors)
  {
    && (code != AlignInsertionToQuery ==> 0 <= c.target < |template.bases| && c.target < |template.qstring|)
    && (code != AlignInsertionToTarget ==> 0 <= c.query < |complement.bases| && c.query < |complement.qstring|)
  }

  /** The cursors alone, walked from `start` over the columns `lo` up to
      `hi - 1` of the path: the cursors after the last of them, or None when
      some column's step runs off a move table or reads past a base
      sequence or quality string.  Every column moves the global cursor on
      by at least one. */
  function WalkCursors(template: Side, complement: Side, path: seq<int>, lo: nat, hi: nat, start: Cursors): (r: Option<Cursors>)
    requires lo <= hi <= |path|
    requires start.templateSignal <= |template.moves| && start.complementSignal <= |complement.moves|
    ensures r.Some? ==> r.value.templateSignal <= |template.moves| && r.value.complementSignal <= |complement.moves|
    ensures r.Some? ==> r.value.global >= start.global + (hi - lo)
    ensures r.Some? ==> r.value.global <= start.global + r.value.templateSignal + r.value.complementSignal
    decreases hi
  {
    if hi == lo then Some(start)
    else
      match WalkCursors(template, complement, path, lo, hi - 1, start)
      case None => None
      case Some(c) =>
        var step := StepColumn(path[hi - 1], c, template.moves, complement.moves);
        if step.None? || !CallsInRange(template, complement, path[hi - 1], c) then None
        else Some(step.value.next)
  }

  /** Walking one column further takes that column's step from where the
      shorter walk stopped. */
  lemma WalkCursorsExtend(template: Side, complement: Side, path: seq<int>, lo: nat, hi: nat,
                          start: Cursors, c: Cursors)
    requires lo <= hi < |path|
    requires start.templateSignal <= |template.moves| && start.complementSignal <= |complement.moves|
    requires WalkCursors(template, complement, path, lo, hi, start) == Some(c)
    ensures WalkCursors(template, complement, path, lo, hi + 1, start).Some?
            <==> StepColumn(path[hi], c, template.moves, complement.moves).Some?
                 && CallsInRange(template, complement, path[hi], c)
    ensures WalkCursors(template, complement, path, lo, hi + 1, start).Some?
            ==> WalkCursors(template, complement, path, lo, hi + 1, start).value
                == StepColumn(path[hi], c, template.moves, complement.moves).value.next
  {
  }

  /** Once a column faults, the walk over any longer range faults too. */
  lemma {:induction false} WalkCursorsStaysFaulted(template: Side, complement: Side, path: seq<int>,
                                                    lo: nat, mid: nat, hi: nat, start: Cursors)
    requires lo <= mid <= hi <= |path|
    requires start.templateSignal <= |template.moves| && start.complementSignal <= |complement.moves|
    requires WalkCursors(template, complement, path, lo, mid, start).None?
    ensures WalkCursors(template, complement, path, lo, hi, start).None?
    decreases hi
  {
    if mid < hi {
      WalkCursorsStaysFaulted(template, complement, path, lo, mid, hi - 1, start);
      assert WalkCursors(template, complement, path, lo, hi - 1, start).None?;
    }
  }

  /** The base and quality byte a side contributes at sequence cursor
      `at`, when it advances on the column. */
  function SideCall(side: Side, advances: bool, at: int): (call: Option<Call>)
    requires advances ==> 0 <= at < |side.bases| && at < |side.qstring|
    ensures call.Some? <==> advances
  {
    if advances then Some(Call(side.bases[at], side.qstring[at])) else None
  }

  /** Column `code` painted into `m` by a step from cursors `c` to `next`:
      at global position `c.global`, across the step's span, with the
      samples each side consumes and the calls at its sequence cursors. */
  function PaintStep(template: Side, complement: Side, code: int, c: Cursors, next: Cursors,
                     m: seq<seq<Cell>>): (m': seq<seq<Cell>>)
    requires Shaped(m, |template.signal| + |complement.signal|)
    requires c.global < next.global <= |template.signal| + |complement.signal|
    requires c.templateSignal <= next.templateSignal <= |template.signal|
    requires c.complementSignal <= next.complementSignal <= |complement.signal|
    requires next.templateSignal - c.templateSignal <= next.global - c.global
    requires next.complementSignal - c.complementSignal <= next.global - c.global
    requires CallsInRange(template, complement, code, c)
    ensures Shaped(m', |template.signal| + |complement.signal|)
  {
    PaintColumn(m, |template.signal| + |complement.signal|, c.global, next.global - c.global,
                template.signal[c.templateSignal..next.templateSignal],
                complement.signal[c.complementSignal..next.complementSignal],
                SideCall(template, code != AlignInsertionToQuery, c.target),
                SideCall(complement, code != AlignInsertionToTarget, c.query))
  }

  /** The buffer the walk paints over the columns `lo` to `hi - 1`: the
      padded buffer, then each column painted in turn at the global cursor
      the cursor walk reached before it, with the samples its step consumes
      and the calls at its sequence cursors. */
  function PaintedBy(template: Side, complement: Side, path: seq<int>, lo: nat, hi: nat, start: Cursors)
    : (m: seq<seq<Cell>>)
    requires lo <= hi <= |path|
    requires |template.moves| <= |template.signal| && |complement.moves| <= |complement.signal|
    requires start.templateSignal <= |template.moves| && start.complementSignal <= |complement.moves|
    requires start.global == 0
    requires WalkCursors(template, complement, path, lo, hi, start).Some?
    ensures Shaped(m, |template.signal| + |complement.signal|)
    decreases hi
  {
    var width := |template.signal| + |complement.signal|;
    if hi == lo then InitialFeatures(width)
    else
      var c := WalkCursors(template, complement, path, lo, hi - 1, start).value;
      var code := path[hi - 1];
      var next := StepColumn(code, c, template.moves, complement.moves).value.next;
      PaintStep(template, complement, code, c, next, PaintedBy(template, complement, path, lo, hi - 1, start))
  }

  /** One column of the walk: advance the cursors, read each advancing
      side's base and quality, and paint the column.  It fails exactly when
      the step runs off a move table or a base or quality byte is missing,
      and otherwise moves the cursors as the step does. */
  method WalkColumn(template: Side, complement: Side, start: Cursors, code: int,
                    cur: Cursors, features: seq<seq<Cell>>, columns: nat)
    returns (res: Result<(Cursors, seq<seq<Cell>>), Reject>)
    requires Walking(template, complement, start, cur, features, columns)
    ensures res.Err? ==> res.error == Fault
    ensures res.Ok? <==>
              StepColumn(code, cur, template.moves, complement.moves).Some? && CallsInRange(template, complement, code, cur)
    ensures res.Ok? ==> res.value.0 == StepColumn(code, cur, template.moves, complement.moves).value.next
    ensures res.Ok? ==> Walking(template, complement, start, res.value.0, res.value.1, columns + 1)
    ensures res.Ok? ==> res.value.1 == PaintStep(template, complement, code, cur, res.value.0, features)
  {
    var width := |template.signal| + |complement.signal|;
    var step := StepColumn(code, cur, template.moves, complement.moves);
    if step.None? {
      return Err(Fault);
    }
    var col := step.value;

    // The `.at()` reads of the base and quality byte throw when an
    // advancing side's sequence cursor is out of range.
    if !CallsInRange(template, complement, code, cur) {
      return Err(Fault);
    }
    var g := cur.global;
    var ts, cs := col.templateSpan, col.complementSpan;
    assert col.next.global == g + Max(ts, cs);
    assert Max(ts, cs) <= ts + cs && ts <= Max(ts, cs) && cs <= Max(ts, cs);
    assert col.next.global <= width;
    MarkColumn(features[FeatureMoveTable], g, col.next.global, columns);
    var painted := PaintStep(template, complement, code, cur, col.next, features);
    return Ok((col.next, painted));
  }

  /** The column walk over the trimmed range, from the cursors the initial
      scans found.  It succeeds exactly when the cursors alone walk the
      range without fault, and then returns their final position and the
      buffer: 13 rows cut to the final global cursor, at least one sample per
      column and at most the two signals' total, the move row marking each
      column once. */
  method Walk(template: Side, complement: Side, aln: Alignment, start: Cursors)
    returns (res: Result<(Cursors, seq<seq<Cell>>), Reject>)
    requires 0 <= aln.startPos <= aln.endPos <= |aln.path|
    requires |template.moves| <= |template.signal| && |complement.moves| <= |complement.signal|
    requires start.templateSignal <= |template.moves| && start.complementSignal <= |complement.moves|
    requires start.global == 0
    ensures res.Err? ==> res.error == Fault
    ensures res.Ok? <==> WalkCursors(template, complement, aln.path, aln.startPos, aln.endPos, start).Some?
    ensures res.Ok? ==>
      var final := res.value.0;
      var m := res.value.1;
      && final == WalkCursors(template, complement, aln.path, aln.startPos, aln.endPos, start).value
      && Shaped(m, final.global)
      && aln.endPos - aln.startPos <= final.global <= |template.signal| + |complement.signal|
      && CellKinds(m)
      && Count(m[FeatureMoveTable], One) == aln.endPos - aln.startPos
      && m == Truncate(PaintedBy(template, complement, aln.path, aln.startPos, aln.endPos, start),
                       |template.signal| + |complement.signal|, final.global)
  {
    var walked := WalkColumns(template, complement, aln, start);
    if walked.Err? {
      return Err(Fault);
    }
    var (final, features) := walked.value;
    var width := |template.signal| + |complement.signal|;
    var m := Truncate(features, width, final.global);
    assert m[FeatureMoveTable] == features[FeatureMoveTable][..final.global];
    return Ok((final, m));
  }

  /** A walk one column longer paints that column over the shorter walk's
      buffer, from where the shorter walk's cursors stopped. */
  lemma PaintedByExtend(template: Side, complement: Side, path: seq<int>, lo: nat, hi: nat,
                        start: Cursors, c: Cursors)
    requires lo <= hi < |path|
    requires |template.moves| <= |template.signal| && |complement.moves| <= |complement.signal|
    requires start.templateSignal <= |template.moves| && start.complementSignal <= |complement.moves|
    requires start.global == 0
    requires WalkCursors(template, complement, path, lo, hi, start) == Some(c)
    requires WalkCursors(template, complement, path, lo, hi + 1, start).Some?
    ensures StepColumn(path[hi], c, template.moves, complement.moves).Some?
    ensures PaintedBy(template, complement, path, lo, hi + 1, start)
            == PaintStep(template, complement, path[hi], c,
                         WalkCursors(template, complement, path, lo, hi + 1, start).value,
                         PaintedBy(template, complement, path, lo, hi, start))
  {
  }

  /** The walk has reached column `i` of the alignment: the cursors are
      where the cursor walk puts them and the features hold the columns so
      far. */
  ghost predicate WalkedTo(template: Side, complement: Side, aln: Alignment, start: Cursors, i: int,
                           cur: Cursors, features: seq<seq<Cell>>)
  {
    && 0 <= aln.startPos <= i <= aln.endPos <= |aln.path|
    && start.templateSignal <= |template.moves| && start.complementSignal <= |complement.moves|
    && start.global == 0
    && Walking(template, complement, start, cur, features, i - aln.startPos)
    && WalkCursors(template, complement, aln.path, aln.startPos, i, start) == Some(cur)
    && features == PaintedBy(template, complement, aln.path, aln.startPos, i, start)
  }

  /** Paint alignment column `i`, failing exactly when the whole cursor
      walk fails at that column. */
  method WalkNext(template: Side, complement: Side, aln: Alignment, start: Cursors, i: int,
                  cur: Cursors, features: seq<seq<Cell>>)
    returns (res: Result<(Cursors, seq<seq<Cell>>), Reject>)
    requires i < aln.endPos
    requires WalkedTo(template, complement, aln, start, i, cur, features)
    ensures res.Err? ==> WalkCursors(template, complement, aln.path, aln.startPos, aln.endPos, start).None?
    ensures res.Ok? ==> WalkedTo(template, complement, aln, start, i + 1, res.value.0, res.value.1)
  {
    res := WalkColumn(template, complement, start, aln.path[i], cur, features, i - aln.startPos);
    WalkCursorsExtend(template, complement, aln.path, aln.startPos, i, start, cur);
    if res.Ok? {
      PaintedByExtend(template, complement, aln.path, aln.startPos, i, start, cur);
    }
    if res.Err? {
      WalkCursorsStaysFaulted(template, complement, aln.path, aln.startPos, i + 1, aln.endPos, start);
    }
  }

  /** The loop of the walk: every column of the range painted in turn into
      a buffer as wide as both signals. */
  method WalkColumns(template: Side, complement: Side, aln: Alignment, start: Cursors)
    returns (res: Result<(Cursors, seq<seq<Cell>>), Reject>)
    requires 0 <= aln.startPos <= aln.endPos <= |aln.path|
    requires |template.moves| <= |template.signal| && |complement.moves| <= |complement.signal|
    requires start.templateSignal <= |template.moves| && start.complementSignal <= |complement.moves|
    requires start.global == 0
    ensures res.Err? ==> res.error == Fault
    ensures res.Ok? <==> WalkCursors(template, complement, aln.path, aln.startPos, aln.endPos, start).Some?
    ensures res.Ok? ==>
      && res.value.0 == WalkCursors(template, complement, aln.path, aln.startPos, aln.endPos, start).value
      && Walking(template, complement, start, res.value.0, res.value.1, aln.endPos - aln.startPos)
      && res.value.1 == PaintedBy(template, complement, aln.path, aln.startPos, aln.endPos, start)
  {
    var features := InitialFeatures(|template.signal| + |complement.signal|);
    res := WalkFrom(template, complement, aln, start, aln.startPos, start, features);
  }

  /** The walk from column `i` on, the columns before it already painted. */
  method WalkFrom(template: Side, complement: Side, aln: Alignment, start: Cursors, i: int,
                  cur: Cursors, features: seq<seq<Cell>>)
    returns (res: Result<(Cursors, seq<seq<Cell>>), Reject>)
    requires WalkedTo(template, complement, aln, start, i, cur, features)
    ensures res.Err? ==> res.error == Fault
    ensures res.Ok? <==> WalkCursors(template, complement, aln.path, aln.startPos, aln.endPos, start).Some?
    ensures res.Ok? ==> WalkedTo(template, complement, aln, start, aln.endPos, res.value.0, res.value.1)
    decreases aln.endPos - i
  {
    if i == aln.endPos {
      return Ok((cur, features));
    }
    var stepped := WalkNext(template, complement, aln, start, i, cur, features);
    if stepped.Err? {
      return Err(Fault);
    }
    res := WalkFrom(template, complement, aln, start, i + 1, stepped.value.0, stepped.value.1);
  }

  /** The template side as the walk reads it: its move table expanded to
      one entry per sample. */
  function TemplateSide(template: SimplexRead): (s: Side)
    ensures |s.moves| <= |s.signal| == |template.signal|
  {
    Side(template.bases, template.qstring, template.signal, ExpandMoves(template.moves, |template.signal|))
  }

  /** The complement side turned to the template's direction: bases
      reverse-complemented, quality bytes and signal reversed, and the
      expanded move table reoriented. */
  function ComplementSide(complement: SimplexRead): (s: Side)
    ensures |s.moves| <= |s.signal| == |complement.signal|
  {
    Side(ReverseComplement(complement.bases), Reverse(complement.qstring), Reverse(complement.signal),
         Reorient(ExpandMoves(complement.moves, |complement.signal|)))
  }

  /** The cursors the walk starts from: the two initial scans' indices, the
      alignment's sequence cursors and global position 0.  None when the
      trimmed range lies outside the alignment, a move table is empty, a
      scan runs off its table, or a signal is empty: the pad value takes the
      minimum over each signal, and the minimum of an empty tensor throws.  The template scan is seeded from the
      expanded table's first entry and the complement scan from the
      unexpanded table's first entry.  A negative sequence cursor is not
      read here: its scan's goal is already met at index 0. */
  function StartCursors(template: SimplexRead, complement: SimplexRead, aln: Alignment): (r: Option<Cursors>)
    ensures r.None? <==>
              || !(0 <= aln.startPos <= aln.endPos <= |aln.path|)
              || |TemplateSide(template).moves| == 0 || |complement.moves| == 0
              || |template.signal| == 0 || |complement.signal| == 0
              || Seek(TemplateSide(template).moves, TemplateSide(template).moves[0], aln.targetCursor + 1).None?
              || Seek(ComplementSide(complement).moves, complement.moves[0], aln.queryCursor + 1).None?
    ensures r.Some? ==>
              && r.value.templateSignal
                 == Seek(TemplateSide(template).moves, TemplateSide(template).moves[0], aln.targetCursor + 1).value
              && r.value.complementSignal
                 == Seek(ComplementSide(complement).moves, complement.moves[0], aln.queryCursor + 1).value
              && r.value.templateSignal <= |TemplateSide(template).moves|
              && r.value.complementSignal <= |ComplementSide(complement).moves|
              && r.value.target == aln.targetCursor && r.value.query == aln.queryCursor && r.value.global == 0
  {
    var templateMoves := TemplateSide(template).moves;
    var complementMoves := ComplementSide(complement).moves;
    if aln.startPos < 0 || aln.startPos > aln.endPos || aln.endPos > |aln.path|
       || |templateMoves| == 0 || |complement.moves| == 0 then None
    else if |template.signal| == 0 || |complement.signal| == 0 then None
    else
      var templateStart := Seek(templateMoves, templateMoves[0], aln.targetCursor + 1);
      var complementStart := Seek(complementMoves, complement.moves[0], aln.queryCursor + 1);
      if templateStart.None? || complementStart.None? then None
      else Some(Cursors(templateStart.value, complementStart.value, aln.targetCursor, aln.queryCursor, 0))
  }

  /** The final cursors of an encoding that stays within bounds throughout:
      the start found and every column walked without fault. */
  function EncodedCursors(template: SimplexRead, complement: SimplexRead, aln: Alignment): Option<Cursors>
  {
    match StartCursors(template, complement, aln)
    case None => None
    case Some(start) =>
      WalkCursors(TemplateSide(template), ComplementSide(complement), aln.path, aln.startPos, aln.endPos, start)
  }

  /** The feature buffer the encoder emits for a pair whose walk stays in
      bounds: every column painted along the cursor walk, cut to the final
      global cursor. */
  function EncodedFeatures(template: SimplexRead, complement: SimplexRead, aln: Alignment): (m: seq<seq<Cell>>)
    requires EncodedCursors(template, complement, aln).Some?
    ensures Shaped(m, EncodedCursors(template, complement, aln).value.global)
  {
    var start := StartCursors(template, complement, aln).value;
    var final := EncodedCursors(template, complement, aln).value;
    Truncate(PaintedBy(TemplateSide(template), ComplementSide(complement), aln.path, aln.startPos, aln.endPos, start),
             |template.signal| + |complement.signal|, final.global)
  }

  /** A pair that passes both gates but on which the encoder would leave
      its bounds. */
  predicate EncodeFaults(template: SimplexRead, complement: SimplexRead, aln: Alignment)
  {
    && !LengthGateFails(|template.bases|, |complement.bases|)
    && ConsensusPossible(aln)
    && EncodedCursors(template, complement, aln).None?
  }

  /** A pair that passes both gates but has an empty signal on either side
      faults, whatever its alignment and move tables: the pad value's
      minimum over the empty signal throws. */
  lemma EmptySignalFaults(template: SimplexRead, complement: SimplexRead, aln: Alignment)
    requires !LengthGateFails(|template.bases|, |complement.bases|) && ConsensusPossible(aln)
    requires |template.signal| == 0 || |complement.signal| == 0
    ensures EncodeFaults(template, complement, aln)
  {
  }

  /** Encodes a template and complement pair into a stereo read.  The two
      gates reject exactly the pairs they name, a fault is reported exactly
      for the pairs on which the cursors leave their bounds, and every other
      pair is encoded: 13 equal rows whose width is the walk's final global
      cursor, at least one sample per trimmed column and at most both
      signals together, the move row marking each column exactly once, and
      an id joining the two ids. */
  method Encode(template: SimplexRead, complement: SimplexRead, aln: Alignment)
    returns (res: Result<StereoRead, Reject>)
    ensures res == Err(LengthRatio) <==> LengthGateFails(|template.bases|, |complement.bases|)
    ensures res == Err(NoConsensus) <==>
      !LengthGateFails(|template.bases|, |complement.bases|) && !ConsensusPossible(aln)
    ensures res == Err(Fault) <==> EncodeFaults(template, complement, aln)
    ensures res.Ok? ==>
      var out := res.value;
      var final := EncodedCursors(template, complement, aln).value;
      && EncodedCursors(template, complement, aln).Some?
      && out.id == template.id + ";" + complement.id
      && Shaped(out.features, final.global)
      && aln.endPos - aln.startPos <= final.global <= |template.signal| + |complement.signal|
      && CellKinds(out.features)
      && Count(out.features[FeatureMoveTable], One) == aln.endPos - aln.startPos
      && out.features == EncodedFeatures(template, complement, aln)
  {
    if LengthGateFails(|template.bases|, |complement.bases|) {
      return Err(LengthRatio);
    }
    if !ConsensusPossible(aln) {
      return Err(NoConsensus);
    }
    var start := StartCursors(template, complement, aln);
    if start.None? {
      return Err(Fault);
    }
    var walked := Walk(TemplateSide(template), ComplementSide(complement), aln, start.value);
    if walked.Err? {
      return Err(Fault);
    }
    return Ok(StereoRead(template.id + ";" + complement.id, walked.value.1));
  }
}
