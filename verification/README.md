# dorado read-pipeline core, modelled in Dafny

This project models four pieces of dorado's read pipeline and proves
properties of the model.

- **Stereo duplex encoding** (`stereo_encode.dfy`, module `StereoEncode`).
  The stereo encoder fuses a template read and a complement read into a
  13-row feature buffer. It has two gates: the length-ratio gate and the
  trimmed-alignment gate. It expands both move tables by the stride of 5
  and turns the complement's table around. It then walks the alignment
  column by column with four cursors, painting signal samples, one-hot
  bases, quality scores and one move mark per column.
- **Duplex pairing** (`duplex_pairing.dfy`, module `DuplexPairing`). This
  is the encoder node's worker. It looks a read up in the
  template-to-complement map, then in the reverse map built by the
  constructor. It either caches the read or takes its partner out of the
  cache and encodes the pair. The last worker to exit terminates the sink.
- **Subread tagging** (`subread_tagger.dfy`, module `SubreadTagger`). This
  is the read-family synchroniser. Subread groups fill up to their split
  count, and the expected number of duplex reads is summed from the
  groups. Duplex reads accumulate per tag. A dispatcher releases a family
  with its split count and subread ids rewritten. The worker loop and one
  pass of the dispatcher are transitions on one state record.
- **Pipeline construction** (`pipelines.dfy`, module `Pipelines`). These
  are the simplex and stereo-duplex pipeline builders. A pipeline is a
  node list plus sink edges. The builders round the overlap down to the
  model stride, choose the nodes from the configuration, and wire them
  into one chain between an optional source and an optional sink.
- **Remora modified-base calling** (`remora.dfy`, module `Remora`). This
  covers the motif search, the clamp of a signal window at the end of the
  signal, and the placement of hits into model batches and score rows. It
  also covers the runner's layout of probability columns, alphabet and
  long names across models, and the one-hot start of every position.

`common.dfy` (module `Common`) holds `Option`, `Result`, bytes, sequence
reversal, sums and counts.

Threads, locks and condition variables are replaced by single atomic
steps. Each step is one call of a pure function or method on immutable
data. The edlib alignment and the trimmed-alignment cursors are inputs to
the encoder. Floating-point values are only represented where their
position matters.

Three details of the code are easy to miss, and the model keeps them:

- On release, subreads keep the subread id they arrived with. Only duplex
  reads are renumbered, counting on from the number of subreads
  (`dorado/read_pipeline/SubreadTaggerNode.cpp:99-109`).
- The pipeline builder creates the stereo encoder node from a stride
  (`dorado/read_pipeline/Pipelines.cpp:145-146`). The encoder's
  constructor takes a pair map instead
  (`dorado/read_pipeline/StereoDuplexEncoderNode.cpp:371-377`). Each file
  is modelled as written: `Pipelines.StereoDuplexEncoder` carries the
  stride, and `DuplexPairing.BuildPairMaps` takes the map.
- The complement's initial scan is seeded from the first entry of the
  *unexpanded* move table
  (`dorado/read_pipeline/StereoDuplexEncoderNode.cpp:150`), not from the
  expanded and reoriented one. `StereoEncode.Encode` does the same.

## Model

| member | source | states |
|---|---|---|
| StereoEncode.LengthGateIsFivePercent | dorado/read_pipeline/StereoDuplexEncoderNode.cpp:28-34 | The integer gate `20 * delta > longer` holds exactly when delta / longer > 0.05 over the rationals |
| StereoEncode.ReverseComplement | dorado/read_pipeline/StereoDuplexEncoderNode.cpp:39-40 | Same length as the input; position i holds the complement of the base at the mirrored position |
| StereoEncode.ReverseComplementInvolutive | dorado/read_pipeline/StereoDuplexEncoderNode.cpp:39-40 | Reverse-complementing an ACGT sequence twice gives it back |
| StereoEncode.SpreadAt | dorado/read_pipeline/StereoDuplexEncoderNode.cpp:112-118 | Pushing each move followed by four zeros puts move k at entry 5k and 0 at every other entry |
| StereoEncode.ExpandMoves | dorado/read_pipeline/StereoDuplexEncoderNode.cpp:112-123 | The expanded table has length min(5·moves, signal length); entry 5k is move k and every other entry is 0 |
| StereoEncode.Reorient | dorado/read_pipeline/StereoDuplexEncoderNode.cpp:143-145 | Pushing a 1, reversing and popping keeps the length, puts 1 first, and puts the original's entry n−i at position i ≥ 1 |
| StereoEncode.Seek | dorado/read_pipeline/StereoDuplexEncoderNode.cpp:125-129 | The scan stops at the first index where the running marker count reaches the goal. It fails exactly when the seed is below the goal and the count over the whole table stays below it too |
| StereoEncode.StartCursors | dorado/read_pipeline/StereoDuplexEncoderNode.cpp:112-157 | The start fails exactly when the trimmed range lies outside the alignment, a move table is empty, either signal is empty (the pad value's minimum over it throws), or one of the two initial scans runs off its table. Otherwise the signal cursors are those scans' results: the template scan over the expanded table seeded from its first entry, and the complement scan over the reoriented table seeded from the unexpanded table's first entry. The sequence cursors are the alignment's, and the global cursor is 0 |
| StereoEncode.NucleotideOffset | dorado/read_pipeline/StereoDuplexEncoderNode.cpp:177-179 | The two-bit character formula maps A, C, G, T to the distinct rows 0, 1, 2, 3 and never leaves 0..3 |
| StereoEncode.SegmentLength | dorado/read_pipeline/StereoDuplexEncoderNode.cpp:194-214 | An advancing side takes at least one sample and stops just before the next 1 marker or at the table's end |
| StereoEncode.StepColumn | dorado/read_pipeline/StereoDuplexEncoderNode.cpp:182-286 | The target cursor advances except on code 2 and the query cursor except on code 1. Each advancing side contributes at least one sample. The global cursor moves by the longer segment. The step fails exactly when an advancing side is already at its table's end |
| StereoEncode.PaintColumn | dorado/read_pipeline/StereoDuplexEncoderNode.cpp:185-283 | Painting a column keeps the 13-row shape and cell kinds. Each signal row holds the segment's samples from the column start on and is unchanged elsewhere. Over the column's span, an advancing side's base row is one and its quality row holds its quality score. Every other cell of those rows is unchanged, and the move row gains exactly the mark at the column start |
| StereoEncode.MarkColumn | dorado/read_pipeline/StereoDuplexEncoderNode.cpp:282-286 | Marking the column start adds exactly one mark before the next global cursor and leaves the rest of the move row unmarked |
| StereoEncode.WalkCursors | dorado/read_pipeline/StereoDuplexEncoderNode.cpp:182-287 | The cursors alone, walked column by column, stay within both move tables, and each column moves the global cursor on by at least one |
| StereoEncode.WalkCursorsStaysFaulted | dorado/read_pipeline/StereoDuplexEncoderNode.cpp:181-287 | Once a column's step leaves its bounds, the walk over every longer range of columns fails too |
| StereoEncode.WalkColumn | dorado/read_pipeline/StereoDuplexEncoderNode.cpp:182-287 | One column fails exactly when its step runs off a move table or an advancing side has no base or quality byte at its cursor. Otherwise the cursors move as the step says, the walk invariant holds with one more column marked, and the buffer is the previous one with this column painted: the samples each side consumes, and the base and quality byte at each advancing side's sequence cursor |
| StereoEncode.Walk | dorado/read_pipeline/StereoDuplexEncoderNode.cpp:181-290 | The walk succeeds exactly when the cursor-only walk does, and ends at its cursors. The buffer is then cut to the final global cursor: 13 rows of that width, at least one sample per column and at most both signals, with exactly one move mark per column. Its content is every column painted in turn along the cursor walk (`PaintedBy`), cut to that width |
| StereoEncode.EmptySignalFaults | dorado/read_pipeline/StereoDuplexEncoderNode.cpp:156-157 | A pair that passes both gates with an empty template or complement signal faults, whatever its alignment and move tables |
| StereoEncode.Encode | dorado/read_pipeline/StereoDuplexEncoderNode.cpp:26-297 | The length gate rejects exactly the pairs more than 5% apart, and the consensus gate exactly the remaining pairs without a trimmed range over 200 columns. A fault is reported exactly for the other pairs on which a signal is empty or the start scans or the cursor walk leave their bounds. Every remaining pair is encoded: 13 rows as wide as the walk's final global cursor, one move mark per column, and the id template + ";" + complement. The rows hold exactly the columns painted along the cursor walk from the start scans (`EncodedFeatures`) |
| DuplexPairing.ForwardMap | dorado/read_pipeline/StereoDuplexEncoderNode.cpp:371-377 | The kept map sends every entry's key to its value and holds no other key |
| DuplexPairing.ReverseMap | dorado/read_pipeline/StereoDuplexEncoderNode.cpp:379-381 | Every value of the template map is a key of the reverse map, mapped back to a key that led to it |
| DuplexPairing.ReverseMapLastWins | dorado/read_pipeline/StereoDuplexEncoderNode.cpp:379-381 | When several templates share a complement, the reverse map keeps the template iterated last |
| DuplexPairing.BuildPairMaps | dorado/read_pipeline/StereoDuplexEncoderNode.cpp:371-381 | Every reverse entry points back to a template that maps to it, and every template's complement is in the reverse map |
| DuplexPairing.BuiltMapsAreInverse | dorado/read_pipeline/StereoDuplexEncoderNode.cpp:371-381 | With distinct keys and values, t maps to c in the template map iff c maps to t in the reverse map |
| DuplexPairing.FindPartner | dorado/read_pipeline/StereoDuplexEncoderNode.cpp:313-328 | The template map is tried first and decides the template role. A read in neither map has no partner |
| DuplexPairing.BuiltMapsConsistent | dorado/read_pipeline/StereoDuplexEncoderNode.cpp:313-328 | For maps built from a one-to-one pairing, every read's partner finds the read back, in the opposite role |
| DuplexPairing.Route | dorado/read_pipeline/StereoDuplexEncoderNode.cpp:330-351 | An unpaired read changes nothing. A read whose partner is absent is cached under its id. Otherwise the partner leaves the cache and the pair is formed in template-complement order |
| DuplexPairing.RoutePreservesCacheInvariant | dorado/read_pipeline/StereoDuplexEncoderNode.cpp:330-340 | Every cached read stays filed under its own id, has a partner, and is never cached together with that partner |
| DuplexPairing.BothArrivalsEmptyTheCache | dorado/read_pipeline/StereoDuplexEncoderNode.cpp:313-361 | When both reads of a pair arrive, in either order, the second arrival yields the pair and neither read remains cached |
| DuplexPairing.HandleRead | dorado/read_pipeline/StereoDuplexEncoderNode.cpp:303-362 | The worker halts exactly when a pair forms that the encoder faults on. Otherwise the cache is the lookup's, and a stereo read is pushed exactly when a pair formed and passed both gates: one read, with the joined id, as wide as the pair's cursor walk, whose features are exactly the buffer painted along that walk |
| DuplexPairing.ExitsTerminateOnlyAtLast | dorado/read_pipeline/StereoDuplexEncoderNode.cpp:365-368 | k exits out of a running workers leave a − k, and terminate the sink once if k = a and otherwise not at all |
| DuplexPairing.AllWorkersTerminateSinkOnce | dorado/read_pipeline/StereoDuplexEncoderNode.cpp:365-368 | All workers exiting terminate the sink exactly once |
| SubreadTagger.FirstTag | dorado/read_pipeline/SubreadTaggerNode.cpp:74-75 | The dispatcher takes the least flagged tag |
| SubreadTagger.Receive | dorado/read_pipeline/SubreadTaggerNode.cpp:13-61 | A non-read message changes nothing. A duplex read joins its tag's list and flags the tag. A simplex read joins its group, which stays pending until its size equals the split count. A completed group leaves the pending map and either goes downstream unchanged in arrival order when it expects no duplex reads, or waits as a full group with the summed expectation and its tag flagged |
| SubreadTagger.Release | dorado/read_pipeline/SubreadTaggerNode.cpp:96-109 | All subreads come first, then all duplex reads. Every read gets the family size as split count. Subreads keep their subread id, and duplex read j gets id #subreads + j |
| SubreadTagger.Dispatch | dorado/read_pipeline/SubreadTaggerNode.cpp:64-110 | With nothing flagged nothing happens. Otherwise the least tag is unflagged. Its family is released and both its buffers erased exactly when a full group exists and the duplex count equals the expectation. Otherwise the output and full groups are unchanged and every duplex list reads the same |
| SubreadTagger.ReceivePreservesInvariant | dorado/read_pipeline/SubreadTaggerNode.cpp:20-57 | Every buffered read stays under its own tag in the buffer of its kind, and full groups keep expecting the positive total their subreads promise |
| SubreadTagger.DispatchPreservesInvariant | dorado/read_pipeline/SubreadTaggerNode.cpp:74-93 | A dispatcher pass keeps the same invariant |
| SubreadTagger.ReleasedAtMostOnce | dorado/read_pipeline/SubreadTaggerNode.cpp:90-93 | After a release, neither buffer holds the tag, and a further pass over the tag releases nothing |
| SubreadTagger.SurplusNeverReleases | dorado/read_pipeline/SubreadTaggerNode.cpp:84-87 | A family with more duplex reads than expected is not ready. A dispatch over it keeps the group and emits nothing, and a further duplex read only adds to the surplus |
| SubreadTagger.FamilyWithoutDuplexForwardsAtOnce | dorado/read_pipeline/SubreadTaggerNode.cpp:28-52 | Three subreads expecting no duplex reads are emitted unchanged, in arrival order, when the third arrives, and nothing stays buffered |
| SubreadTagger.FamilyWithDuplexWaitsForIt | dorado/read_pipeline/SubreadTaggerNode.cpp:20-109 | Two subreads expecting one duplex read are held until it arrives. One dispatch then emits the subreads and the duplex read with split count 3, the duplex read as subread 2, and empties every buffer |
| Pipelines.AdjustOverlap | dorado/read_pipeline/Pipelines.cpp:32-37 | The adjusted overlap is a multiple of the stride, at most the overlap, less than one stride below it, and unchanged when the overlap already is a multiple |
| Pipelines.AdjustOverlapIdempotent | dorado/read_pipeline/Pipelines.cpp:32-37 | Adjusting an adjusted overlap changes nothing |
| Pipelines.AdjustOverlapUnique | dorado/read_pipeline/Pipelines.cpp:32-37 | Any multiple of the stride at most one stride below the overlap is the adjusted overlap |
| Pipelines.CreateSimplex | dorado/read_pipeline/Pipelines.cpp:19-106 | The new nodes are the simplex stages, appended in data-flow order and linked into one chain, with the source and sink joined at its ends when valid |
| Pipelines.SimplexFirstNode | dorado/read_pipeline/Pipelines.cpp:49-67 | The RNA splitter is the first node iff splitting is enabled for an RNA model; otherwise the scaler is |
| Pipelines.SimplexScalerFeedsBasecaller | dorado/read_pipeline/Pipelines.cpp:60-87 | The scaler always feeds the basecaller, which gets the adjusted overlap. A duplex splitter follows iff splitting is enabled for a DNA model |
| Pipelines.SimplexModBaseLast | dorado/read_pipeline/Pipelines.cpp:89-95 | A modified-base caller exists iff there are modified-base runners, and then it is the last node, with the model stride |
| Pipelines.StereoEdgesPermuteChain | dorado/read_pipeline/Pipelines.cpp:131-178 | The links the stereo builder records, adding nodes from the downstream end, are exactly the data-flow chain's links |
| Pipelines.StereoLayoutIsChain | dorado/read_pipeline/Pipelines.cpp:131-188 | Nodes added from the downstream end, each linked to the one before, form the data-flow chain once its ends are connected |
| Pipelines.CreateStereoDuplex | dorado/read_pipeline/Pipelines.cpp:108-189 | The new nodes form the chain scaler → basecaller → splitter → pairing → encoder → stereo basecaller (→ modified-base caller), each with its settings, and are joined to the source and sink when valid |
| Remora.Find | dorado/nn/RemoraModel.cpp:320 | The search returns the first occurrence at or after the position, or none when no later occurrence exists |
| Remora.GetMotifHits | dorado/nn/RemoraModel.cpp:313-327 | The hits are the shifted occurrence starts, in strictly increasing order; a text shorter than the motif has none, despite the wrapped loop bound |
| Remora.ShiftedOccurrences | dorado/nn/RemoraModel.cpp:313-327 | Every hit minus the offset starts an occurrence, every occurrence start plus the offset is a hit, and the hits strictly increase |
| Remora.OccurrencesMembers | dorado/nn/RemoraModel.cpp:319-325 | A position is listed among the occurrences from a start iff it is at or after that start and the motif occurs there |
| Remora.OccurrencesIncreasing | dorado/nn/RemoraModel.cpp:319-325 | The occurrence starts, overlapping ones included, are listed in strictly increasing order |
| Remora.FindSplits | dorado/nn/RemoraModel.cpp:319-324 | A search either finds nothing, and then no occurrence remains, or finds the first remaining occurrence, and resuming one past it lists the rest |
| Remora.EmptyMotifOccursEverywhere | dorado/nn/RemoraModel.cpp:319-325 | An empty motif occurs at every position, including the end of the text |
| Remora.ClampToSignal | dorado/nn/RemoraModel.cpp:349-359 | A window past the signal end is cut at the end, and the tail grows by the overrun. Otherwise the window is unchanged. The source span then equals the destination span, the source ends within the signal, and the total input length is kept |
| Remora.PlaceHits | dorado/nn/RemoraModel.cpp:342-390 | Full batches are scored as they fill and a final partial one after the last hit. Batch b starts at row b·size, and hit k is written to row k exactly once. A zero batch size with hits has no placement |
| Remora.BaseIndex | dorado/nn/RemoraModel.cpp:405-406 | A character has an index iff it is A, C, G or T, and the index names that base |
| Remora.FileModels | dorado/nn/RemoraModel.cpp:412-431 | Fails exactly when some model names no canonical base at its motif offset. Otherwise, per base: the column count is 1 plus the last same-base model's count, the letters are every same-base model's letters in order, and the long names are the last same-base model's. The total is 4 plus every model's count |
| Remora.NewRunner | dorado/nn/RemoraModel.cpp:395-453 | A model naming no canonical base at its motif offset is rejected. Otherwise each base has 1 column plus the last same-base model's count. The total is 4 plus every model's count. The offsets are the prefix sums over A, C, G, T. The alphabet is each base followed by its models' letters, and the long names are joined by spaces |
| Remora.StatesFitInRow | dorado/nn/RemoraModel.cpp:412-429 | The four bases' columns never exceed the total number of columns |
| Remora.DistinctBasesFillRow | dorado/nn/RemoraModel.cpp:412-429 | With at most one model per base, the bases' columns add up exactly to the total |
| Remora.InitialProbabilities | dorado/nn/RemoraModel.cpp:462-472 | A non-ACGT character is an error. Otherwise row i is as wide as the total, holds a one at the first column of the base at i, and holds zero in every other column |
| Remora.OneHot | dorado/nn/RemoraModel.cpp:462-471 | The row holds a 1 at the given column and 0 in every other column |

## Left out

- Threads, mutexes, condition variables, and thread start, join, terminate and restart in both nodes are not modelled. Each worker iteration and each dispatcher pass is one atomic step. Only the count of running encoder workers is kept.
- The edlib alignment and the trimmed-alignment cursors and range are inputs to `StereoEncode.Encode`. They are not computed.
- `dorado::utils::reverse_complement` is not part of this model. The standard A↔T, C↔G complement is assumed, and other characters are kept.
- Floating-point values are not modelled: the pad value (0.8 × the minimum sample), the quality rescale (q − 33) / 90, Remora's rough rescaling, and the network scores. Signal cells keep their sample values as integers, and quality cells keep the raw byte.
- StereoEncode.LengthGateFails: the source compares in 32-bit floats; the model compares exact integers. `LengthGateIsFivePercent` proves this equals the exact ratio, and a float rounding at the boundary could differ.
- StereoEncode.SegmentLength: `memchr` is given the whole table length from an offset pointer and can read past the table; the model scans only to the table's end and stops there when no 1 follows.
- StereoEncode.Encode: `Err(Fault)` stands for the ways the encoder leaves its bounds. The pad value's `torch::min` over an empty signal (`dorado/read_pipeline/StereoDuplexEncoderNode.cpp:156-157`) throws, and so ends the process too. A base or quality read past its string goes through `.at()` (`dorado/read_pipeline/StereoDuplexEncoderNode.cpp:255`, `:261`, `:269`, `:276`); the exception escapes the worker thread (`:303-363`), so `std::terminate` ends the process. A trimmed range outside the alignment, an empty move table and a scan running off its table are unchecked reads, and their behaviour is undefined. A negative sequence cursor is not checked at the start; it is read only through `.at()`, on a column where its side advances, and so it throws there. `DuplexPairing.HandleRead` turns every fault into `Halted`; the model does not say what undefined behaviour would do instead.
- DuplexPairing.HandleRead: a non-read message (a `bad_variant_access` exception in the worker) is not modelled; the worker's input is a read.
- The encoder node's destructor terminates the sink a second time (`dorado/read_pipeline/StereoDuplexEncoderNode.cpp:396`). The model counts only the workers' terminations.
- The number of encoder workers, `std::thread::hardware_concurrency()`, is a parameter, as is the hardware thread count given to the pairing node.
- Pipelines.CreateStereoDuplex: the stereo builder sets only the splitter's picoampere scaling (`dorado/read_pipeline/Pipelines.cpp:163-165`) and leaves simplex mode at the default of `DuplexSplitSettings`, whose header is not part of this model. The model takes that default to be off. The simplex builder sets simplex mode on explicitly (`:80`).
- Pipelines: a zero model stride is excluded (`requires` on `AdjustOverlap`, `CreateSimplex` and `CreateStereoDuplex`). The source divides the overlap by each runner's stride without a check (`dorado/read_pipeline/Pipelines.cpp:32`, `:128`, `:169`), so a zero stride is a division by zero there.
- Pipelines: node queue sizes (1000), the signal normalisation parameters, the splitter's settings beyond picoampere scaling and simplex mode, and the duplex pairing parameters' contents are not modelled. `PipelineDescriptor`'s own checks are not part of this model.
- Pipelines: a model's name (the file name of its canonical path) and whether it is an RNA model are fields of the model configuration. They are not derived from the file system or the configuration.
- Remora.ClampToSignal: the source adds `size_t` values that could wrap (first sample plus sample count, lead plus sample count); the model adds unbounded naturals. Only the destination-end subtraction is reduced modulo 2^64.
- Remora.GetMotifHits: the source adds the motif offset to each start in `size_t`; the model adds unbounded naturals. The text length is assumed below 2^64 − 1.
- Remora.NewRunner: a motif offset at or beyond the motif's end is rejected as an invalid base. At the end the source reads the string terminator, which is not a base and is rejected too; beyond the end it reads out of bounds.
- Remora.BaseIndex: `BASE_IDS` (`dorado/nn/RemoraModel.cpp:428`, `:467`) is not part of this model. It is assumed to map exactly A, C, G and T to 0, 1, 2 and 3 and every other character to a negative value.
- Remora: the encoder's choice of signal context (`RemoraEncoder::get_context`) is not part of this model; a context is an input to `ClampToSignal`. The encoding of motif contexts (`BaseModContext`) is not part of this model either.
- Remora: `run`'s scatter of each model's scores into the probability rows (`dorado/nn/RemoraModel.cpp:493-498`), the network modules, model loading and TOML parsing are not modelled.
- The data loader, the command-line tools, and the basecaller and decoder interface headers are outside the modelled core.
