# Entity templates, versions, request queue and chunk grid

A Dafny model of four parts of the 4Space game and its Flounder framework.

- **The `.entity` loader and saver** (`EbonEntities`).
  - The loader reads a file line by line into a template: an entity name and a list of components. Each component is a class path, its `key: value` fields and its named sections of comma-separated tokens.
  - The loader keeps a cache of soft references keyed by entity name.
  - The saver writes the same structure as nested segments.
- **`Version`**: a dotted version string parsed into three Java ints, and the four comparisons against another triple.
- **`RequestQueue`**: a first-in first-out list of resource requests.
- **`Chunk`**: a 16 x 16 x 17 block grid, with the dirty flag that put and remove raise and the `empty` flag that `update` recomputes.

Modules, one file each:

- `Wrappers` (`wrappers.dfy`): `Option` and `Result`.
- `JavaStrings` (`java_strings.dfy`): the Java string and integer operations the loader and `Version` rely on.
  - `contains`
  - `replaceAll("\\s+", "")`
  - `replace` of one character
  - `trim`
  - `split` on one literal character, which drops trailing empty pieces
  - `Integer.valueOf` and `Integer.toString`
- `EntityModel` (`entity_model.dfy`): the template's data types.
- `EntityParser` (`entity_parser.dfy`): the loader's loop.
  - It is a fold `Step`/`Run` over the lines with an explicit state: name, stored components, and the current loop with its locals.
  - `Finish` handles end of input; `Parse` is the whole file.
- `EntityCache` (`entity_cache.dfy`): `load`'s cache around the parser, and a `Reclaim` step standing for the garbage collector.
- `EntityWriter` (`entity_writer.dfy`): `save` as the sequence of segment-writer calls it makes, plus the rendering of those calls as lines. The real writer class is not part of this model, so that rendering is an assumption.
- `EntityRoundTrip` (`entity_roundtrip.dfy`): parse after write.
- `Versions` (`versions.dfy`), `RequestQueues` (`request_queue.dfy`), `Chunks` (`chunk.dfy`).

### Behaviour of the code that the model keeps

- **Input ends inside the Components block.** The code does not report an error. It clears the block's shared sections list and stops the loop. Components already stored keep their fields and end up with no sections. `EntityParser.Finish` models this.
- **Input ends inside the EntityData block.** This is a null dereference that escapes `load`, modelled as `Err(TruncatedEntityData)`. The cache key has already been removed at that point.
- **Field line without `:`.** The code throws `ArrayIndexOutOfBoundsException`, modelled as `Err(MalformedField)`. It escapes `load` as well.
- **A Name line with fewer than five characters left after cleaning.** It throws, modelled as `NameTooShort`.
- **Sections are shared, not per component.** Every component stored during one Components block is mapped to the block's one sections list. So every such component carries all of the block's sections, in file order (`EntityParser.Flush`), not only the sections written inside it.
- **EntityData opened and closed on one line.** The closing `};` is only looked for from the next line on. If that next line contains `};`, it ends the EntityData block, and the line's own Name is never read.
- **Version comparisons documented the other way round.** The doc comments of `isHigher`, `isHigherEqual`, `isLower` and `isLowerEqual` (Flounder-Framework/src/flounder/framework/Version.java:60-66, 73-79, 94-100, 107-113) speak of the provided version against the stored one. The code compares the stored version against the provided one: `isHigherEqual` holds when the stored version is at or above the provided one. The model follows the code.
- **No depth limit.** A third nesting level inside Components is not rejected. The depth counter keeps counting, and the innermost header becomes the current subsection.

## Model

| member | source | states |
|---|---|---|
| JavaStrings.StripWhitespaceChars | src/ebon/entities/EbonEntities.java:100 | removing `\s+` keeps exactly the non-whitespace characters of the line |
| JavaStrings.Trim | src/ebon/entities/EbonEntities.java:150-151 | `trim` returns a slice of its input with only characters at or below space cut off at either end, and the slice neither starts nor ends with such a character; a string with none is unchanged |
| JavaStrings.Split | src/ebon/entities/EbonEntities.java:153 | `split` gives `[s]` when the separator is absent; no piece holds the separator, and when the separator occurs the trailing empty pieces are gone |
| JavaStrings.SplitThenJoin | src/ebon/entities/EbonEntities.java:153 | joining the pieces of a split gives a prefix of the input, and the rest of the input is separators only |
| JavaStrings.SplitTerminated | src/ebon/entities/EbonEntities.java:152-153 | the trailing-comma rule: `t1,...,tn,` splits into exactly t1..tn when no token is empty or holds a comma |
| JavaStrings.SplitPair | src/ebon/entities/EbonEntities.java:150-151 | `key:value` splits on `:` into exactly the key and the value |
| JavaStrings.SplitJoin | Flounder-Framework/src/flounder/framework/Version.java:25 | splitting pieces that were joined with the separator gives them back when none holds it and the last is not empty |
| JavaStrings.ParseInt | Flounder-Framework/src/flounder/framework/Version.java:26-28 | `Integer.valueOf` succeeds exactly on an optional sign followed by one or more ASCII digits whose signed value is in int range, and yields that value |
| JavaStrings.ParseIntNonCanonical | Flounder-Framework/src/flounder/framework/Version.java:26-28 | a leading zero or a leading `+` does not change the int a digit string denotes |
| JavaStrings.ParseIntRejects | Flounder-Framework/src/flounder/framework/Version.java:26-28 | digits whose value is outside int range throw, with or without a `-`, and so does text with a stray character |
| JavaStrings.ParseFormat | Flounder-Framework/src/flounder/framework/Version.java:26-28 | `Integer.valueOf` reads back every int that `Integer.toString` writes |
| JavaStrings.ParseIntRejectsEmpty | Flounder-Framework/src/flounder/framework/Version.java:26-28 | the empty string and a lone sign are not numbers |
| EntityParser.Flush | src/ebon/entities/EbonEntities.java:139-140 | every component stored in one block gets the same sections list, in the order the components were stored |
| EntityParser.ComponentsStep | src/ebon/entities/EbonEntities.java:126-155 | a line with `{` raises the depth by one and a line with `};` lowers it by one; a component is open exactly from depth 2 on; sections and stored keys only grow; a failure happens only on a field line inside a component and outside any subsection, and names that line |
| EntityParser.Step | src/ebon/entities/EbonEntities.java:95-157 | a step keeps the state consistent and never drops a stored component; at top level it cannot fail and does not change the name |
| EntityParser.FieldLineFails | src/ebon/entities/EbonEntities.java:148-151 | inside a component and outside any subsection, a non-empty line that neither opens nor closes a segment throws exactly when its cleaned text splits on `:` into fewer than two pieces, and otherwise appends the trimmed key and value |
| EntityParser.FieldWithoutColonFails | src/ebon/entities/EbonEntities.java:150-151 | such a field line without `:` throws |
| EntityParser.FieldWithoutValueFails | src/ebon/entities/EbonEntities.java:150-151 | such a field line `key:` with nothing after the colon throws |
| EntityParser.RunNameLines | src/ebon/entities/EbonEntities.java:98-102 | inside EntityData, lines that do not close it change only the name, and the last line mentioning Name sets it to its cleaned text minus the first five characters |
| EntityParser.ShortNameFails | src/ebon/entities/EbonEntities.java:99-100 | the first Name line whose cleaned text is shorter than five characters throws, whatever follows |
| EntityParser.EntityDataBlock | src/ebon/entities/EbonEntities.java:97-114 | a whole EntityData block sets the name from its last Name line, and its closing line starts the Components block exactly when it mentions Components |
| EntityParser.Run | src/ebon/entities/EbonEntities.java:95-158 | the loop keeps the state consistent, and the stored components of a successful run extend those it started with |
| EntityParser.Finish | src/ebon/entities/EbonEntities.java:119-124 | end of input fails exactly inside EntityData; at top level the template is the name and the stored components; inside Components exactly the block's stored keys are added after them, each with no sections |
| EntityParser.RunAppend | src/ebon/entities/EbonEntities.java:95 | running over two chunks of lines is running over the first, then from where it stopped over the second |
| EntityParser.EmptyLineNeutral | src/ebon/entities/EbonEntities.java:148 | an empty line changes nothing, in any loop |
| EntityParser.EmptyLineIgnored | src/ebon/entities/EbonEntities.java:148 | removing an empty line anywhere in a file leaves the parse result unchanged |
| EntityParser.NameDefaultsToUnnamed | src/ebon/entities/EbonEntities.java:88 | a file with no line mentioning EntityData parses to a template named `unnamed` |
| EntityParser.TruncatedEntityDataFails | src/ebon/entities/EbonEntities.java:95-98 | after any lines that leave the loader at top level, an EntityData block never closed before end of input always fails, with the null dereference unless a line failed first |
| EntityCache.ReadSource | src/ebon/entities/EbonEntities.java:77-85 | a miss yields a template exactly when there is a reader and the whole file parses; a parse failure is a crash with that failure; no reader gives null; an I/O failure crashes exactly when the lines already read crash the loader, and otherwise gives null |
| EntityCache.Load | src/ebon/entities/EbonEntities.java:68-171 | a live reference is returned as it is and the cache is unchanged; on a miss the result is what reading the file gives; afterwards the name is cached exactly when a template was returned, and holds that template; no other name changes |
| EntityCache.Reclaim | src/ebon/entities/EbonEntities.java:69 | clearing references keeps every key, empties the victims' references and leaves the others alone |
| EntityCache.HitIgnoresFiles | src/ebon/entities/EbonEntities.java:69-72 | on a hit the answer and the cache are the same whatever the files hold |
| EntityCache.LoadTwice | src/ebon/entities/EbonEntities.java:74-167 | loading twice is loading once: after a success the second load is a hit that returns the same template; after a failure it fails the same way |
| EntityCache.LoadKeepsCoherent | src/ebon/entities/EbonEntities.java:167 | if every live reference holds what its file parses to, that still holds after a load |
| EntityCache.CoherentLoadIsFresh | src/ebon/entities/EbonEntities.java:69-72 | with such a faithful cache, load answers what it would answer with an empty cache |
| EntityCache.ReclaimKeepsCoherent | src/ebon/entities/EbonEntities.java:69 | clearing references keeps a faithful cache faithful |
| EntityCache.ReclaimThenLoad | src/ebon/entities/EbonEntities.java:69-72 | after the collector clears a reference the file is read again, and with a faithful cache the answer equals the one before the reclaim |
| EntityCache.CrashBeforeIoError | src/ebon/entities/EbonEntities.java:161-165 | an I/O failure part-way cannot hide a crash the lines read so far cause, and a file that loads gives null when cut off by an I/O failure |
| EntityWriter.WalkAppend | src/ebon/entities/EbonEntities.java:203-243 | the segment depth after two runs of calls is the depth after the first, carried into the second |
| EntityWriter.SaverEvents | src/ebon/entities/EbonEntities.java:231-237 | a saver's segment holds no blank line |
| EntityWriter.SaversEvents | src/ebon/entities/EbonEntities.java:231-237 | the saver segments of a component are balanced and hold no blank line |
| EntityWriter.ComponentEvents | src/ebon/entities/EbonEntities.java:212-239 | a component segment is balanced and holds a blank line exactly when the component has a saver |
| EntityWriter.ComponentsEvents | src/ebon/entities/EbonEntities.java:211-240 | the component segments together are balanced |
| EntityWriter.Save | src/ebon/entities/EbonEntities.java:203-243 | the save completes exactly when the entity has at least as many components as there are editors; a completed save is balanced and starts with the EntityData segment holding `Name: <name>;`; an aborted one leaves the Components segment open |
| EntityRoundTrip.OpenLine | src/ebon/entities/EbonEntities.java:126-135 | an opening line names the component when none is open, else the subsection, and raises the depth |
| EntityRoundTrip.CloseComponentLine | src/ebon/entities/EbonEntities.java:139-142 | a close back to depth 1 stores the open component's class path and fields and resets them |
| EntityRoundTrip.CloseSectionLine | src/ebon/entities/EbonEntities.java:143-146 | a close inside a component with a subsection open stores the section with its tokens and resets it |
| EntityRoundTrip.FieldLine | src/ebon/entities/EbonEntities.java:149-151 | a written `key: value;` line appends exactly that pair to the open component's fields |
| EntityRoundTrip.RowLine | src/ebon/entities/EbonEntities.java:152-153 | a written `t1,...,tn,` row appends exactly its tokens to the open section |
| EntityRoundTrip.NameLineStep | src/ebon/entities/EbonEntities.java:99-100 | the written `Name: <name>;` line sets the name to exactly that name |
| EntityRoundTrip.RunFieldLines | src/ebon/entities/EbonEntities.java:148-151 | the field lines of a component append all its pairs, in order |
| EntityRoundTrip.RunRowLines | src/ebon/entities/EbonEntities.java:152-153 | the rows of a section append all their tokens, in order, across physical lines |
| EntityRoundTrip.RunSection | src/ebon/entities/EbonEntities.java:126-153 | a written section segment adds one section with its name and all its tokens to the shared list |
| EntityRoundTrip.RunComponent | src/ebon/entities/EbonEntities.java:126-155 | a written component segment stores its class path and fields and adds its sections to the shared list |
| EntityRoundTrip.RunComponents | src/ebon/entities/EbonEntities.java:106-157 | all written component segments store their keys in order, with every section of every component in the shared list |
| EntityRoundTrip.RunPreamble | src/ebon/entities/EbonEntities.java:95-114 | the written EntityData segment and Components header set the name and open a fresh Components block |
| EntityRoundTrip.RenderComponent | src/ebon/entities/EbonEntities.java:212-239 | under the assumed rendering, a component's calls are its header, field lines, the blank pair when it has sections, its section segments and the close |
| EntityRoundTrip.RenderSave | src/ebon/entities/EbonEntities.java:203-243 | under the assumed rendering, a save writes the EntityData segment, the Components header, the component segments and the final close |
| EntityRoundTrip.SaveThenParse | src/ebon/entities/EbonEntities.java:68-171 | parsing a saved file gives back the name and, in order, each component's class path and field pairs; every component carries all sections of all components with all their tokens |
| Versions.Part | Flounder-Framework/src/flounder/framework/Version.java:26-28 | a missing part counts as 0, and a present one is its `Integer.valueOf` |
| Versions.ParseVersion | Flounder-Framework/src/flounder/framework/Version.java:21-31 | the version is built exactly when each of the first three parts is a valid int or missing, and its fields are those parts; otherwise the constructor throws |
| Versions.ParseFormatted | Flounder-Framework/src/flounder/framework/Version.java:25-28 | a dotted string of numbers parses to its first three numbers, with missing ones 0 and extra ones ignored |
| Versions.ParseThreeParts | Flounder-Framework/src/flounder/framework/Version.java:21-28 | `a.b.c` parses to major a, minor b, revision c |
| Versions.ParseEdgeCases | Flounder-Framework/src/flounder/framework/Version.java:24-31 | `.` parses to 0.0.0 because every piece is a dropped trailing empty; `""` is rejected because its one piece is not a number |
| Versions.HigherEqualIsLex | Flounder-Framework/src/flounder/framework/Version.java:81-91 | isHigherEqual holds exactly when the provided triple is at or below the stored one in dictionary order |
| Versions.LowerEqualIsLex | Flounder-Framework/src/flounder/framework/Version.java:115-125 | isLowerEqual holds exactly when the stored triple is at or below the provided one |
| Versions.HigherIsLex | Flounder-Framework/src/flounder/framework/Version.java:68-70 | isHigher, with the increment on unbounded integers, holds exactly when the provided triple is strictly below the stored one |
| Versions.LowerIsLex | Flounder-Framework/src/flounder/framework/Version.java:102-104 | isLower, with the decrement on unbounded integers, holds exactly when the stored triple is strictly below the provided one |
| Versions.Trichotomy | Flounder-Framework/src/flounder/framework/Version.java:68-125 | for the comparisons with the increment and decrement on unbounded integers, exactly one of higher, lower, or the same three numbers holds; as written the two can both hold at the int bounds |
| Versions.HigherEqualIsNotLower | Flounder-Framework/src/flounder/framework/Version.java:68-125 | isHigherEqual is the negation of isLower, and isLowerEqual the negation of isHigher, for isHigher and isLower with the increment and decrement on unbounded integers |
| Versions.LexTotal | Flounder-Framework/src/flounder/framework/Version.java:81-91 | the dictionary order used as the reference is total |
| Versions.LexAntisymmetric | Flounder-Framework/src/flounder/framework/Version.java:81-91 | the reference order is antisymmetric |
| Versions.LexTransitive | Flounder-Framework/src/flounder/framework/Version.java:81-91 | the reference order is transitive |
| Versions.Wrap | Flounder-Framework/src/flounder/framework/Version.java:69 | Java int addition: the exact result when it fits, otherwise the one congruent to it modulo 2^32 |
| Versions.AsWrittenAwayFromBounds | Flounder-Framework/src/flounder/framework/Version.java:68-104 | away from the int bounds, isHigher and isLower as written agree with the strict comparisons |
| Versions.HigherAsWrittenOverflows | Flounder-Framework/src/flounder/framework/Version.java:68-70 | as written, 0.0.0 is higher than 0.0.2147483647 |
| Versions.LowerAsWrittenOverflows | Flounder-Framework/src/flounder/framework/Version.java:102-104 | as written, 0.0.0 is lower than 0.0.-2147483648 |
| RequestQueues.New | Flounder-Framework/src/flounder/processing/RequestQueue.java:14-16 | a new queue has no requests |
| RequestQueues.HasRequests | Flounder-Framework/src/flounder/processing/RequestQueue.java:41-43 | hasRequests holds exactly when count is positive |
| RequestQueues.Add | Flounder-Framework/src/flounder/processing/RequestQueue.java:23-25 | the request goes to the back, the count grows by one and the earlier requests keep their order |
| RequestQueues.Accept | Flounder-Framework/src/flounder/processing/RequestQueue.java:32-34 | on a non-empty queue the front request comes out and the rest keeps its order, one fewer; on an empty queue `remove(0)` throws |
| RequestQueues.Clear | Flounder-Framework/src/flounder/processing/RequestQueue.java:57-59 | a cleared queue has no requests |
| RequestQueues.AddAll | Flounder-Framework/src/flounder/processing/RequestQueue.java:23-25 | adding several requests appends them all, in order |
| RequestQueues.Drain | Flounder-Framework/src/flounder/processing/RequestQueue.java:32-43 | accepting while there are requests takes every request, front first, and leaves the queue empty |
| RequestQueues.AcceptAfterAdd | Flounder-Framework/src/flounder/processing/RequestQueue.java:23-34 | an add does not change which request comes out next, and the added one waits at the back |
| RequestQueues.AcceptOnlyRequest | Flounder-Framework/src/flounder/processing/RequestQueue.java:23-34 | on an empty queue the added request is the next one out, and the queue is empty again |
| RequestQueues.AddThenDrain | Flounder-Framework/src/flounder/processing/RequestQueue.java:23-34 | requests come out in the order they went in |
| RequestQueues.ClearIsNew | Flounder-Framework/src/flounder/processing/RequestQueue.java:57-59 | a cleared queue is a new queue, and accepting from it throws |
| Chunks.InBounds | src/blocks/Chunk.java:110-112 | inBounds holds exactly when each coordinate is in 0..15, and then the cell is inside the array |
| Chunks.Blank | src/blocks/Chunk.java:29-45 | a freshly allocated grid has the 16 x 16 x 17 shape, every cell null, and both flags set |
| Chunks.BlockExists | src/blocks/Chunk.java:162-164 | blockExists holds exactly when the coordinates are in 0..15 and the cell is not null |
| Chunks.SetCell | src/blocks/Chunk.java:180 | storing into `blocks[x][z][y]` changes that cell only |
| Chunks.RemoveBlock | src/blocks/Chunk.java:185-192 | the cell becomes null, the chunk is marked for rebuild, every other cell is unchanged |
| Chunks.PutBlock | src/blocks/Chunk.java:174-183 | the cell holds the given block, which may be null, the chunk is marked for rebuild, every other cell is unchanged |
| Chunks.Update | src/blocks/Chunk.java:114-136 | afterwards forceUpdate is false, the grid is unchanged, and `empty` holds exactly when no scanned cell holds a block |
| Chunks.ScannedAreInBounds | src/blocks/Chunk.java:118-120 | the cells update scans are exactly the in-bounds ones, so `empty` after an update means blockExists is false everywhere |
| Chunks.TopLayerIgnored | src/blocks/Chunk.java:120 | a block in the top layer y = 16 is not seen by update, so a chunk holding only such a block is reported empty |
| Chunks.PutThenRemove | src/blocks/Chunk.java:174-192 | removing after a put leaves the cell null and gives the same chunk as removing alone |
| Chunks.PutThenExists | src/blocks/Chunk.java:162-183 | after an in-bounds put, blockExists holds exactly when the block put was not null |

## Left out

- Strings are sequences of Unicode code points. Java counts UTF-16 code units in `substring("Name:".length())` (src/ebon/entities/EbonEntities.java:100) and `length() - 1` (src/ebon/entities/EbonEntities.java:129, 132), so the model differs from the code on characters above U+FFFF.
- EntityWriter.Saver: a section saver only passes data strings to the writer. `writeIntoSection` could in principle open or close segments or write blank lines, but the savers in src/ebon/entities/editing/EditorModel.java:200-276 only call `writeSegmentData`. The balance of a saved file rests on this restriction.
- File and disk I/O in the loader: opening `res/entities/<name>/<name>.entity` becomes a `Files` function from names to a `Source`. A source is either no reader, a reader that fails with an IOException after some lines, or the whole file.
- Logging everywhere, the saver's folder creation, file creation and closing, and its dated comment header.
- The segment writer's text format: that class is not part of this model. The saver is modelled as its calls, and the rendering used by the parse-after-write theorem is an assumption. An open call renders as `header {`, a data call as its text, a blank call as an empty line and a close as `};`, with no indentation.
- EntityWriter.Save: the boolean hints passed to `writeSegmentData` and `endSegment` are dropped, because they only affect rendering.
- The entity and editor objects are replaced by what `save` reads from them: the class name of each component, and each editor's savable strings and section savers. The declared `getSavableValues` takes a name argument (src/ebon/entities/IEditorComponent.java:38) while `save` calls it without one; the pair is taken as given.
- `SoftReference` and the collector: a cleared reference is a present key with no value, and reclamation is the explicit `Reclaim` step, applied to any set of names.
- Concurrency: the unguarded cache map and the `synchronized` queue methods are modelled as sequential operations.
- The component map: `HashMap` keys, their equality and iteration order are not modelled. The template keeps its components as an insertion-ordered list, and a repeated key is kept twice.
- JavaStrings.ParseInt: accepts ASCII digits only, where `Integer.valueOf` also accepts other Unicode decimal digits.
- The Version constructor's writing of `flounder.txt`, which is file I/O.
- RequestQueues.Count: returns an unbounded count, where `size()` is a Java int. A list longer than 2^31 - 1 is not modelled.
- RequestQueues.Accept: the request type is a type parameter. Requests are never inspected.
- Chunk engine calls are not modelled: the frustum test, `Block.update`, model generation, place and break sounds, terrain generation from noise and randomness, and the float position helpers.
- Chunks.InBounds: takes integers. In `blockExists` the source passes ints to float parameters, and the conversion is exact for every value near the bounds.

## Findings

| source | as written | input that shows it | evidently intended | confidence | as-written member | corrected member |
|---|---|---|---|---|---|---|
| Flounder-Framework/src/flounder/framework/Version.java:68-70 | `isHigher` calls `isHigherEqual(major, minor, revision + 1)` in int arithmetic, so `revision + 1` wraps to -2147483648 when revision is 2147483647 | stored 0.0.0, provided 0.0.2147483647: returns true although the stored version is lower | the strict counterpart of `isHigherEqual` as the code computes it away from the int bounds: the stored version is strictly above the provided one | not executed | Versions.HigherAsWrittenOverflows | Versions.HigherIsLex |
| Flounder-Framework/src/flounder/framework/Version.java:102-104 | `isLower` calls `isLowerEqual(major, minor, revision - 1)`, so `revision - 1` wraps to 2147483647 when revision is -2147483648 | stored 0.0.0, provided 0.0.-2147483648: returns true although the stored version is higher | the strict counterpart of `isLowerEqual` as the code computes it away from the int bounds: the stored version is strictly below the provided one | not executed | Versions.LowerAsWrittenOverflows | Versions.LowerIsLex |
