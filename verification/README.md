# PersistenceSun core, modelled in Dafny

This project models the core of a small Java 2-D game engine: a tower-defence style game on a grid, which records itself, replays recordings and mirrors a server's state on a client. The model covers five parts.

- **Snapshot pipeline.** The line-oriented JSON codec (`RecordingJson`). The client's interpolation buffer (`NetworkBuffer`): it parses wire lines, keeps an age-bounded deque of keyframes and samples it by blending the two bracketing keyframes, pairing entities by list index. The replay reconstructor (`ReplayScene`). The recording pipeline (`RecordingService`): its timers, warm-up gate, keyframe interval and bounded line queue.
- **Actors.** The mailbox actor (`Actor`), the actor directory (`ActorSystem`) and the rate-limited broadcast actor (`NetworkBroadcastActor`), as sequential state machines.
- **Grid and input.** The occupancy grid (`GridSystem`), a 2-D array updated in place, and the input state (`InputManager`).
- **Components.** Health, team, combat, movement and transform.
- **Game logic and client scene.** The game's rules (`GameLogic`): the spawn and difficulty timers, selection and grid moves, dead-entity cleanup, the defeat check and the nearest-enemy search. The client scene's reconciliation of its mirror objects with the sampled keyframe (`ClientScene`).

Each Java class whose fields change in place is a Dafny `class` with those fields. Its methods are proved against specification functions, and the lemmas beside those functions state what the source promises. Pure helpers are functions. The following are parameters, not modelled:

- Java's `float`/`double` arithmetic is `real`.
- Number parsing (`Double.parseDouble`, `Float.parseFloat`) is a parameter `num: string -> Option<real>`, where `None` means the parse throws; number formatting is a parameter `fmt`.
- Square roots (vector length, normalisation, distance) are parameters.
- Clock readings are parameters. A thrown exception is a `Try` value, and Java `null` is `Option`.

One module per source file, plus `Common` (shared values: vectors, colours, Java's truncating cast and remainder, the view of a scene object that the services read) and `Sorting` (an insertion sort by a real key, used where the source sorts a list).

## Model

| member | source | states |
|---|---|---|
| Common.TruncToInt | src/main/java/com/gameengine/scene/GridSystem.java:72-73 | the `(int)` cast of a float truncates toward zero: the result lies within one of `x` on the side of zero |
| Common.JavaRem | src/main/java/com/gameengine/example/ReplayScene.java:445-450 | Java's `%` takes the sign of the dividend; it agrees with the mathematical remainder for non-negative operands and is smaller than the divisor in magnitude |
| Common.BlendFactor | src/main/java/com/gameengine/net/NetworkBuffer.java:95-96 | the blend factor lies in [0,1]; it is 0 at or before `a`'s time and 1 at or after `b`'s time; in between, `u` scales the span to the elapsed time |
| Common.LerpWithin | src/main/java/com/gameengine/net/NetworkBuffer.java:103-104 | the blended coordinate is `a` at u = 0, `b` at u = 1, and lies between them for u in [0,1] |
| Common.VisibleObjects | src/main/java/com/gameengine/recording/RecordingService.java:150-155 | the serialized objects are active and have a transform, and there are no more of them than objects |
| Common.VisibleObjectsMembers | src/main/java/com/gameengine/actor/actors/NetworkBroadcastActor.java:55-63 | an object is serialized iff it is in the list, active, and has a transform |
| Common.VisibleObjectsEmpty | src/main/java/com/gameengine/recording/RecordingService.java:191-194 | nothing is serialized iff no object is both active and has a transform |
| RecordingJson.SkipWhitespace | src/main/java/com/gameengine/recording/RecordingJson.java:21-26 | the scan stops at the first non-whitespace character or at the end, and skips only whitespace |
| RecordingJson.ValueStart | src/main/java/com/gameengine/recording/RecordingJson.java:17-26 | no value when the quoted key is missing or no `:` follows it; otherwise the colon is the first `:` after the key, and the value starts at the first non-whitespace character after that colon, or at the end of the text |
| RecordingJson.MatchingClose | src/main/java/com/gameengine/recording/RecordingJson.java:29-36 | the depth scan finds the first `]` at which the bracket nesting from the `[` drops to zero, or reports that it stays open to the end |
| RecordingJson.ArrayValue | src/main/java/com/gameengine/recording/RecordingJson.java:29-38 | an array value runs from its `[` through the depth-matched `]` and is balanced; an unclosed one runs to the end of the text, trimmed |
| RecordingJson.ScalarEnd | src/main/java/com/gameengine/recording/RecordingJson.java:41-44 | a scalar value ends at the first `,` or `}` after it, or at the end of the text |
| RecordingJson.ScalarValue | src/main/java/com/gameengine/recording/RecordingJson.java:41-45 | a scalar value is the trimmed text up to that end, holding no `,` or `}` |
| RecordingJson.Field | src/main/java/com/gameengine/recording/RecordingJson.java:16-46 | `field` is null exactly when the key or the colon is missing; otherwise it is the array value when the value starts with `[`, else the scalar value, and it is trimmed |
| RecordingJson.StripQuotes | src/main/java/com/gameengine/recording/RecordingJson.java:51-58 | null maps to null; a lone `"` throws; a trimmed text quoted at both ends loses one quote at each end; anything else comes back trimmed |
| RecordingJson.Unquote | src/main/java/com/gameengine/recording/RecordingJson.java:54-57 | on trimmed text: a lone `"` throws, text quoted at both ends loses one quote at each end, anything else comes back as it is |
| RecordingJson.StripQuotesOfQuoted | src/main/java/com/gameengine/recording/RecordingJson.java:54-55 | quoting any text and stripping the quotes gives the text back |
| RecordingJson.ParseDouble | src/main/java/com/gameengine/recording/RecordingJson.java:63-70 | null reads 0.0; a non-zero result is the parse of the unquoted text; whenever the unquoted text parses, the result is that number; nothing throws |
| RecordingJson.TrimAll | src/main/java/com/gameengine/recording/RecordingJson.java:94 | every piece is trimmed, one for one |
| RecordingJson.KeepNonEmpty | src/main/java/com/gameengine/recording/RecordingJson.java:95 | exactly the non-empty pieces are kept |
| RecordingJson.KeepNonEmptyCounts | src/main/java/com/gameengine/recording/RecordingJson.java:95 | every non-empty piece is kept as many times as it occurs, and no empty piece is kept |
| RecordingJson.KeepNonEmptyConcat | src/main/java/com/gameengine/recording/RecordingJson.java:95 | the filter keeps the order: filtering two pieces in a row gives the filtered first followed by the filtered second |
| RecordingJson.SplitTopLevel | src/main/java/com/gameengine/recording/RecordingJson.java:75-97 | every piece returned is non-empty and trimmed |
| RecordingJson.RawSplitPiece | src/main/java/com/gameengine/recording/RecordingJson.java:79-88 | a balanced piece without a top-level comma, followed by a comma, is split off whole |
| RecordingJson.RawSplitOfJoin | src/main/java/com/gameengine/recording/RecordingJson.java:79-92 | the depth-0 comma scan of a comma-join of such pieces yields the pieces |
| RecordingJson.SplitTopLevelOfJoin | src/main/java/com/gameengine/recording/RecordingJson.java:75-97 | splitting the comma-join of balanced, trimmed, non-empty pieces without top-level commas gives the pieces back |
| RecordingJson.ExtractArray | src/main/java/com/gameengine/recording/RecordingJson.java:102-122 | `""` when the start index is past the end or not at `[`, and when the bracket is never closed; otherwise exactly the text strictly between the `[` and its depth-matched `]` |
| RecordingJson.ExtractArrayBalanced | src/main/java/com/gameengine/recording/RecordingJson.java:107-120 | the extracted text is itself bracket-balanced |
| NetworkBuffer.ParseRgba | src/main/java/com/gameengine/net/NetworkBuffer.java:66-71 | the colour is read iff all four trimmed components parse, and then holds them in order |
| NetworkBuffer.ParseColor | src/main/java/com/gameengine/net/NetworkBuffer.java:63-72 | the colour stays white without a value, without a leading `[`, or with fewer than four components; a lone `[` throws; otherwise it is the four parsed components |
| NetworkBuffer.ParseEntity | src/main/java/com/gameengine/net/NetworkBuffer.java:57-72 | an entity record parses iff its id unquotes and its colour parses; it then holds the unquoted id, the leniently read x and y, and the colour |
| NetworkBuffer.ParseEntities | src/main/java/com/gameengine/net/NetworkBuffer.java:56-77 | the entities are the parsed records in order, up to the first record that throws, which ends the loop |
| NetworkBuffer.EntityParts | src/main/java/com/gameengine/net/NetworkBuffer.java:51-55 | no records without the `"entities":[` tag; every record is non-empty and trimmed |
| NetworkBuffer.ParseJsonLine | src/main/java/com/gameengine/net/NetworkBuffer.java:37-79 | null iff the line lacks `"type":"kf"`; the time is read leniently; the state defaults to PLAYING; a state that fails to unquote leaves the defaults and no entities; otherwise the state and the entity list are filled in |
| NetworkBuffer.DropStale | src/main/java/com/gameengine/net/NetworkBuffer.java:33 | the eviction loop removes a prefix of the deque |
| NetworkBuffer.DropStaleSpec | src/main/java/com/gameengine/net/NetworkBuffer.java:32-33 | exactly the stale front is evicted: every evicted keyframe is older than 2 s, the new front is not, and a fresh last keyframe stays last |
| NetworkBuffer.DropStaleOrdered | src/main/java/com/gameengine/net/NetworkBuffer.java:33 | eviction keeps a time-ordered deque time-ordered, with the front the oldest |
| NetworkBuffer.PushBoundsAge | src/main/java/com/gameengine/net/NetworkBuffer.java:28-35 | after pushing in time order, every keyframe kept is within 2 s of the pushed one |
| NetworkBuffer.FirstLater | src/main/java/com/gameengine/net/NetworkBuffer.java:89-91 | the scan stops at the first keyframe later than the target; all before it are at or before the target |
| NetworkBuffer.BracketOf | src/main/java/com/gameengine/net/NetworkBuffer.java:87-94 | a target before the first keyframe gives (first, first) and one at or after every keyframe (last, last); otherwise every keyframe up to `a` is at or before the target, and when a later one exists `b` is the first keyframe after the target and directly follows `a`; two different indices are adjacent and enclose the target |
| NetworkBuffer.BracketEncloses | src/main/java/com/gameengine/net/NetworkBuffer.java:87-91 | in a time-ordered buffer covering the target, the bracket encloses the target |
| NetworkBuffer.SampledPositionsKeys | src/main/java/com/gameengine/net/NetworkBuffer.java:97-106 | the sampled map's keys are exactly the non-null `a`-side ids among the index pairs |
| NetworkBuffer.SampledPositionsValue | src/main/java/com/gameengine/net/NetworkBuffer.java:99-105 | an id's position is the blend of the pair at its last index |
| NetworkBuffer.SampledEntities | src/main/java/com/gameengine/net/NetworkBuffer.java:131-143 | at most one entity per index pair, each with an id |
| NetworkBuffer.SampledEntitiesContents | src/main/java/com/gameengine/net/NetworkBuffer.java:132-142 | every sampled entity is the blend of an index pair with a non-null `a`-side id (id and colour from `a`), and every such pair is sampled |
| NetworkBuffer.SamplersAgreeOnIds | src/main/java/com/gameengine/net/NetworkBuffer.java:131-143 | `sample` and `sampleKeyframe` report the same ids |
| NetworkBuffer.SampleTarget | src/main/java/com/gameengine/net/NetworkBuffer.java:111-112 | the target is the clock in seconds minus the 0.12 s delay |
| NetworkBuffer.MillisecondStampAfterTarget | src/main/java/com/gameengine/net/NetworkBuffer.java:111-112 | a keyframe stamped in milliseconds lies after the seconds-based target of the same clock, so such a buffer is always sampled before its start |
| NetworkBuffer.SampleBeforeStart | src/main/java/com/gameengine/net/NetworkBuffer.java:116-127 | a target before the first keyframe brackets (first, first) with blend factor 0 |
| NetworkBuffer.InterpolationExample | src/main/java/com/gameengine/net/NetworkBuffer.java:95-105 | keyframes at 0 s and 2 s with "A" at (0,0) and (20,0) sample to (10,0) at 1 s, and hold the end positions outside the range |
| NetworkBuffer.Buffer.constructor | src/main/java/com/gameengine/net/NetworkBuffer.java:11 | the buffer starts empty |
| NetworkBuffer.Buffer.Push | src/main/java/com/gameengine/net/NetworkBuffer.java:28-35 | push appends, then evicts the stale front relative to the pushed keyframe's time |
| NetworkBuffer.Buffer.Bracket | src/main/java/com/gameengine/net/NetworkBuffer.java:87-91 | the scan's pair is the bracket of the target |
| NetworkBuffer.Buffer.Sample | src/main/java/com/gameengine/net/NetworkBuffer.java:81-108 | an empty buffer samples to an empty map; otherwise the map of blended positions of the bracket's index pairs |
| NetworkBuffer.Buffer.SampleKeyframe | src/main/java/com/gameengine/net/NetworkBuffer.java:110-145 | null iff the buffer is empty; otherwise a keyframe at the target time with the default state and the blended entities of the bracket's index pairs |
| Common.IntToString | src/main/java/com/gameengine/recording/RecordingService.java:122 | an integer's decimal text is non-empty and made of digits and a sign |
| RecordingJson.IndexOf | src/main/java/com/gameengine/recording/RecordingJson.java:17-19 | `indexOf` from a start gives the first occurrence at or after it, or -1 when there is none |
| RecordingJson.Trim | src/main/java/com/gameengine/recording/RecordingJson.java:45 | `trim` leaves no blank at either end, keeps an already trimmed text, and adds no character |
| RecordingJson.RawSplit | src/main/java/com/gameengine/recording/RecordingJson.java:79-92 | the depth scan yields at least one piece |
| RecordingJson.SplitOnComma | src/main/java/com/gameengine/example/ReplayScene.java:204 | `split(",")` of a text without a comma is that text alone; no piece holds a comma; the pieces are the leading pieces of the full comma split, and every piece dropped after them is empty |
| RecordingJson.SplitAllJoin | src/main/java/com/gameengine/example/ReplayScene.java:204 | joining the pieces of the full comma split with commas gives the text back |
| RecordingJson.SplitOnCommaJoin | src/main/java/com/gameengine/example/ReplayScene.java:204 | `split(",")` loses only trailing commas: the text is the comma-join of its pieces followed by nothing but commas |
| RecordingJson.DropTrailingEmpty | src/main/java/com/gameengine/example/ReplayScene.java:204 | `split` drops exactly the trailing empty pieces and keeps the rest in order |
| ReplayScene.ColorFromParts | src/main/java/com/gameengine/example/ReplayScene.java:203-211 | fewer than three comma-separated parts leave the colour white; otherwise each of r, g, b, a is its part's number when it and every earlier part parse, else 1, and alpha needs a fourth part |
| ReplayScene.ReplayColor | src/main/java/com/gameengine/example/ReplayScene.java:201-202 | a missing colour field, or one that does not start with `[`, leaves the colour white |
| ReplayScene.ParseEntityInfo | src/main/java/com/gameengine/example/ReplayScene.java:189-215 | an entity record is read iff its `id` and `rt` fields strip without error; then id, render type, position, width, height and colour are those fields' values |
| ReplayScene.ParseEntityInfos | src/main/java/com/gameengine/example/ReplayScene.java:188-216 | a parsed entity list has one entry per part |
| ReplayScene.ParseEntityInfosSpec | src/main/java/com/gameengine/example/ReplayScene.java:188-216 | the list parses iff every part parses, and entry k is part k's entity |
| ReplayScene.ParseKeyframeLine | src/main/java/com/gameengine/example/ReplayScene.java:177-218 | a line without the keyframe tag is skipped; a tagged line yields a keyframe, and it throws exactly when its entity records do; the keyframe's time is the `t` field and its entities are the parsed parts of the `entities` array |
| ReplayScene.ParseRecording | src/main/java/com/gameengine/example/ReplayScene.java:175-224 | loading yields at most one keyframe per line |
| ReplayScene.ParseRecordingProvenance | src/main/java/com/gameengine/example/ReplayScene.java:176-218 | every loaded keyframe comes from some tagged line of the file |
| ReplayScene.FirstThrow | src/main/java/com/gameengine/example/ReplayScene.java:175-224 | the first line whose parse throws: every line before it parses, and it throws unless it is the end |
| ReplayScene.Yielding | src/main/java/com/gameengine/example/ReplayScene.java:175-224 | the indices, increasing, of exactly the lines before a bound whose parse yields a keyframe |
| ReplayScene.ParseRecordingIsLoad | src/main/java/com/gameengine/example/ReplayScene.java:175-224 | loading a recording is the read loop run with the keyframe line parser |
| ReplayScene.LoadLinesConcat | src/main/java/com/gameengine/example/ReplayScene.java:175-224 | lines that do not throw load the same whatever follows them |
| ReplayScene.LoadLinesStop | src/main/java/com/gameengine/example/ReplayScene.java:218-222 | nothing after the first line that throws is loaded |
| ReplayScene.LoadLinesUpTo | src/main/java/com/gameengine/example/ReplayScene.java:175-224 | the lines before the first throw load, in order, the values of exactly those lines that yield one |
| ReplayScene.LoadLinesComplete | src/main/java/com/gameengine/example/ReplayScene.java:175-224 | the read loop keeps the value of every yielding line before the first throw, in file order, and nothing else |
| ReplayScene.ParseRecordingComplete | src/main/java/com/gameengine/example/ReplayScene.java:175-224 | the loaded keyframes are, in file order, the keyframes of exactly the tagged lines before the first line that throws, and that line does throw |
| ReplayScene.RenderDim | src/main/java/com/gameengine/example/ReplayScene.java:397-398 | a render dimension is the recorded one when positive, else 30, and never below 1 |
| ReplayScene.ShapeOf | src/main/java/com/gameengine/example/ReplayScene.java:391-395 | the shape is a circle exactly when the render type is `CIRCLE` |
| ReplayScene.IdsOfMembers | src/main/java/com/gameengine/example/ReplayScene.java:248-253 | the ids of a frame are exactly the ids its entities carry |
| ReplayScene.FirstFrameObjects | src/main/java/com/gameengine/example/ReplayScene.java:248-253 | the first frame's object map has a key for every entity id and no other |
| ReplayScene.FirstFrameObjectsValue | src/main/java/com/gameengine/example/ReplayScene.java:248-253 | each id maps to the object built from the last entity with that id, at that entity's index |
| ReplayScene.LastById | src/main/java/com/gameengine/example/ReplayScene.java:267-274 | a frame's id map has exactly the frame's ids as keys |
| ReplayScene.LastByIdValue | src/main/java/com/gameengine/example/ReplayScene.java:267-274 | each id maps to the last entity of the frame carrying it |
| ReplayScene.ReconcileSpec | src/main/java/com/gameengine/example/ReplayScene.java:296-333 | an object present in either frame becomes active, keeps its name and shape, and takes colour and size from frame B when there, else A; present in both, its position is the linear blend, between the two positions for u in [0,1]; present in one, it sits at that frame's position |
| ReplayScene.PartlyReconciledStep | src/main/java/com/gameengine/example/ReplayScene.java:277-334 | reconciling one more id of either frame extends the reconciled part of the map by that id |
| ReplayScene.NewIndicesStep | src/main/java/com/gameengine/example/ReplayScene.java:282-288 | creating one more object at the map's current size keeps the creation indices distinct and below the map's size |
| ReplayScene.ReconcilingStep | src/main/java/com/gameengine/example/ReplayScene.java:277-334 | one more id of the first loop keeps the loop's state: reconciled so far, with distinct creation indices |
| ReplayScene.ReconciledAfterBothLoops | src/main/java/com/gameengine/example/ReplayScene.java:277-341 | after every id of both frames is reconciled and the rest are deactivated, the map is reconciled with the two frames |
| ReplayScene.ReconciledMapShape | src/main/java/com/gameengine/example/ReplayScene.java:277-341 | a reconciled map keeps every object, an object is active iff its id is in either frame, and names and shapes never change |
| ReplayScene.SegmentFrom | src/main/java/com/gameengine/example/ReplayScene.java:112-122 | the scan yields the first pair of consecutive keyframes at or after the start index whose times enclose `time`, or the first and last keyframe when none do |
| ReplayScene.SegmentOf | src/main/java/com/gameengine/example/ReplayScene.java:112-122 | both indices of the segment lie within the keyframes |
| ReplayScene.SegmentEncloses | src/main/java/com/gameengine/example/ReplayScene.java:106-122 | with at least two keyframes and `time` clamped into their span, the segment is a pair of consecutive keyframes whose times enclose `time` |
| ReplayScene.SomeSegmentFrom | src/main/java/com/gameengine/example/ReplayScene.java:114-122 | a time within the span of the keyframes lies in some consecutive pair |
| ReplayScene.Modulus | src/main/java/com/gameengine/example/ReplayScene.java:445-450 | the wrap modulus is the list size, or 1 for an empty list |
| ReplayScene.WrapUp | src/main/java/com/gameengine/example/ReplayScene.java:445-446 | the up arrow moves the selection one back, from the first entry to the last |
| ReplayScene.WrapDown | src/main/java/com/gameengine/example/ReplayScene.java:449-450 | the down arrow moves the selection one on, from the last entry to the first |
| ReplayScene.WrapInverse | src/main/java/com/gameengine/example/ReplayScene.java:445-450 | up then down, or down then up, returns to the same entry |
| ReplayScene.ReplayScene.constructor | src/main/java/com/gameengine/example/ReplayScene.java:55-59 | a new replay scene has its path, no file list, selection 0, time 0, no keyframes and no objects |
| ReplayScene.ReplayScene.Initialize | src/main/java/com/gameengine/example/ReplayScene.java:62-82 | with a path, the keyframes are the loaded ones sorted by time, the objects those of the first keyframe and the time 0; without, the scene is empty and in file-selection mode |
| ReplayScene.ReplayScene.LoadRecording | src/main/java/com/gameengine/example/ReplayScene.java:171-236 | the keyframes become a time-sorted permutation of the file's keyframes, and keyframes with equal times keep their file order; nothing else changes |
| ReplayScene.ReplayScene.ReadKeyframes | src/main/java/com/gameengine/example/ReplayScene.java:175-224 | the loop over the lines collects exactly the parsed recording |
| ReplayScene.ReplayScene.BuildObjectsFromFirstKeyframe | src/main/java/com/gameengine/example/ReplayScene.java:241-256 | without keyframes nothing changes; otherwise the object map is built from the first keyframe and the time restarts at 0 |
| ReplayScene.ReplayScene.CollectIds | src/main/java/com/gameengine/example/ReplayScene.java:267-274 | the loop over a frame's entities builds the frame's id map |
| ReplayScene.ReplayScene.UpdateInterpolatedPositions | src/main/java/com/gameengine/example/ReplayScene.java:261-342 | the object map is replaced by its reconciliation with the two frames at blend factor `u`; the keyframes, time and selection are unchanged |
| ReplayScene.ReplayScene.ReconcileFrames | src/main/java/com/gameengine/example/ReplayScene.java:261-342 | both loops together give a map reconciled with the two frames, whose new objects have distinct indices counting up from the old map's size |
| ReplayScene.ReplayScene.ReconcileAll | src/main/java/com/gameengine/example/ReplayScene.java:277-334 | the loop over the union of both frames' ids reconciles every one of them; the objects it creates have distinct indices, each at least the map's size before and below its size after |
| ReplayScene.ReplayScene.ReconcileOne | src/main/java/com/gameengine/example/ReplayScene.java:278-333 | one id is reconciled; an object is created only for an id not yet in the map, and its index is the map's current size |
| ReplayScene.ReplayScene.DeactivateOthers | src/main/java/com/gameengine/example/ReplayScene.java:337-341 | objects whose id is in neither frame become inactive, and the map keeps its keys and all other objects |
| ReplayScene.ReplayScene.FindSegment | src/main/java/com/gameengine/example/ReplayScene.java:112-122 | the loop finds the segment of `time` |
| ReplayScene.ReplayScene.HandleFileSelection | src/main/java/com/gameengine/example/ReplayScene.java:440-462 | the file list is read once; up and down wrap the selection, up taking precedence; Enter or Space on a non-empty list chooses the selected file as the path to load; the replay state is untouched |
| ReplayScene.ReplayScene.Update | src/main/java/com/gameengine/example/ReplayScene.java:85-130 | Escape exits; without a recording the frame is one step of the file picker, as `HandleFileSelection` states, with the replay state untouched; in replay mode with keyframes the time advances by `dt` but stops at the last keyframe, and the objects are reconciled with the enclosing segment at its blend factor |
| RecordingService.KeyTexts | src/main/java/com/gameengine/recording/RecordingService.java:119-124 | one decimal text per key, in order |
| RecordingService.RecordedTextsSpec | src/main/java/com/gameengine/recording/RecordingService.java:150-188 | the keyframe's entity texts are exactly those of the active objects with a transform, in scene order |
| RecordingService.KeyframeLineIsReplayed | src/main/java/com/gameengine/recording/RecordingService.java:141-144 | every keyframe line written carries the tag by which the replay recognises keyframes |
| RecordingService.RecordingService.constructor | src/main/java/com/gameengine/recording/RecordingService.java:33-42 | a new service is not recording, has an empty queue, and both clocks at 0 |
| RecordingService.RecordingService.Enqueue | src/main/java/com/gameengine/recording/RecordingService.java:200-205 | a line is queued iff the queue is below capacity; a full queue drops it |
| RecordingService.RecordingService.WriteOne | src/main/java/com/gameengine/recording/RecordingService.java:58-66 | the writer takes the oldest queued line and writes it; an empty queue writes nothing |
| RecordingService.RecordingService.Start | src/main/java/com/gameengine/recording/RecordingService.java:51-84 | a second start does nothing; otherwise recording begins, the header line with the screen size is offered, and the keyframe clock restarts |
| RecordingService.RecordingService.WriteKeyframe | src/main/java/com/gameengine/recording/RecordingService.java:140-195 | a keyframe is offered, and success reported, iff some object is active with a transform |
| RecordingService.RecordingService.BuildKeyframe | src/main/java/com/gameengine/recording/RecordingService.java:141-190 | the loop builds the keyframe line and counts exactly the recorded objects |
| RecordingService.RecordingService.BuildInputLine | src/main/java/com/gameengine/recording/RecordingService.java:115-125 | the loop builds the input line of the just-pressed keys |
| RecordingService.RecordingService.Update | src/main/java/com/gameengine/recording/RecordingService.java:106-135 | when recording, both clocks advance; an input line is offered when keys were just pressed; after the warm-up, once the interval has passed, a keyframe is offered and the keyframe clock restarts only if it was written |
| RecordingService.RecordingService.Stop | src/main/java/com/gameengine/recording/RecordingService.java:89-101 | when recording, a final keyframe of the last scene is offered, if there is one; recording ends |
| RecordingService.RecordingService.Drain | src/main/java/com/gameengine/recording/RecordingService.java:58-67 | once recording is off the writer polls until the queue is empty: every queued line moves into storage in order, and storage then holds exactly the lines the queue accepted |
| Actor.StartStopIdempotent | src/main/java/com/gameengine/actor/Actor.java:37-56 | starting twice is starting once, stopping twice is stopping once, and a restarted actor keeps its mailbox and counters |
| Actor.TellCases | src/main/java/com/gameengine/actor/Actor.java:62-73 | a stopped actor refuses every message unchanged; a running one queues it iff the mailbox is below capacity, and otherwise counts it as dropped and calls `onMessageDropped` with it |
| Actor.MailboxBounded | src/main/java/com/gameengine/actor/Actor.java:27-92 | start, stop, tell and a processing turn keep the mailbox within its capacity |
| Actor.FifoOrder | src/main/java/com/gameengine/actor/Actor.java:62-92 | messages told to a running actor with room are queued in order, and processing takes the oldest first |
| Actor.Actor.constructor | src/main/java/com/gameengine/actor/Actor.java:27-32 | a new actor is stopped, with an empty mailbox and zero counters |
| Actor.Actor.Start | src/main/java/com/gameengine/actor/Actor.java:37-44 | the actor's new state is the started state |
| Actor.Actor.Stop | src/main/java/com/gameengine/actor/Actor.java:49-56 | the actor's new state is the stopped state |
| Actor.Actor.Tell | src/main/java/com/gameengine/actor/Actor.java:62-73 | the new state and the result are those of `tell`; a message is accepted exactly when queued |
| Actor.Actor.ProcessOne | src/main/java/com/gameengine/actor/Actor.java:78-92 | a running actor with mail takes the head message, which is the oldest accepted one not yet taken; it counts as processed, or calls `onError` when the handler threw |
| ActorSystem.ActorSystem.constructor | src/main/java/com/gameengine/actor/ActorSystem.java:19-22 | a new system has no actors and no monitoring task |
| ActorSystem.ActorSystem.Get | src/main/java/com/gameengine/actor/ActorSystem.java:40-42 | an actor is found iff registered under that id, and it is the registered one |
| ActorSystem.ActorSystem.RegisterActor | src/main/java/com/gameengine/actor/ActorSystem.java:31-35 | an id already registered changes nothing; otherwise the actor is registered under its id and started; no other actor changes |
| ActorSystem.ActorSystem.RemoveActor | src/main/java/com/gameengine/actor/ActorSystem.java:47-52 | the id is unregistered and its actor stopped; the other actors are unchanged |
| ActorSystem.ActorSystem.Send | src/main/java/com/gameengine/actor/ActorSystem.java:57-63 | sending to an unknown id fails; otherwise the target is told the message with the result of `tell`, and no other actor changes |
| ActorSystem.ActorSystem.Broadcast | src/main/java/com/gameengine/actor/ActorSystem.java:68-72 | every registered actor is told the message |
| ActorSystem.ActorSystem.StartMonitoring | src/main/java/com/gameengine/actor/ActorSystem.java:76-95 | the first call marks monitoring started and schedules one periodic task, or throws without scheduling when the interval is not positive or the scheduler is shut down; a later call does nothing |
| ActorSystem.ActorSystem.ScheduleTask | src/main/java/com/gameengine/actor/ActorSystem.java:77-79 | `scheduleAtFixedRate` throws when the period is not positive or the scheduler is shut down, and otherwise adds one periodic task |
| ActorSystem.ActorSystem.Shutdown | src/main/java/com/gameengine/actor/ActorSystem.java:100-106 | every actor is stopped, the registry emptied and the scheduler shut down, which cancels the monitoring task |
| NetworkBroadcastActor.ColorOnlyWithRender | src/main/java/com/gameengine/actor/actors/NetworkBroadcastActor.java:71-78 | an entity's colour array is written iff the object has a render component |
| NetworkBroadcastActor.EntityTextsSpec | src/main/java/com/gameengine/actor/actors/NetworkBroadcastActor.java:55-82 | the snapshot's entity texts are exactly those of the active objects with a transform, in order |
| NetworkBroadcastActor.SnapshotIsKeyframe | src/main/java/com/gameengine/actor/actors/NetworkBroadcastActor.java:49-86 | every snapshot line the server publishes is accepted by the client's line parser as a keyframe |
| NetworkBroadcastActor.PublicationsSpaced | src/main/java/com/gameengine/actor/actors/NetworkBroadcastActor.java:33-47 | every publication time is a handled time, the first is at least 50 ms after the last broadcast, and consecutive publications are at least 50 ms apart |
| NetworkBroadcastActor.PublicationsSnoc | src/main/java/com/gameengine/actor/actors/NetworkBroadcastActor.java:36-40 | one more snapshot is published iff it comes at least 50 ms after the last publication |
| NetworkBroadcastActor.TwoSnapshotsTenMsApart | src/main/java/com/gameengine/actor/actors/NetworkBroadcastActor.java:36-40 | of two snapshots 10 ms apart, only the first is published |
| NetworkBroadcastActor.NetworkBroadcastActor.constructor | src/main/java/com/gameengine/actor/actors/NetworkBroadcastActor.java:22-24 | a new broadcaster is a stopped actor named `NetworkBroadcast` with mailbox capacity 5000 and an empty mailbox, last broadcast 0, an empty published slot and nothing published yet |
| NetworkBroadcastActor.NetworkBroadcastActor.Serialize | src/main/java/com/gameengine/actor/actors/NetworkBroadcastActor.java:49-86 | the loop builds the snapshot line |
| NetworkBroadcastActor.NetworkBroadcastActor.HandleSnapshot | src/main/java/com/gameengine/actor/actors/NetworkBroadcastActor.java:33-47 | a snapshot less than 50 ms after the last broadcast changes nothing; otherwise it becomes the last broadcast and its line is published to the slot |
| NetworkBroadcastActor.NetworkBroadcastActor.OnReceive | src/main/java/com/gameengine/actor/actors/NetworkBroadcastActor.java:27-31 | only game-state snapshots are handled; other messages change nothing |
| NetworkBroadcastActor.NetworkBroadcastActor.ProcessOne | src/main/java/com/gameengine/actor/actors/NetworkBroadcastActor.java:27-47 | one processing turn of the actor takes the head message, which never throws, and handles it as `onReceive` does |
| GridSystem.Cleaned | src/main/java/com/gameengine/scene/GridSystem.java:95-100 | the lazy clean-up keeps whether a cell is occupied by a live object, and only ever empties a cell |
| GridSystem.GridSystem.constructor | src/main/java/com/gameengine/scene/GridSystem.java:42-51 | a new grid has the given dimensions, cell size and offset, and every cell empty |
| GridSystem.GridSystem.Default | src/main/java/com/gameengine/scene/GridSystem.java:34-37 | the default grid has the default dimensions, cell size and offset, and every cell empty |
| GridSystem.GridSystem.Get | src/main/java/com/gameengine/scene/GridSystem.java:139-144 | a cell outside the grid holds nothing; a valid cell's content is returned |
| GridSystem.GridSystem.IsOccupied | src/main/java/com/gameengine/scene/GridSystem.java:91-102 | a cell outside the grid counts as occupied; a valid cell is occupied iff it holds an active object, and an inactive object found there is cleared; no other cell changes and no cell's occupancy changes |
| GridSystem.GridSystem.CanMoveTo | src/main/java/com/gameengine/scene/GridSystem.java:107-109 | a cell can be entered iff it is valid and not occupied by an active object |
| GridSystem.GridSystem.Place | src/main/java/com/gameengine/scene/GridSystem.java:115-121 | placing succeeds iff the cell can be entered, and then the cell holds the object; no other cell changes |
| GridSystem.GridSystem.Remove | src/main/java/com/gameengine/scene/GridSystem.java:127-134 | removing from a valid cell returns its content and empties it; outside the grid nothing is returned; no other cell changes |
| GridSystem.GridSystem.Move | src/main/java/com/gameengine/scene/GridSystem.java:150-163 | a move succeeds iff both cells are valid, the target can be entered, the two differ and the source holds an object; then the object is in the target and the source is empty; only those two cells change |
| GridSystem.GridSystem.FindObject | src/main/java/com/gameengine/scene/GridSystem.java:169-178 | the search returns the first cell in row-major order holding the object, or nothing when no cell does |
| GridSystem.GridSystem.Clear | src/main/java/com/gameengine/scene/GridSystem.java:183-189 | every cell is empty |
| GridSystem.GridSystem.WorldToGrid | src/main/java/com/gameengine/scene/GridSystem.java:71-79 | a world point maps to a cell only when that cell is valid |
| GridSystem.GridSystem.GridRoundTrip | src/main/java/com/gameengine/scene/GridSystem.java:59-79 | with positive cell sizes, the centre of a valid cell maps back to that cell |
| GridSystem.GridSystem.WorldToGridBeforeOrigin | src/main/java/com/gameengine/scene/GridSystem.java:72-73 | because the casts truncate toward zero, a point less than one cell before the grid's origin still maps to cell (0, 0) |
| InputManager.InputManager.constructor | src/main/java/com/gameengine/input/InputManager.java:21-28 | a new input manager has no keys pressed, the mouse at the origin and all three buttons up |
| InputManager.InputManager.Update | src/main/java/com/gameengine/input/InputManager.java:40-45 | the end of a frame forgets the just-pressed keys and buttons; what is held stays held |
| InputManager.InputManager.OnKeyPressed | src/main/java/com/gameengine/input/InputManager.java:50-56 | the key is held, and counts as just pressed only if it was not held already, so key repeat does not retrigger it |
| InputManager.InputManager.OnKeyReleased | src/main/java/com/gameengine/input/InputManager.java:61-64 | the key is no longer held; the just-pressed keys are unchanged |
| InputManager.InputManager.OnMouseMoved | src/main/java/com/gameengine/input/InputManager.java:69-72 | the mouse position becomes (x, y) and nothing else changes |
| InputManager.InputManager.OnMousePressed | src/main/java/com/gameengine/input/InputManager.java:77-86 | buttons 1 to 3 become held, and just pressed only if not already held; other buttons change nothing |
| InputManager.InputManager.OnMouseReleased | src/main/java/com/gameengine/input/InputManager.java:91-97 | buttons 1 to 3 are released; other buttons change nothing |
| InputManager.InputManager.IsMouseButtonPressed | src/main/java/com/gameengine/input/InputManager.java:116-122 | only buttons 1 to 3 can be held, and their state is read from the slot one below their number |
| InputManager.InputManager.IsMouseButtonJustPressed | src/main/java/com/gameengine/input/InputManager.java:127-133 | only buttons 1 to 3 can be just pressed, read from the slot one below their number |
| InputManager.InputManager.JustPressedKeysSnapshot | src/main/java/com/gameengine/input/InputManager.java:159-161 | the snapshot holds exactly this frame's just-pressed keys |
| InputManager.KeyRepeatNotJustPressed | src/main/java/com/gameengine/input/InputManager.java:50-56 | a key pressed, carried over a frame and reported pressed again is held but not just pressed |
| HealthComponent.Damaged | src/main/java/com/gameengine/components/HealthComponent.java:47-54 | health after damage is never negative: it is 0 exactly when the damage reaches the current health, and the difference otherwise |
| HealthComponent.Healed | src/main/java/com/gameengine/components/HealthComponent.java:60-67 | health after healing never exceeds the maximum: it is the sum when that stays below, and the maximum otherwise |
| HealthComponent.Clamped | src/main/java/com/gameengine/components/HealthComponent.java:114-122 | a set health is never negative, at most a non-negative maximum, and unchanged when already in range |
| HealthComponent.Percentage | src/main/java/com/gameengine/components/HealthComponent.java:82-84 | the percentage is 0 for a non-positive maximum, and otherwise the share of the maximum, within [0,1] for health in range |
| HealthComponent.HealthComponent.constructor | src/main/java/com/gameengine/components/HealthComponent.java:17-22 | a new component is alive at full health |
| HealthComponent.HealthComponent.Update | src/main/java/com/gameengine/components/HealthComponent.java:30-36 | health at or below 0 marks the component dead, and the first time destroys the owner when there is one |
| HealthComponent.HealthComponent.TakeDamage | src/main/java/com/gameengine/components/HealthComponent.java:47-54 | a dead component takes no damage; otherwise health drops by the damage, floored at 0 |
| HealthComponent.HealthComponent.Heal | src/main/java/com/gameengine/components/HealthComponent.java:60-67 | a dead component is not healed; otherwise health rises by the amount, capped at the maximum |
| HealthComponent.HealthComponent.SetMaxHealth | src/main/java/com/gameengine/components/HealthComponent.java:107-112 | the maximum is replaced and health above it is cut down to it |
| HealthComponent.HealthComponent.SetCurrentHealth | src/main/java/com/gameengine/components/HealthComponent.java:114-122 | health is set to the value clamped into [0, maximum] |
| HealthComponent.HealthStaysInRange | src/main/java/com/gameengine/components/HealthComponent.java:47-122 | damage, healing and setting keep health within [0, maximum], damage never raising and healing never lowering it |
| HealthComponent.LethalDamage | src/main/java/com/gameengine/components/HealthComponent.java:47-54 | damage at least the current health leaves it at 0, and the component no longer alive |
| TeamComponent.EnemyOrFriend | src/main/java/com/gameengine/components/TeamComponent.java:49-62 | against no component, a team is neither enemy nor friend; against another, it is exactly one of the two |
| TeamComponent.RelationsSymmetric | src/main/java/com/gameengine/components/TeamComponent.java:49-62 | enmity and friendship are symmetric |
| TeamComponent.OneSide | src/main/java/com/gameengine/components/TeamComponent.java:49-75 | a team is friendly iff it is not the enemy, and two teams are enemies iff they are on different sides |
| CombatComponent.CandidateInRange | src/main/java/com/gameengine/components/CombatComponent.java:79-162 | every object the target search may choose is another active, living object that `isInRange` accepts |
| CombatComponent.NearestUpTo | src/main/java/com/gameengine/components/CombatComponent.java:88-115 | after the first `n` objects the search holds a candidate strictly nearer than `Float.MAX_VALUE` that no candidate so far beats, and no earlier candidate is as near; or none, when every candidate so far is at least that far |
| CombatComponent.SearchTarget | src/main/java/com/gameengine/components/CombatComponent.java:79-118 | the search's target is a candidate object of the scene, and there is one exactly when the search finds one |
| CombatComponent.CombatComponent.constructor | src/main/java/com/gameengine/components/CombatComponent.java:34-40 | a new component has the given range, damage and cooldown, and can attack at once |
| CombatComponent.CombatComponent.FindTarget | src/main/java/com/gameengine/components/CombatComponent.java:79-118 | without a scene, owner, transform or team there is no target; otherwise the target is a candidate strictly nearer than `Float.MAX_VALUE`, no candidate is nearer, and no earlier candidate is as near; when there is none, every candidate is at least that far; the loop computes exactly `NearestUpTo` over all objects |
| CombatComponent.CombatComponent.Attack | src/main/java/com/gameengine/components/CombatComponent.java:123-133 | with a target and the cooldown run out, the cooldown restarts and the callback, when set, is called once with owner and target; otherwise nothing changes |
| CombatComponent.CombatComponent.Update | src/main/java/com/gameengine/components/CombatComponent.java:48-61 | a positive cooldown runs down by the frame time; then, with a scene and the cooldown run out, the target becomes the object the search picks, which is attacked, or no target when there is none |
| CombatComponent.CombatComponent.DealDamage | src/main/java/com/gameengine/components/CombatComponent.java:138-145 | only a living target's health is damaged, by the attack damage; no target, or a dead one, changes nothing |
| MovementComponent.OnlyEnemiesLeavingLeft | src/main/java/com/gameengine/components/MovementComponent.java:95-105 | friendly objects, and anything leaving through the top, bottom or right edge, are never destroyed at the boundary |
| MovementComponent.MovementComponent.constructor | src/main/java/com/gameengine/components/MovementComponent.java:24-29 | a new component has the given speed, a null direction becomes the zero vector, and the timer and cell start at 0 |
| MovementComponent.MovementComponent.Initialize | src/main/java/com/gameengine/components/MovementComponent.java:32-45 | with a grid, an owner and a transform over a valid cell, that cell becomes current; otherwise the cell is unchanged |
| MovementComponent.MovementComponent.Update | src/main/java/com/gameengine/components/MovementComponent.java:48-85 | nothing changes without a grid, an owner, a non-zero direction or a transform, or while the transform is moving; otherwise the timer grows by speed times frame time, and on reaching 1 it restarts and one step is taken: into a valid next cell, which becomes current and toward whose centre the transform heads, or off the grid, where only an enemy leaving left is destroyed |
| MovementComponent.MovementComponent.OnReachedBoundary | src/main/java/com/gameengine/components/MovementComponent.java:95-105 | the owner is destroyed iff it leaves through the left edge and is on the enemy team |
| MovementComponent.MovementComponent.MoveToGrid | src/main/java/com/gameengine/components/MovementComponent.java:110-121 | with a grid, an owner and a transform, a valid cell becomes current and the transform is placed at its centre at once; otherwise nothing changes |
| TransformComponent.Placed | src/main/java/com/gameengine/components/TransformComponent.java:88-92 | a placed transform is at rest at the point, with scale and rotation kept |
| TransformComponent.Headed | src/main/java/com/gameengine/components/TransformComponent.java:80-83 | a transform sent to a point is moving toward it from where it is, with scale and rotation kept |
| TransformComponent.Translated | src/main/java/com/gameengine/components/TransformComponent.java:97-100 | a translated transform's position moves by the offset and its target follows, so it is settled; whether it moves is kept |
| TransformComponent.Scaled | src/main/java/com/gameengine/components/TransformComponent.java:119-121 | the scale is multiplied componentwise; everything else is kept |
| TransformComponent.StepSettles | src/main/java/com/gameengine/components/TransformComponent.java:47-70 | a frame keeps a settled transform settled and its target unchanged; a frame at rest changes nothing; a movement less than a pixel from its target snaps onto it and stops; otherwise a step longer than what remains snaps onto the target and stops, and a shorter one advances the position by the step and keeps moving |
| TransformComponent.PlacedOverrides | src/main/java/com/gameengine/components/TransformComponent.java:80-92 | teleporting twice to a point is teleporting once, and a teleport overrides a movement under way |
| TransformComponent.TransformComponent.constructor | src/main/java/com/gameengine/components/TransformComponent.java:19-31 | a new transform is at rest at the given point, with unit scale and no rotation |
| TransformComponent.TransformComponent.WithScale | src/main/java/com/gameengine/components/TransformComponent.java:33-39 | a new transform is at rest at the given point, with the given scale and rotation |
| TransformComponent.TransformComponent.Update | src/main/java/com/gameengine/components/TransformComponent.java:47-70 | the new state is one frame of the smooth movement: a snap onto the target when less than a pixel remains or the step would overshoot, else an advance by the step; it keeps the transform settled |
| TransformComponent.TransformComponent.MoveTo | src/main/java/com/gameengine/components/TransformComponent.java:80-83 | the transform heads for the point |
| TransformComponent.TransformComponent.TeleportTo | src/main/java/com/gameengine/components/TransformComponent.java:88-92 | the transform is placed at the point |
| TransformComponent.TransformComponent.SetPosition | src/main/java/com/gameengine/components/TransformComponent.java:135-139 | the transform is placed at the point |
| TransformComponent.TransformComponent.Translate | src/main/java/com/gameengine/components/TransformComponent.java:97-100 | the transform is translated by the offset |
| TransformComponent.TransformComponent.Scale | src/main/java/com/gameengine/components/TransformComponent.java:119-121 | the scale is multiplied componentwise |
| TransformComponent.TransformComponent.Rotate | src/main/java/com/gameengine/components/TransformComponent.java:105-107 | the rotation grows by the angle and nothing else changes |
| Sorting.Insert | src/main/java/com/gameengine/example/ReplayScene.java:227 | inserting into a sorted sequence keeps it sorted and adds exactly the one element |
| Sorting.SortByKey | src/main/java/com/gameengine/example/ReplayScene.java:227 | the result is sorted by the key, a permutation of the input, and stable: the elements of each key keep their input order |
| Sorting.InsertStable | src/main/java/com/gameengine/example/ReplayScene.java:227 | inserting into a sorted sequence puts the new element after every element of equal key |
| Sorting.WithKeySnoc | src/main/java/com/gameengine/example/ReplayScene.java:227 | appending an element appends it to the elements of its own key and to no other |
| Sorting.WithKeyPrefix | src/main/java/com/gameengine/core/GameLogic.java:437 | cutting a sequence short keeps, for each key, a leading part of the elements with that key |
| GameLogic.SpawnIntervalAt | src/main/java/com/gameengine/core/GameLogic.java:148 | the single-spawn interval never drops below 1 second |
| GameLogic.BatchIntervalAt | src/main/java/com/gameengine/core/GameLogic.java:149 | the batch-spawn interval never drops below 5 seconds |
| GameLogic.DifficultyMonotone | src/main/java/com/gameengine/core/GameLogic.java:142-152 | as the level rises from 1, both spawn intervals only shrink, from 3 and 10 seconds, the batch size only grows, from 5, and the intervals bottom out at 1 second from level 11 and 5 seconds from level 18 |
| GameLogic.Lookup | src/main/java/com/gameengine/core/GameLogic.java:85-89 | a found object is in the scene with that identity, and nothing is found only when no object has it |
| GameLogic.CheckGameOver | src/main/java/com/gameengine/core/GameLogic.java:317-337 | the game is lost iff some active enemy with a transform stands on a valid cell of the first column; it is never won |
| GameLogic.NearEnemies | src/main/java/com/gameengine/core/GameLogic.java:409-425 | the candidates are exactly the active, not dead enemies with a transform within the range in pixels |
| GameLogic.FindNearestEnemies | src/main/java/com/gameengine/core/GameLogic.java:395-438 | without a transform there are none; otherwise the result holds min(maxCount, number of candidates) candidates sorted by distance, no candidate left out is nearer than one kept, and equally distant ones are kept and ordered as in the scene |
| GameLogic.NearestKept | src/main/java/com/gameengine/core/GameLogic.java:428-437 | a prefix of the candidates sorted by distance is sorted, drawn from the candidates, and no nearer than any candidate it leaves out |
| GameLogic.Aim | src/main/java/com/gameengine/core/GameLogic.java:105-125 | the selected unit aims for a new cell iff some arrow key was just pressed |
| GameLogic.GameLogic.constructor | src/main/java/com/gameengine/core/GameLogic.java:41-46 | a new game is playing at level 1 with the starting intervals and batch size, all timers at 0 and nothing selected |
| GameLogic.GameLogic.SpawnMonster | src/main/java/com/gameengine/core/GameLogic.java:140-173 | the difficulty timer raises the level once it reaches the interval and restarts; the single and batch timers each restart on reaching their interval, and the spawns are one single plus one batch of the batch size |
| GameLogic.GameLogic.HandlePlayerInput | src/main/java/com/gameengine/core/GameLogic.java:78-135 | a click on a cell holding a friendly unit selects that unit, and the selection is otherwise kept |
| GameLogic.GameLogic.SelectUnit | src/main/java/com/gameengine/core/GameLogic.java:80-94 | a newly selected unit is a friendly object of the scene |
| GameLogic.GameLogic.MoveSelected | src/main/java/com/gameengine/core/GameLogic.java:97-134 | when the aimed cell can be entered, the selected unit moves there on the grid, its old cell is emptied, and its transform heads for the cell's centre; only those cells and that transform change |
| GameLogic.GameLogic.MoveSource | src/main/java/com/gameengine/core/GameLogic.java:97-104 | a move starts only from the valid cell of a selected unit that has a transform |
| GameLogic.GameLogic.CleanupDeadEntities | src/main/java/com/gameengine/core/GameLogic.java:290-312 | a cell is cleared exactly when it holds a dead, still active owner whose position maps to that cell; every other cell is unchanged |
| GameLogic.GameLogic.Update | src/main/java/com/gameengine/core/GameLogic.java:51-73 | a finished game changes nothing; while playing, the game time advances and the game is lost iff an enemy has reached the first column, never won; the level never falls |
| ClientScene.HashIndex | src/main/java/com/gameengine/example/ClientScene.java:184 | the index of the first `#` in an id, or its length when there is none |
| ClientScene.BaseName | src/main/java/com/gameengine/example/ClientScene.java:183-187 | the base name is the prefix of the id before its first `#`, or the whole id without one |
| ClientScene.BaseNameOfSuffixed | src/main/java/com/gameengine/example/ClientScene.java:183-187 | the base name of `name#suffix` is `name` whenever `name` has no `#` |
| ClientScene.NameIndex | src/main/java/com/gameengine/example/ClientScene.java:175-180 | the index of the first mirror with that name, or the count of mirrors when none has it |
| ClientScene.FirstNullId | src/main/java/com/gameengine/example/ClientScene.java:53-58 | the index of the first entity without an id, or the entity count when all have one |
| ClientScene.FirstNullIdFrom | src/main/java/com/gameengine/example/ClientScene.java:53-58 | the first entity without an id found from any point before it is the same one |
| ClientScene.LastWith | src/main/java/com/gameengine/example/ClientScene.java:53-71 | the entity that last updates a mirror of that id: present iff the id was received, and it carries the id |
| ClientScene.IdsUpToAll | src/main/java/com/gameengine/example/ClientScene.java:51-55 | the ids received from the entities are those of the snapshot |
| ClientScene.ApplyEntityShape | src/main/java/com/gameengine/example/ClientScene.java:53-71 | applying one entity keeps the mirrors' names distinct, adds at most one mirror, at the end and with the entity's id, and leaves the mirrors of other names untouched |
| ClientScene.ApplyEntityShows | src/main/java/com/gameengine/example/ClientScene.java:58-70 | after one entity is applied, a mirror with its id exists and shows its position and colour |
| ClientScene.ApplyEntityCreates | src/main/java/com/gameengine/example/ClientScene.java:173-193 | a mirror is created iff none has that id yet; it is appended, named by the full id, styled by the id's base name, and then given the entity's position and colour |
| ClientScene.MirrorDistinct | src/main/java/com/gameengine/example/ClientScene.java:53-71 | the loop keeps the mirrors' names distinct |
| ClientScene.MirrorShape | src/main/java/com/gameengine/example/ClientScene.java:53-71 | the loop keeps every mirror in place by name, and leaves unchanged those whose id was not received |
| ClientScene.NamesAllStep | src/main/java/com/gameengine/example/ClientScene.java:53-71 | one more entity keeps a mirror for every id received so far |
| ClientScene.MirrorNamed | src/main/java/com/gameengine/example/ClientScene.java:53-71 | after the loop, every received id has a mirror |
| ClientScene.ShowsLastStep | src/main/java/com/gameengine/example/ClientScene.java:53-71 | one more entity keeps every mirror showing the last entity received for its id |
| ClientScene.MirrorShows | src/main/java/com/gameengine/example/ClientScene.java:53-71 | after the loop, every mirror whose id was received shows the last entity with that id |
| ClientScene.Kept | src/main/java/com/gameengine/example/ClientScene.java:74-85 | the mirrors kept are no more than there were |
| ClientScene.FilterMembers | src/main/java/com/gameengine/example/ClientScene.java:74-85 | a mirror is kept iff its id was received; the removed ones are exactly the others, deactivated |
| ClientScene.KeptDistinct | src/main/java/com/gameengine/example/ClientScene.java:74-85 | the kept mirrors have distinct names |
| ClientScene.KeptShows | src/main/java/com/gameengine/example/ClientScene.java:74-85 | keeping only the received ids leaves distinct mirrors, all received, one per received id, each showing the last entity for its id |
| ClientScene.Reconciled | src/main/java/com/gameengine/example/ClientScene.java:40-86 | after an update from a snapshot whose entities all have ids, the scene holds exactly one mirror per entity id and no other, each showing the position and colour of the last entity with that id |
| ClientScene.ClientScene.constructor | src/main/java/com/gameengine/example/ClientScene.java:22-27 | a new client scene has no mirrors and the initial game state |
| ClientScene.ClientScene.FindOrCreateMirror | src/main/java/com/gameengine/example/ClientScene.java:173-193 | the first mirror with the id is found; when none exists, a mirror for the id is appended |
| ClientScene.ClientScene.Update | src/main/java/com/gameengine/example/ClientScene.java:40-86 | no keyframe changes nothing; otherwise the game state is taken from it, every entity is mirrored in order, and the mirrors of ids not received are deactivated and removed; an entity without an id throws, leaving the mirrors made so far and removing nothing |
| ClientScene.ClientScene.ShowEntity | src/main/java/com/gameengine/example/ClientScene.java:58-70 | the mirror named by the entity's id, found or appended, takes the entity's position and colour; every other mirror is unchanged |
| ClientScene.ClientScene.MirrorEntities | src/main/java/com/gameengine/example/ClientScene.java:53-71 | the loop mirrors the entities up to the first without an id, collecting their ids |
| ClientScene.ClientScene.Partition | src/main/java/com/gameengine/example/ClientScene.java:74-85 | the mirrors split into the kept and the removed ones |

## Behaviour of the code to note

The code does the following, and the model does the same.

- The live sampler (`NetworkBuffer.sample`, `sampleKeyframe`) pairs the entities of the two bracketing keyframes by list position, up to the shorter list, and names each pair by the earlier frame's id. It does not match entities by id.
- `sampleKeyframe` returns a keyframe in the default `PLAYING` state. It does not copy the state of either bracketing keyframe, so the client scene's game state is always `PLAYING`.
- The broadcast actor stamps snapshots with `System.currentTimeMillis()`, in milliseconds. The client buffer samples at a target in seconds. `NetworkBuffer.MillisecondStampAfterTarget` shows that such a keyframe always lies after the target, so the client holds the first buffered keyframe.

## Left out

- Threads, locks and blocking queues: the actor worker, the recording writer thread, the synchronized buffer and the scheduler. Each becomes a sequential step (`ProcessOne`, `WriteOne`) or a counter (`monitoringTasks`).
- Clock readings, randomness and file or socket I/O. Times and file contents are parameters. The file picker's listing and the loaded lines are parameters too. Choosing a file returns `Load(path)`, and the caller initializes again with that file's lines.
- Float and double rounding, `(float)` casts of doubles, and `long` wrap-around. All arithmetic is exact `real` or `int`.
- Number parsing, number formatting, square roots and `Vector2.distance` are parameters. `DecimalFormat`'s quantization is not modelled.
- `HashSet` and `HashMap` iteration order. Where the source iterates a hash set, the model uses a set or a map, and the result does not depend on the order. The recorded input keys are given as a sequence.
- `NetState.setLastKeyframeJson` is the field `slot` of the broadcast actor. `NioServer`, which reads it, is not part of this model.
- Console output, `System.exit` (modelled as the outcome `Exit`), and the `onStart` hook's message.
- `Actor.onReceive` is abstract. Whether it throws is the parameter `threw`, and the exception itself is not modelled.
- `GameLogic.handleCombat`, `updateProjectiles` and `updatePhysics`. The combat callbacks and the projectile component are not part of this model, and `updatePhysics` is empty.
- `GameLogic.spawnRandomMonster` and `EntityFactory`: random rows and object creation. Spawns are only counted in `spawned`.
- `GameLogic.cleanupDeadEntities` iterates the scene's health components. The model iterates the scene's objects, whose health view carries `isDead`.
- `GridSystem.WorldToGrid` requires non-zero cell sizes. Java would divide by zero into infinities or NaN, whose casts the model does not represent.
- `GridSystem.render` and `getRandomRow` (drawing and randomness). Neither is modelled.
- `ClientScene.render`, `drawGrid` and the styling in `createVisualObject` (shape and size per base name) are not modelled. The style is the parameter `style`, from base name to colour.
- Mirrors and replay objects are values, matched by name. Object identity and aliasing between the scene list and the maps are not modelled. `ClientScene.Update` returns the removed mirrors, deactivated, instead of removing shared objects from the scene.
- An entity without an id makes `findOrCreateMirror` throw, because it calls a method on the null id. This is the result `threw` of `ClientScene.Update`.
- `Scene.addGameObject` and `Scene.update` are not part of this model. Objects added to the client scene appear in its list at once.
- `RenderComponent` is reduced to a shape, a size and a colour. `updateRenderComponent` does not change the shape, and the model does not either.
- `TeamComponent` with a `null` team is not modelled: `Team` has only its two values. The `TeamComponent` instance that may be missing is an `Option`.
- `MovementComponent.setDirection(null)` and the trivial getters and setters of every class are not modelled. This includes `TeamComponent.setTeam`: a team is passed as a value, so replacing it is a plain assignment.
- `InputManager.getInstance` (the singleton) is not modelled. The manager is passed explicitly.
- The recursive functions of `RecordingJson` model its loops. Each is a function of the text, not a method with a loop.
- GameLogic.GameLogic.HandlePlayerInput: states only the selection. The move it makes next is stated by `GameLogic.GameLogic.MoveSelected`.
- GameLogic.GameLogic.Update: states the clock, the defeat check and the level, not the spawning, moving and cleanup it performs. `SpawnMonster`, `MoveSelected` and `CleanupDeadEntities` state those.
- ReplayScene.ParseRecording: its own contract states only a bound. What it holds is stated by `ParseRecordingComplete` and `ParseRecordingProvenance`.
- Actor.Actor.constructor: requires a mailbox capacity of at least 1. `LinkedBlockingQueue` throws `IllegalArgumentException` for a smaller one, and the only caller in the source passes 5000.
- RecordingService.RecordingService.constructor: requires a queue capacity of at least 1. `ArrayBlockingQueue` throws `IllegalArgumentException` for a smaller one, and the default configuration passes 1000.
- RecordingService.KeyframeLineIsReplayed: states only that the replay recognises the line as a keyframe, not that the entities read back equal those written. Formatting is a parameter.
- NetworkBroadcastActor.SnapshotIsKeyframe: states only that the client parser accepts the line as a keyframe, not that the entities read back equal those sent.
- ClientScene.MirrorShape: does not state what newly created mirrors hold. `ApplyEntityCreates` states it for one step, and `Reconciled` for the whole update.
- Common.IntToString: states the form of the text, not its numeric value.
