# beam: diagram extraction and canvas reconciliation, modelled in Dafny

beam watches a markdown document, finds its fenced ```` ```mermaid ```` blocks,
renders each one to an SVG and keeps a tldraw canvas in step with the document. The
server (`src/server.js`) extracts labelled blocks with one regular expression, renders
them in order while isolating failures, answers single-diagram `/render` requests and
sends the resulting list to every open WebSocket client. The canvas page
(`src/App.jsx`) derives stable record ids from each diagram's index. It updates or
creates a frame, an image asset and an image shape per diagram, stacks the frames
vertically and deletes the managed frames and images that the new list no longer
produces. It zooms to fit on the first update that carries diagrams.

The project has these modules:

- `Wrappers` provides `Option` and `Result`.
- `Decimal` renders an index in decimal, as a template literal does.
- `JsText` covers JavaScript's `\s` class and `trim()`.
- `MermaidRegex` models the block pattern literally. It is a backtracking search in the engine's priority order, with a lazy body that stops at the first "```". `Scan`/`ScanAll` model `exec` and the `lastIndex` loop for any matcher.
- `Extractor` covers the label rule and the `extractMermaidBlocks` loop.
- `Diagrams` holds the records sent over the WebSocket.
- `Pipeline` covers `processFile`, the `/render` handlers, the broadcast decision and `broadcast`.
- `DiagramIds` covers `getDiagramIds`.
- `Canvas` holds the tldraw store and an `Editor` class with the calls the reconciler makes.
- `Reconciler` has a pure specification `Reconcile` of `updateDiagrams`, the lemmas about it, and the imperative `UpdateDiagrams` method proved against it.
- `Session` covers the `App` component's message handler and its initial-load flag.

The model follows the code, including where it behaves unexpectedly:

- A heading `12. Something` keeps its whole text as the label. The label pattern needs `:` or the end of the heading after the run of digits.
- When an image's dimensions cannot be read, the rejection leaves `updateDiagrams` (src/App.jsx:41). The remaining diagrams and the whole deletion phase are skipped for that call; the failed diagram is not just dropped.
- The deletion phase never deletes assets. Only frames and images are collected.
- The call's own `zoomToFit` (src/App.jsx:154) tests for frame 0 after the loop has just written it. It therefore never fires when diagram 0 is in the list.

## Model

| member | source | states |
|---|---|---|
| Decimal.ParseNatToString | src/App.jsx:11-13 | the decimal numeral of an index consists of digits and reads back as that index |
| Decimal.NatToStringInjective | src/App.jsx:9-15 | two indices print the same numeral exactly when they are equal |
| JsText.TrimShape | src/server.js:72-73 | `trim()` returns the part of the text between a whitespace prefix and a whitespace suffix; that part neither starts nor ends with whitespace |
| JsText.RunCovers | src/server.js:68 | a greedy quantifier first takes at least every character of a run of its class |
| JsText.RunTo | src/server.js:68 | a greedy quantifier first takes exactly the run of its class, up to the first character outside it |
| JsText.TrimmedOccurs | src/server.js:73 | whatever occurs in a trimmed text occurs in the text |
| MermaidRegex.FirstClose | src/server.js:68 | the lazy body `([\s\S]*?)```` ends at the first "```" at or after the body start, and none starts before it; when it finds none, no "```" starts anywhere from the body start on |
| MermaidRegex.FirstCloseAt | src/server.js:68 | a "```" with none before it from the body start is the one the lazy body stops at |
| MermaidRegex.NewlinesThenFenceShaped | src/server.js:68 | `\n*` followed by the fence, giving back line feeds one at a time, finds only line feeds up to a closed fence |
| MermaidRegex.HeadingTextShaped | src/server.js:68 | group 2 `[^\n]+` is non-empty, holds no line feed, and is followed by line feeds and a closed fence |
| MermaidRegex.SpaceThenTextShaped | src/server.js:68 | `\s+` takes at least one whitespace character before group 2 |
| MermaidRegex.HashesThenShaped | src/server.js:68 | the heading group uses at most as many `#` as are available (one to three) and has the shape `#{1,3}\s+[^\n]+` |
| MermaidRegex.Tail | src/server.js:68 | after `(?:^\|\n)`, a match is an optional heading, then only line feeds, then a fence closed by the first "```" |
| MermaidRegex.NewlinesThenFenceFinds | src/server.js:68 | `\n*` gives back line feeds until it reaches any closed fence that only line feeds separate from its start |
| MermaidRegex.HeadingTextFinds | src/server.js:68 | `[^\n]+` gives back characters until it reaches any split after which line feeds and a closed fence follow |
| MermaidRegex.SpaceThenTextFinds | src/server.js:68 | `\s+` gives back whitespace until it reaches any split after which group 2 and the rest succeed |
| MermaidRegex.HashesThenFinds | src/server.js:68 | `#{1,3}` gives back hashes until it reaches any count after which `\s+` and the rest succeed |
| MermaidRegex.FenceFollows | src/server.js:68 | from the end of a heading line, `\n*` and the fence reach a closed fence that only line feeds separate from it |
| MermaidRegex.HashesFollow | src/server.js:68 | a heading line of the pattern's shape above a closed fence, with only line feeds between, is matched by the heading group |
| MermaidRegex.TailFinds | src/server.js:68 | whatever has the pattern's shape after `(?:^\|\n)` is found, and the greedy optional heading group is taken whenever such a heading line is there |
| MermaidRegex.MatchAt | src/server.js:68 | a match at `p` starts at `p` (at `^` only when `p` is 0, otherwise at a line feed), has the pattern's shape and ends inside the document |
| MermaidRegex.MatchFromTail | src/server.js:68 | after `(?:^\|\n)`, the pattern matches exactly when the rest does, with the rest's heading |
| MermaidRegex.MatchAtZero | src/server.js:68 | at position 0, `^` is tried first and `\n` only when `^` fails |
| MermaidRegex.MatchAtLineFeed | src/server.js:68 | away from position 0, only the `\n` alternative can match |
| MermaidRegex.NoMatchBeforeHashLine | src/server.js:68 | a document starting with a line feed and then `#` has no match of `^` at 0 |
| MermaidRegex.HeadingAttached | src/server.js:68 | a heading line at the start of the document or of a line, above a closed fence with only line feeds between, gives a match at that line feed (or at 0) that carries a heading |
| MermaidRegex.HeadedDocumentMatch | src/server.js:68 | in "## A: Map", a line feed, a fence, "X", a line feed and "```", the match at 0 takes the heading text from after "## " to the end of its line, the fence on the next line and the closing "```" |
| MermaidRegex.HeadedDocumentMatches | src/server.js:68-71 | the loop finds that one match in that document and nothing after it |
| MermaidRegex.ScanFinds | src/server.js:71 | `exec` never skips a position where the pattern matches; it reports that match or an earlier one |
| MermaidRegex.ScanReports | src/server.js:71 | `exec` reports the match found at its stopping position, at or after `lastIndex` |
| MermaidRegex.ScanAll | src/server.js:71 | the loop's matches each come from the matcher, in order and without overlap |
| MermaidRegex.ScanAllCovers | src/server.js:71 | every position where the pattern matches lies inside one of the loop's matches |
| MermaidRegex.Exec | src/server.js:71 | `regex.exec` from `lastIndex` reports a match at or after it that ends inside the document |
| MermaidRegex.Matches | src/server.js:71 | the successive matches of the loop lie inside the document, in document order, without overlap |
| MermaidRegex.MatchesUnfold | src/server.js:71 | the loop ends when `exec` returns null; otherwise it continues from the end of the match |
| MermaidRegex.MatchesShaped | src/server.js:68-71 | every match the loop sees has the pattern's shape |
| MermaidRegex.FenceTail | src/server.js:68 | a fence with a "```" somewhere after it completes the pattern without a heading |
| MermaidRegex.LineStartFenceMatches | src/server.js:68 | a fence at the start of the document or of a line, with a "```" somewhere after it, gives a match at that line feed (or at 0) |
| MermaidRegex.FenceCovered | src/server.js:68-71 | no fence that starts a line and has a "```" after it is skipped: some match of the loop covers the line feed in front of it |
| Extractor.RunThenColonOrEnd | src/server.js:78 | a greedy run followed by `(?::\|$)` ends just before a ':' or at the end of the heading, keeping at least one character |
| Extractor.CurrentIsUpperRun | src/server.js:78 | a heading that matches the `CURRENT` alternative is already matched by `[A-Z]+` |
| Extractor.LabelRule | src/server.js:76-80 | the label is the leading uppercase run when ':' or the end follows it, else the leading digit run under the same condition, else the whole heading |
| Extractor.LabelOfLetterCode | src/server.js:78-79 | "A: Shape Name" gets the label "A" |
| Extractor.LabelOfCurrent | src/server.js:78-79 | "CURRENT: Live View" gets the label "CURRENT" |
| Extractor.LabelOfNumberedTitle | src/server.js:78-79 | "12" gets the label "12"; "12. Something" keeps its whole text |
| Extractor.LabelOfPlainTitle | src/server.js:78-79 | "Just A Title" keeps its whole text |
| Extractor.HeadingLabelNonEmpty | src/server.js:79-83 | a non-empty heading always yields a non-empty label, so the fallback applies only without a heading |
| Extractor.BlockLabelRule | src/server.js:72-83 | a block with a non-empty trimmed heading takes the heading's label; otherwise it takes "Diagram " and its 1-based position among all blocks |
| Extractor.ToBlocksAt | src/server.js:82-85 | block `k` is read from match `k` and numbered after the `k` blocks before it |
| Extractor.ExtractMermaidBlocks | src/server.js:64-89 | the loop returns exactly one block per successive match, in order |
| Extractor.BlockFromMatch | src/server.js:71-85 | block `k`'s source is match `k`'s body trimmed; its label comes from match `k`'s trimmed heading, or is "Diagram k+1" without one |
| Extractor.BodyHasNoClose | src/server.js:68-73 | a match's body contains no "```" |
| Extractor.BlockHasNoClose | src/server.js:68-73 | a block's source text never contains "```" |
| Extractor.BlocksInOrder | src/server.js:71-86 | blocks come from disjoint matches in document order |
| Extractor.HeadedDocumentLabel | src/server.js:72-83 | the first block under the trimmed heading "A: Map" is labelled "A" |
| Extractor.HeadedDocumentSource | src/server.js:73 | the body "X" and a line feed trims to "X" |
| Extractor.HeadedDocumentBlocks | src/server.js:64-89 | that document yields exactly one block, labelled "A", holding "X" |
| Extractor.BlocksNeedFence | src/server.js:68-71 | a document without "```mermaid\n" has no blocks |
| Pipeline.RenderBlocks | src/server.js:167-181 | the render loop yields the diagrams of the blocks whose rendering succeeds, in order |
| Pipeline.ProcessFile | src/server.js:158-188 | no file or an unreadable file gives null; otherwise the rendered diagrams of the document's blocks |
| Pipeline.RenderedEntry | src/server.js:170-176 | every entry comes from a block that rendered: its index is that block's position, its label the block's label, its data URL the renderer's |
| Pipeline.RenderedIncreasing | src/server.js:168-176 | entry indices strictly increase |
| Pipeline.RenderedKept | src/server.js:170-176 | a block that renders has an entry with its position as index, whatever happens to the other blocks |
| Pipeline.FailedOmitted | src/server.js:178-180 | a block whose rendering throws has no entry |
| Pipeline.HandleRender | src/server.js:93-121 | missing or empty input gives 400 with the route's message; a render failure gives 500 with its message; otherwise 200 with the render result |
| Pipeline.RoutesAgree | src/server.js:93-121 | GET and POST answer with the same status and body, except for the wording of the 400 message |
| Pipeline.UpdateFor | src/server.js:201-207 | an update message carrying the list is sent exactly when `processFile` did not give null |
| Pipeline.NothingSentWithoutFile | src/server.js:158-188 | without a file or with an unreadable one, nothing is sent |
| Pipeline.EmptyDocumentSent | src/server.js:203-206 | a readable document without diagram fences still sends an update with an empty list |
| Pipeline.Broadcast | src/server.js:147-154 | the message is delivered once to every open client and to no other client |
| DiagramIds.GetDiagramIds | src/App.jsx:9-15 | the frame, image and asset ids carry their fixed prefixes |
| DiagramIds.IdsInjective | src/App.jsx:9-15 | the same index gives the same ids; distinct indices give distinct frame, image and asset ids |
| DiagramIds.PrefixesSeparate | src/App.jsx:137-146 | a frame id never has the image prefix, and an image id never has the frame prefix |
| Canvas.ApplyPatch | src/App.jsx:64-83 | a partial shape overwrites type, size and the fields it carries, keeps every other field, and leaves other shapes alone; a partial for a missing id is skipped |
| Canvas.Without | src/App.jsx:149-151 | deleting ids removes exactly those ids and keeps the other records |
| Canvas.Editor.CreateShape | src/App.jsx:86-96 | creating a shape stores the record under its id and changes nothing else |
| Canvas.Editor.PutAsset | src/App.jsx:49-62 | creating or updating an asset stores the full record under its id and leaves the shapes alone |
| Canvas.Editor.UpdateShapes | src/App.jsx:64-83 | the partials are applied in order |
| Canvas.Editor.DeleteShapes | src/App.jsx:149-151 | the listed shapes are removed and the assets are kept |
| Reconciler.Place | src/App.jsx:35-43 | the loop places at most as many diagrams as the list holds |
| Reconciler.PlaceLayout | src/App.jsx:33-43 | the k-th placement is the k-th diagram at the size its data URL loads at; its frame's top is 100 plus, for every diagram above it, that diagram's image height plus 40 for padding plus the 40 gap |
| Reconciler.PlaceStops | src/App.jsx:41 | the loop gets through every diagram when every image loads; otherwise it stops at the first that fails |
| Reconciler.PlaceFails | src/App.jsx:41 | nothing after a diagram whose image fails to load is placed |
| Reconciler.StepSliceAt | src/App.jsx:45-126 | one iteration sets the diagram's asset and either patches its existing frame and image or creates both |
| Reconciler.StepOtherSlice | src/App.jsx:45-126 | one iteration leaves the records of every other index as they were |
| Reconciler.StepAbsorbs | src/App.jsx:45-126 | a later iteration for the same index overrides every field an earlier one set |
| Reconciler.LoopSlice | src/App.jsx:35-130 | after the loop, a diagram's records are those its last placement made of them |
| Reconciler.LoopElsewhere | src/App.jsx:35-130 | the loop leaves shapes with ids no placement owns unchanged |
| Reconciler.LoopAssets | src/App.jsx:35-130 | the loop leaves assets of ids no placement owns unchanged |
| Reconciler.LoopKeepsAssets | src/App.jsx:49-112 | the loop deletes no asset |
| Reconciler.SweepEntry | src/App.jsx:132-151 | deletion removes exactly the managed frames and images whose ids the list did not produce |
| Reconciler.SweepKeeps | src/App.jsx:132-151 | the records of a diagram of the list survive deletion |
| Reconciler.SweepIdempotent | src/App.jsx:132-151 | a second deletion pass removes nothing |
| Reconciler.LoopFixed | src/App.jsx:45-83 | a store that already holds what the loop writes is left unchanged by the loop |
| Reconciler.ReconcileIdempotent | src/App.jsx:27-157 | reconciling the same list again with the same image sizes leaves the canvas and the outcome unchanged |
| Reconciler.ReconcileDiagram | src/App.jsx:45-126 | with distinct indices, each placed diagram ends with its frame at its stacked `y`, sized image plus padding, named by its label, and its asset holding its data URL. An existing frame keeps `x` and parent, and its image keeps position and parent. A new frame sits at `x` 100 with its image at (20, 20) inside it |
| Reconciler.ReconcileOthers | src/App.jsx:132-151 | a shape no placed diagram owns is deleted only when the call completes and the shape is a managed frame or image; otherwise it is unchanged |
| Reconciler.ReconcileAssets | src/App.jsx:49-112 | no asset is ever deleted, and assets of ids no placed diagram owns are unchanged |
| Reconciler.ReconcileStops | src/App.jsx:41 | the call completes exactly when every image loads; otherwise it stops at the first failure and neither deletes nor zooms |
| Reconciler.ReconcileZoom | src/App.jsx:153-156 | the call's own zoom fires only on completion with a non-empty list, never when diagram 0 is in it, and otherwise exactly when frame 0 is absent or was a managed frame that got deleted |
| Reconciler.WriteDiagram | src/App.jsx:45-127 | the editor calls for one diagram perform one iteration of the specification |
| Reconciler.RemoveStale | src/App.jsx:132-151 | the deletion phase deletes exactly the stale managed shapes it collected, and keeps the assets |
| Reconciler.UpdateDiagrams | src/App.jsx:27-157 | the editor's new state, the completion flag and the zoom flag are those of the specification `Reconcile` |
| Session.Zooms | src/App.jsx:187-190 | there is one initial-zoom decision per accepted update |
| Session.ClearedNeverZooms | src/App.jsx:187-190 | once cleared, the flag never lets the initial zoom fire again |
| Session.InitialZoomAtFirstLoad | src/App.jsx:187-190 | from the start of a session, the initial zoom fires at an update exactly when it completed with at least one diagram and no earlier update did |
| Session.InitialZoomOnce | src/App.jsx:187-190 | the initial zoom fires at most once per session |
| Session.ServerListsDistinct | src/server.js:172-176 | the lists the server sends have distinct indices, as the reconciler's per-diagram guarantee requires |
| Session.App.constructor | src/App.jsx:160-161 | a new page has no editor and the initial-load flag set |
| Session.App.Mount | src/App.jsx:163-165 | mounting keeps the editor and leaves the flag alone |
| Session.App.OnMessage | src/App.jsx:178-192 | only an `update` message with a diagram list, once an editor is mounted, is acted on: the canvas is reconciled as `Reconcile` says, and the flag steps as `AfterUpdate` says. A rejected update leaves the flag as it was, and other messages change nothing |

## Left out

- `render` (src/server.js:32-60) is a parameter. It maps diagram text to a result or an error message. The temp files, the `mmdc` process and the base64 encoding are not part of this model.
- Reading the markdown file is a parameter that returns the text or nothing.
- `getImageDimensions` (src/App.jsx:17-25) is a parameter that returns a size or nothing.
- Express wiring and the static and SPA routes (src/server.js:12-26, 220-234) are HTTP plumbing. The handlers are modelled on the query value or body field as an optional string, with no JSON parsing. A non-string `mermaid` value is not modelled.
- The WebSocket server, adding and removing clients on connect and close, the client's reconnect timer and `JSON.parse` of messages are transport. The per-connection send (src/server.js:138-144) uses the same decision as `UpdateFor`.
- The chokidar watcher (src/server.js:192-216) is not modelled. Overlapping refresh cycles are concurrency and are not modelled either.
- bin/beam.js and vite.config.js are process bootstrapping and build configuration, and are not part of this model.
- Logging (`console.log`/`console.error`) is not modelled.
- The `zoomToFit` camera computation is not modelled. Only whether it is called is.
- Canvas.Editor.DeleteShapes: removes exactly the listed ids. tldraw also removes the children of a deleted frame; that cascade is library behaviour not modelled here.
- Canvas.Editor.PutAsset: `createAssets` and `updateAssets` with a full record both store that record under its id. tldraw's validation and its merging of partial records are not modelled.
- Reconciler.RemoveStale: reads every shape in the store. `getCurrentPageShapes` only returns the shapes of the current page, and the model has one page.
- Pipeline.Broadcast: visits the clients in an arbitrary order rather than the `Set`'s insertion order, and a send is modelled as a delivery record. Failures of individual sends are not modelled.
- Decimal.NatToString: prints an index with plain decimal digits. JavaScript switches to exponent notation from 1e21 on, which the model does not follow.
- Session.App.OnMessage: takes an already parsed message whose `diagrams` field is a list or absent. Other truthy values of that field are not modelled.
- Session.App.OnMessage: runs each update to completion before the next message is handled. In the page, `ws.onmessage` is async and `updateDiagrams` awaits `getImageDimensions` for each diagram (src/App.jsx:41, 178-184), so two updates that arrive close together can interleave their editor calls. That interleaving is not modelled.
- Canvas.Editor.CreateShape: assumes that tldraw's `createShape` with the id of an existing record replaces that record, and that it keeps the parent it is given.
