# Verified models of the MPI examples and of the error-injection scripts

The repository contains MPI programs that serve as subjects of an error-propagation analysis, and the scripts that
inject errors into such programs and digest the reports of the analysis. This project models the parts whose
correctness is not obvious from reading them:

* **Three distributed versions of one job.** A root cuts an image into 400 tiles, shuffles them, hands them to workers
  and assembles the results. `pmandel.c` receives from whichever worker answers first, `pmandel_spawn.c` keeps an
  array of posted receives, `pmandel_fence.c` uses one-sided puts between fences. Each is a transition system over the
  root's program counter, the workers' phases and the messages or puts in flight, with any interleaving. The number of
  pieces, the grid of tiles and the number of processes are parameters.
* **The image.** Tiling, shuffling, the computing loops, drawing, the vector datatype, and when the root's grid reads
  as the sequential image.
* **Source rewriting.** `__inject_line` of `scripts/injection/inject_lines.py`, with the strategies of `_inject_line`
  and repeated injections into one file.
* **Report parsing.** The loop of `scripts/report_parser.py`, and reading back what the analysis prints.
* **Two smaller schedules.** The all-to-all exchange of `sendrecv_ult.c` and the strided sum of `cpi.c`.

`dafny verify dfyconfig.toml` checks everything.

## How the models are built

The environment follows the MPI-3.1 standard: messages between a pair of processes with one tag do not overtake each
other (section 3.5), `MPI_Waitany` returns any completed request (section 3.7.5), a vector type places its elements in
equal blocks at a fixed stride (section 4.1.2), and a put reaches its target at any moment before the fence that closes
its epoch (section 11.5.1). A send is posted in one step and returns in a later one. The `strict` form of a return
waits until the message was received, so safety holds for every mixture of buffered and synchronous sends and progress
holds even if every send is synchronous. What `strict` promises is proved as a law of the runs made of such steps: no
send has returned whose message is still on its way.

| files | content |
|---|---|
| `Arith`, `Rects`, `Tiles`, `Picture`, `Put`, `Fractal`, `Orbits`, `Permute`, `Counting` | index arithmetic, tiles, drawing, pixel colours |
| `WorkBag` | the scheduler without messages, refined by both message-passing versions |
| `Courier`, `Ledger`, `Wildcard`, `WildcardRuns` | one worker's conversation with the root; `pmandel.c` |
| `Requests`, `RequestsRuns` | `pmandel_spawn.c` |
| `Fence`, `FenceSteps`, `FenceLength`, `FenceRuns`, `FenceImage` | `pmandel_fence.c` |
| `AllToAll`, `AllToAllRuns`, `Strided` | `sendrecv_ult.c`, `cpi.c` |
| `Text`, `Inject`, `InjectLines`, `InjectPage`, `InjectKeeps`, `InjectSites`, `InjectText`, `InjectTwice`, `InjectOrder`, `Strategies` | `inject_lines.py` |
| `Report`, `ReportRuns`, `ReportBlocks`, `ReportText`, `ReportPrinted`, `ReportTypes`, `ReportAgain` | `report_parser.py`, and the report printer `Path.cpp` |

Loops of the programs are methods proved against functions, and the results are lemmas about those functions or about
all runs of a machine.

## Where the code does not do what it is meant to do

The models follow the code. These are the places where a natural expectation fails, each with the exact condition under
which it holds.

* `output_data` uses the height as the length of a row. The grid reads as the image, for every picture and schedule,
  exactly when the image is square or has a single row (`Picture.ReadsAsIff`, `Picture.WrongStride`). That stays so
  when only what the workers can compute counts as a picture: the one that tells the strides apart is the Mandelbrot
  image of one particular view (`Fractal.ViewsReadAsIff`, `Fractal.ProbeIsComputed`).
* For the same reason the drawing can overrun the grid array. It stays inside exactly when the tiles reach no further
  down than the image is wide (`Picture.RoundFits`): 20 columns and 40 rows overrun, 20 columns and 39 rows do not
  (`Picture.OverrunExample`).
* For the same reason the grid can depend on the order in which the tiles arrive. Whatever the shuffle and the schedule,
  the grid is the same for every picture exactly when the tiles reach no further across than the image is high, or there
  is one row or one tile (`Picture.RoundsAgreeIff`, for what the workers can compute `Fractal.ViewsAgreeIff`, for the
  runs of either scheduler and between the two `WildcardRuns.RunsAgreeIff`, `RequestsRuns.RunsAgreeIff`,
  `RequestsRuns.SchedulersAgreeIff`).
* Tiles overlap exactly when a side has fewer than 20 pixels (`Tiles.TilesApartIff`), and reach only
  `20 * (side / 20)` pixels of a longer side (`Tiles.TilesCover`).
* The fence version pads its last epoch with a rectangle at (-1, -1), which a worker computes and puts like any other.
  All puts land in the window exactly when the number of workers divides the number of pieces (`FenceImage.WindowIff`).
* Two puts of one epoch that overlap have no defined outcome (section 11.3 of MPI-3.1). None do exactly when the last
  epoch has at most one padded slot and no two pieces of an epoch share a pixel (`FenceImage.RoundApartIff`). Both hold
  when the workers divide the pieces and each side of the image has at least 20 pixels (`FenceImage.LargeImageApart`);
  with 19 by 19 pixels and one worker for each piece two puts meet (`FenceImage.SmallImageMeets`). That the root ends
  with the image is claimed where every put is in the window and apart from the others (`FenceImage.RunShowsImage`).
* The search for the line above an injection target wraps around to the end of the file. A closing brace without an
  opening one appears exactly when the text that asks for braces does not stand before the target
  (`InjectSites.PairedExactly`, with the input in `InjectSites.UnpairedExample`).
* The opening brace goes to the first line of the file that has the text of the line asking for it. It stands at that
  line itself exactly when no earlier line has the same text (`InjectSites.BraceExactly`); with two equal conditions
  the first one gets the brace (`InjectSites.WrongBranchExample`).
* An injection raises an index error exactly in a file of comments and where no line before the last completes the
  statement (`InjectSites.SucceedsExactly`).
* The fix strategy `coverage` is handled by a test that the following chain does not belong to, so it is always refused
  as unknown (`Strategies.Choose`).
* A message about a variable is filed under another kind exactly when its file or variable name holds the words of a
  kind that is looked for earlier (`ReportTypes.VariableMessageType`). In names without spaces that is the word
  "overwriting" in an out-of-scope message (`ReportTypes.NamesWithoutSpaces`, `ReportTypes.MisfiledExample`).
* The digits the analysis appends to a function's name are cut off together with the name's own. A name is recovered
  exactly when it does not end in a digit (`ReportText.FunctionNameIs`), and functions that differ only in such digits
  are one function in the csv (`ReportText.DigitsShareFunction`).
* The rows of a run can be fed back as the old csv and then repeat themselves (`ReportAgain.RunAgain`), but the file of
  unsaved errors has column names on top and a running number in front of each row. Read back like that it marks
  nothing as valid (`ReportAgain.NumberedKnowsNothing`), and the rerun repeats the rows of a run without any old csv:
  every judgement is lost, apart from blocks whose file and line is one of the error codes (`ReportAgain.RunNumbered`).
* A report block with fewer than two condensed lines runs into the undefined name `quiet`; a report made of well-formed
  blocks is parsed exactly when each has at least two (`ReportBlocks.PrintedParses`). The analysis prints such blocks
  in its default direction, backward (`ReportPrinted.BackwardParses`). Printed forward, the whole path is one line with
  no empty line after it, and the first report already ends the parser (`ReportPrinted.ForwardFails`).

## Model

| member | source | states |
|---|---|---|
| Tiles.BuildTiles | mpich-3.3/examples/pmandel.c:335-351 | the nested loops leave in the four arrays exactly the tiles of the formula, at index i * g + j |
| Tiles.TileInside | mpich-3.3/examples/pmandel.c:345-348 | every tile is a non-empty rectangle inside the image, whatever the image size |
| Tiles.TilesCover | mpich-3.3/examples/pmandel.c:336-351 | a pixel is in some tile if and only if it is among the first min(g * step, side) columns and rows |
| Tiles.TilesApartIff | mpich-3.3/examples/pmandel.c:336-351 | tiles are pairwise disjoint if and only if both sides have at least g pixels |
| Tiles.Swap | mpich-3.3/examples/pmandel.c:135-141 | two entries of an array change places, all others stay |
| Tiles.ZipSwapped | mpich-3.3/examples/pmandel.c:355-360 | swapping the same two entries of all four arrays moves whole tiles and keeps their bag |
| Tiles.Shuffle | mpich-3.3/examples/pmandel.c:353-361 | the four arrays end as the given picks arrange them, swap after swap, with the same whole tiles, each as often as before |
| Tiles.ShuffleUndone | mpich-3.3/examples/pmandel.c:353-361 | the same swaps in reverse order undo the shuffle |
| Tiles.ShuffledProper | mpich-3.3/examples/pmandel.c:353-361 | after any shuffle every piece is a non-empty rectangle inside the image |
| Tiles.ShuffledApart | mpich-3.3/examples/pmandel.c:353-361 | with both sides at least g, any two entries of the shuffled arrays are disjoint |
| Picture.OutputData | mpich-3.3/examples/pmandel.c:1216-1225 | the drawing loops write the received elements, in scan order, to j * height + i and nothing else, for a tile whose elements lie in the array |
| Picture.AssembleShows | mpich-3.3/examples/pmandel.c:392-424 | drawing faithful tiles in any order, with any repetition, shows the picture on their union and keeps every other cell |
| Picture.RoundCovers | mpich-3.3/examples/pmandel.c:335-424 | the tiles of a finished round draw exactly the covered part of the image |
| Picture.RoundShows | mpich-3.3/examples/pmandel.c:392-424 | for square and one-row images a finished round leaves the sequential image on the covered part and everything else unchanged |
| Picture.RoundsAgree | mpich-3.3/examples/pmandel.c:353-424 | two rounds with different shuffles and drawing orders leave the same grid when the tiles reach no further across than the image is high, or there is one row or one tile |
| Picture.RoundsAgreeIff | mpich-3.3/examples/pmandel.c:353-424 | whatever was in the grid, all rounds leave the same there for every picture if and only if that condition holds |
| Picture.WrongStride | mpich-3.3/examples/pmandel.c:1216-1225 | for any other shape no round at all shows a picture that is 1 at pixel (0, 1) and 0 elsewhere |
| Picture.ReadsAsIff | mpich-3.3/examples/pmandel.c:1216-1225 | the grid reads as the image for every picture and every round if and only if the image is square or has one row |
| Picture.RoundFits | mpich-3.3/examples/pmandel.c:1216-1225 | a finished round draws only inside the grid array if and only if the tiles reach no further down than the image is wide |
| Picture.OverrunExample | mpich-3.3/examples/pmandel.c:1216-1225 | at 20 columns and 40 rows pixel (0, 20) is drawn at the first address after the array; at 20 and 39 every drawn pixel is inside |
| Picture.DrawRound | mpich-3.3/examples/pmandel.c:392-398 | under that condition the drawing loops run for every received tile of a round and leave the array painted tile by tile |
| Fractal.CountMeaning | mpich-3.3/examples/pmandel.c:1192-1214 | a pixel's colour is the first index at which its orbit leaves the disc, cut off at the iteration limit, and no other number |
| Fractal.PointCount | mpich-3.3/examples/pmandel.c:1198-1213 | the iteration loop, with each of the four equations, returns that colour |
| Orbits.OneProduct | mpich-3.3/examples/pmandel.c:1121-1131 | the complex product is the only operation that commutes, distributes over sums, scales, has a one, and squares i to -1 |
| Orbits.TimesIsProduct | mpich-3.3/examples/pmandel.c:1121-1131 | the product of the program has these properties |
| Orbits.TimesNorm | mpich-3.3/examples/pmandel.c:1121-1131 | the modulus of a product is the product of the moduli |
| Orbits.InsideIsAbsolute | mpich-3.3/examples/pmandel.c:1176-1183 | the loops' test on squares is the one on the absolute value |
| Orbits.SquaresAndAdds | mpich-3.3/examples/pmandel.c:1198-1213 | the Julia equation squares and adds its constant, the Mandelbrot equation squares and adds the pixel |
| Orbits.SubtractiveIs | mpich-3.3/examples/pmandel.c:936-960 | the subtractive equation is symmetric about 1 / 2: zeros at 0 and 1, z minus the square of z, and modulus abs(z) * abs(1 - z) |
| Orbits.AdditiveIs | mpich-3.3/examples/pmandel.c:973-994 | the additive equation is the square of z plus z times the pixel, with zeros at 0 and at minus the pixel |
| Orbits.JuliaZero | mpich-3.3/examples/pmandel.c:1192-1214 | with constant 0 each iteration squares the modulus, starting from the pixel |
| Orbits.CountOfI | mpich-3.3/examples/pmandel.c:1192-1214 | the Mandelbrot pixel at i gets the iteration limit as its colour, whatever the limit |
| Orbits.CountOfOne | mpich-3.3/examples/pmandel.c:1192-1214 | the Mandelbrot pixel at 1 leaves radius 2 after exactly one iteration |
| Orbits.CountRange | mpich-3.3/examples/pmandel.c:1192-1214 | no colour exceeds the iteration limit |
| Orbits.Corners | mpich-3.3/examples/pmandel.c:459-463 | the first pixel is the upper left corner of the view, and the one past the last row and column its lower right |
| Orbits.Neighbours | mpich-3.3/examples/pmandel.c:459-463 | a column to the right adds the horizontal resolution, a row down takes away the vertical one |
| Fractal.ComputeTile | mpich-3.3/examples/pmandel.c:458-492 | the computing loops fill the buffer with the tile's pixels in scan order and leave the rest of it alone |
| Fractal.ComputeAndPut | mpich-3.3/examples/pmandel_fence.c:549-592 | the element-by-element loops put exactly one value per pixel of the tile, at that pixel's own address |
| Fractal.Brightest | mpich-3.3/examples/pmandel.c:505-510 | the maximum scan returns the brightest pixel, or 0 when none is positive |
| Fractal.ColourIndexInTable | mpich-3.3/examples/pmandel.c:1279-1292 | every colour lookup stays in the table of colors + 1 entries, and only the brightest pixels use the extra entry |
| Fractal.ProbeIsComputed | mpich-3.3/examples/pmandel.c:474-492 | a picture that is 1 at the first pixel of a row and 0 elsewhere is what the workers compute for a view that images of every size have for some limits |
| Fractal.ViewsReadAsIff | mpich-3.3/examples/pmandel.c:451-492 | the grid reads as the image for every view and every round if and only if the image is square or has one row |
| Fractal.ViewsAgreeIff | mpich-3.3/examples/pmandel.c:353-424 | all rounds leave the same grid for every view if and only if no tile wraps around into another row of tiles |
| Put.VectorIsElements | mpich-3.3/examples/pmandel_fence.c:540-596 | one put with the vector type writes the same values to the same addresses as the element puts, for every rectangle |
| Put.PutsAreElements | mpich-3.3/examples/pmandel_fence.c:582-585 | the puts issued in scan order are exactly the element writes |
| Put.VectorAddrsDistinct | mpich-3.3/examples/pmandel_fence.c:541-544 | for a rectangle inside the grid no address is written twice by one vector put |
| Put.WriteMapHolds | mpich-3.3/examples/pmandel_fence.c:549-596 | what is in flight after a put holds each pixel of the tile in its colour and no other address |
| WorkBag.StepSafe | mpich-3.3/examples/pmandel.c:376-424 | handing out, drawing and stopping keep each piece in exactly one of three places: not handed out, held by one worker, drawn once |
| WorkBag.AllDrawn | mpich-3.3/examples/pmandel.c:376-424 | when all pieces are handed out and nobody holds one, each piece was drawn exactly once |
| Courier.WorkerStepFits | mpich-3.3/examples/pmandel.c:451-500 | every step of a worker keeps its conversation with the root in one of the possible states and shortens it by one |
| Courier.GiveFits | mpich-3.3/examples/pmandel.c:380-387 | posting a piece to a worker the root owes nothing starts a conversation about that piece |
| Courier.StopFits | mpich-3.3/examples/pmandel.c:417-423 | posting the stop message to such a worker ends its conversation |
| Courier.TakeFits | mpich-3.3/examples/pmandel.c:393-394 | the only header a worker can have in flight is the one for the piece it was given |
| Courier.DrawFits | mpich-3.3/examples/pmandel.c:395-398 | the only data in flight is that of the taken header's rectangle |
| Courier.BusyMoves | mpich-3.3/examples/pmandel.c:451-500 | a worker the root waits for can always step, or what the root waits for is there, even with synchronous sends |
| Ledger.LogHoldsPieces | mpich-3.3/examples/pmandel.c:392-424 | if each piece was drawn once, the rectangles drawn are the pieces, each as often as it occurs |
| Wildcard.StepGood | mpich-3.3/examples/pmandel.c:376-424 | every step of root, worker or message system keeps the invariant, is one step of the abstract bag of work or none, and uses up exactly one remaining step |
| WildcardRuns.RunSafe | mpich-3.3/examples/pmandel.c:376-500 | at every moment of every run each piece is in exactly one place, and steps taken and steps left add up to 9 N + 3 W |
| WildcardRuns.Progress | mpich-3.3/examples/pmandel.c:376-500 | in every unfinished state that satisfies the invariant some step is possible, even if no send returns before it is received |
| WildcardRuns.RunEnds | mpich-3.3/examples/pmandel.c:376-500 | every round ends, after exactly 9 N + 3 W steps whatever the interleaving; shorter runs can go on, finished ones cannot |
| WildcardRuns.CanFinish | mpich-3.3/examples/pmandel.c:376-500 | from every reachable state the round can be driven to its end by steps that synchronous sends allow |
| WildcardRuns.StrictRun | mpich-3.3/examples/pmandel.c:376-500 | in every run with synchronous sends only, a worker past the send of its header or data finds it received, the root past a send finds it received, and nobody has two messages unreceived |
| WildcardRuns.HeaderMatchesData | mpich-3.3/examples/pmandel.c:392-416 | while the root holds a header naming a worker, that worker's next data is that header's rectangle in its colours, with exactly the announced length |
| WildcardRuns.RunResult | mpich-3.3/examples/pmandel.c:376-424 | at the end every piece was drawn exactly once with its own data, every worker was sent one stop message, and every channel is empty |
| WildcardRuns.RunShowsImage | mpich-3.3/examples/pmandel.c:335-424 | for square and one-row images every run of every shuffle leaves the sequential image in the covered part and nothing else changed |
| WildcardRuns.RunsAgree | mpich-3.3/examples/pmandel.c:335-424 | runs with different shuffles, interleavings and worker counts leave the same grid when no tile wraps around into another row of tiles |
| WildcardRuns.RunsAgreeIff | mpich-3.3/examples/pmandel.c:335-424 | they do so for every picture if and only if no tile wraps around |
| WildcardRuns.RunInOrder | mpich-3.3/examples/pmandel.c:376-424 | with one worker a finished run has drawn the pieces in the order of the shuffle |
| WildcardRuns.RunStaysInside | mpich-3.3/examples/pmandel.c:335-424 | for an image of any shape a finished run has drawn only inside the grid array if and only if the tiles reach no further down than the image is wide |
| Requests.WaitHasRequest | mpich-3.3/examples/pmandel_spawn.c:466-468 | at MPI_Wait the handle is never null, so no stale result is used |
| Requests.StepGood | mpich-3.3/examples/pmandel_spawn.c:430-481 | every step keeps the invariant, is one step of the same abstract bag of work or none, and uses up exactly one remaining step |
| RequestsRuns.RunSafe | mpich-3.3/examples/pmandel_spawn.c:430-564 | at every moment of every run each piece is in exactly one place, and steps taken and steps left add up to 11 N + 3 W |
| RequestsRuns.Progress | mpich-3.3/examples/pmandel_spawn.c:430-564 | in every unfinished state that satisfies the invariant some step is possible, also with synchronous sends |
| RequestsRuns.RunEnds | mpich-3.3/examples/pmandel_spawn.c:430-564 | every round ends, after exactly 11 N + 3 W steps whatever the interleaving |
| RequestsRuns.CanFinish | mpich-3.3/examples/pmandel_spawn.c:430-564 | from every reachable state the round can be driven to its end by steps that synchronous sends allow |
| RequestsRuns.StrictRun | mpich-3.3/examples/pmandel_spawn.c:430-564 | in every run with synchronous sends only, a child past the send of its header or data finds it received, the root past a send finds it received, and nobody has two messages unreceived |
| RequestsRuns.RequestsLive | mpich-3.3/examples/pmandel_spawn.c:441-467 | at every MPI_Waitany each child has one live request, in the tail loop exactly the children not yet waited for, and at the end none |
| RequestsRuns.ResultMatchesData | mpich-3.3/examples/pmandel_spawn.c:446-450 | a completed result names the child's current piece, and the child's next data message is that rectangle with the announced length |
| RequestsRuns.RunResult | mpich-3.3/examples/pmandel_spawn.c:430-481 | at the end every piece was drawn exactly once with its own data, every child was told to stop, every channel is empty |
| RequestsRuns.RunShowsImage | mpich-3.3/examples/pmandel_spawn.c:430-481 | for square and one-row images every run of every shuffle leaves the sequential image in the covered part and nothing else changed |
| RequestsRuns.RunsAgreeIff | mpich-3.3/examples/pmandel_spawn.c:430-481 | runs with different shuffles, interleavings and child counts leave the same grid for every picture if and only if no tile wraps around |
| RequestsRuns.SchedulersAgree | mpich-3.3/examples/pmandel_spawn.c:430-481 | the request-array scheduler and the wildcard scheduler leave the same grid, whatever their shuffles and schedules, when no tile wraps around |
| RequestsRuns.SchedulersAgreeIff | mpich-3.3/examples/pmandel_spawn.c:430-481 | they do so for every picture if and only if no tile wraps around |
| RequestsRuns.RunStaysInside | mpich-3.3/examples/pmandel_spawn.c:430-481 | for an image of any shape a finished run has drawn only inside the grid array if and only if the tiles reach no further down than the image is wide |
| RequestsRuns.ClampChildren | mpich-3.3/examples/pmandel_spawn.c:978-987 | the number of children ends between 1 and 400, the bound the hand-out loop needs, and is kept when it already is |
| FenceSteps.UniverseNoClash | mpich-3.3/examples/pmandel_fence.c:424-430 | no two pixels ever written share an address, not even the padding rectangle's with another's |
| FenceSteps.ReadEpoch | mpich-3.3/examples/pmandel_fence.c:454-463 | the collect loop passes on the pieces of the epoch, in hand-out order, with their data, and nothing for padded slots |
| FenceSteps.StepInv | mpich-3.3/examples/pmandel_fence.c:407-622 | every step of a process, a put in flight or a fence keeps the invariant |
| FenceRuns.RunSafe | mpich-3.3/examples/pmandel_fence.c:407-622 | the invariant holds in every reachable state, for any number of workers |
| FenceRuns.Progress | mpich-3.3/examples/pmandel_fence.c:407-622 | no fence ever waits for a process that has ended: in every unfinished state some step is possible |
| FenceLength.StepCounts | mpich-3.3/examples/pmandel_fence.c:407-622 | every step of a process, of a put in flight or of a fence uses up exactly one of the remaining steps |
| FenceLength.ElementsIs | mpich-3.3/examples/pmandel_fence.c:534-596 | a put carries exactly one element for each pixel of its rectangle |
| FenceRuns.RunEnds | mpich-3.3/examples/pmandel_fence.c:407-622 | every round ends after exactly 2 + 4 E + 3 (E + 1) W + P steps, with E epochs, W workers and P the pixels of all pieces and padded slots, whatever the interleaving; a shorter run can go on, a finished one cannot |
| FenceRuns.CanFinish | mpich-3.3/examples/pmandel_fence.c:407-622 | from every reachable state the round can be driven to its end |
| FenceRuns.FenceCount | mpich-3.3/examples/pmandel_fence.c:410-488 | all processes end together, after 2 + 3 * ceil(N / W) fences each |
| FenceRuns.NoRaces | mpich-3.3/examples/pmandel_fence.c:411-488 | a slot is read only outside the root's put epochs, the root reads its window only when no put is in flight, and the two kinds of put never share an epoch |
| FenceRuns.EpochWork | mpich-3.3/examples/pmandel_fence.c:417-441 | in epoch e worker v works on piece e * W + v, or on the padding once the pieces have run out |
| FenceImage.WindowIff | mpich-3.3/examples/pmandel_fence.c:424-430 | every put of a round lands in the root's window if and only if W divides N |
| FenceImage.PutsDisjoint | mpich-3.3/examples/pmandel_fence.c:534-596 | elements in flight from two workers are never the same when no puts of an epoch overlap, and all in the window when W divides N |
| FenceImage.SlotsApartIff | mpich-3.3/examples/pmandel_fence.c:424-441 | the puts for two slots of a round are apart if and only if the first is not padded and, unless the second is, their pieces share no pixel |
| FenceImage.RoundApartIff | mpich-3.3/examples/pmandel_fence.c:424-441 | no two puts of one epoch overlap if and only if the last epoch has at most one padded slot and no two pieces handed out in one epoch share a pixel |
| FenceImage.LargeImageApart | mpich-3.3/examples/pmandel_fence.c:366-441 | with both sides at least g and W dividing N no put of the round leaves the window or meets another |
| FenceImage.SmallImageMeets | mpich-3.3/examples/pmandel_fence.c:366-441 | for 19 by 19 pixels and 400 workers every put is in the window and two of one epoch meet |
| FenceImage.TilesFit | mpich-3.3/examples/pmandel_fence.c:366-382 | the shuffled tiles of an image with both sides at least g are proper, inside the image and pairwise disjoint |
| FenceImage.RunShowsImage | mpich-3.3/examples/pmandel_fence.c:407-596 | when W divides N and no two pieces of an epoch share a pixel, for any image shape: every put lands in the window and meets no other, at the end the window shows the image on the covered part, its other elements are unchanged, and each piece was passed on once in order |
| FenceImage.HarmlessRunShowsImage | mpich-3.3/examples/pmandel_fence.c:407-596 | the same end for any number of workers and any tiles, with puts outside the window and overlapping puts of equal values taken as harmless |
| AllToAll.Meets | mpich-3.3/examples/argobots/sendrecv_ult.c:44-66 | the n-th send of r goes to d if and only if the n-th receive of d is from r; nobody sends to itself |
| AllToAll.HeadMeets | mpich-3.3/examples/argobots/sendrecv_ult.c:42-72 | the message a receive takes is the one sent at the same position, carrying the sender's rank |
| AllToAll.StepInv | mpich-3.3/examples/argobots/sendrecv_ult.c:42-72 | every step keeps the channels exactly the messages sent and not received, and finishes one call |
| AllToAll.Progress | mpich-3.3/examples/argobots/sendrecv_ult.c:42-72 | the schedule never deadlocks for any number of ranks, also with synchronous sends |
| AllToAllRuns.RunSafe | mpich-3.3/examples/argobots/sendrecv_ult.c:42-72 | in every run the calls finished and the calls left add up to 3 * loops * (size - 1) per rank |
| AllToAllRuns.StrictReceived | mpich-3.3/examples/argobots/sendrecv_ult.c:42-72 | in every run with synchronous sends only, the message of each returned send was received and no rank has two unreceived |
| AllToAllRuns.PassTotal | mpich-3.3/examples/argobots/sendrecv_ult.c:65-71 | one pass adds up all the other ranks |
| AllToAllRuns.RunEnds | mpich-3.3/examples/argobots/sendrecv_ult.c:42-72 | every run ends, rank d then holds loops * (size * (size - 1) / 2 - d), and every channel is empty |
| AllToAllRuns.SendOrder | mpich-3.3/examples/argobots/sendrecv_ult.c:42-51 | the sending loops visit the destinations of the schedule in order |
| AllToAllRuns.ReceiveLoop | mpich-3.3/examples/argobots/sendrecv_ult.c:63-72 | the receiving loops visit the sources of the schedule in order and add up their ranks to the closed formula |
| Strided.ShareMembers | mpich-3.3/examples/cpi.c:44-47 | each rectangle 1..n belongs to exactly one rank and occurs once in its share |
| Strided.RankPi | mpich-3.3/examples/cpi.c:41-48 | the strided loop visits exactly the rank's share in order and scales the sum by the width |
| Strided.ReduceIndependent | mpich-3.3/examples/cpi.c:44-50 | for any integrand the reduced sum equals the single-process sum, for any number of ranks |
| Strided.PiIndependent | mpich-3.3/examples/cpi.c:41-50 | the reported value of pi does not depend on the number of processes |
| Strided.Midpoint | mpich-3.3/examples/cpi.c:46 | the sample point of a rectangle lies between its ends and equally far from both |
| Strided.LinearExact | mpich-3.3/examples/cpi.c:41-50 | for an integrand a + b * x the reported value is exactly a + b / 2, for any number of rectangles and processes |
| Strided.IntegrandIs | mpich-3.3/examples/cpi.c:13-16 | the integrand times 1 + a * a is 4 everywhere |
| Strided.OneRectangle | mpich-3.3/examples/cpi.c:41-50 | with one rectangle the reported value is 3.2 |
| Text.EdgeCharacters | scripts/injection/inject_lines.py:183-199 | the tests on a stripped line's first and last character are startswith and endswith on the stripped line |
| Text.EdgePairs | scripts/injection/inject_lines.py:165 | the tests for comment marks are startswith and endswith on the stripped line |
| Text.StripMeaning | scripts/injection/inject_lines.py:165 | stripping takes space characters from both ends and nothing else |
| Text.ReadJoin | scripts/injection/inject_lines.py:154-155 | reading a file back gives the lines that were written |
| Inject.FindPrev | scripts/injection/inject_lines.py:162-167 | the walk up ends at the nearest line that is not a comment, through Python's negative indices |
| Inject.DecideBraces | scripts/injection/inject_lines.py:169-177 | the keyword loops give the same answer in every enumeration order of the two sets: a control word, no brace, no preprocessor word |
| Inject.Collect | scripts/injection/inject_lines.py:187-193 | the inner loop collects the statement of the specification or runs off the end of the file |
| InjectText.StatementEnds | scripts/injection/inject_lines.py:187-193 | a statement never ends, stripped, in a comma or an equals sign; it has several lines if and only if its first line does, and then it ends in a semicolon |
| InjectText.WrappedText | scripts/injection/inject_lines.py:187-205 | the same of the text every injection wraps, so the strings never land inside an argument list or an assignment |
| InjectText.CallExample | scripts/injection/inject_lines.py:187-205 | a call over two lines is wrapped as a whole |
| InjectText.WrappedStart | scripts/injection/inject_lines.py:182-186 | the wrapped text starts one line above the target if and only if that line, stripped, ends in an equals sign and did not get the brace |
| InjectText.FollowingLine | scripts/injection/inject_lines.py:196-205 | on the page a preprocessor line after the statement is unchanged on its own line, and any other has the closing text in front |
| InjectText.OpeningBrace | scripts/injection/inject_lines.py:178-181 | on the page the line after the one that asks for braces starts with the opening brace |
| InjectText.CommentMeaning | scripts/injection/inject_lines.py:165 | a comment line is one that, stripped, starts with // or /* or ends with */ |
| InjectText.UseBracesMeaning | scripts/injection/inject_lines.py:169-177 | braces are asked for exactly by a line with if or else, without a brace and without endif, ifdef or ifndef |
| Inject.Rewritten | scripts/injection/inject_lines.py:178-205 | brace, step back, collection and concatenation leave the lines and the index of the specification |
| Inject.RewriteTarget | scripts/injection/inject_lines.py:161-205 | the whole target branch equals its specification, including when it raises |
| Inject.TargetOnce | scripts/injection/inject_lines.py:159-205 | the target branch leaves an index past the target, so it is entered once despite the step back |
| Inject.InjectLine | scripts/injection/inject_lines.py:157-207 | the loop terminates and writes the prepended text, the lines before the statement, one wrapped element and the lines after it, or raises |
| InjectLines.StatementCode | scripts/injection/inject_lines.py:187-193 | the collected statement is the text of consecutive lines, and of several the first and last are not blank |
| InjectPage.SiteShape | scripts/injection/inject_lines.py:178-199 | the wrapped lines contain the target, begin there or one line above, end before the last line, and the brace stands before them |
| InjectKeeps.InjectedPage | scripts/injection/inject_lines.py:157-211 | reading the written file gives the prepended lines and, line by line, the page described independently of the element list |
| InjectSites.PrevTextNone | scripts/injection/inject_lines.py:162-167 | the walk up fails if and only if every line of the file is a comment |
| InjectSites.PrevTextAbove | scripts/injection/inject_lines.py:162-167 | with a line of text above the target the walk ends at a line before the target |
| InjectSites.StatementMeaning | scripts/injection/inject_lines.py:187-193 | the statement ends with the first line that completes it, if any |
| InjectSites.FirstLineMeaning | scripts/injection/inject_lines.py:182-187 | the statement starts one line above the target if and only if that line ends in an assignment and did not get the brace |
| InjectSites.SucceedsExactly | scripts/injection/inject_lines.py:160-205 | an injection succeeds if and only if some line is text and a line before the last completes the statement |
| InjectSites.PairedExactly | scripts/injection/inject_lines.py:178-196 | an opening brace is added exactly when a closing one is, if and only if the text that asks for braces stands before the target |
| InjectSites.PairedBelowText | scripts/injection/inject_lines.py:160-196 | with any non-comment line above the target the braces are paired |
| InjectSites.UnpairedExample | scripts/injection/inject_lines.py:162-196 | a two-line file whose first line is the target and whose last opens a branch gets a closing brace alone |
| InjectSites.BraceExactly | scripts/injection/inject_lines.py:178-181 | the brace goes to a line with the text of the nearest text line above the target, at or before that line, and to that line itself if and only if no earlier line has the same text |
| InjectSites.WrongBranchExample | scripts/injection/inject_lines.py:162-199 | with the same condition twice above the target the brace opens at the first, while the statement is in the second |
| InjectSites.InjectionKeeps | scripts/injection/inject_lines.py:145-211 | after an injection the file has the prepended lines more, and each physical line still holds the stripped text it had |
| InjectSites.InjectionLeaves | scripts/injection/inject_lines.py:145-211 | away from the start, the brace and the edges of the statement every line is unchanged |
| InjectSites.OutsideKeeps | scripts/injection/inject_lines.py:160-211 | a line number outside the file only prepends |
| InjectTwice.InjectionWraps | scripts/injection/inject_lines.py:187-202 | the written file contains the two strings around a text that holds every line of the target's statement |
| InjectTwice.AllKept | scripts/injection/inject_lines.py:56-62 | after any number of injections every original line keeps its order and text, moved by exactly the newlines of the prepended texts |
| InjectTwice.PreOnLine | scripts/injection/inject_lines.py:183-202 | the text put in front of the statement is on the line of the target or the line above |
| InjectTwice.TwoSitesKeep | scripts/injection/inject_lines.py:137-143 | dropping site, then origin site: every line keeps its number up to the newlines of the origin's prepended text |
| InjectTwice.DroppingStays | scripts/injection/inject_lines.py:137-143 | what the first injection put in front of the statement is still on that line after the second |
| InjectTwice.TwoSitesWrap | scripts/injection/inject_lines.py:137-143 | each injection wraps a chunk with the original text of its requested line: the dropping site's in the file the first one leaves, the origin site's in the final file |
| InjectOrder.TwoSitesInOrder | scripts/injection/inject_lines.py:137-143 | in the final file the dropping site's leading text, the text of its requested line and its trailing text follow each other |
| Strategies.Choose | scripts/injection/inject_lines.py:69-110 | the strings of every pair of strategies; refused exactly for an unknown injection strategy and for a fix strategy outside the second chain |
| Strategies.InjectionTable | scripts/injection/inject_lines.py:80-96 | the strings of each injection strategy at the origin site |
| Strategies.FixTable | scripts/injection/inject_lines.py:98-110 | the strings of each fix strategy around the call at the dropping site |
| Strategies.StringsAddNoLines | scripts/injection/inject_lines.py:66-75 | no pair of strategies puts a newline around a statement |
| Strategies.StrategiesKeep | scripts/injection/inject_lines.py:65-143 | whatever the strategies and sites, both injections into one file keep every original line, moved by the replaced allocation functions only |
| Report.ParseReport | scripts/report_parser.py:76-141 | the loop over the lines ends in the state of the step function, or in the NameError |
| Report.EndBlock | scripts/report_parser.py:101-132 | the end of a block adds one row and adjusts the three counters as specified |
| ReportRuns.CountersExact | scripts/report_parser.py:112-127 | in every run matched is the number of unsaved rows the old csv lists with the row's dropping function, missing that of the other unsaved rows, marked that of the rows whose validity comes from the set of valid functions |
| ReportRuns.NothingListed | scripts/report_parser.py:112-123 | with an old csv without entries nothing is matched and every unsaved row is missing |
| ReportRuns.RowJudgement | scripts/report_parser.py:104-127 | a listed row takes over every field of its entry, any other starts with the given sha alone, and in both an empty validity becomes VALID for a known function |
| Report.LoadOld | scripts/report_parser.py:59-64 | the old csv becomes its entries and valid functions, or raises exactly when a row has fewer than ten fields |
| Report.EntryColumns | scripts/report_parser.py:62 | which column of the old csv becomes which field of an entry, with everything after the tenth joined into the notes |
| Report.EntriesMeaning | scripts/report_parser.py:61-62 | the entry of a file and line is that of its last row |
| Report.ValidMeaning | scripts/report_parser.py:63-64 | a function is known valid if and only if some row marks it |
| ReportRuns.RowFields | scripts/report_parser.py:101-131 | a row's fields come from the first, second and last collected lines, and an unsaved error of a function known valid has a validity |
| ReportRuns.RunHolds | scripts/report_parser.py:82-141 | in every run condensed mode implies an open block, the rows' codes are header codes in order with each header used at most once, and the three counters count the rows they stand for |
| ReportRuns.RowsBelowHeaders | scripts/report_parser.py:82-141 | rows never outnumber headers |
| ReportRuns.RowAdded | scripts/report_parser.py:84-138 | a line adds at most one row, only as the end of a block, with the code of the latest header, never none |
| ReportBlocks.PrintedParses | scripts/report_parser.py:82-141 | parsing any list of well-formed printed blocks gives exactly one row per block, in order; it fails if and only if some block has fewer than two condensed lines |
| ReportBlocks.LineMeaning | scripts/report_parser.py:82-99 | which stripped lines are headers, empty, bars, by their text |
| ReportText.ReadReport | scripts/report_parser.py:48-50 | reading a printed report gives its lines, stripped |
| ReportText.ReportRoundTrip | src/post/main/Path.cpp:83-111 | a text whose stripped lines are those of well-formed blocks is parsed back to one row per block |
| ReportPrinted.PrintReport | src/post/main/Path.cpp:34-111 | the printing loops append header, path, condensed path and bar of one report, in either direction |
| ReportPrinted.ForwardOrder | src/post/main/Path.cpp:34-70 | forward, what is printed of a later message comes first |
| ReportPrinted.BackwardParses | src/post/main/Path.cpp:34-111 | what a run prints in the default direction is parsed to one row per report, in order, and fails if and only if some report has a single condensed message |
| ReportPrinted.ForwardFails | src/post/main/Path.cpp:34-111 | printed forward, the first report with a header ends the parser in the NameError, whatever follows it |
| ReportText.FunctionNameIs | scripts/report_parser.py:28-31 | the function name is what stands between the last quotes without its trailing digits, and the quoted word itself if and only if that does not end in a digit |
| ReportText.CutCharacters | scripts/report_parser.py:30 | the characters cut off a name are the ten digits and the double quote |
| ReportText.NoFunctionName | scripts/report_parser.py:28-31 | a line without the words about receiving an error names no function |
| ReportText.DigitsShareFunction | scripts/report_parser.py:28-132 | functions whose names differ only in trailing digits get the same dropping function and the same standing in the old csv |
| ReportTypes.TypeMeaning | scripts/report_parser.py:16-25 | the kind is decided by the first of the three texts a line holds in lower case, and undetected exactly without any |
| ReportTypes.LowerMeaning | scripts/report_parser.py:17 | lower case maps A to Z to a to z and leaves the rest |
| ReportTypes.PhraseWords | src/post/main/MessageStandard.cpp:71-110 | the words of the eight messages about a variable |
| ReportTypes.VariableMessageType | scripts/report_parser.py:16-25 | a message about a variable is classified as the kind printed, if and only if neither its file nor its variable name holds the words of a kind that is looked for earlier |
| ReportTypes.NamesWithoutSpaces | scripts/report_parser.py:16-25 | with names without spaces an overwriting message is always classified as such, and an out-of-scope message is unless a name holds the word overwriting |
| ReportTypes.Misfiled | scripts/report_parser.py:16-25 | an out-of-scope message about any variable whose name starts with overwriting is classified as overwritten |
| ReportTypes.MisfiledExample | scripts/report_parser.py:16-25 | the variable overwriting_err is one |
| ReportTypes.UnsavedMessageType | src/post/main/MessageStandard.cpp:87-94 | a message about an unsaved error is always classified as unsaved |
| ReportTypes.MessageContains | src/post/main/MessageStandard.cpp:71-110 | a text without colons and quotes is in a message if and only if it is in its place, its phrase or its target |
| ReportAgain.EntryOfFields | scripts/report_parser.py:62-131 | a row written field by field is read back as an entry with every field in its place |
| ReportAgain.LoadedCoherent | scripts/report_parser.py:59-64 | in every old csv that loads, an entry marked VALID is about a function known valid |
| ReportAgain.RunSound | scripts/report_parser.py:112-132 | no run marks a row VALID unless the old csv knows its dropping function as valid |
| ReportAgain.RunLockstep | scripts/report_parser.py:82-141 | where the blocks are, and whether parsing fails, does not depend on the old csv |
| ReportAgain.SameRowAgain | scripts/report_parser.py:112-131 | an unsaved block whose row is the last for its file and line gets the very same row with the rows of the run as old csv |
| ReportAgain.RunAgain | scripts/report_parser.py:59-132 | parsing a report again with its own rows, without numbers in front, as old csv gives as many rows and repeats each such row: no judgement is lost or invented |
| ReportAgain.NumberedKnowsNothing | scripts/report_parser.py:158-167 | read back with its column names and running numbers, the unsaved file makes no function known valid |
| ReportAgain.NumberedRow | scripts/report_parser.py:59-132 | with the unsaved file as old csv, a block whose file and line is not one of the error codes gets the row it has without any old csv, with no validity |
| ReportAgain.RunNumbered | scripts/report_parser.py:59-167 | parsing a report again with the unsaved file it wrote repeats the rows of a run without any old csv, apart from blocks whose file and line is one of the error codes: every judgement is lost |

## Left out

- Several images in one session: the outer loop over limits read from the visualizer or a file, its broadcasts and its end condition; one round is modelled.
- Sockets, standard input, parameter reading, timing, prompts, and the text the image writer prints; only what reaches the grid or window is modelled.
- The random source of the shuffle is a sequence of picks given to `Tiles.Shuffle`, any length and any picks.
- Machine integers and floating point: integers are unbounded, coordinates and sums are exact reals, and distances are compared squared instead of through a square root.
- Picture.OutputData: asks that the tile's elements lie in the array, because what an overrun does is not modelled; `Picture.RoundFits` says exactly when no tile of a round overruns.
- FenceImage.HarmlessRunShowsImage: takes puts outside the window and overlapping puts of one epoch as harmless, because the model's grid has an element at every address and delivers elements one by one; in the program the first is an MPI error and the outcome of the second is undefined.
- Fractal.ComputeAndPut: asks that the rectangle lies in the local array, which the padding rectangle at (-1, -1) does not; what its store before the array does is not modelled.
- More workers than pieces in the message-passing versions: the source excludes it in a comment, and the clamp discharges it for the request-array version.
- MPI failures, MPI_Abort and the start of the processes.
- More than one sending and one receiving thread per rank, and an empty buffer, in the all-to-all exchange.
- `exponential_complex`, `divide_complex`, `inverse_complex` and the equations the worker loops do not call.
- `pmandel_service.c` and `pmandel_spaserv.c` repeat the two message-passing schedulers with another visualizer link.
- File system access of the scripts: paths, the search below src/mpi/romio, logging, and splitting the input lines into sites and strategies; a site is a line number.
- Whitespace is the ASCII whitespace of strip, lower is ASCII only, and newlines are `\n`; Python also knows further whitespace and newline forms.
- The two long texts of replacement allocation functions are parameters of `Strategies.Choose`; any text may be prepended.
- The regular expression that finds a path in a report line is a function given to the parser.
- Splitting csv lines at commas and quoting them: a row of the old csv is a list of fields.
- After the loop the report parser removes duplicate rows and filters them by type; `ReportAgain.RunNumbered` holds for any rows and numbers in the written file.
- Report printing: how a path's messages are found and filtered, reports of the kinds without a header line, the other formatters, and a condensed path that holds its last message object twice.
