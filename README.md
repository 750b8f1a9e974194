# Everybody Codes 2024 solvers, modelled in Dafny

This project models the solvers of the Rust repository `everybody-codes-2024`
for the days that have real logic (1, 2, 3, 4, 5, 7, 8 and 10), together with
its two generic utilities: a breadth-first search and a cycle-finding iterator
adapter. Each source file becomes one module (day 7 is split into three:
track, plans and race). Code that mutates state becomes methods:
- the pyramid, the dancer world, the chariots, the cycle finder and the carving sweep;
- loops over masks, grids and blocks.

Each method is proved against a specification function. The properties the
source relies on are lemmas about those functions.

Shared modules:
- `Wrappers`: `Option`.
- `Text`: Rust's `str::lines`, `split`, `split_whitespace`, `parse` and `to_string`, on `seq<char>`.
- `Numbers`: sums and small arithmetic facts.

Where the source panics (`unwrap` on `None`, an invalid character, a division
by zero, an out-of-range index), the model either asks for a precondition that
rules the panic out, or returns `None`. Loops that the source runs forever
under some inputs get a precondition or a ghost bound that excludes those inputs.

## Model

| member | source | states |
|---|---|---|
| Bfs.BuildPathFromPrecursors | src/utils/bfs.rs:6-17 | following recorded precursors back from the goal and reversing gives a path from start to goal. It has one node per hop of the goal's distance and repeats no node |
| Bfs.ReversedWalkIsPath | src/utils/bfs.rs:10-16 | a walk from node to precursor, reversed, steps along edges of the graph |
| Bfs.ReversedWalkNoRepeats | src/utils/bfs.rs:12-15 | precursors lose one hop of distance each, so the rebuilt path repeats no node |
| Bfs.Search | src/utils/bfs.rs:20-41 | bfs returns a repeat-free path from start to goal that no other path beats in hops. It returns None exactly when the goal is unreachable, and `[start]` when start is the goal |
| Bfs.VisitNeighbors | src/utils/bfs.rs:32-38 | every successor of the popped node ends up visited. Each new one is queued once, with the node as its precursor and one hop more than it |
| Bfs.StartVisit | src/utils/bfs.rs:28 | popping the head of the FIFO frontier keeps the search invariant: the frontier is ordered by distance and spans at most one hop |
| Bfs.VisitOne | src/utils/bfs.rs:33-37 | enqueueing an unvisited successor and recording its precursor keeps the invariant, and uses up one node of the finite universe |
| Bfs.FinishVisit | src/utils/bfs.rs:32-38 | once every successor of the node is visited, the node counts as expanded and the search invariant holds again |
| Bfs.PrecursorsExtend | src/utils/bfs.rs:35 | a precursor is only ever recorded for a successor of the popped node, one hop further from start |
| Bfs.AppendToFrontier | src/utils/bfs.rs:33-34 | only unvisited nodes are pushed, so the queue never holds a node twice and covers every visited, unexpanded node |
| Bfs.AppendKeepsLayers | src/utils/bfs.rs:34 | the FIFO queue stays sorted by distance, within one hop of the node being expanded |
| Bfs.NewDistanceKeepsBounds | src/utils/bfs.rs:36 | a newly visited node gets distance d + 1. Expanded nodes keep distances at most d and their successors stay visited |
| Bfs.CloseNodesVisited | src/utils/bfs.rs:25-38 | any node a path of k hops reaches from start is visited with distance at most k, as long as the goal has not been popped |
| Bfs.NoShorterPath | src/utils/bfs.rs:28-30 | when the goal is popped, no path reaches it in fewer hops than its recorded distance |
| Bfs.GoalAtHead | src/utils/bfs.rs:28-30 | a goal at the head of the frontier is visited, and no path beats its distance |
| Bfs.ClosedSetHoldsPaths | src/utils/bfs.rs:28-40 | a set that holds start and is closed under successors holds the end of every path from start |
| Bfs.Unreachable | src/utils/bfs.rs:39-40 | an emptied queue leaves a visited set closed under successors. A goal outside it is unreachable, so None is right |
| Bfs.UnseenShrinks | src/utils/bfs.rs:33-37 | visiting a new node shrinks the finite set of unseen nodes, so the search ends |
| Bfs.FiniteUniverse | src/utils/bfs.rs:32 | the successor table is finite, so one finite set holds start and every successor |
| CycleFinding.CycleFinder.FindCycle | src/utils/cycle_finder.rs:33-42 | find_cycle starts with the inner sequence at its start and an empty seen set |
| CycleFinding.CycleFinder.Next | src/utils/cycle_finder.rs:19-29 | None when the inner iterator is exhausted, or when the pulled element was seen (which still consumes it); otherwise the element, unchanged, which joins seen. seen always equals the set of elements emitted, all distinct |
| CycleFinding.CycleFinder.Collect | src/utils/cycle_finder.rs:19-29 | collecting yields exactly the longest repeat-free prefix of the remaining inner elements |
| CycleFinding.PrefixUntilRepeatIsLongest | src/utils/cycle_finder.rs:19-29 | the collected prefix is a prefix of the inner sequence, pairwise distinct and unseen, and no longer prefix is repeat-free |
| CycleFinding.PrefixCases | src/utils/cycle_finder.rs:19-29 | the repeat-free prefix is empty at the end or at a seen element, and otherwise is the new element followed by the prefix after it with that element seen |
| CycleFinding.PrefixStep | src/utils/cycle_finder.rs:19-29 | an element not seen yet begins the repeat-free prefix from its position |
| CycleFinding.ExamplePrefix | src/utils/cycle_finder.rs:53-55 | the repeat-free prefix of [1,2,3,4,5,1,2,3,4,5] is [1,2,3,4,5] |
| CycleFinding.CollectExample | src/utils/cycle_finder.rs:52-56 | the adapter run over [1,2,3,4,5,1,2,3,4,5] collects [1,2,3,4,5] |
| CycleFinding.NotFusedExample | src/utils/cycle_finder.rs:19-29 | the adapter is not fused: after the None for a repeat, the next call yields a fresh element |
| Day7Track.RotationsAreInverse | src/day7.rs:55-71 | rotating clockwise and counterclockwise undo each other |
| Day7Track.RotateClockwise | src/day7.rs:55-62 | a quarter turn right always changes the direction, and moves it to the other axis |
| Day7Track.RotateCounterclockwise | src/day7.rs:64-71 | a quarter turn left always changes the direction, and moves it to the other axis |
| Day7Track.FourQuarterTurns | src/day7.rs:55-62 | four clockwise turns are the identity, and one, two or three are not |
| Day7Track.TryMarch | src/day7.rs:73-110 | try_march steps one cell in the direction, with North meaning y + 1. From a cell of the grid it returns None exactly when the step leaves the width-by-height grid |
| Day7Track.FromChar | src/day7.rs:120-130 | '+' is AddOne, '-' SubtractOne, '=' and 'S' Maintain, each in both directions; other characters are excluded |
| Day7Track.FromToChar | src/day7.rs:120-130 | every action is read back from the character that draws it |
| Day7Track.MaxLength | src/day7.rs:215 | the width is the length of the longest line |
| Day7Track.PaddedRow | src/day7.rs:220-225 | each line becomes width cells: blanks are None, other characters their action, padding None |
| Day7Track.GridCellsAt | src/day7.rs:218-227 | the flattened grid holds, at vec_idx(x, y), the cell x along line height - 1 - y |
| Day7Track.DrawingTail | src/day7.rs:218-227 | the lines after the first still form a drawing no wider than the width |
| Day7Track.DrawingSnoc | src/day7.rs:218-227 | one more line of drawing characters no wider than the width still forms a drawing of that width |
| Day7Track.ReadGrid | src/day7.rs:214-226 | the first loop pads every line to the width, appends it to the grid and counts the lines |
| Day7Track.Turn | src/day7.rs:239-271 | the walk turns right if that cell is track, else goes straight, else turns left. Each move lands on a track cell inside the grid |
| Day7Track.NextCell | src/day7.rs:239-271 | the loop body picks exactly the move Turn describes |
| Day7Track.FollowTrack | src/day7.rs:231-272 | the second loop records, from the cell east of the corner round to the corner, the action of every cell it leaves |
| Day7Track.FollowStep | src/day7.rs:236-238 | each pass moves the first action of the walk still to go onto the end of the recorded track |
| Day7Track.TrackSpec | src/day7.rs:273-276 | a track read from a drawing ends with the start's Maintain |
| Day7Track.Walk | src/day7.rs:236-272 | the walk from a cell collects at most one action per step of its bound, and is empty exactly when it starts at the top-left corner |
| Day7Track.TrackFromAscii | src/day7.rs:212-277 | track_from_ascii returns the walk round the drawing followed by the start's Maintain |
| Day7Plans.Tally | src/day7.rs:21-28 | the fold counts the '+', '-' and '=' of a partial plan |
| Day7Plans.CountsMakeLength | src/day7.rs:21-28 | the three counts add up to the plan's length |
| Day7Plans.GeneratePlansRecursive | src/day7.rs:16-44 | the set gains exactly the full plans reachable from the partial plan, extending by '+' below five and by '-' and '=' below three |
| Day7Plans.GeneratedStep | src/day7.rs:29-43 | a plan is reached from a partial plan through exactly one allowed one-action extension |
| Day7Plans.GeneratedFromEmpty | src/day7.rs:10-14 | from the empty plan, the reachable plans are exactly those of length 11 with 5 '+', 3 '-' and 3 '=' |
| Day7Plans.PlansWithMembers | src/day7.rs:16-44 | the plans built first action by first action are exactly the sequences with the given counts |
| Day7Plans.PlansWithCard | src/day7.rs:16-44 | there are multinomially many sequences with given counts of the three actions |
| Day7Plans.MultinomialFactorials | src/day7.rs:16-44 | the multinomial recurrence equals (a+s+m)! / (a! s! m!) |
| Day7Plans.PlanCount | src/day7.rs:16-44 | 11! / (5! 3! 3!) = 9240 |
| Day7Plans.GeneratePossiblePlans | src/day7.rs:10-14 | generate_possible_plans yields every full plan and nothing else, 9240 of them |
| Day7Race.Apply | src/day7.rs:140-148 | apply_instruction stores the new power, adds it to the essence, and wraps the plan index below the plan's length |
| Day7Race.PowerAfterBounds | src/day7.rs:142-143 | over a run of actions, power ends between start + '+' - '-' and start + '+'. Starting at least as high as the run is long, it ends exactly at start + '+' - '-' |
| Day7Race.Chariot.FromParts | src/day7.rs:151-169 | a parsed chariot starts with power 10, essence 0 and index 0 |
| Day7Race.Chariot.ApplyInstruction | src/day7.rs:140-148 | the chariot's state becomes Apply of its old state |
| Day7Race.World.FromParts | src/day7.rs:292-296 | a world starts at segment 0 with the given chariots and track |
| Day7Race.World.RunStep | src/day7.rs:179-197 | every chariot runs the track's '+' or '-', or its own plan's action under '='. The chariots stay the same ones, and the segment moves on, wrapping at the track's end |
| Day7Race.World.RunSteps | src/day7.rs:199-203 | n steps leave each chariot in its state after n steps, and the segment n further on |
| Day7Race.World.RunLoop | src/day7.rs:205-210 | a lap of track length steps returns the segment to where it started |
| Day7Race.World.Results | src/day7.rs:306-309 | the results are each chariot's name and essence, in order |
| Day7Race.World.AddChariots | src/day7.rs:331-339 | extend appends the new chariots and leaves the segment |
| Day7Race.NextSegment | src/day7.rs:193-196 | the next segment is still a valid index into the track |
| Day7Race.StepChariot | src/day7.rs:185-191 | a chariot's plan index stays below its plan's length |
| Day7Race.SegmentAfterNoTrack | src/day7.rs:193 | without a track the segment just counts steps |
| Day7Race.SegmentAfterAdd | src/day7.rs:199-203 | a + b steps are a steps and then b more |
| Day7Race.SegmentAfterBeforeEnd | src/day7.rs:193-196 | before the end of the track the segment moves one per step |
| Day7Race.LapReturnsSegment | src/day7.rs:205-210 | one lap of the track brings the segment back |
| Day7Race.LapsReturnSegment | src/day7.rs:317-319 | any number of whole laps bring the segment back |
| Day7Race.PlanIndexFollows | src/day7.rs:147 | the plan index advances by one per step whatever the action, modulo the plan's length |
| Day7Race.PlanIndexCycles | src/day7.rs:147 | after as many steps as the plan is long, the plan index is back where it was |
| Day7Race.EssenceGrows | src/day7.rs:142-146 | essence never decreases over more steps, and power grows by at most one per step |
| Day7Race.ChariotAfterAdd | src/day7.rs:199-210 | a chariot's steps compose over consecutive runs |
| Day7Race.OneMoreLap | src/day7.rs:317-319 | lap i + 1 starts at the first segment, where lap i ended |
| Day7Race.RunLaps | src/day7.rs:317-319 | laps calls to run_loop take each chariot laps times round the track, ending at segment 0 |
| Day7Race.EveryoneOneMoreLap | src/day7.rs:317-319 | for every chariot, lap i + 1 starts where lap i ended, at the first segment |
| Day7Race.NewChariots | src/day7.rs:284-289 | each parsed line gives a new chariot at the start, with its name and plan |
| Day7Race.ParseAction | src/day7.rs:156-161 | only the tokens "+", "-" and "=" parse, each to its action |
| Day7Race.ParseActions | src/day7.rs:156-161 | a plan parses exactly when every token does, one action per token |
| Day7Race.ParseChariot | src/day7.rs:153-169 | a parsed chariot has at least one action to follow |
| Day7Race.ParseChariots | src/day7.rs:284-289 | one chariot per line |
| Day7Race.WorldSpec | src/day7.rs:280-298 | a parsed world has plans to follow and a valid first segment |
| Day7Race.ParseWorld | src/day7.rs:280-298 | from_str builds the chariots and track of WorldSpec at segment 0 |
| Day7Race.InsertSorted | src/day7.rs:310 | inserting into a highest-first list keeps it ordered |
| Day7Race.InsertMultiset | src/day7.rs:310 | insertion adds exactly the new result |
| Day7Race.RankSorted | src/day7.rs:310 | the ranking is ordered by essence, highest first |
| Day7Race.RankPermutation | src/day7.rs:310 | the ranking is a permutation of the results |
| Day7Race.RankStable | src/day7.rs:310 | results of equal essence keep their order (sorted_by is stable) |
| Day7Race.Rank | src/day7.rs:310 | the ranking has one entry per result; its order, contents and stability are stated by RankSorted, RankPermutation and RankStable |
| Day7Race.Names | src/day7.rs:312 | the names are taken in order from the results |
| Day7Race.Ranking | src/day7.rs:312 | with single-letter names, the answer has one letter per chariot, letter k naming the chariot ranked k |
| Day7Race.Race | src/day7.rs:305-309 | the results of a race keep the chariots' names in their input order, one per chariot |
| Day7Race.Part1 | src/day7.rs:303-313 | part 1 ranks the chariots after ten steps |
| Day7Race.Part2 | src/day7.rs:315-327 | part 2 ranks the chariots after ten laps of the track |
| Day7Race.Listing | src/day7.rs:333 | the set of plans is listed once each, in some order |
| Day7Race.Strategies | src/day7.rs:333-339 | each plan becomes a chariot named "S" |
| Day7Race.Field | src/day7.rs:331-339 | the field is the parsed chariots followed by the plan chariots |
| Day7Race.Enlist | src/day7.rs:330-339 | the world of part 3 holds the parsed chariots, then one "S" for each of the 9240 plans |
| Day7Race.Contenders | src/day7.rs:330-339 | one fresh "S" chariot for each of the 9240 plans, each plan listed once |
| Day7Race.CountAbove | src/day7.rs:347-352 | the count is at most the number of chariots. It is 0 exactly when none has more than the bar, and all of them exactly when all do |
| Day7Race.Part3 | src/day7.rs:329-354 | part 3 counts the chariots with more essence than the first after 2024 laps, over all 9240 plans |
| Day7Race.NoTrackFollowsPlan | src/day7.rs:180-190 | without a track every chariot follows its own plan |
| Day7Race.RaceWithoutTrack | src/day7.rs:305-309 | without a track each result is what the chariot's own plan collects |
| Day7Race.ExampleRanking | src/day7.rs:366-373 | the example's chariots collect 103, 116, 107 and 110 and rank "BDCA" |
| Day7Race.RankingOf | src/day7.rs:366-373 | any world parsed to the example's four entries without a track ranks "BDCA" |
| Day8.Pyramid.constructor | src/day8.rs:15-22 | new(): rows [1], sum 1, thickness 1, half heights [1] |
| Day8.Pyramid.AddRow | src/day8.rs:24-28 | add_row appends a row two wider than the last and adds it to the sum. A thin pyramid stays thin: rows 1, 3, 5, ... |
| Day8.Pyramid.AddRowP2 | src/day8.rs:30-38 | the new thickness is old * priests mod 1111. That many rows of width last + 2 are appended and summed, and a thickness of 0 adds nothing, so the bottom width grows by 2 exactly when the thickness is not 0 |
| Day8.Pyramid.AddRowP3 | src/day8.rs:40-52 | the new thickness is old * priests mod 10 + 10, so it lies in 10..19. The rows and sum grow by it, and every half height rises by it behind a new outer column. The heights keep decreasing outward |
| Day8.Pyramid.ColumnHeights | src/day8.rs:54-63 | the column heights span the bottom row, read from the half at each column's distance from the centre, and are mirror-symmetric |
| Day8.Pyramid.EmptyBlocks | src/day8.rs:65-78 | empty_blocks of the pyramid's profile |
| Day8.ProfileMirror | src/day8.rs:54-63 | for an odd width the profile reads the same from both ends, and its centre column is the half's first height |
| Day8.Profile | src/day8.rs:54-63 | the profile has one height per column of the bottom row; ProfileMirror states its symmetry and its centre |
| Day8.Raise | src/day8.rs:47-49 | every column height rises by the thickness, and the length is kept |
| Day8.EmptyOf | src/day8.rs:65-78 | no empty blocks for a single column; otherwise at most 9 per interior column |
| Day8.Leftover | src/day8.rs:72-76 | each column leaves at most 9 |
| Day8.RaiseDecreasing | src/day8.rs:46-49 | a new outer column of 0 and a rise of at least one keep the half heights decreasing outward |
| Day8.SumRepeat | src/day8.rs:34-37 | a layer of t rows of width w holds t * w blocks |
| Day8.AddLayer | src/day8.rs:34-37 | appending a layer adds t * w to the sum; the last row becomes w unless the layer is empty |
| Day8.ThinSum | src/day8.rs:24-28 | n thin rows hold n * n blocks |
| Day8.ThinRows | src/day8.rs:87-89 | the loop stops at the first row count whose square reaches the target |
| Day8.ThinExample | src/day8.rs:128-132 | 13 blocks give 21 |
| Day8.Part1 | src/day8.rs:84-93 | part 1 returns the surplus of the first thin pyramid holding the target, times its width |
| Day8.ThicknessNeverZero | src/day8.rs:31 | when the priests are no multiple of 11, the second rule's thickness is never a multiple of 11, so never 0 |
| Day8.MulModEleven | src/day8.rs:31 | products and remainders modulo 11 commute |
| Day8.ElevenIsPrime | src/day8.rs:31 | two non-multiples of 11 multiply to a non-multiple |
| Day8.GrowP2 | src/day8.rs:99-101 | growth stops with at least the block count, never shrinking the sum or the width |
| Day8.P3Thickness | src/day8.rs:41 | the third rule's thickness always lies in 10..19 |
| Day8.SteppedGrows | src/day8.rs:40-52 | a layer at least 10 thick keeps the half heights decreasing, as many as the bottom row's half width, and the bottom layer at ten blocks per unit of width |
| Day8.LayerValid | src/day8.rs:30-52 | a layer two wider than the last row keeps the total equal to the sum of the rows and the bottom width odd; the bottom width is the new one unless the layer is empty |
| Day8.OnTheWayP2Next | src/day8.rs:99-101 | below the target, a layer of the second rule adds blocks and growth goes on to the same end |
| Day8.LayerP2 | src/day8.rs:99-101 | one pass of the loop adds blocks and keeps the pyramid on its way to the final one |
| Day8.Part2 | src/day8.rs:95-105 | part 2 returns the surplus over 20240000 times the width |
| Day8.EmptyWithinSum | src/day8.rs:112-115 | the empty blocks never exceed the sum, so the subtraction cannot underflow |
| Day8.P3Step | src/day8.rs:112-114 | a layer of the third rule strictly increases blocks less empty ones and widens the bottom by 2 |
| Day8.GrowP3 | src/day8.rs:112-114 | growth stops once the blocks less the empty ones reach the target |
| Day8.GrowP3Unfold | src/day8.rs:112-114 | below the target, growth goes on from the next layer |
| Day8.Layer | src/day8.rs:112-114 | one pass of the loop adds a layer and recounts the empty blocks, making progress |
| Day8.OnTheWayNext | src/day8.rs:112-114 | below the target, the next layer of the third rule keeps growth on its way to the same end, with more blocks net of the empty ones |
| Day8.Part3 | src/day8.rs:107-117 | part 3 returns the blocks less the empty ones, over 202400000 |
| Day5.InsertIndex | src/day5.rs:40-56 | the insertion index lies in 0..len, and is at least 1 after a full or returning round |
| Day5.Spot | src/day5.rs:42-56 | the clapper walks down the left side and back up the right, beside dancers 1 to len |
| Day5.SpotFirstRound | src/day5.rs:47-56 | in the first round the clapper goes straight down, then straight up |
| Day5.SpotRoundAgain | src/day5.rs:43 | after 2 * len claps the clapper is back where it started |
| Day5.SpotLastRound | src/day5.rs:43 | only the claps of the last, unfinished round count |
| Day5.ClapsPlaceClapper | src/day5.rs:42-56 | the index dance computes is where the clapper stands after its number of claps; 0 claps counts as a full round |
| Day5.Next | src/day5.rs:38 | the next column is another of the four |
| Day5.NextWraps | src/day5.rs:38 | it is (c + 1) % 4 |
| Day5.Insert | src/day5.rs:46-55 | VecDeque::insert puts x at index i and keeps the rest in order |
| Day5.Step | src/day5.rs:33-56 | a dance keeps four columns; the dancing column loses one dancer and the next gains one |
| Day5.StepMoves | src/day5.rs:32-56 | a dance removes the dancing column's head and inserts it into the next column at InsertIndex; the other two columns are unchanged |
| Day5.StepKeepsClappers | src/day5.rs:32-56 | a dance loses and makes no dancer |
| Day5.ShoutIsNumber | src/day5.rs:59 | the shout is a decimal number, so parsing it never fails |
| Day5.Shout | src/day5.rs:59 | the shout has at least four digits, one number per column |
| Day5.StepKeepsRounds | src/day5.rs:34-43 | from four columns of at least 2, a dance always finds a head to pop and a non-empty target |
| Day5.Dances | src/day5.rs:117-121 | repeated dances keep the column sizes in their pattern |
| Day5.DancesNext | src/day5.rs:117-121 | k + 1 dances are one step on from k |
| Day5.LineClappers | src/day5.rs:74-78 | a line gives its first four numbers, and fails exactly when it has fewer or one is no number |
| Day5.ColumnGrows | src/day5.rs:74-79 | each line puts one dancer at the back of each column |
| Day5.ColumnsOf | src/day5.rs:64-86 | four columns, each as long as the input has lines |
| Day5.World.Parse | src/day5.rs:64-86 | from_str gives the input's columns with column 0 dancing first |
| Day5.World.Dance | src/day5.rs:32-61 | dance applies Step to the columns, moves to the next column and returns the new shout |
| Day5.DanceAgain | src/day5.rs:117-121 | each dance of the loops ends with the shout of that round |
| Day5.Part1 | src/day5.rs:114-124 | part 1 returns the shout after ten dances |
| Day5.ShoutsAt | src/day5.rs:131-132 | entry i of the shouts is the shout that ends dance i + 1 |
| Day5.ShoutsPrefix | src/day5.rs:131-144 | the shouts of fewer dances begin the shouts of more |
| Day5.FirstRepeat | src/day5.rs:138 | the first round whose shout is heard for the 2024th time |
| Day5.FirstRepeatAnyBound | src/day5.rs:131-145 | the first such round does not depend on the bound of the search |
| Day5.TallyNext | src/day5.rs:133-138 | entry().and_modify().or_insert() counts one more hearing, and the 2024th hearing is the repeat |
| Day5.Hear | src/day5.rs:132-138 | one round dances, counts the shout and reads it as a number |
| Day5.ShoutHeard | src/day5.rs:138-144 | the first repeated round ends the loop; otherwise the loop goes on |
| Day5.Listen | src/day5.rs:129-145 | the loop returns the repeated shout times its round |
| Day5.Part2 | src/day5.rs:126-146 | part 2 returns the first shout heard 2024 times, times its round |
| Day5.Highest | src/day5.rs:154-160 | the maximum of the shouts, or 0 |
| Day5.Loudest | src/day5.rs:154-165 | the loop keeps the loudest shout so far |
| Day5.Part3 | src/day5.rs:148-166 | part 3 returns the loudest shout of ten million dances |
| Day5.ExampleFirstDance | src/day5.rs:32-61 | the example's first dance moves 2 into the second column at index 1, and the shout is 3345 |
| Day2.Extended | src/day2.rs:9-16 | linear mode appends the sentinel, ring mode does not |
| Day2.RotateIndex | src/day2.rs:36-37 | after i left rotations, index j holds the element i places further round |
| Day2.RotateOnce | src/day2.rs:36-37 | one more rotate_left(1) is one more rotation |
| Day2.FitsMeans | src/day2.rs:22-34 | the check at an alignment holds exactly when the line begins with the word, forwards or reversed |
| Day2.Fits | src/day2.rs:22-28 | a check can only hold when the word is no longer than the line |
| Day2.Mask | src/day2.rs:7-42 | the specified mask has one entry per character of the extended line; MaskMeans says what each entry means |
| Day2.MarkFirst | src/day2.rs:25-27 | iter_mut().take(k) sets exactly the first k entries |
| Day2.MarkStep | src/day2.rs:21-38 | one rotation's check and mark advances the mask by one start |
| Day2.PassWord | src/day2.rs:20-38 | one word's pass leaves the mask in the line's own alignment, with that word's matches added |
| Day2.MatchMask | src/day2.rs:7-42 | the mask has the line's length, plus one in linear mode, and is Mask over all words |
| Day2.MaskMeans | src/day2.rs:22-34 | an entry is set exactly when some word, read forwards or backwards from some start, covers it (cyclically) |
| Day2.AnyMeans | src/day2.rs:22-34 | an entry is covered by some word exactly when some word and start cover it |
| Day2.MaskGrows | src/day2.rs:25-33 | entries only go from false to true: the mask is a union over words |
| Day2.LinearMatchesInLine | src/day2.rs:12-16 | in linear mode a word without '$' only matches inside the line |
| Day2.SentinelUnmarked | src/day2.rs:12-16 | with no '$' in any word, the sentinel's entry stays false |
| Day2.SentinelNotCounted | src/day2.rs:83-85 | so counting the mask counts only the line's own characters |
| Day2.CountTrueAppend | src/day2.rs:125 | counts over consecutive masks add up |
| Day2.OccursWhenSpelled | src/day2.rs:62 | a non-empty word occurs in the sentence exactly when some stretch spells it |
| Day2.OccurrencesFit | src/day2.rs:62 | matches do not overlap: occurrences times the word's length fit in the sentence |
| Day2.Occurrences | src/day2.rs:62 | a non-empty word occurs at most once per character of the sentence |
| Day2.Part1 | src/day2.rs:47-67 | part 1 adds up each word's occurrences in the third line |
| Day2.Part2 | src/day2.rs:69-88 | part 2 adds up the linear-mode marked characters of every body line |
| Day2.Column | src/day2.rs:113-117 | column x is character x of each line, top to bottom |
| Day2.ColumnOf | src/day2.rs:114-117 | the loop collects column x |
| Day2.Runes | src/day2.rs:103-124 | a cell is marked when its row marks it in ring mode, or its column does in linear mode |
| Day2.RowPass | src/day2.rs:105-111 | after the row loop, each matrix row is that row's ring-mode mask |
| Day2.CopyRow | src/day2.rs:108-110 | copying a mask sets row i and nothing else |
| Day2.MarkColumn | src/day2.rs:118-123 | column x's first linear-mode entries, as many as the grid's height, are ORed into the matrix |
| Day2.Part3 | src/day2.rs:90-126 | part 3 counts the cells marked by rows or columns |
| Day3.Carved | src/day3.rs:14-58 | one round raises exactly the diggable cells, all tested against the grid before the round |
| Day3.CarvedChanges | src/day3.rs:56-60 | a round changes the grid exactly when some cell is diggable |
| Day3.AllNeighbours | src/day3.rs:26-53 | the neighbour test is true exactly when every orthogonal neighbour (and diagonal one when asked) is at least depth - 1 |
| Day3.Supported | src/day3.rs:25-53 | at depth 1 or less every cell is supported, since no depth is below 0 |
| Day3.Dug | src/day3.rs:18-57 | a cell rises by at most one in a round, and edge cells never rise |
| Day3.SweptSupports | src/day3.rs:14-58 | mid-sweep, a cell is below depth - 1 exactly when it was before the round, so the in-place test sees the old grid |
| Day3.DigCell | src/day3.rs:16-57 | one cell of the sweep is raised exactly when it is diggable in the old grid |
| Day3.CarveDeeper | src/day3.rs:6-61 | the in-place sweep gives the simultaneous round, and returns true exactly when the grid changed |
| Day3.CarvedRaises | src/day3.rs:54-56 | only cells at depth - 1 change, and they become depth |
| Day3.CarvedKeepsEdge | src/day3.rs:22-24 | edge cells never change |
| Day3.CarvedNeedsNeighbours | src/day3.rs:26-38 | a raised cell is off the edge, and all four orthogonal neighbours are at least depth - 1 |
| Day3.CarvedShallow | src/day3.rs:79-82 | depths stay at most the distance from the left edge plus one, so digging stops by depth width + 1 |
| Day3.Excavated | src/day3.rs:79-82 | rounds at increasing depth until one raises nothing keep the grid's size and shape |
| Day3.Ground | src/day3.rs:67-78 | '#' gives depth 1, everything else 0 |
| Day3.ParseGrid | src/day3.rs:70-78 | the parse loops build Ground |
| Day3.Dig | src/day3.rs:66-84 | parse, dig from depth 2 while a round changes something, and sum the depths |
| Day3.Part1 | src/day3.rs:66-84 | part 1 uses orthogonal neighbours |
| Day3.Part2 | src/day3.rs:86-89 | part 2 is part 1 |
| Day3.Part3 | src/day3.rs:91-109 | part 3 also counts diagonal neighbours |
| Day10.Take | src/day10.rs:15 | take(n) keeps the first n elements, or all of them |
| Day10.Drop | src/day10.rs:15 | skip(n) drops the first n elements |
| Day10.NoDots | src/day10.rs:21 | filter drops exactly the dots, keeping the order |
| Day10.Block | src/day10.rs:12 | a block is at most 8 lines from offset_y |
| Day10.PushColumns | src/day10.rs:15-17 | the c-th letter is pushed onto the c-th column |
| Day10.BlockColumns | src/day10.rs:12-18 | each column holds the letters at 2 + offset_x + c of lines 0, 1, 6 and 7 |
| Day10.BlockRows | src/day10.rs:20-21 | row r holds line 2 + r from offset_x on, without dots |
| Day10.ParseInput | src/day10.rs:8-24 | parse_input returns the block's columns and rows |
| Day10.ParseLine | src/day10.rs:12-22 | after line i of the block, each column holds the letters at 2 + ox + c of the top and bottom lines so far, and each middle row read so far holds its line's letters from ox on without dots |
| Day10.ColumnsStep | src/day10.rs:14-18 | a top or bottom line adds its c-th letter after 2 + ox to column c when it reaches that far; a middle line adds nothing |
| Day10.FirstSharedMeans | src/day10.rs:34-43 | the cell is the first character of the row that the column holds, or '?' when there is none |
| Day10.FirstShared | src/day10.rs:33-43 | the answer is '?' or a character both the row and the column hold |
| Day10.Shared | src/day10.rs:30-43 | the search loop finds that character |
| Day10.Word | src/day10.rs:26-47 | the word has 16 letters, letter 4y + x being row y's first shared with column x |
| Day10.RunicWord | src/day10.rs:26-47 | runic_word builds that word |
| Day10.PowerBounds | src/day10.rs:49-59 | the power lies between 1 + ... + n and 26 times that, for capitals |
| Day10.PowerSnoc | src/day10.rs:53-57 | one more letter adds (its byte - 'A' + 1) times its position |
| Day10.Power | src/day10.rs:49-59 | the power is 0 exactly for the empty word |
| Day10.PowerExample | src/day10.rs:146-147 | "PTBVRCZHFLJWGMNS" has power 1851 |
| Day10.BlockWord | src/day10.rs:79-81 | the word of a block has 16 letters |
| Day10.Part1 | src/day10.rs:64-69 | part 1 is the word of the top-left block |
| Day10.TileRow | src/day10.rs:76-83 | a row of the tiling has one word per block across |
| Day10.TotalPowerAppend | src/day10.rs:86-89 | every word adds its power, at least 1 + ... + its length |
| Day10.TilePower | src/day10.rs:75-89 | the tiling loops add up the power of every block's word |
| Day10.TilesPrefix | src/day10.rs:75-84 | the tiles of fewer rows begin the tiles of more |
| Day10.Part2 | src/day10.rs:71-92 | blocks nine apart, (width + 1) / 9 by (height + 1) / 9 |
| Day10.Part3 | src/day10.rs:94-115 | blocks six apart, (width - 2) / 6 by (height - 2) / 6 |
| Day1.Part1Counts | src/day1.rs:22-34 | part 1 is the number of B plus three times the number of C |
| Day1.Potions | src/day1.rs:26-31 | at most 3 potions, and none exactly for A |
| Day1.Part1 | src/day1.rs:22-34 | at most 3 potions per creature; Part1Counts gives the exact count |
| Day1.Creature | src/day1.rs:9-18 | p2_map is None exactly for 'x'; A, B and C keep their part 1 values |
| Day1.PairIsGroup | src/day1.rs:44-49 | the pair table is the group rule: present potions plus k(k-1) for k creatures |
| Day1.TripleIsGroup | src/day1.rs:67-76 | the triple table is the same rule for three |
| Day1.PairPotions | src/day1.rs:44-49 | a pair needs its members' potions plus at most 2, and exactly 2 more when both are present |
| Day1.TriplePotions | src/day1.rs:67-76 | a triple needs its members' potions plus at most 6: exactly 6 more when all three are present, none more when at most one is |
| Day1.Part2 | src/day1.rs:36-53 | at most 6 potions per character of the line |
| Day1.Part3 | src/day1.rs:55-80 | at most 7 potions per character of the line |
| Day1.GroupsUnordered | src/day1.rs:44-49 | every permutation of a pair or triple costs the same |
| Day1.KnownFillable | src/day1.rs:36-80 | a part 1 line is also a valid line for parts 2 and 3 |
| Day1.FullGroups | src/day1.rs:22-80 | with no gaps and whole groups, part 2 is part 1 + n and part 3 is part 1 + 2n |
| Day1.FullPairs | src/day1.rs:36-53 | pairs of present creatures cost part 1 plus one per creature |
| Day1.FullTriples | src/day1.rs:55-80 | triples of present creatures cost part 1 plus two per creature |
| Day4.Heights | src/day4.rs:11-14 | one height per line |
| Day4.Least | src/day4.rs:15 | the minimum is one of the heights and no height is below it |
| Day4.AboveIsTotal | src/day4.rs:16 | the sum of n - min is the total less count times min |
| Day4.AboveFloor | src/day4.rs:16 | the cost is never negative, and is 0 exactly when every height is the minimum |
| Day4.Part1Means | src/day4.rs:10-17 | part 1 is Σn - count·min and at least 0, and it is 0 exactly when all heights are equal |
| Day4.Part1 | src/day4.rs:10-17 | part 1 is never negative |
| Day4.Part2 | src/day4.rs:19-21 | part 2 is part 1 |
| Day4.DeviationSlope | src/day4.rs:30 | raising the level by one costs one more per height at or below it, one less per height above |
| Day4.LocalIsGlobal | src/day4.rs:30-66 | the cost is convex: a level no worse than its neighbours is the cheapest |
| Day4.Rising | src/day4.rs:51-64 | once a step up does not pay, no higher level is cheaper |
| Day4.Falling | src/day4.rs:37-50 | once a step down does not pay, no lower level is cheaper |
| Day4.SortSorts | src/day4.rs:24-28 | sorted() gives the heights in ascending order, as a permutation |
| Day4.Sort | src/day4.rs:27 | sorting keeps the number of heights; SortSorts states the order and the permutation |
| Day4.SortDeviation | src/day4.rs:24-30 | sorting changes no level's cost |
| Day4.MedianIsLocal | src/day4.rs:30-35 | the median is no worse than either neighbour |
| Day4.FewBelowMedian | src/day4.rs:30-31 | in sorted heights at most half lie below the median |
| Day4.ManyUpToMedian | src/day4.rs:30-31 | in sorted heights more than half lie at or below the median |
| Day4.SortedCons | src/day4.rs:27 | a head no greater than any element of a sorted tail keeps the sequence sorted |
| Day4.MedianIsLeast | src/day4.rs:64-67 | the median is the cheapest level of all ("median must be minimum") |
| Day4.Part3 | src/day4.rs:23-70 | part 3 returns the cheapest cost of any level, which is the median's cost; the descent branches never improve on it |
| Day4.CheapestUnsorted | src/day4.rs:24-28 | the cheapest cost does not depend on the order of the heights |
| Day4.Part3Example | src/day4.rs:78-86 | for 2, 4, 5, 6, 8 the cheapest cost is 8 |
| Text.Lines | src/day4.rs:11-13 | str::lines: pieces without line feeds |
| Text.JoinSplit | src/day2.rs:52-55 | split loses nothing: joining the pieces gives the text back |
| Text.Split | src/day2.rs:52-55 | at least one piece, and no piece holds a one-character separator |
| Text.Words | src/day5.rs:75 | split_whitespace gives non-empty pieces free of blanks |
| Text.ShowNat | src/day5.rs:59 | to_string writes decimal digits, with a leading 0 only for 0 |
| Text.ParseNat | src/day8.rs:85 | parse::<u128> succeeds exactly on an optional '+' followed by decimal digits |
| Text.ParseInt | src/day4.rs:13 | parse::<i32> succeeds exactly on an optional sign followed by decimal digits |
| Text.ParseShowNat | src/day5.rs:140-142 | parsing what to_string wrote gives the number back |

## Left out

- Reading the input file, timing and printing (`src/main.rs`, and the `println!` calls in days 5, 7 and 10) are not modelled. `src/solution.rs` only dispatches, and is not part of this model either.
- Days 6, 9 and the day template are `todo!()` and are not modelled. Neither are the commented-out Dijkstra search and the `DirectedGraph` blanket implementation of `src/utils/bfs.rs`.
- CycleFinding.CycleFinder: the inner iterator is a finite sequence, so an adapter over an endless inner iterator (one that never repeats and never ends) is not covered. `Collect` always ends here.
- Bfs.Search: `Graph::neighbors` takes `&mut self`. The model treats it as a pure finite successor table, a map from a node to its successors.
- Machine widths: u8, u16, i32, u128 and usize are unbounded `nat`/`int`, so overflow is not modelled. The u8 underflow of `runic_word_power` becomes the precondition `Powered`. Bytes are Unicode code points taken modulo 256; the text is treated as ASCII, so `len()` and `chars()` agree.
- Text.Lines does not strip a carriage return before a line feed, as Rust's `lines` does.
- Day7Track.TrackFromAscii: the walk carries a ghost step bound. A drawing whose walk never returns to the corner (the source loops forever) is excluded by asking that the walk close within the bound.
- Day7Race.Part3: the order in which the `HashSet` of plans is listed is not fixed, so the answer is stated for the order the method lists them in. The count of plans is 9240, as 11! / (5! 3! 3!) gives.
- Day7Race.Part3: the 2024 laps of 9240 chariots are stated, not evaluated. Neither are the part 2 example ("DCBA") and the part 3 test, which expects `None` though part 3 always returns `Some`.
- Day8.Part2: the source loops forever once the thickness reaches 0. The thickness after k layers is priests^k mod 1111, and 1111 = 11 · 101, so the exact condition for the loop to end is `priests % 1111 != 0`. The model asks for a number of priests that is no multiple of 11. That is sufficient but stronger: inputs such as 11 or 22 end in the source but are excluded here, because the model keeps its invariant (`ThicknessNeverZero`) modulo 11 only and has none for the prime 101.
- Day8.Pyramid.ColumnHeights: the source indexes out of bounds when the half heights are shorter than half the width. The model requires the half to reach that far, which the third rule keeps (`Stepped`). The commented-out day 8 tests are not properties.
- Day5.Part2: the source loops until some shout is heard 2024 times. The model takes a ghost bound by which that has happened, and proves the answer does not depend on the bound.
- Day5.Dances: the preservation of the dancers over many dances is stated per dance (`StepKeepsClappers`), not over the whole sequence.
- Day5.ExampleFirstDance: only the first dance of the example is checked. The shout after ten dances ("2323") and the part 2 example ("50877075") are not evaluated.
- Day5.Part3: ten million dances are stated, not evaluated.
- Day2.Part1 and Day2.Part3: the examples (4 and 10) are not evaluated. The part 2 test returns before its assertion and states nothing.
- Day3.Dig: the examples (35 and 29) are not evaluated.
- Day10.Part1: the example word "PTBVRCZHFLJWGMNS" is not evaluated from its block, and neither is the part 3 example. Only the word's power (1851) is checked.
- Day10.BlockRows: a row holds every non-dot character from offset_x to the end of its line, past the block's own right edge, exactly as the source reads it.
- Day4.Part3: Rust's `sorted()` (a merge sort) is modelled by insertion sort; both give the same ascending permutation.
- Day1.Part2 and Day1.Part3: `tuples()` drops a final incomplete group unread, so only the characters of whole groups must be valid.
