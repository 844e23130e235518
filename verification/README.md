# Verified model of the multi-agent tracking environment

MATE is a two-team game: cameras try to keep targets in view while targets carry
cargo between four warehouses. This project models the parts of the repository
whose state is spread over many records or whose results rest on an argument
that no single function body shows, and proves what they are for.

- **Cargo economy** (`CargoEconomy`, `CargoInvariants`, `CargoReset`, `CargoSteps`,
  `CargoRuns`, `CargoReturns`, `CargoCalls`, `CargoOrigins`, `Environment`). `CargoEconomy`
  says on values what a goal assignment, a step and a reset do. `CargoCalls` says the same
  entry by entry and without these functions, and proves that they agree; `CargoOrigins`
  proves which drawn pair each unit of stock and which cell each initial load comes from.
  `Environment` is the class with arrays
  and counters updated in place, with the loop over warehouses that keeps testing
  the goal from before the turn; every method is proved to follow the functions on
  values. The other modules prove the laws over all episodes: conservation of cargo,
  the telescoping of the dense into the delayed return, agreement of all records of
  a load, the bounty clock, what targets know, and the internal assertion of `reset`
  that can never fail.
- **Episodes with movement** (`Terrain`, `CargoJourneys`, `CargoThroughput`,
  `CargoCompletion`, `CargoMaximum`). Targets are at places, move by the motion model
  among obstacles, stand in a warehouse when its square holds their place, and make no
  call once the episode is over. Proved about these: a limit of throughput that no
  movement beats, a strategy that delivers everything in time against any cameras and
  any random numbers, and when the advertised maximum of the reward is one.
- **Motion and sight lines** (`Reals`, `Vectors`, `Obstruction`, `CameraRays`, `Rays`,
  `CircleGeometry`, `SpatialHash`, `TargetMotion`). How a circle reverses, frees, stops or
  slides a ray, over exact reals; the cosine form of the program is proved equal to a
  description by crossing distances, and that one to a description of the points of the ray
  in the plane (`CircleGeometry`). Boundary rays of cameras do not depend on the
  order of obstacles. The spatial hash is transparent: a target moves as if it had
  checked every registered obstacle.
- **Messages** (`Messages`, `MessageBoard`). Queues, buffers and edge counters are
  three views of one stream; each message is handed over once and in order.
- **Fused object spilling** (`SpillUrls`, `ExternalStorage`). Writing many objects
  into one file and restoring any of them from their keys gives the same objects.
- **Smaller algorithms** (`EditDistance`, `BenjaminiHochberg`, `Observations`,
  `Assigner`). The distance table, the adjustment of p-values, the observation
  layout, and the greedy choice of visible targets.

`Sums` holds sums of integer sequences, `Integers` minima and maxima, `FiniteSets` sizes of
sets and permutations.

## Conventions

- Every random choice is an input, so each law holds for all seeds. A choice among
  candidates takes a raw number and uses its remainder; permutations, the random
  pairs of the fill loop, the set of heavy targets, the view of the cameras and the
  warehouses in which a target stands are arbitrary. That is right for laws about all
  runs. What is said to be possible is said of `CargoJourneys.Episode`, where the
  warehouses follow from the places of the targets, nobody is tracked without cameras,
  and no call is made after the end.
- A target meets the obstacles in an order that is arbitrary in every call; a target that
  can carry two units is half as fast.
- Rewards, freights and bounties are integers: both scales are ceilings.
- The square root is a parameter, any function that returns non-negative roots.
  `Mul` and `Quot` are product and quotient with a name, so that proofs can treat
  them as unknowns.
- A sort whose order of ties is open (a numpy sort, the iteration of a Python set)
  is any order that meets its description.

## What the code does where its own text suggests otherwise

- `max_target_team_episode_reward`, by which rewards are normalized
  (mate/environment.py:527-529, 623), is not a maximum of all episodes. The fill loop
  adds a further round, without clearing, while some warehouse is empty, and nothing
  bounds the rounds (`CargoMaximum.AnyNumberOfRounds`). An episode earns more than the
  maximum only if it delivers more than one round of cargo, and without cameras exactly if
  it does (`SecondRoundDecides`). So the maximum holds after a single round
  (`OneRoundKeepsMaximum`), and whatever the rounds if the time limit is short: if its
  steps together are no longer than the gap between two warehouses times the cargoes per
  target less two (`ShortEpisodesKeepMaximum`). If the time limit is long, and there are
  no cameras and the warehouses can be found, it holds only after a single round
  (`NominalMaximumIsExact`); in an open terrain twice the maximum can be earned
  (`MaximumCanBeExceeded`). Between the short and the long limits it depends on the routes.
- `step` compares the counter after increasing it, so an episode may take one call
  more than `max_episode_steps` (`CargoRuns.EpisodeEnds`).
- `hash_key` rounds towards zero, so the cells around the axes are twice as wide. The
  index is still exact, because rounding is monotone.
- A ray that starts strictly inside a circle is turned round, not stopped. Sliding is
  therefore claimed for rays that start outside.
- For a circle of radius zero at the start of a ray the cosine is the quotient of two
  zeros; the minimum with one yields one, and the ray is left alone (`Rays.Cosine`).
- The key of a spilled object is split at number signs and question marks. As far as this
  split goes, it is read back as it was made if and only if the file name holds neither
  `?` nor `#` (`SpillUrls.UrlRoundTrip`); urllib changes some other names as well, see
  below.
- A message that names an agent outside the team is queued and buffered before the count
  of its edge fails. So the incoming edges of an agent are as many as its messages from
  members, and as many as its messages exactly if all of them are from members
  (`Messages.IncomingIsLength`, `AllFromMembers`).

## Model

| member | source | states |
|---|---|---|
| CargoEconomy.ScalesAreValid | mate/environment.py:521-522 | a positive step size and a non-negative bounty factor give a freight scale of at least one and a bounty scale that is not negative |
| CargoEconomy.ScalesAreLeast | mate/environment.py:521-522 | the freight scale is the least number of steps that crosses the terrain, the bounty scale the least integer not below the given multiple of it |
| CargoEconomy.Choice | mate/environment.py:1303-1305 | a new goal is always a recipient for which the warehouse still holds cargo |
| CargoEconomy.ChoiceIsFair | mate/environment.py:1303-1305 | every recipient with stock can be drawn, each by exactly one of as many raw numbers as there are recipients |
| CargoEconomy.FirstStocked | mate/environment.py:793-794 | the warehouse found holds cargo and is in the list; none is found only if all in the list are empty |
| CargoInvariants.TakeLoadIsMaximal | mate/environment.py:1306-1309 | a load fills the target or takes all that is left, and exactly the load leaves the warehouse |
| CargoInvariants.TakeLoadKeeps | mate/environment.py:1302-1315 | an unloaded target that takes a load keeps conservation, agreement of records, sound knowledge and both reward laws |
| CargoInvariants.DeliverKeeps | mate/environment.py:1280-1300 | paying and clearing a target at its goal keeps all invariants: what leaves the awaiting count is what leaves transit |
| CargoInvariants.DecayIsPaid | mate/environment.py:1275-1276 | the dense charge of a call is exactly the bounty that all loads lose in it |
| CargoInvariants.ServeKeeps | mate/environment.py:1278-1318 | one target's turn keeps the invariant, in each of its branches |
| CargoInvariants.StepKeeps | mate/environment.py:612-632 | every step keeps the whole invariant, for any view, movement and random choice |
| CargoReset.StowAdds | mate/environment.py:770-774 | a round of the fill loop adds one unit per pair and none to a warehouse for itself |
| CargoReset.FilledAdds | mate/environment.py:768-775 | k rounds leave exactly k times cargoes per target times targets, and no warehouse holds cargo for itself |
| CargoOrigins.FilledCounts | mate/environment.py:768-774 | a cell of the stock holds as many units as its pair of sender and recipient was drawn in all rounds |
| CargoOrigins.FirstAssignmentIsCall | mate/environment.py:776-788 | a reset makes one goal assignment, as described entry by entry, on a state with the drawn stock, its column sums and new targets, and drops only flags, deliveries and rewards |
| CargoOrigins.FirstTurn | mate/environment.py:785 | in it a target that stands nowhere stays as it was, one in a warehouse with stock at its turn is loaded at the first such warehouse, and each knows exactly which warehouses around it are empty |
| CargoOrigins.FirstLoadsComeFromStock | mate/environment.py:1302-1315 | its loads come from warehouses where their targets stand, and stock with loads is what was drawn, cell by cell |
| CargoReset.FirstAssignmentIsSound | mate/environment.py:777-788 | the first goal assignment of a reset establishes the invariant and neither pays nor delivers anything |
| CargoReset.StockIsLeft | mate/environment.py:225-229 | before the first delivery some warehouse has stock, since targets carry at most two units and each brings at least four |
| CargoReset.LoadFirstIsSound | mate/environment.py:789-807 | whatever the permutations, each target without a load gets one and the invariant holds |
| CargoOrigins.LoadAtIsExact | mate/environment.py:790-807 | a target without a load takes as much as it can carry from the first warehouse in its order that has stock, and nothing else changes |
| CargoOrigins.InitialLoadsInTurn | mate/environment.py:789-807 | if targets start loaded, each gets its load in turn on what the first goal assignment left; otherwise the reset ends there |
| CargoOrigins.LoadsComeFromStock | mate/environment.py:768-807 | after a reset each cell holds what was drawn for it less the loads taken from it |
| CargoReset.ResetIsSound | mate/environment.py:768-812 | a reset establishes the invariant with zero totals, and the assertion that all targets have been assigned cannot fail |
| CargoSteps.ServeFirstPays | mate/environment.py:1281-1287 | the accounts of a call depend only on who stands at its goal and with what bounty, not on the order of service |
| CargoCalls.ServeIsTurn | mate/environment.py:1278-1318 | one turn entry by entry: where it trades, what it hands over, what it takes from which cell, what it knows, and that no other target is touched |
| CargoCalls.StepIsStep | mate/environment.py:612-632 | a step is an opening that charges each tracked target with a bounty, one turn for each target on what those before it left, the flags, and the counters |
| CargoSteps.StepPays | mate/environment.py:1274-1294 | a step delivers exactly the loads at their goals; dense and delayed rewards in closed form |
| CargoSteps.GoalsMove | mate/environment.py:1279-1314 | in a call a loaded target changes its goal exactly when it stands at it; a reload never repeats the old goal |
| CargoSteps.DoneFlagIsExact | mate/environment.py:1320-1322 | the done flag of a target is set exactly when it delivered in that step |
| CargoRuns.RunKeeps | mate/environment.py:590-676 | the invariant holds after any number of steps, and the clock counts them |
| CargoRuns.CargoIsConserved | mate/environment.py:768-812 | in every reachable state awaiting counts equal stock plus loads for each recipient, and delivered plus awaited is the initial cargo |
| CargoRuns.AwaitingIsExact | mate/environment.py:629-632 | nothing is awaited if and only if all stock is gone and no target is loaded, if and only if everything was delivered |
| CargoRuns.EpisodeEnds | mate/environment.py:629-632 | an episode is over if and only if it has made one step more than configured or has delivered everything |
| CargoRuns.RewardsTelescope | mate/environment.py:613-615 | the dense return is the delayed one less the bounty lost on loads under way; they agree once all is delivered |
| CargoRuns.LoadRecordsAgree | mate/environment.py:1296-1314 | goal, goal bits of environment and target, freight, bounty and capacity agree in every reachable state |
| CargoRuns.CapacitiesAreFixed | mate/environment.py:712-722 | as many targets as configured can carry two units, all others one, throughout the episode |
| CargoRuns.BountyClock | mate/environment.py:626-627 | a bounty is the full one less the tracked steps of the load, give or take the step of loading |
| CargoSteps.StepTeaches | mate/environment.py:1317-1318 | in a step a target notices an empty warehouse where it stands, believes none empty that is not, and learns nothing about others |
| CargoRuns.KnowledgeComesFromVisits | mate/environment.py:1317-1318 | what a target learned since the reset about a warehouse it learned by standing in it |
| CargoRuns.VisitsTeach | mate/environment.py:1317-1318 | who has stood in an empty warehouse knows it for the rest of the episode |
| CargoRuns.KnowledgeIsPermanent | mate/environment.py:1317-1318 | a warehouse a target was told is empty is empty, and stays empty and known for the rest of the episode |
| CargoRuns.TransportRate | mate/environment.py:974-979 | the mean transport rate is the delayed return over the full price of what was delivered; it lies between (F - B) / (F + B) and one once anything is delivered, and is zero before |
| CargoReturns.UntrackedEpisodePaysInFull | mate/environment.py:1274-1294 | without any tracking both returns are the full price of what was delivered |
| Terrain.WarehousesAreApart | mate/constants.py:67-72 | a target stands in one warehouse at most, and far from all others |
| Terrain.WarehouseSquares | mate/environment.py:1282-1283 | a target stands in a warehouse when it is in the square of side 150 in its corner of the terrain, edges included |
| CargoJourneys.EpisodeIsRun | mate/environment.py:590-632 | an episode with real movement is one of the economy, with its invariant |
| CargoJourneys.PlaceIsExact | mate/entities.py:645-666 | a call brings a target, at its pace, along its action and one obstacle after the other to its new place |
| CargoJourneys.CallIsStep | mate/environment.py:612-613 | in a call the targets move first, and the step of the cargo sees them in the warehouses where they have come to stand |
| CargoJourneys.EpisodesAreShort | mate/environment.py:629-632 | no episode has more than one call more than configured |
| CargoThroughput.OnTimeAfterCall | mate/environment.py:1279-1314 | one call keeps a target's account of way and deliveries, whether it is under way, delivers or loads |
| CargoThroughput.ThroughputIsLimited | mate/environment.py:1326-1360 | in any calls, among any obstacles, the cargo delivered is limited by the way all targets could go |
| CargoCompletion.StepWorks | mate/environment.py:1278-1315 | a step either loads and delivers nothing or leaves less work |
| CargoCompletion.ErrandHelps | mate/environment.py:590-632 | a call in which the runner follows the guide and all others stand still brings the end nearer |
| CargoCompletion.CanBeCompleted | mate/environment.py:590-632 | from any point of an episode, if the warehouses can be found and enough calls are left, the targets can deliver all remaining cargo before the episode is over, whatever cameras, random numbers and the order of obstacles do |
| CargoCompletion.OpenTerrainLeads | mate/entities.py:645-666 | without obstacles every warehouse is found within four times the freight scale |
| CargoReturns.ReturnIsBounded | mate/environment.py:527-529 | no return exceeds the nominal maximum times the rounds of the fill loop |
| CargoMaximum.StowStocks | mate/environment.py:769-774 | a round stocks exactly the warehouses it sends from |
| CargoMaximum.AnyNumberOfRounds | mate/environment.py:768-775 | every number of rounds can happen, wherever the targets are |
| CargoMaximum.SecondRoundDecides | mate/environment.py:527-529 | an episode exceeds the nominal maximum only if it delivers more than one round, and without cameras exactly if it does |
| CargoMaximum.OneRoundKeepsMaximum | mate/environment.py:527-529 | after a single round no episode exceeds the maximum |
| CargoMaximum.ShortEpisodesKeepMaximum | mate/environment.py:527-529 | with a short time limit no episode exceeds the maximum, whatever the rounds |
| CargoMaximum.NominalMaximumIsExact | mate/environment.py:527-529 | with a long time limit, without cameras, and where warehouses can be found, the maximum bounds all episodes of a reset if and only if its stock was filled in one round |
| CargoMaximum.MaximumCanBeExceeded | mate/environment.py:527-529 | in an open terrain, wherever the targets start, some reset and some episode earn twice the maximum |
| Environment.MultiAgentTracking.Trade | mate/environment.py:1284-1315 | the loop with its stale goal, its skips and its break has the effect of one delivery and reload, or one load at the first stocked warehouse |
| Environment.MultiAgentTracking.ServeTarget | mate/environment.py:1278-1318 | one turn: the loop, and a look around |
| Environment.MultiAgentTracking.AssignGoals | mate/environment.py:1271-1324 | the arrays after the call and both rewards are those of the specification |
| Environment.MultiAgentTracking.Step | mate/environment.py:612-632 | the whole state after a step, the zero-sum rewards, dense or delayed, and the end of the episode |
| Environment.MultiAgentTracking.FillStock | mate/environment.py:768-775 | the fill loop stops and leaves the sum of its rounds, with matching awaiting counts |
| Environment.MultiAgentTracking.Reset | mate/environment.py:768-812 | the state after a reset depends on its inputs alone, all targets are loaded when they start loaded, and step size times capacity is the same for all |
| Obstruction.NeverLonger | mate/entities.py:158-184 | meeting a circle never lengthens a ray, in every branch |
| Obstruction.SlidLength | mate/entities.py:177-183 | a slid ray is no longer than the ray that was stopped |
| Obstruction.SlidDistance | mate/entities.py:177-183 | a slid ray ends on or outside the circle |
| Obstruction.SlidingStaysOutside | mate/entities.py:158-184 | a ray that does not start inside a circle does not end inside it, whether it points away, falls short, misses or slides |
| CircleGeometry.StopIsFirstContact | mate/entities.py:172-177 | a ray stopped on the near side would have entered the disc, and ends where it first touches it |
| CircleGeometry.StopIsLastContact | mate/entities.py:174-175 | a ray stopped on the outer side has been in the disc, and ends where it leaves it for good |
| CircleGeometry.SlidIsOnTangent | mate/entities.py:177-183 | the end of a slid ray is the foot of the perpendicular from the old end to the tangent at the contact |
| CircleGeometry.ObstructionIsGeometric | mate/entities.py:158-184 | in every branch: rays from inside are turned round, rays that stay outside are left alone, and any other is stopped at the contact or slid along the tangent there |
| CircleGeometry.FoldIsSequence | mate/entities.py:661-662 | a ray that meets several circles meets one after the other, each with what the one before has left |
| Obstruction.OutOfReach | mate/entities.py:163-164 | a circle out of reach along one axis leaves a ray as it is |
| Rays.Vector2D.SetNorm | mate/utils.py:226-232 | the vector gets the new length and keeps its direction; the empty vector has angle zero |
| Rays.CosineFacts | mate/entities.py:166-169 | the cosine, cut off at one, gives the distance along the ray |
| Rays.PerpendicularFacts | mate/entities.py:169-170 | the perpendicular is the distance from the center to the line, and the radius exceeds it exactly when the line crosses the circle |
| Rays.Obstruct | mate/entities.py:158-184 | the program's computation on a mutable ray has the effect described by crossing distances |
| Rays.Shorten | mate/entities.py:454-455 | a boundary ray after all obstacles is the fold over them |
| CameraRays.CrossingIsOnCircle | mate/entities.py:172-175 | the near and the far crossing distance are those of points on the circle |
| CameraRays.CrossesMeansInside | mate/entities.py:167-170 | a line from outside crosses a circle exactly when some point ahead lies strictly inside |
| CameraRays.FoldIsShortest | mate/entities.py:450-455 | a shortened ray keeps its direction and has the least of its length and all crossing distances |
| CameraRays.OrderDoesNotMatter | mate/entities.py:450-455 | the shortened ray does not depend on the order of the obstacles |
| CameraRays.InnerRayStaysOutside | mate/entities.py:450-455 | no point of an inner boundary ray lies in any of the open discs |
| SpatialHash.SharedCell | mate/utils.py:319-320 | squares that overlap share a cell, although keys are rounded towards zero |
| SpatialHash.KeyIsTowardsZero | mate/utils.py:319-320 | a key tells how many whole grid steps a point is from the axes, towards zero |
| SpatialHash.SharedCellIsNear | mate/entities.py:655-660 | squares that share a cell are no farther apart than two grid steps |
| SpatialHash.ObstacleIndex.Add | mate/entities.py:671-686 | each obstacle is registered once and is in all cells its square touches |
| SpatialHash.ObstacleIndex.Collect | mate/entities.py:655-660 | exactly the obstacles in the cells around a point are collected; reading creates empty cells only |
| TargetMotion.ScanIgnoresFar | mate/entities.py:661-662 | checking only some obstacles has the effect of checking all, if the others are apart |
| TargetMotion.IndexIsTransparent | mate/entities.py:654-662 | for every listing of all obstacles, checking only those found nearby in the same order ends at the same place |
| TargetMotion.LimitedIsExact | mate/entities.py:648-650 | the limited step goes along the action, exactly as far as the action and the step size allow |
| TargetMotion.FreeMoveIsExact | mate/entities.py:645-666 | where nothing is in the way a target moves by exactly this step, cut off at the edge |
| TargetMotion.MoveIsExact | mate/entities.py:645-666 | a whole move: this step slides along one circle after the other, and its end is cut off at the edge |
| TargetMotion.ClipIsNearest | mate/entities.py:664-666 | cutting off yields the nearest point of the terrain, and no other is as near |
| TargetMotion.MoveIsBounded | mate/entities.py:645-666 | a move ends in the terrain and is no longer than the step size |
| TargetMotion.JourneyIsBounded | mate/entities.py:645-666 | over any number of moves a target stays in the terrain and within the sum of its steps |
| TargetMotion.Target.Simulate | mate/entities.py:645-668 | the target moves as if all registered obstacles had been checked, and the collision flag tells whether its end differs from where the action leads within the step size |
| Messages.BroadcastReachesAll | mate/environment.py:1249-1269 | a broadcast reaches every teammate exactly once |
| Messages.RouteIsDue | mate/environment.py:1249-1269 | each recipient is sent, in the order sent, the messages to it and its copies of those without recipient, and nothing else |
| Messages.RouteAppends | mate/environment.py:1253-1267 | messages are routed one after the other |
| Messages.RoutedAlone | mate/environment.py:1254-1267 | one message is routed as it is, or as a copy for each member, first to last |
| Messages.MembersAreAccepted | mate/environment.py:851-854 | nothing routed among members is lost |
| Messages.LogIsFaithful | mate/environment.py:645-669 | the window is what was queued since the last step, and closed totals with the window are all that was queued since the reset |
| Messages.HandedOnceInOrder | mate/environment.py:856-892 | what a recipient was handed since the last step, followed by what is queued, is what was routed to it, each message once and in order |
| Messages.IncomingIsLength | mate/environment.py:645-646 | the incoming edges of an agent are as many as its messages from members |
| Messages.AllFromMembers | mate/environment.py:645-646 | they are as many as its messages exactly if all of these are from members |
| Messages.OutgoingIsCount | mate/environment.py:645-646 | the outgoing edges of an agent are as many as its messages to members |
| MessageBoard.Channel.Send | mate/environment.py:851-854 | among members each queue and each buffer grows by what is due to its agent, in the order sent, and each edge by the number due along it; the first message that names an agent outside the team is queued and ends the call with an error |
| MessageBoard.Channel.Receive | mate/environment.py:889-892 | an agent takes exactly its queued messages, which stay in the buffer |
| MessageBoard.Channel.ReceiveAll | mate/environment.py:867-874 | all agents take their queued messages |
| MessageBoard.Channel.Flush | mate/environment.py:640-669 | a step reports all messages and degrees, adds the edges to the totals and clears everything |
| MessageBoard.Replay | mate/environment.py:836-892 | calls in any order leave the store as the trace says, what was received since the last step is what the trace hands over, and with the queue it is the buffer |
| MessageBoard.Board.Send | mate/environment.py:836-854 | messages of different teams are refused without any change; otherwise only their own team's store changes |
| SpillUrls.DecimalRoundTrip | ray/external_storage.py:45-66 | numbers in keys are read back |
| SpillUrls.DecimalDigits | ray/external_storage.py:45 | numbers are written in decimal digits, the most significant first, without leading zeros |
| SpillUrls.KeyNamesOffsetAndSize | ray/external_storage.py:45 | a key is the name, a question mark, and a query that names offset and size |
| SpillUrls.UrlRoundTrip | ray/external_storage.py:19-68 | as far as the split at number signs and question marks goes, a key is read back as it was made if and only if the name holds neither |
| ExternalStorage.LittleEndianRoundTrip | ray/external_storage.py:138-140 | lengths are read back from their bytes |
| ExternalStorage.PayloadLayout | ray/external_storage.py:138-145 | a frame is the three lengths in eight bytes each, the least significant first, then owner, metadata and data |
| ExternalStorage.FramesTile | ray/external_storage.py:150-156 | frames tile the file without gap or overlap |
| ExternalStorage.WriteMultipleObjects | ray/external_storage.py:106-157 | the file is the sequence of frames with one key each; the first object that cannot be written ends it with its error |
| ExternalStorage.FrameRoundTrip | ray/external_storage.py:319-329 | a frame anywhere in a file is read back as its object, and the size check passes |
| ExternalStorage.ReadIsExact | ray/external_storage.py:319-326 | reading yields the bytes from a position on, as many as asked for or as there are |
| ExternalStorage.WrongSizeIsRefused | ray/external_storage.py:159-170 | a frame is restored if and only if the key gives its true size |
| ExternalStorage.BadKeysAreRefused | ray/external_storage.py:62-65 | a key without a query and a key of a file that is not there restore nothing |
| ExternalStorage.SpillRoundTrip | ray/external_storage.py:289-330 | each key restores exactly its own object |
| ExternalStorage.RestoreSpilledObjects | ray/external_storage.py:305-330 | objects are restored until the first failure, and the total is the sum of their sizes |
| ExternalStorage.SpillAndRestore | ray/external_storage.py:289-330 | spilling and restoring any objects in any order gives these objects and the sum of their buffer lengths |
| EditDistance.DistanceIsLeastCost | mate/environment.py:62-73 | the distance is the least cost of all edit scripts, and some script attains it |
| EditDistance.ZeroIffEqual | mate/environment.py:62-73 | the distance is zero exactly for equal strings |
| EditDistance.Symmetric | mate/environment.py:62-73 | the distance is symmetric |
| EditDistance.TriangleInequality | mate/environment.py:62-73 | the distance satisfies the triangle inequality |
| EditDistance.Bounds | mate/environment.py:62-73 | the distance lies between the difference of the lengths and the larger length |
| EditDistance.ComputeDistance | mate/environment.py:62-73 | the table filled row by row yields the distance |
| BenjaminiHochberg.RunningMinimum | scripts/analyze_focuss_coverage_correlations.py:253-254 | the minimum accumulated from the end is the least adjusted value from each rank on |
| BenjaminiHochberg.Adjust | scripts/analyze_focuss_coverage_correlations.py:247-256 | the running minimum, cut off at one, is written back to where each value came from; a missing value stays missing |
| BenjaminiHochberg.AdjustmentIsStepUp | scripts/analyze_focuss_coverage_correlations.py:247-256 | below one, a result is at most alpha exactly when the step-up rule rejects at level alpha |
| BenjaminiHochberg.AdjustmentIsMonotone | scripts/analyze_focuss_coverage_correlations.py:247-256 | larger p-values get larger results, equal ones equal results |
| BenjaminiHochberg.AdjustmentIsConservative | scripts/analyze_focuss_coverage_correlations.py:247-256 | a result lies between its p-value and one |
| BenjaminiHochberg.TiesDoNotMatter | scripts/analyze_focuss_coverage_correlations.py:249 | the result does not depend on how the sort orders ties |
| Observations.BlockAt | mate/environment.py:926-940 | each entity stands at its own stretch of a block: its state and a one if it is seen, else only zeros |
| Observations.SlicesReadBack | mate/constants.py:268-348 | the slices tile the vector and read back all parts; the strided ones read back the masks |
| Observations.JointObservation | mate/environment.py:926-963 | one vector for each agent of both teams, in its team's layout |
| Observations.ViewMasksReadBack | mate/constants.py:268-348 | from the vectors of both teams, by their own slices, all six matrices of who sees whom are read back |
| Observations.StatesReadBack | mate/environment.py:926-963 | by its own slices an agent of either team reads its own state and the states of all it sees, and zeros for all others |
| Observations.UnseenIsHidden | mate/environment.py:931-937 | an agent's vector does not change when the states of entities it does not see change |
| Observations.OpponentMaskIgnoresTheRest | examples/hrl_v2/high_level.py:77-80 | the slice of the opponents' mask does not depend on the numbers of obstacles and teammates |
| Assigner.AssignOne | examples/hrl_v2/high_level.py:82-108 | one camera gets the nearest visible targets, as many as allowed, or the first nearest of all if it sees none |
| Assigner.Assign | examples/hrl_v2/high_level.py:67-110 | every camera's row is the right choice for what it truly sees |

## Left out

- Rendering, configuration files, evaluation, wandb, plots and reports: input and output.
- Seeding and the quality of random numbers: replaced by arbitrary inputs. The placement of entities with its retries and the shuffling of entities are not modelled.
- The fill loop ends only with probability one: its rounds are an input that ends it.
- Environment.MultiAgentTracking.Reset: leaves out the placement of cameras, targets and obstacles and the state of views; places are inputs of `CargoJourneys.Opening`.
- Environment.MultiAgentTracking.AssignGoals: updates bounties and done flags in place where the program binds new arrays; no other reference to these arrays exists. The distances to the warehouses are replaced by an arbitrary set of warehouses in which each target stands.
- Trigonometry, angles of vectors and the interpolation between boundary rays: a change of length at a fixed angle is a scaling, and rays are vectors.
- Floating-point rounding: exact reals and integers are used.
- CameraRays.OrderDoesNotMatter: covers cameras that are not strictly inside an obstacle; for one that is, the program replaces its rays by empty ones and stops collecting. For a camera exactly on a circle a ray is cut to length zero; the program keeps an angle for such a ray, which the order may change, and the model of rays as vectors does not.
- Obstruction.SlidingStaysOutside: claims each circle by itself, because sliding off one circle may enter another that was met before.
- The obstacles and the grid are shared by all targets of a process; one environment per process is modelled.
- Perception of targets and cameras, and the actions of cameras.
- CargoCompletion.CanBeCompleted: supposes that a guide leads to the warehouses; it is proved to exist in an open terrain, and not for every placement of obstacles.
- CargoMaximum.NominalMaximumIsExact: speaks of environments without cameras; whether cameras can look away long enough is not modelled. Its bound for a long limit lets one target run at a time and is not tight.
- MessageBoard.Channel.Send: indices of agents are natural numbers; a negative index counts from the end in the matrix of edges, but not in the queues.
- MessageBoard.Board.Send: as for the channels, with natural indices.
- SpillUrls.UrlRoundTrip: models the split of a key at number sign, question mark, ampersand and equals sign. Not modelled is what else urllib does to a name: it unescapes, writes schemes in lower case, drops tabs, line breaks and leading control characters, and loses a semicolon at the end with which an empty list of parameters begins.
- ExternalStorage.RestoreSpilledObjects: a file that ends early yields shorter data, as reading does; what the object store then does is not modelled. Cloud storage and deletion are not modelled.
- The alignment by last observation and the correlation tests of the analysis script.
- The queue of training jobs: its claims follow from single branches.
- The other assigners, the neural networks and the rest of the ray package.
