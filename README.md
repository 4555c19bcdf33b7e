# Boss particle cloud and state machine, modelled in Dafny

This project models the core of the boss in a Godot 2D game, in three parts.

- **The particle cloud** (`ParticleCloud`). It keeps a buffer of 10 000
  particle instances. Each instance has a colour and a translation. Every
  `Advance` does two things:
  - it adds the fixed step π/240 to the time accumulator and one to a
    32-bit frame counter;
  - it runs `UpdateCloudParticles`, which:
    - evaluates the particle formula at every index;
    - sorts the x and y coordinates and takes the values at ranks 100 and
      9900 as a trimmed (1 %–99 %) box;
    - recentres every particle on the box's midpoint and stores the box
      relative to that midpoint.
- **The boss state machine** (`BossStateMachine`). It keeps a dictionary of
  named states, the running state and its name. `Change` runs the
  Exit → Enter → log protocol. `_Process` forwards a frame tick to the
  running state. The Tab debug key moves to the next registered name,
  wrapping from the last name to the first.
- **The idle state** (`IdleState`). It paints the last 100 particles lime
  on entry, logs on entry and exit, and on every tick it moves the cloud,
  copies its pose to the multimesh and advances the animation.

Modules:

- `Options` (`options.dfy`): an option type, and the outcome of a call that
  may reject a null argument.
- `Geometry` (`geometry.dfy`): vectors, rectangles and poses, over reals.
- `Sorting` (`sorting.dfy`): `Array.Sort` on a float buffer. The
  specification is a functional insertion sort, `SortSeq`. It is implemented
  by an in-place selection sort, together with the order statistics a sorted
  buffer provides.
- `Cloud` (`cloud.dfy`): the particle cloud.
  - The pure function `TrimmedFrame` specifies what one update publishes:
    every transform and the box.
  - The class `ParticleCloud` holds the source's fields as mutable state, and
    its instance buffers as arrays.
  - `Advance` is proved to store exactly `FrameAt(formula, t, frameCount)`.
  - Lemmas say what that frame guarantees. The box trims each axis as
    promised, and recomputing the frame from what was published changes
    nothing.
- `StateMachine` (`statemachine.dfy`): the state machine.
  - The value `Machine` and the transitions `Registered`, `Changed`,
    `Processed` and `Cycled` specify each handler.
  - Each method of the class `BossStateMachine` is proved to move its
    `Model()` exactly as the transition of the same name does.
  - Calls on states (Exit, Enter, Tick) and printed lines are recorded, in
    order, in a trace of events.
- `Idle` (`idle.dfy`): the idle state as a class over a `ParticleCloud` and
  a move step.

Paths below are relative to the repository root.

## Model

| member | source | states |
|---|---|---|
| Cloud.ElapsedClosedForm | godot/script/Boss/ParticleCloud.cs:19-23 | after n advances the time accumulator holds n · π/240, whatever the frame deltas were |
| Cloud.TrimRanks | godot/script/Boss/ParticleCloud.cs:204-205 | the ranks (int)(10000·0.01) and (int)(10000·0.99) are 100 and 9900, and both are valid indices in order |
| Cloud.Inc32 | godot/script/Boss/ParticleCloud.cs:128 | `frameCount += 1` on a C# int stays a 32-bit value, wrapping from MaxInt32 to MinInt32 |
| Cloud.Inc32Wrap | godot/script/Boss/ParticleCloud.cs:128 | incrementing the counter once after n increments from 0 gives n + 1 reduced to 32-bit two's complement |
| Cloud.CountersStep | godot/script/Boss/ParticleCloud.cs:122-128 | one Advance keeps the time accumulator at the elapsed time and the frame counter at the wrapped number of calls |
| Cloud.Wrap32Small | godot/script/Boss/ParticleCloud.cs:128 | until 2^31 − 1 increments the frame counter equals the number of increments |
| Cloud.TrimmedBounds | godot/script/Boss/ParticleCloud.cs:202-208 | the trimmed extent on each axis has minimum ≤ maximum |
| Cloud.TrimmedFrame | godot/script/Boss/ParticleCloud.cs:181-233 | one update publishes 10 000 transforms and a box of non-negative size centred on the origin |
| Cloud.FrameAt | godot/script/Boss/ParticleCloud.cs:188-224 | transform i is point i of the formula minus the midpoint of the trimmed box of all points |
| Cloud.TrimmedBoundsRecentre | godot/script/Boss/ParticleCloud.cs:202-224 | translating every point by −c translates the trimmed bounds by −c |
| Cloud.TrimmedFrameStable | godot/script/Boss/ParticleCloud.cs:211-232 | the published transforms are already centred: the trimmed frame recomputed from them is the same frame |
| Cloud.TrimmedBoxCoverage | godot/script/Boss/ParticleCloud.cs:201-232 | on each axis the stored box holds at least 9801 published particles, with at most 100 below it and at most 99 above; and it cuts the outliers off: at least 101 particles lie at or below its lower edge and at least 100 at or above its upper edge |
| Cloud.RankCover | godot/script/Boss/ParticleCloud.cs:201-208 | the sorted values at ranks 100 and 9900 bound a range that keeps at least 9801 values and excludes the tails: at least 101 values at or below its lower end, at least 100 at or above its upper end |
| Cloud.EvalLocals | godot/script/Boss/ParticleCloud.cs:183-199 | the first loop fills the local buffer with the formula's points, and the x and y buffers with their coordinates |
| Cloud.SortedRanks | godot/script/Boss/ParticleCloud.cs:202-208 | sorting both coordinate buffers and reading ranks lo and hi yields the trimmed bounds of the points |
| Cloud.RecentreInto | godot/script/Boss/ParticleCloud.cs:218-224 | the second loop sets every instance translation to its point minus the centre |
| Cloud.ParticleCloud.constructor | godot/script/Boss/ParticleCloud.cs:23-52 | t = 0, frameCount = 0, empty box, default formula, fresh empty instance buffers |
| Cloud.ParticleCloud.SetFormula | godot/script/Boss/ParticleCloud.cs:57-60 | a null formula is rejected with ArgumentNullException("formula") and changes nothing; any other formula replaces the current one |
| Cloud.ParticleCloud.Initialize | godot/script/Boss/ParticleCloud.cs:72-116 | creates 10 000 instances at the identity transform, the last 100 red and the rest white |
| Cloud.ParticleCloud.SetColor | godot/script/Boss/ParticleCloud.cs:164-170 | an index inside the buffer recolours exactly that instance; an index outside it changes nothing, even before Initialize |
| Cloud.ParticleCloud.Advance | godot/script/Boss/ParticleCloud.cs:122-132 | t grows by π/240 and frameCount by one (wrapping), delta is ignored, colours are untouched, and the stored frame is FrameAt(formula, t, frameCount) |
| Cloud.ParticleCloud.ApplyTransform | godot/script/Boss/ParticleCloud.cs:145-149 | the multimesh instance's pose becomes (pos, rot); particle transforms, box and colours are unchanged |
| Cloud.ParticleCloud.BBoxLocal99 | godot/script/Boss/ParticleCloud.cs:154 | returns the stored box, before or after Initialize; it is always of non-negative size and centred on the origin |
| Cloud.ParticleCloud.UpdateCloudParticles | godot/script/Boss/ParticleCloud.cs:181-233 | the transforms and the box become the trimmed frame of the formula at the current t and frameCount |
| Sorting.SortSeq | godot/script/Boss/ParticleCloud.cs:202-203 | the sorted buffer is ascending and a permutation of its input |
| Sorting.SortedUnique | godot/script/Boss/ParticleCloud.cs:202-203 | two ascending permutations of each other are equal, so the sorted buffer is determined by its contents |
| Sorting.SortSeqOfSorted | godot/script/Boss/ParticleCloud.cs:202-203 | sorting an ascending buffer leaves it as it is |
| Sorting.SortShift | godot/script/Boss/ParticleCloud.cs:202-224 | sorting commutes with subtracting a constant from every value |
| Sorting.CountSort | godot/script/Boss/ParticleCloud.cs:202-203 | sorting keeps the number of values with any property |
| Sorting.OrderStatistics | godot/script/Boss/ParticleCloud.cs:202-208 | at least hi − lo + 1 values lie between the sorted ranks lo and hi, at most lo below and at most n − 1 − hi above |
| Sorting.OrderTails | godot/script/Boss/ParticleCloud.cs:202-208 | at least lo + 1 values are at most the sorted value of rank lo, and at least n − hi are at least the one of rank hi |
| Sorting.SortInPlace | godot/script/Boss/ParticleCloud.cs:202-203 | Array.Sort: the array afterwards holds SortSeq of its old contents |
| StateMachine.Lookup | godot/script/Boss/StateMachine/BossStateMachine.cs:56 | TryGetValue finds a state exactly when the name is a key |
| StateMachine.Put | godot/script/Boss/StateMachine/BossStateMachine.cs:40 | the indexer's set adds an entry exactly when the name is new |
| StateMachine.PutLookupSame | godot/script/Boss/StateMachine/BossStateMachine.cs:40 | after `_states[name] = state` the name maps to that state |
| StateMachine.PutLookupOther | godot/script/Boss/StateMachine/BossStateMachine.cs:40 | registration leaves every other name's entry unchanged |
| StateMachine.PutKeys | godot/script/Boss/StateMachine/BossStateMachine.cs:40 | a re-registered name keeps its place in key order; a new name goes last |
| StateMachine.PutDistinct | godot/script/Boss/StateMachine/BossStateMachine.cs:40 | registration never makes a name occur twice |
| StateMachine.IndexOf | godot/script/Boss/StateMachine/BossStateMachine.cs:98-101 | the key walk stops at an occurrence of the name, and reports −1 exactly when the name is absent |
| StateMachine.IndexOfFirst | godot/script/Boss/StateMachine/BossStateMachine.cs:98-101 | the walk stops at the first occurrence |
| StateMachine.NextKey | godot/script/Boss/StateMachine/BossStateMachine.cs:98-107 | yields a name exactly when the current name is a key, and that name is a key |
| StateMachine.NextKeyAt | godot/script/Boss/StateMachine/BossStateMachine.cs:101-107 | after the i-th key comes key i + 1, or key 0 after the last |
| StateMachine.AdvancedMod | godot/script/Boss/StateMachine/BossStateMachine.cs:104-107 | n cyclic steps from position i reach (i + n) mod k |
| StateMachine.InitialInv | godot/script/Boss/StateMachine/BossStateMachine.cs:14-23 | the empty machine has no current state and satisfies the invariant |
| StateMachine.RegisterSpec | godot/script/Boss/StateMachine/BossStateMachine.cs:37-41 | Register maps the name to the state, leaves every other name, the current state, its name and the trace unchanged |
| StateMachine.RegisterInv | godot/script/Boss/StateMachine/BossStateMachine.cs:37-41 | Register keeps names distinct and a current name registered |
| StateMachine.ChangeUnknown | godot/script/Boss/StateMachine/BossStateMachine.cs:56-57 | Change to an unregistered name has no effect at all |
| StateMachine.ChangeKnown | godot/script/Boss/StateMachine/BossStateMachine.cs:53-73 | Change to a registered name exits the old state if one runs, enters the new one, logs the line, then makes state and name current |
| StateMachine.ChangeAgain | godot/script/Boss/StateMachine/BossStateMachine.cs:60-66 | changing to the current name exits and re-enters the same state |
| StateMachine.ChangeInv | godot/script/Boss/StateMachine/BossStateMachine.cs:53-73 | Change keeps the invariant: a state runs exactly when a name is current, and that name is registered |
| StateMachine.ProcessSpec | godot/script/Boss/StateMachine/BossStateMachine.cs:80-84 | with a state running, each frame appends exactly one Tick of that state with this delta; with none, the machine is unchanged; registry, state and name never change |
| StateMachine.ProcessInv | godot/script/Boss/StateMachine/BossStateMachine.cs:80-84 | a frame keeps the invariant |
| StateMachine.TickCountAppend | godot/script/Boss/StateMachine/BossStateMachine.cs:83 | tick calls in a concatenated trace add up |
| StateMachine.CycleWithoutTag | godot/script/Boss/StateMachine/BossStateMachine.cs:92-113 | Tab with no current name, or one that is not registered, changes nothing |
| StateMachine.CycleStep | godot/script/Boss/StateMachine/BossStateMachine.cs:98-111 | Tab on the i-th key is Change to the cyclically next key |
| StateMachine.CycleWrapsToFirst | godot/script/Boss/StateMachine/BossStateMachine.cs:105-107 | Tab on the last key makes the first key current |
| StateMachine.CycleInv | godot/script/Boss/StateMachine/BossStateMachine.cs:89-115 | Tab keeps the invariant |
| StateMachine.CycleNInv | godot/script/Boss/StateMachine/BossStateMachine.cs:89-115 | any number of Tab presses keeps the invariant |
| StateMachine.CycleWalk | godot/script/Boss/StateMachine/BossStateMachine.cs:89-115 | n presses from the i-th key make the key n cyclic steps on current, without changing the registry |
| StateMachine.CycleVisitsAll | godot/script/Boss/StateMachine/BossStateMachine.cs:89-115 | n presses from the i-th key make key (i + n) mod |keys| current, so every name is reached |
| StateMachine.CycleReturns | godot/script/Boss/StateMachine/BossStateMachine.cs:89-115 | as many presses as there are names bring back the original name |
| StateMachine.BossStateMachine.constructor | godot/script/Boss/StateMachine/BossStateMachine.cs:14-23 | no states, no current state or name, empty trace |
| StateMachine.BossStateMachine.Register | godot/script/Boss/StateMachine/BossStateMachine.cs:37-41 | the machine moves exactly as Registered says |
| StateMachine.BossStateMachine.Change | godot/script/Boss/StateMachine/BossStateMachine.cs:53-73 | the machine moves exactly as Changed says |
| StateMachine.BossStateMachine.Process | godot/script/Boss/StateMachine/BossStateMachine.cs:80-84 | the machine moves exactly as Processed says |
| StateMachine.BossStateMachine.UnhandledInput | godot/script/Boss/StateMachine/BossStateMachine.cs:89-115 | on Tab the loop over the keys moves the machine exactly as Cycled says; other input changes nothing |
| Idle.PaintedAt | godot/script/Boss/StateMachine/IdleState.cs:40-43 | part way through the loop exactly the visited indices are lime |
| Idle.HighlightedAt | godot/script/Boss/StateMachine/IdleState.cs:40-43 | after the loop the last 100 particles are lime and every other colour is unchanged |
| Idle.HighlightedIdempotent | godot/script/Boss/StateMachine/IdleState.cs:32-47 | entering twice colours the cloud as entering once |
| Idle.HighlightedInitial | godot/script/Boss/StateMachine/IdleState.cs:40-43 | on a freshly initialized cloud, entry turns the red tail lime and leaves the rest white |
| Idle.IdleState.constructor | godot/script/Boss/StateMachine/IdleState.cs:25-29 | stores the cloud and the move strategy |
| Idle.IdleState.Enter | godot/script/Boss/StateMachine/IdleState.cs:32-47 | the colours become Highlighted of the old colours, then "Enter Idle" is logged |
| Idle.IdleState.Exit | godot/script/Boss/StateMachine/IdleState.cs:50-54 | only "Exit Idle" is logged |
| Idle.IdleState.Tick | godot/script/Boss/StateMachine/IdleState.cs:57-78 | the move step updates the cloud's pose; the multimesh takes that pose; the cloud advances one step and publishes FrameAt at the new t and frameCount, colours unchanged |

## Left out

- Floating point: the source stores coordinates as `float` and time as `double`. The model uses exact reals, so the `(float)` narrowing of the formula's output and rounding in sums are not modelled.
- The ordering of `float` NaNs by `Array.Sort` is not modelled, because reals have no NaN.
- Cloud.ParticleCloud.ApplyTransform: the `(float)rot` cast of the rotation is not modelled, because rotations are reals.
- The engine objects are not modelled, because they are engine calls and have no logic of their own here:
  - the MultiMesh transform format, the colour flag and the `QuadMesh` fallback in `Initialize`;
  - the `MultiMeshInstance2D` argument.
  - The `Initialize` instance count is modelled by the length of the two arrays. The new instances' default transform is taken as the identity, which is the engine default.
- Cloud.ParticleCloud.Advance and UpdateCloudParticles require `Initialize` to have run. In the source, calling them earlier dereferences the null mesh and throws.
- Cloud.ParticleCloud.ApplyTransform requires `Initialize` to have run, because the source writes to the null `cloudInst` before it and throws.
- Cloud.ParticleCloud.SetColor needs `Initialize` only for an index inside the buffer. The source checks the index before touching the mesh, so an index outside it is a no-op even before `Initialize`, and the model allows that call; an in-range index before `Initialize` throws in the source and is excluded.
- Null arguments: strings and states are non-null values in the model. `Register(null, …)` and `Change(null)` throw inside the dictionary in the source, and that is not modelled. Only `SetFormula`'s explicit null check is modelled, as an `Outcome`.
- The particle formula (`IPointFormula`, `DefaultFormula`) is an arbitrary function, since it lives outside the core.
- The move strategy (`IMoveStrategy`, `ChaseSquareStrategy`) is an arbitrary pose update. The target it steers toward is passed to `Tick` as a parameter instead of being read through its callback.
- `BossBase` and `GameRoot`, which build and wire these objects, are not part of this model.
- `GD.Print` and `GD.PrintRich` are modelled as lines appended to a log, or to the machine's trace. Console output itself is not modelled.
- The input event is reduced to whether the `ui_tab` action was pressed.
- The dictionary's key enumeration order is taken to be insertion order. That is the order `Dictionary<,>` yields when nothing is ever removed, and the core never removes.
- States registered in the machine are abstract identifiers. The machine records the Exit/Enter/Tick calls it makes in its trace. It does not run `IdleState`'s methods itself: their effect is stated separately, on `IdleState`.
- The pose of the multimesh instance (the scene's `MultiMeshInstance2D` handed to `Initialize`) starts at the identity pose in the model, and `Initialize` does not change it. In the source it is whatever the scene gives that node until the first `ApplyTransform`. The cloud node's own pose starts at zero, the `Node2D` default, in both.
