# drunc: a verified model

drunc is a run control: a tree of controllers drives data-taking applications
through a finite state machine, and a process manager starts and stops the
processes. This project models its core in Dafny and proves what the design
rests on.

- **One controller** (`Fsm`, `SubStates`, `Phases`, `Callbacks`, `Arguments`,
  `Protocol`, `StatefulNodes`, `Controllers`): the transition table, the
  string sub-states, the callbacks around a transition, the encoding of
  arguments, and the command `execute_fsm_command` with its decorators. The
  classes are proved to compute the functions of `Protocol`.
- **Its children** (`RestChildren`, `Dispatcher`, `Propagation`): applications
  that reply through a queue, the thread that hands replies out, and one thread
  per child filling a shared list.
- **The whole tree** (`Trees`, `Lockstep`, `Climb`, `Control`, `PhaseRuns`): a tree of such
  controllers with applications at the leaves, one request at a time entering
  at the root. Whatever is outside the code (callbacks, links between
  controllers, applications, arguments that do not decode) is settled by an
  oracle, and every statement holds for all oracles and all runs.
- **The process manager** (`ProcessStates`, `ProcessManager`): the two
  dictionaries of the SSH process manager and the process objects it stores.
  When a process dies, whether a signal to it raises, and what trying a host
  gives are no business of the program; they belong to a process's life, and
  statements hold for all lives.
- **Tree ids** (`TreeIds`, `Segments`, `Listings`, `Sessions`, `Drawing`): numbering the
  applications of a session, printing the numbers with dots, and drawing the
  tree by sorting them as text.

## Assumptions

- Requests reach a controller one at a time
  (`src/drunc/controller/interface/controller.py:55`), and only at the root.
- The whole tree shares one transition table. Operational states are named
  without hyphens; without that, the sub-state strings are ambiguous
  (`SubStates.AmbiguousNames`).
- Broadcasting returns. The Kafka sender may raise after a failed send
  (`src/drunc/broadcast/server/kafka_sender.py:41-56`); `Propagation` covers
  that case for the child threads and gives the exact condition.
- An application answers each command it received at most once, at any time
  afterwards, and has one commander. Arrivals are placed before a command is
  posted or while it is awaited: nothing in between looks at the queue.
- Matching a regular expression is an uninterpreted predicate; JSON and
  protobuf payloads are tagged values. A dead process stays dead; whether it is
  alive shows only when it is looked at, so its life is counted in looks.
- Python's dictionary order is insertion order; `storeKeys` keeps it.

## Where the code differs from its description

- `surrender_control` is described as surrendering the children too
  (`docs/Controller.md:39-40`). The actor's method returns nothing, which is
  compared with 0, so the answer is always FAILED and the children are not told.
- `take_control` is answered FAILED when an application below is excluded: the
  excluded child looks for the name of an FSM command in a request that has
  none. `Control.TakeControlSucceedsIff` is the exact condition.
- A controller reports its own success when its children failed, so a failure
  shows at the root only after as many commands as it lies deep (`Climb`).
- Applications are assumed to start in the state "initial" whatever the
  configured table says; `Lockstep.BootedSoundIff` is the exact condition.
- Nothing in `AppCommander` pairs replies with commands
  (`RestChildren.LateReplyIsMistaken`; `RestChildren.PairedIffClear` is the exact
  condition). The pairing holds because a controller
  that saw a timeout never passes a command on again (`Lockstep.RepliesMatch`).
- A callback sequence also stops, optional or not, at an exception that is not
  a DruncException, such as a value json.dumps rejects otherwise than by a
  TypeError; and the final json.dumps may raise after all callbacks were run.
- A reply naming no application or an unregistered one ends the dispatcher
  thread: the warning goes to a logger the class does not have.
- `kill` and `terminate` stop half-way, with nothing reported, at the first
  process found alive just before a signal to it raises; `KillIsExactIff` and
  `TerminateLeavesNothing` of `ProcessStates` say exactly when they do not. They
  report a process as dead and remove it even if it lives through both signals
  (`ProcessStates.ReportedDeadIff`).
- Controllers of subsegments and applications of the same segment are numbered
  independently and may share an id (`Segments.DistinctIff`).

## Model

| member | source | states |
|---|---|---|
| Lockstep.LockstepOrStopped | src/drunc/controller/controller.py:548-677 | In every tree reachable by requests at the root, any controller that is idle and not in error has all its direct children idle in its own operational state |
| Lockstep.RepliesMatch | src/drunc/controller/children_interface/rest_api_child.py:292-321 | In every run, each reply taken from an application's queue answers the very command awaiting it, and under a controller that can still act no application owes or has queued a reply |
| Lockstep.StoppedForever | src/drunc/controller/controller.py:557-598 | Stopping is absorbing anywhere in the tree: below and at a controller in error or stuck, no sequence of requests changes an operational state or posts a command to an application; only inclusion and tokens may change |
| Lockstep.BootedSoundIff | src/drunc/controller/children_interface/client_side_child.py:16-25 | Freshly booted trees agree from the start if and only if the table's initial state is the "initial" hard-coded for applications |
| Lockstep.OneState | src/drunc/controller/controller.py:548-677 | Where no controller is down, the whole tree, at every depth, is in one operational state |
| Lockstep.BootedIsSound | src/drunc/controller/stateful_node.py:90-118 | A tree as it comes up is in agreement, whatever its error bits |
| Lockstep.SuccessKeepsStep | src/drunc/controller/controller.py:665-677 | A child in step that reports success to an FSM command has moved to where the transition leads and is in step there |
| Lockstep.LaunchKeepsSound | src/drunc/controller/controller.py:600-657 | A command passed on to the children keeps the agreement of the whole subtree, however callbacks, links and applications behave |
| Lockstep.ServeKeepsSound | src/drunc/controller/controller.py:548-722 | Every kind of request keeps it |
| Lockstep.CallKeepsSound | src/drunc/controller/controller.py:361-377 | A call to a child keeps it, whether or not the link loses the request or the reply |
| Lockstep.RunKeepsSound | src/drunc/controller/controller.py:548-770 | Every run keeps it |
| Lockstep.OthersKeepView | src/drunc/controller/controller.py:688-770 | Include, exclude, take and surrender change nothing but inclusion bits and tokens in a whole subtree |
| Lockstep.DownServesNothing | src/drunc/controller/controller.py:557-598 | A controller that is down refuses every FSM command, changes nothing and sends its children none |
| Lockstep.DownRunsNothing | src/drunc/controller/stateful_node.py:150-163 | It stays down, and everything below it stays as it is, over any sequence of requests |
| Lockstep.FailureMarksParent | src/drunc/controller/controller.py:625-657 | A controller that passed a command on and had any answer other than success is in error or stuck afterwards |
| Climb.FailureClimbs | src/drunc/controller/controller.py:625-677 | After a failure anywhere below, the ancestor k levels up is down no later than the k-th command it passes on, counting the failing one, and passes on no more |
| Climb.FailureClimbsExactly | src/drunc/controller/controller.py:625-677 | If everything else succeeds, the ancestor k levels above a failing child goes down with the k-th command it passes on, counting the failing one, and not before; it reports success to the failing command itself |
| Climb.FailureMakesFrontier | src/drunc/controller/controller.py:654-677 | The failing command leaves the parent of the failing child down and every controller above it up, and the root reports success |
| Climb.MovesAnyway | src/drunc/controller/controller.py:641-677 | A controller for which nothing goes wrong but its children moves and reports success, in error if one of them failed |
| Climb.FsmAnswersAreReadable | src/drunc/controller/controller.py:625-638 | No answer to an FSM command claims success without an FSM flag |
| Climb.ClimbsExactly | src/drunc/controller/controller.py:654-677 | From a controller that is down, if everything else succeeds, the failure climbs exactly one level per command: the ancestor k levels above goes down with the k-th further command and not before |
| Climb.ClimbsInTime | src/drunc/controller/controller.py:557-562 | With a controller down k levels below, at most k further commands are passed on, and after the k-th the ancestor is down |
| Climb.FailureMarksParentAt | src/drunc/controller/controller.py:625-657 | The parent of the failing child, however deep, is down once the root has served the command |
| Climb.ChildLaunchesToo | src/drunc/controller/controller.py:611-623 | While a controller stays up, each child controller passes on every command it does |
| Climb.LaunchReachesChild | src/drunc/controller/controller.py:625-657 | A controller still up after passing a command on reached each child controller, which passed it on too |
| Climb.FrontierClimbs | src/drunc/controller/controller.py:654-677 | One smooth command moves the failure one level up, while the root still reports success |
| Climb.HealthyMoves | src/drunc/controller/controller.py:548-677 | A healthy subtree answers a smooth, enabled command with success and moves as a whole |
| Control.ControlLasts | src/drunc/controller/controller.py:735-770 | From a successful take_control until the next take or surrender, no FSM command with that token is refused as not in control anywhere in the subtree |
| Control.TakeControlCovers | src/drunc/controller/controller.py:735-770 | If take_control is answered with success, every controller in the subtree holds the token |
| Control.TakeControlSucceedsIff | src/drunc/controller/controller.py:749-770 | It is so answered if and only if every link works and no application is excluded |
| Control.ExcludedApplicationSpoilsAnswer | src/drunc/controller/children_interface/client_side_child.py:147-160 | An excluded application makes the answer a failure although every controller took the token |
| Control.OnlyTheHolderMoves | src/drunc/controller/controller.py:543-548 | In every run, a controller's operational state changes only on an FSM command bearing the token it holds, along a transition of that name enabled in its state |
| Control.MovesOnlyForHolder | src/drunc/controller/decorators.py:7-25 | The same for one request at one controller |
| Control.RunKeepsHeld | src/drunc/controller/controller.py:44-68 | A token held by a whole subtree stays with it until a take or surrender |
| Control.HeldMeansNoneRefused | src/drunc/controller/decorators.py:7-25 | Where a token is held throughout, no answer at any depth refuses it |
| Control.ExcludeCovers | src/drunc/controller/controller.py:710-722 | Excluding excludes every controller and application below, also where some already were and answer with an exception |
| Control.IncludeCovers | src/drunc/controller/controller.py:688-700 | Including includes every controller and application below, also where some already were |
| Control.SecondTimeRaises | src/drunc/controller/stateful_node.py:137-145 | A controller included or excluded already answers with an exception |
| Control.SurrenderIsLocal | src/drunc/controller/controller.py:780-793 | Surrendering gives up the token of the controller asked and no other's, and is answered FAILED |
| Control.ExcludedServesNoFsm | src/drunc/controller/controller.py:564-577 | An excluded controller executes no FSM command and passes none on |
| Trees.ServeIsExecute | src/drunc/controller/controller.py:548-677 | In the tree, one controller does with an FSM command what the class Controller is proved to do, its answers coming from the subtrees |
| Trees.ServeIsTheOthers | src/drunc/controller/controller.py:688-793 | So it does with include, exclude, take and surrender |
| Trees.LinkMeans | src/drunc/controller/controller.py:373-403 | A request lost leaves the child as it was, a reply lost does not; either is an exception to the parent |
| Trees.NodeServes | src/drunc/controller/controller.py:350-435 | A request at the root either leaves a given controller alone or is served by it with the same token |
| Trees.NodeRuns | src/drunc/controller/controller.py:350-435 | Over a whole run each controller of the tree lives through a run of its own |
| Propagation.VerdictIsOrderFree | src/drunc/controller/controller.py:350-435 | For every interleaving of the child threads the parent's verdict and its answer to take_control are those of the children's answers in child order |
| Propagation.OneResponsePerChildIff | src/drunc/controller/controller.py:361-418 | There is exactly one response per child, in every interleaving, if and only if no broadcast raises |
| Propagation.JoinedContributions | src/drunc/controller/controller.py:361-418 | Once joined, each child has contributed exactly what its own thread was to contribute |
| Propagation.ArrivedIff | src/drunc/controller/controller.py:361-418 | The list holds the contributions of the children and nothing else |
| Propagation.RunIsConsistent | src/drunc/controller/controller.py:361-418 | At every moment each thread has added just what its progress calls for |
| Propagation.FairSchedulesJoin | src/drunc/controller/controller.py:417-435 | No thread waits for another: a few turns each, in any order, bring all joins to an end |
| Propagation.RankFalls | src/drunc/controller/controller.py:417-435 | Each turn of a thread brings it nearer its end, whatever the others do |
| Protocol.JudgeIsOrderFree | src/drunc/controller/controller.py:625-638 | The verdict over the children depends only on the multiset of responses |
| Protocol.DownDeclines | src/drunc/controller/controller.py:557-598 | A node in error or stuck answers without touching itself or sending anything |
| Protocol.SuccessMeansMoved | src/drunc/controller/controller.py:654-677 | A node that reports success passed every guard, arguments and callbacks included, made an enabled transition of that name and is idle where it leads; it is in error exactly when a child did not succeed |
| Protocol.SentIff | src/drunc/controller/controller.py:557-623 | Exactly when a command is passed on to the children, and with which data |
| Protocol.NotSentMeans | src/drunc/controller/controller.py:557-611 | The answer and the state, guard by guard, of a command that is not passed on |
| Protocol.SentMeans | src/drunc/controller/controller.py:625-677 | The answer, the state and the error bit of one that is |
| Protocol.MovesOnlyAlongTransitions | src/drunc/controller/stateful_node.py:214-221 | The operational state changes only along a transition of the table enabled in the old state |
| Protocol.ExceptionAfterPreparingSticks | src/drunc/controller/stateful_node.py:170-188 | An exception after preparation began leaves the node stuck |
| Controllers.Controller.ExecuteFsmCommand | src/drunc/controller/controller.py:540-677 | The decorated command is exactly the guard-free function Execute. The children are sent it, with the data of the callbacks and no addressees, if and only if the token is held, the node is included, idle and not in error, the transition known and enabled, the arguments decode and the callbacks return; arguments that do not decode change and send nothing and are answered DRUNC_EXCEPTION_THROWN |
| Controllers.Controller.ExecuteBody | src/drunc/controller/controller.py:548-677 | The same below the decorators |
| Controllers.Controller.Open | src/drunc/controller/controller.py:557-611 | The command up to the propagating mark, with every way it may end there |
| Controllers.Controller.Conclude | src/drunc/controller/controller.py:641-677 | The marks from propagated to finalised and the error bit, from the children's verdict |
| Controllers.FindWorstFlags | src/drunc/controller/controller.py:625-638 | The loop over the answers finds the best flags exactly when every child answered success with an executed FSM flag, and raises exactly when a success has no FSM flag |
| Controllers.Controller.Include | src/drunc/controller/controller.py:688-700 | For the holder of control the node is included afterwards, with an exception exactly if it was before; anyone else is refused and changes nothing |
| Controllers.Controller.Exclude | src/drunc/controller/controller.py:710-722 | For the holder of control the node is excluded afterwards, with an exception exactly if it was before; anyone else is refused and changes nothing |
| Controllers.Controller.TakeControl | src/drunc/controller/controller.py:735-770 | The token is taken whatever the children answer; the answer tells whether all of them did |
| Controllers.Controller.SurrenderControl | src/drunc/controller/controller.py:780-793 | The token is given up, the answer is nevertheless FAILED |
| Controllers.ControllerActor.SurrenderControl | src/drunc/controller/controller.py:58-62 | Gives the token back to nobody, or raises for any other token |
| Controllers.ControllerActor.TakeControl | src/drunc/controller/controller.py:64-68 | Takes the token unconditionally |
| StatefulNodes.StatefulNode.constructor | src/drunc/controller/stateful_node.py:90-118 | A node starts idle in the table's initial state, included, not in error |
| StatefulNodes.StatefulNode.IncludeNode | src/drunc/controller/stateful_node.py:137-140 | The node is included afterwards in any case; raises exactly if it was before |
| StatefulNodes.StatefulNode.ExcludeNode | src/drunc/controller/stateful_node.py:142-145 | The node is excluded afterwards in any case; raises exactly if it was before |
| StatefulNodes.StatefulNode.ToError | src/drunc/controller/stateful_node.py:150-151 | Sets the error bit and nothing else |
| StatefulNodes.StatefulNode.CanTransition | src/drunc/controller/stateful_node.py:159-163 | True exactly when idle and the transition is enabled in the operational state |
| StatefulNodes.StatefulNode.PrepareTransition | src/drunc/controller/stateful_node.py:170-188 | Guards, preparing mark, callbacks, ready mark; the mark an exception leaves |
| StatefulNodes.StatefulNode.PropagateTransitionMark | src/drunc/controller/stateful_node.py:190-196 | ready becomes propagating, anything else raises and changes nothing |
| StatefulNodes.StatefulNode.FinishPropagatingTransitionMark | src/drunc/controller/stateful_node.py:198-204 | propagating becomes propagated, anything else raises and changes nothing |
| StatefulNodes.StatefulNode.StartTransitionMark | src/drunc/controller/stateful_node.py:206-212 | propagated becomes executing, anything else raises and changes nothing |
| StatefulNodes.StatefulNode.TerminateTransitionMark | src/drunc/controller/stateful_node.py:214-221 | executing becomes terminated and the operational state moves to the destination |
| StatefulNodes.StatefulNode.FinaliseTransition | src/drunc/controller/stateful_node.py:223-236 | terminated becomes finalising and then idle, unless a callback raises |
| SubStates.DecodePhaseEncode | src/drunc/controller/stateful_node.py:170-236 | With plain names every sub-state string reads back to one (phase, transition) |
| SubStates.IdleIffEqual | src/drunc/controller/stateful_node.py:159-163 | State equals sub-state exactly when idle |
| SubStates.MarkRefines | src/drunc/controller/stateful_node.py:190-221 | A guarded step on the string is exactly the guarded step on the phase |
| SubStates.TextCollides | src/drunc/controller/stateful_node.py:170-236 | Exactly which pairs of marks read the same: two transitions named after each other's marker words |
| SubStates.AmbiguousNames | src/drunc/controller/stateful_node.py:170-236 | Without the restriction on names the strings are ambiguous |
| Phases.TextFollowsPhases | src/drunc/controller/stateful_node.py:159-236 | The strings simulate the seven-phase machine: where names are plain, each of the six methods called in any state leads to the string of the phase the machine is led to, and raises what the machine raises |
| Phases.ShownPhaseIsUnique | src/drunc/controller/stateful_node.py:170-236 | A sub-state shows one phase only, idle exactly when it equals the state |
| Phases.TextsFollowPhases | src/drunc/controller/stateful_node.py:170-236 | The same for any sequence of the six methods |
| PhaseRuns.NodeFollowsPhases | src/drunc/controller/stateful_node.py:90-236 | In every tree reachable from a booted one each controller is where a run of the seven-phase machine from idle has led; its sub-state reads as exactly one phase, idle if and only if it equals the operational state |
| PhaseRuns.RunFollowsPhases | src/drunc/controller/stateful_node.py:90-236 | Every run of one controller is a run of the machine |
| PhaseRuns.ServeIsMoves | src/drunc/controller/controller.py:600-652 | Serving a request makes an initial part of the six moves of one transition of the table, in order, or none |
| PhaseRuns.TextAfterStep | src/drunc/controller/stateful_node.py:190-236 | Each guard met within a launched command holds, because the move before set it |
| Fsm.Fsm.GetDestinationIff | src/drunc/fsm/core.py:202-212 | The destination lookup answers exactly for transitions of the table, by name, source and destination, whose source accepts the state, and tells where they lead |
| Fsm.Fsm.GetTransitionFinds | src/drunc/fsm/core.py:228-232 | A looked-up transition is in the table under that name; lookup fails exactly on unknown names |
| Fsm.Fsm.GetTransitionIsFirst | src/drunc/fsm/core.py:228-232 | Of several of one name the first would be found |
| Fsm.Fsm.GetTransitionUnique | src/drunc/fsm/core.py:228-232 | With unique names it is the only one so named |
| Fsm.EnsureUniqueTransition | src/drunc/fsm/core.py:182-187 | Accepts a table exactly when names are unique, else names the first repetition |
| Callbacks.RunFrom | src/drunc/fsm/core.py:61-83 | Runs exactly the prefix of callbacks ending at the first that stops the sequence, each handed the input due to it |
| Callbacks.TransitionSequence.Execute | src/drunc/fsm/core.py:50-83 | The same from the unparsed data on: empty data counts as an empty object, unreadable data ends it before any callback, the first callback is handed what was read, and with no callbacks that is given back |
| Callbacks.TransitionSequence.AddCallback | src/drunc/fsm/core.py:32-44 | Appends a callback |
| Callbacks.InputIsLastReturned | src/drunc/fsm/core.py:61-79 | Each callback is handed the last value returned before it |
| Callbacks.StopsIff | src/drunc/fsm/core.py:61-79 | What ends a sequence: a mandatory callback meeting a DruncException, or any callback meeting another exception; an optional DruncException never does |
| Callbacks.RanEndsWith | src/drunc/fsm/core.py:61-83 | Which exception, or which text, a sequence ends with |
| Callbacks.RanIsUnique | src/drunc/fsm/core.py:50-83 | Callbacks and data settle what is called, with what, and how it ends |
| Arguments.RoundTrip | src/drunc/fsm/utils.py:17-54 | Both sides accept exactly when every argument has a meant value, and decoding then gives exactly those values: what was supplied, else the default; a missing mandatory argument is always refused |
| Arguments.RoundTripAt | src/drunc/controller/interface/shell_utils.py:227-290 | The same for one argument inside the whole dictionary |
| Arguments.RoundTripOne | src/drunc/controller/interface/shell_utils.py:227-290 | The same for one argument alone: the client refuses what it cannot convert and a mandatory argument not named, the server a mandatory one given as None |
| Arguments.ValidateAndFormat | src/drunc/controller/interface/shell_utils.py:217-290 | Deleting from the dictionary being read does not change the answer: it is that of reading an untouched copy; exactly the truthy values described are deleted |
| Arguments.FormatNext | src/drunc/controller/interface/shell_utils.py:227-284 | One round of that loop: which error, or which packet under the name |
| Arguments.FormatPrefixFails | src/drunc/controller/interface/shell_utils.py:227-284 | Formatting succeeds exactly when each argument by itself can be formatted |
| Arguments.FormatAcceptsIff | src/drunc/controller/interface/shell_utils.py:222-290 | The client accepts exactly if nothing was typed, or names are unique and each argument can be formatted |
| Arguments.FormatRefusesDuplicates | src/drunc/controller/interface/shell_utils.py:232-233 | A name described twice is refused |
| Arguments.FormatPrefixAt | src/drunc/controller/interface/shell_utils.py:227-284 | What is written for an argument is not touched by later ones |
| Arguments.DecodeFsmArguments | src/drunc/fsm/utils.py:17-54 | The decoder computes the specification Decode, errors included |
| Arguments.DecodeOneMeans | src/drunc/fsm/utils.py:31-50 | One argument: which error, or the value packed under its kind, in the message or else by default |
| Arguments.DecodeFailsFirst | src/drunc/fsm/utils.py:30-50 | The first argument that cannot be decoded settles the error |
| Arguments.DecodePrefixFails | src/drunc/fsm/utils.py:30-50 | Decoding succeeds exactly when each argument can be decoded |
| Arguments.DecodePrefixAt | src/drunc/fsm/utils.py:30-50 | Each decoded argument has its own value |
| RestChildren.RestApiChildNode.PropagateFsmCommand | src/drunc/controller/children_interface/rest_api_child.py:470-526 | Child state and traffic after a command, and its answer, in every case of sending, waiting and replying |
| RestChildren.RestApiChildNode.PropagateCommand | src/drunc/controller/children_interface/client_side_child.py:119-175 | Include and exclude; FSM commands when included; everything else ignored, or an exception when excluded |
| RestChildren.RestApiChildNode.constructor | src/drunc/controller/children_interface/rest_api_child.py:343-384 | A child starts in the assumed state "initial" with nothing owed or queued |
| RestChildren.QuietExchange | src/drunc/controller/children_interface/rest_api_child.py:470-526 | With nothing owed or queued from before the reply taken answers the command just posted, and success leaves nothing over and the child at the destination |
| RestChildren.PairedIffClear | src/drunc/controller/children_interface/rest_api_child.py:292-321 | Exactly when a command is safe from earlier ones: whatever happens, the reply taken for it is its own if and only if nothing is owed or queued from before |
| RestChildren.StrayExchange | src/drunc/controller/children_interface/rest_api_child.py:292-321 | With anything owed or queued there is an exchange that takes it for the answer to the new command |
| RestChildren.ExchangeKeepsNumbered | src/drunc/controller/children_interface/rest_api_child.py:470-526 | Replies owed or queued are always to commands posted before |
| RestChildren.RestApiChildNode.AwaitReply | src/drunc/controller/children_interface/rest_api_child.py:488-526 | The part of a command after it is sent |
| RestChildren.ExchangeMeans | src/drunc/controller/children_interface/rest_api_child.py:470-526 | Case by case what becomes of the child and what it answers; only a reply of success ends the execution, anything else leaves it executing and in error |
| RestChildren.ExchangeTakesFirst | src/drunc/controller/children_interface/rest_api_child.py:292-321 | The reply taken is the first queued, and those behind it stay |
| RestChildren.PostMeans | src/drunc/controller/children_interface/rest_api_child.py:239-289 | Posting numbers the command, which is owed a reply exactly if it was delivered |
| RestChildren.OtherRequestsMean | src/drunc/controller/children_interface/client_side_child.py:119-175 | Other requests change the inclusion of the child at most, and how each is answered |
| RestChildren.ExcludedTakesNoCommand | src/drunc/controller/children_interface/client_side_child.py:147-163 | An excluded child is sent no FSM command |
| RestChildren.LateReplyIsMistaken | src/drunc/controller/children_interface/rest_api_child.py:292-321 | The code alone does not pair replies with commands: a late reply is taken for the answer to the next command |
| RestChildren.ArriveAllWhenOneOwed | src/drunc/controller/children_interface/rest_api_child.py:210-211 | With one command owed at most its own reply comes in |
| RestChildren.AppCommander.SendCommand | src/drunc/controller/children_interface/rest_api_child.py:239-289 | What sending leaves behind when it succeeds, fails to connect or fails otherwise |
| RestChildren.AppCommander.CheckResponse | src/drunc/controller/children_interface/rest_api_child.py:292-321 | Takes the oldest queued reply, or raises and changes nothing when there is none |
| RestChildren.AppCommander.Notify | src/drunc/controller/children_interface/rest_api_child.py:210-211 | Queues a reply |
| RestChildren.AppCommander.Receive | src/drunc/controller/children_interface/rest_api_child.py:160-211 | Replies arriving one after another, at most one per command |
| Dispatcher.PerApplicationFifo | src/drunc/controller/children_interface/rest_api_child.py:22-38 | For every interleaving of posts and dispatch, each commander has been handed exactly the replies naming its application among those dispatched, in order, with none lost or repeated up to the posting that ends the thread |
| Dispatcher.AllDelivered | src/drunc/controller/children_interface/rest_api_child.py:22-38 | Until STOP, and if all named applications are registered, everything posted is delivered once the queue is empty |
| Dispatcher.UnregisteredReplyEndsAll | src/drunc/controller/children_interface/rest_api_child.py:160-171 | A reply naming no registered application ends the thread wherever it comes: each commander gets the replies naming it posted before, in order, and none posted after |
| Dispatcher.StopEndsAll | src/drunc/controller/children_interface/rest_api_child.py:36-42 | STOP ends the thread properly: what was posted before is delivered, nothing after |
| Dispatcher.FirstStrayEndsAll | src/drunc/controller/children_interface/rest_api_child.py:22-38 | Both in one |
| Dispatcher.RunIsOrderly | src/drunc/controller/children_interface/rest_api_child.py:22-38 | What is taken and what is queued are together what was posted, in order |
| Dispatcher.ResponseListener.Register | src/drunc/controller/children_interface/rest_api_child.py:126-143 | Adds a handler unless there is one |
| Dispatcher.ResponseListener.Notify | src/drunc/controller/children_interface/rest_api_child.py:160-171 | Hands the reply to the named application, or ends the thread |
| Dispatcher.ResponseListener.Post | src/drunc/controller/children_interface/rest_api_child.py:76-85 | Queues a posting |
| Dispatcher.ResponseListener.DispatchAll | src/drunc/controller/children_interface/rest_api_child.py:22-38 | The loop is a number of dispatch steps and stops only with an empty queue or an ended thread |
| Dispatcher.IterateIsRun | src/drunc/controller/children_interface/rest_api_child.py:22-38 | That loop is one of the runs the other statements are about |
| TreeIds.JoinInjective | src/drunc/process_manager/oks_parser.py:70 | Dotted printing is injective |
| TreeIds.SplitJoin | src/drunc/process_manager/process_manager_driver.py:49 | Splitting a printed id gives its numbers back as words |
| TreeIds.ParseSplitJoin | src/drunc/process_manager/process_manager_driver.py:49 | Each of which reads back as its number |
| TreeIds.PathOfJoin | src/drunc/process_manager/utils.py:35 | An id recovers its path |
| TreeIds.SplitMeans | src/drunc/process_manager/utils.py:35 | Whatever the text, its parts joined by dots give it back and have no dots |
| TreeIds.DigitsAreDecimal | src/drunc/process_manager/oks_parser.py:70 | Numbers are printed in decimal without leading zeros |
| TreeIds.BetweenIsBelow | src/drunc/process_manager/utils.py:54 | Because a dot comes before the digits, whatever lies in text order between an id and something below it lies below it too |
| TreeIds.BelowIffText | src/drunc/process_manager/oks_parser.py:91-115 | One path lies below another exactly when its text starts with the other's and a dot |
| TreeIds.LessTransitive | src/drunc/process_manager/utils.py:54 | The text order is transitive |
| TreeIds.LessTotal | src/drunc/process_manager/utils.py:54 | The text order is total |
| TreeIds.LessIff | src/drunc/process_manager/utils.py:54 | The text order: where one begins the other, or the first characters that differ, decide |
| Drawing.Tabulate | src/drunc/process_manager/utils.py:41-58 | The rows are the processes sorted stably as text, each followed at once by exactly those below it and indented by its depth |
| Drawing.SortedTextIsTree | src/drunc/process_manager/utils.py:54 | Any text-sorting of distinct ids puts each process immediately before one contiguous block of exactly what lies below it, at any depth and index size |
| Drawing.BelowIsContiguous | src/drunc/process_manager/utils.py:54 | Nothing below a process is listed before it or after something that is not |
| Drawing.MakeTree | src/drunc/process_manager/utils.py:31-39 | Each line is indented by two spaces for every dot |
| Drawing.SortIsSorting | src/drunc/process_manager/utils.py:54 | The stable sort used gives an ordered rearrangement |
| Drawing.SortIsStable | src/drunc/process_manager/utils.py:54 | Processes of one id stay in the order given |
| Segments.CollectApps | src/drunc/process_manager/oks_parser.py:34-132 | The appending loops with their counter emit exactly the recursive numbering |
| Segments.CollectUpper | src/drunc/process_manager/oks_parser.py:61-91 | Controller first, then enabled subsegments under their own index |
| Listings.ListedIff | src/drunc/process_manager/oks_parser.py:34-132 | Listed, exactly: the controller of every segment reached through enabled ones, under its path, and each of its enabled applications, under that path and its place among them, each by its own name; nothing else |
| Listings.ListedInOrder | src/drunc/process_manager/oks_parser.py:61-130 | The order: a controller before all below it, its subsegments by number before its applications by number |
| Segments.DistinctIff | src/drunc/process_manager/oks_parser.py:70-130 | Ids are always distinct among controllers and among applications; over both kinds if and only if no segment has an enabled subsegment and an enabled application of the same number |
| Segments.SegmentsDistinctIff | src/drunc/process_manager/oks_parser.py:86-91 | The same for a list of subsegments |
| Segments.PartsSeparate | src/drunc/process_manager/oks_parser.py:86-130 | Within one segment, only a subsegment's controller and an application can share a number |
| Segments.CollectIsUnder | src/drunc/process_manager/oks_parser.py:70-130 | Everything in a segment is numbered below it, and only its controller has its number |
| Segments.ApplicationsNumbered | src/drunc/process_manager/oks_parser.py:95-130 | Enabled applications take consecutive numbers |
| Segments.CollectInfraApps | src/drunc/process_manager/oks_parser.py:135-185 | Exactly the infrastructure applications with a name are listed, in order and by their own ids, each numbered by its position among all |
| Segments.PlaceOf | src/drunc/process_manager/oks_parser.py:159-180 | Nothing else is listed |
| Segments.InfraListsReal | src/drunc/process_manager/oks_parser.py:159-180 | The specification lists exactly those too |
| Segments.InfraIsApart | src/drunc/process_manager/oks_parser.py:157-163 | Their numbers are distinct and not less than the first one given |
| Segments.NextTreeId | src/drunc/process_manager/process_manager_driver.py:48-49 | One more than the largest leading number |
| Sessions.SessionDistinctIff | src/drunc/process_manager/process_manager_driver.py:46-53 | Infrastructure never clashes with itself or anything else; all ids of a session are distinct if and only if no number is shared |
| Sessions.NumberSession | src/drunc/process_manager/process_manager_driver.py:46-53 | The ids a session is booted with: the named infrastructure applications and then all that is collected; they can be drawn as a tree if and only if no number is shared |
| ProcessStates.RemovalIsPermanent | src/drunc/process_manager/ssh_process_manager.py:220-236 | In every run from the start, a process once known and not stored is not stored after any later requests, and its request stays as it is |
| ProcessStates.RemovedCannotComeBack | src/drunc/process_manager/ssh_process_manager.py:388-405 | A restart that singles it out, and a boot under its uuid, fail and leave both dictionaries unchanged |
| ProcessStates.ReachableIsValid | src/drunc/process_manager/process_manager.py:452-483 | In every reachable state the stored processes are among the known requests and each request has a host: queries never miss a key |
| ProcessStates.ServesKeepsValid | src/drunc/process_manager/ssh_process_manager.py:77-137 | Every request keeps that |
| ProcessStates.ServesKeepsRemoved | src/drunc/process_manager/ssh_process_manager.py:388-412 | Every request keeps a removed process removed |
| ProcessStates.ServesKeepsKnown | src/drunc/process_manager/ssh_process_manager.py:388-412 | A known request stays known for ever |
| ProcessStates.RestartRebootIsNotRefused | src/drunc/process_manager/ssh_process_manager.py:404-412 | The boot inside a restart is never refused; it puts the request back under the same uuid with at most the host name changed and touches nothing else |
| ProcessStates.StoredAfterMeans | src/drunc/process_manager/ssh_process_manager.py:239-294 | A process is stored exactly if some host tried has started one, and it is the last started |
| ProcessStates.KillIsExact | src/drunc/process_manager/ssh_process_manager.py:414-422 | A kill on which no matching process resists ends normally, leaves exactly the processes the query does not match and reports each of the others once |
| ProcessStates.KillIsExactIff | src/drunc/process_manager/ssh_process_manager.py:77-126 | A kill ends normally, and removes exactly the matching processes, if and only if none of them is found alive just before a signal to it raises |
| ProcessStates.KillStopsAtFirst | src/drunc/process_manager/ssh_process_manager.py:82-96 | Otherwise exactly the matching processes before the first that resists are taken off, that one and those after it stay, and nothing is reported |
| ProcessStates.ReportedDeadIff | src/drunc/process_manager/ssh_process_manager.py:99-119 | A process reported dead is alive afterwards if and only if it lives through both signals |
| ProcessStates.ReportsMean | src/drunc/process_manager/ssh_process_manager.py:99-119 | What each report says: status, exit code, request and uuid |
| ProcessStates.KillStopsHalfWay | src/drunc/process_manager/ssh_process_manager.py:82-96 | Two processes of which the second cannot be signalled: the kill takes off the first and raises |
| ProcessStates.KillReportsTheLiving | src/drunc/process_manager/ssh_process_manager.py:99-121 | A process that lives through both signals: the kill reports it dead and forgets it |
| ProcessStates.TerminateStopsHalfWay | src/drunc/process_manager/ssh_process_manager.py:129-137 | The first of these for a termination |
| ProcessStates.TerminateReportsTheLiving | src/drunc/process_manager/ssh_process_manager.py:129-137 | The second for a termination |
| ProcessStates.FlushIsExact | src/drunc/process_manager/process_manager.py:320-364 | A flush takes off exactly the matching processes found dead at the second look, and reports exactly those, once each and as dead |
| ProcessStates.TerminateLeavesNothing | src/drunc/process_manager/ssh_process_manager.py:129-137 | A termination ends normally, and leaves nothing stored, if and only if no stored process resists; no request is forgotten |
| ProcessManager.SSHProcessManager.Kill | src/drunc/process_manager/ssh_process_manager.py:414-422 | Takes off the matching processes in order up to the first that resists, with one report each, or an exception and none; which processes are left, what was done to each, and that no other process is replaced, looked at or signalled |
| ProcessManager.SSHProcessManager.Terminate | src/drunc/process_manager/ssh_process_manager.py:129-137 | The same for everything stored |
| ProcessManager.SSHProcessManager.KillProcesses | src/drunc/process_manager/ssh_process_manager.py:77-126 | The loop both rest on |
| ProcessManager.SSHProcessManager.KillOne | src/drunc/process_manager/ssh_process_manager.py:79-121 | One process: its life afterwards, and whether it resists or is taken off and reported |
| ProcessManager.SSHProcessManager.SignalUntilDead | src/drunc/process_manager/ssh_process_manager.py:82-96 | The loop over the two signals: how many are sent, which one raises, and the life left |
| ProcessManager.SSHProcessManager.KillInTurn | src/drunc/process_manager/ssh_process_manager.py:77-126 | The loop over the processes, and where it ends |
| ProcessManager.SSHProcessManager.KillNext | src/drunc/process_manager/ssh_process_manager.py:79-121 | One round of it |
| ProcessManager.SSHProcessManager.Flush | src/drunc/process_manager/process_manager.py:320-364 | Takes off exactly the matching processes found dead at the second look and reports none of them as running although each is looked at three times; no other process is replaced or looked at |
| ProcessManager.SSHProcessManager.FlushListed | src/drunc/process_manager/process_manager.py:324-364 | The loop it rests on |
| ProcessManager.SSHProcessManager.FlushOne | src/drunc/process_manager/process_manager.py:337-364 | One process: kept if alive at the second look, else reported dead and removed; the exit code only if dead at the first |
| ProcessManager.SSHProcessManager.Ps | src/drunc/process_manager/ssh_process_manager.py:334-377 | Reports the matching processes in order as seen in two looks, an exit code only for those dead at the first, and changes nothing else |
| ProcessManager.SSHProcessManager.Boot | src/drunc/process_manager/ssh_process_manager.py:380-385 | Boots under a generated uuid, which need not be new |
| ProcessManager.SSHProcessManager.BootAs | src/drunc/process_manager/ssh_process_manager.py:220-331 | Refuses a request without hosts and a known uuid. Otherwise keeps the request with the last host tried; a process is stored if and only if a host tried has started one, namely the last started, and it is reported running if and only if the look at it finds it alive; no other process is touched |
| ProcessManager.SSHProcessManager.StartOnSomeHost | src/drunc/process_manager/ssh_process_manager.py:239-294 | Hosts are tried in order up to the first that has started the process and its watcher, or the last; the last process started is stored |
| ProcessManager.SSHProcessManager.TryHost | src/drunc/process_manager/ssh_process_manager.py:239-294 | One host: a process stored under the uuid, or nothing changed |
| ProcessManager.SSHProcessManager.BootInstance | src/drunc/process_manager/ssh_process_manager.py:296-331 | The report of a boot, having looked at the process once |
| ProcessManager.SSHProcessManager.Restart | src/drunc/process_manager/ssh_process_manager.py:388-412 | Needs exactly one matching request with its process stored and dead or ended without an exception, and then ends as the boot of that request; otherwise it fails and nothing changes in the dictionaries; no other process is touched |
| ProcessManager.SSHProcessManager.Interrupt | src/drunc/process_manager/ssh_process_manager.py:399-402 | Ending a living process; whether that raises |
| ProcessManager.SSHProcessManager.Reboot | src/drunc/process_manager/ssh_process_manager.py:404-412 | Removes process and request and boots the request again under its uuid |
| ProcessManager.SSHProcessManager.EnsureOneProcess | src/drunc/process_manager/process_manager.py:437-449 | Accepts exactly one uuid, known to the boot requests |
| ProcessManager.SearchStore | src/drunc/process_manager/process_manager.py:452-483 | Searching the store finds the matching keys in order and never misses a request |
| ProcessManager.SearchRequests | src/drunc/process_manager/process_manager.py:452-483 | Searching the requests finds each matching one once, in whatever order |
| ProcessManager.Accepts | src/drunc/process_manager/process_manager.py:465-481 | The accepted flag is the disjunction of the four selectors |
| ProcessStates.MatchingMeans | src/drunc/process_manager/process_manager.py:452-483 | What a query finds: exactly the keys that match, each once |
| ProcessStates.MatchingRequestsMean | src/drunc/process_manager/process_manager.py:452-483 | The same over the requests: by uuid, name, session or user |

## Left out

- Children whose control is "direct" without a commander, `describe`, `describe_fsm`, `status` and `who_is_in_charge`: reading state, no effect on it.
- Construction of a controller from its configuration, connectivity polling and termination: calls to services; a node put in error while the tree comes up is covered by leaving the error bits of `Lockstep.Booted` free.
- Authorisation: the authoriser grants everything; requests whose payload cannot be unpacked fail before any state changes.
- gRPC, Flask, ssh, sockets, Kafka, logging and shells: plumbing. A call to a child controller works, loses the request or loses the reply.
- FSM action bodies: the oracle says what the callbacks before and after a transition give; `Callbacks` models how they are run.
- Broadcasts that raise inside a controller, other than in the child threads: see the assumptions.
- Ill-formed regular expressions: compiling one raises before any state changes.
- Requests sent directly to a controller other than the root: agreement with its parent is not promised by the code then.
- ResponseListener.Register: `Dispatcher` runs start with the applications registered; registering later and `unregister` are not interleaved with dispatching.
- RestChildren.AppCommander.SendCommand: the command sent is represented by its number and name; its JSON body and `ping` are not modelled.
- Arguments.RoundTrip: takes unique argument names as given; the check in `get_arguments` compares names with parameter objects (src/drunc/fsm/core.py:104-106) and does not establish them.
- Drawing.Tabulate: the name column only; the other columns copy fields.
- The order in which children's responses are listed in a tree: they are kept in child order, and `Propagation` shows that the parent's verdict does not depend on it.
- Environments, hosts, arguments and log paths collected beside the ids, `collect_variables`, `find_segment`, `get_segment_lookup_timeout`: easy recursions over the configuration.
- `find_controlled_apps`: a misspelt variable (src/drunc/process_manager/oks_parser.py:202) makes it lose applications found deeper down.
- The branches of `ps` and `flush` for a uuid missing from a dictionary: `ProcessStates.ReachableIsValid` shows they are never taken.
- `logs` of the process manager and the watcher threads' notices: no effect on the dictionaries.
- Requests to the process manager served at the same time: each is one step, while processes die at any moment.
- The Kubernetes process manager: it does not define `_terminate_impl` and uses a decorator that raises.
- boot_json_parser and the session manager: stubs beside the core.
