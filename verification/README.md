# ASSS verification model

A Dafny model of the cores of ASSS, a server for the game SubSpace, and of the Python
tools that share its formats, with proofs of what they are meant to guarantee.

- **Lifecycle** (`Lifecycle*.dfy`, `Server.dfy`). Arenas and players are two state machines
  that run against each other: timers, packet handlers, persist completions, kicks from
  other threads and map workers. Every region of code under a lock is one atomic step; a
  player pass, a round of arena callbacks and a recycle are longer than one lock and are
  visible in the state. `LifecycleInvariant.dfy` has the invariant, `LifecycleTheorems.dfy`
  what follows in every reachable state, `LifecycleMoves.dfy`, `LifecycleMarks.dfy` and
  `LifecycleArenas.dfy` what each step does there, `LifecycleHistory.dfy` and
  `LifecycleShutOut.dfy` what must have happened before, `LifecycleReaches.dfy` states that
  are reached, and `Server.dfy` the timers and handlers in place, proved to take these steps.
- **Flags** (`Flag*.dfy`). The flag array, the players' counters, what single requests come to,
  re-entrant Cleanup handlers, clients that replay the packets, the Cleanup of fg_wz.py with
  what it makes of every flag, and whole games.
- **Reliable delivery** (`Reliable.dfy`, `Delivery.dfy`, `Progress.dfy`, `Unreliable.dfy`). One
  endpoint, two of them over a network that loses, repeats and reorders, what the retries
  achieve, and the unreliable data sent beside them.
- **Regions** (`Region*.dfy`, `MapData.dfy`, `Bitmaps.dfy`, `TileMap.dfy`). The tile codec of
  region.py, the decoder in C, the meaning of their bytes bit by bit, the index of interned
  sets with its bitmaps, the rectangles and the random points drawn from them.
- **Sparse array** (`Sparse.dfy`, `SparseArray.dfy`). The C that gensparse.py emits for bits
  5, 2 and 3, on an explicit heap of chunks.
- **Encryption** (`Keystream.dfy`, `Cipher.dfy`). The key table and the chained cipher, in C
  and in Python.
- **Arithmetic and allocation** (`Hypotenuse.dfy`, `PidMap.dfy`, `Bandwidth.dfy`).

`Options.dfy`, `Bytes.dfy` and `Words.dfy` hold what several modules share. `dafny verify dfyconfig.toml` checks
everything.

Functions give the meaning of an operation as a value; methods do the same in place, as the
sources do, and are proved against them; lemmas state what holds of all inputs, runs or
reachable states.

Where code and comments differ, the model follows the code. `region.py` appends None for an
empty row that stands alone, and its final join then raises an error: the model has this as
an error result, and `EncodesIff` says exactly when it happens. `leave_arena_when_done_waiting`
is never cleared, so whoever leaves while his scores are being loaded can never enter an
arena again: `ShutOutForGood` proves it for every run, `ShutOutIff` says exactly who is
concerned. player.h does not document that a login refused at once goes from S_CONNECTED to
S_WAIT_AUTH; `MovesAreDocumented` has it as its one exception. A kill or a drop with a Cleanup
that moves flags can leave clients with a wrong view, an op 3 after an empty row records
rectangles that are not painted, and enc.py and enc_vie.c fill different tables for negative
multiples of 127773: each has an example or a whole family that fails, and the exact
condition.

## Model

| member | source | states |
|---|---|---|
| `LifecycleTheorems.ArenaPointersSafe` | `src/core/arenaman.c:176-230` | In every reachable state a player's `arena` is an existing arena that is RUNNING or CLOSING, and his `newarena` exists and, if it is past RUNNING, has `resurrect` set. |
| `LifecycleTheorems.FreedArenaIsUnused` | `src/core/arenaman.c:208-230` | Whatever step frees an arena, no player has it as `arena` or `newarena` at that moment. |
| `LifecycleTheorems.OnlyTheTimerFrees` | `src/core/arenaman.c:223-229` | An arena disappears in no other step than the arena timer's visit of that very arena. |
| `LifecycleTheorems.NobodyInsideWhenWritten` | `src/core/arenaman.c:176-199` | The re-check for players inside an arena whose data is about to be written never finds one. |
| `LifecycleTheorems.CallbacksInOrder` | `src/core/core.c:312-457` | Over every run each player's callbacks are CONNECT, then visits of PREENTER, perhaps followed by ENTER and then exactly one LEAVE, then DISCONNECT. |
| `LifecycleTheorems.CallbackArenaLive` | `src/core/core.c:312-457` | The arena a PREENTER, ENTER or LEAVE is fired for is the player's arena, and is RUNNING or CLOSING when it is fired. |
| `LifecycleTheorems.CompletionsFindTheirState` | `src/core/core.c:649-751` | Every persist or authentication completion finds its player or arena in the one state that waits for it, and at most one is outstanding; pending actions are for listed players. |
| `LifecycleTheorems.ReplacementIsThere` | `src/core/core.c:679-697` | The namesake who is to take over is listed, waits in WAIT_AUTH, and takes over from one player only. |
| `LifecycleTheorems.HoldsCountJobs` | `src/core/arenaman.c:1000-1033` | Holds are zero outside the three wait states, equal the number of jobs that have not unheld while the lock is free, and a job that has compared the status with ARENA_RUNNING saw the phase it was launched in. |
| `LifecycleTheorems.PhaseEndsAfterItsJobs` | `src/core/arenaman.c:125-139` | An arena leaves a wait-for-holds state only in the arena timer's visit, with no holds and no job of that phase left. |
| `LifecycleTheorems.StepKeeps` | `src/core/arenaman.c:111-263` | Every enabled step of the interleaved protocol keeps the invariant about arenas, players, jobs, passes and replacements. |
| `LifecycleTheorems.RunKeeps` | `src/core/core.c:216-457` | So does every finite run, of any length and interleaving. |
| `LifecycleReaches.SomebodyPlays` | `src/core/core.c:216-457` | With and without persist, and for an arena of any name, a reachable state has a player PLAYING in a RUNNING arena after CONNECT, PREENTER and ENTER. |
| `LifecycleReaches.SomebodyLeaves` | `src/core/core.c:216-457` | And another has him in TIMEWAIT after LEAVE and DISCONNECT, where he may be freed. |
| `LifecycleHistory.NobodySkipsLogin` | `src/core/core.c:649-709` | Over every run: nobody gets past WAIT_AUTH on the way in, and no callback is fired for anybody, without an authentication of his own in that run that succeeded. |
| `LifecycleHistory.NobodyIsMovedUnasked` | `src/core/arenaman.c:572-671` | Over every run: an arena is a player's `arena` or `newarena` only if he asked in that run to go to an arena of the name it had then. |
| `LifecycleShutOut.NobodyLeavesByHimself` | `src/core/player.c:188-207` | Over every run: nobody is marked for or past the zone's exit who was not kicked, replaced by a namesake who logged in, or unable to be authenticated for want of an authenticator. |
| `LifecycleShutOut.ShutOutForGood` | `src/core/arenaman.c:404-411` | Whoever once left while his scores were being loaded is never PLAYING again and never has another ENTER fired, in whatever run follows, for as long as he is there: the mark is not cleared. |
| `LifecycleShutOut.ShutOutIff` | `src/core/arenaman.c:404-411` | Over every run: he has the mark if and only if at some point of it he left, was kicked or replaced, or was sent out by a recycle while his scores were being loaded. |
| `LifecycleShutOut.GoesInIff` | `src/core/core.c:715-721` | So when his scores have come he goes on into the arena if and only if he has never done that before, in that arena or any other. |
| `LifecycleShutOut.SomebodyIsShutOut` | `src/core/arenaman.c:404-411` | Concretely, for an arena of any name: a reachable state in which it runs and a player is LOGGEDIN, not kicked, free to ask for it, and shut out. |
| `LifecycleMoves.MovesAreDocumented` | `src/include/player.h:47-136` | In every reachable state every step leaves each player's status or moves it along a transition player.h documents, but for a login refused at once, which goes from CONNECTED to WAIT_AUTH; a player disappears only from TIMEWAIT. |
| `LifecycleMoves.LoginRefused` | `src/core/core.c:699-708` | In every reachable state a refused login leaves the player CONNECTED with nothing outstanding, and changes nobody and nothing else. |
| `LifecycleMoves.LoginAccepted` | `src/core/core.c:690-697` | An accepted one goes to NEED_GLOBAL_SYNC if nobody of the name is there, and changes nothing else. |
| `LifecycleMoves.LoginTakesOver` | `src/core/core.c:679-689` | Otherwise the player keeps waiting, the other one is kicked just as by a kick and knows who replaces him. |
| `LifecycleMoves.LeaveDoes` | `src/core/arenaman.c:389-468` | In every reachable state a leave takes a player back to LOGGEDIN, on to the sync, or out of play, by how far he had come; marks one whose scores are being loaded; and touches nothing else. |
| `LifecycleMoves.KickDoes` | `src/core/player.c:188-207` | A kick is such a leave and the mark. |
| `LifecycleMoves.ScanDoes` | `src/core/core.c:231-309` | One player in a pass's first loop: waiting statuses stay, connected and logged-in players leave if kicked and else enter if their arena runs, the others move on and are noted with their old status; nothing else changes. |
| `LifecycleMoves.SyncCompletesDoes` | `src/core/core.c:712-751` | A persist completion ends the wait of exactly its player, out again if he left meanwhile, and a namesake who takes over starts his own sync. |
| `LifecycleMoves.ConnectsDoes` | `src/core/player.c:127-149` | A newcomer has a number nobody has, is in S_UNINITIALIZED, and nothing has been asked or done for him. |
| `LifecycleMoves.ListedDoes` | `src/core/player.c:80-87` | He joins the end of the player list. |
| `LifecycleMoves.ReadyDoes` | `src/core/chatnet.c:118-132` | Once his keys are exchanged he is in S_CONNECTED. |
| `LifecycleMoves.LoginsDoes` | `src/core/core.c:640-645` | A login packet is noted for the next pass and changes nothing else. |
| `LifecycleMoves.RejectionDoes` | `src/core/core.c:460-480` | A login refused at once waits for just its refusal. |
| `LifecycleMoves.FreedDoes` | `src/core/player.c:157-171` | A player is freed from TIMEWAIT only, and the others stay in the list in order. |
| `LifecycleMarks.ActionDoes` | `src/core/core.c:312-457` | One pending action in every reachable state: exactly the callback of the old status is fired, the login is handed on or the player kicked, and persist is asked whenever there is one, except for somebody leaving the zone who was never announced; where it is not asked the wait ends at once. |
| `LifecycleMarks.LoadedMeans` | `src/core/core.c:352-365` | The two marks for loaded data say exactly what has been asked for and not put back, in every reachable state. |
| `LifecycleMarks.KickedIsLeaving` | `src/core/core.c:262-277` | Nobody who has been kicked is on his way into an arena, and nobody plays who has the mark of having left while loading. |
| `LifecycleArenas.ReapedIff` | `src/core/arenaman.c:821-882` | In every reachable state a reaping sends a RUNNING arena off if and only if it is not to be kept and no listed player has it as `arena` or `newarena`, a CLOSING one if and only if no listed player is in it, and leaves every other status. |
| `LifecycleArenas.ReapTouchesOnly` | `src/core/arenaman.c:840-860` | Beyond that it only makes a CLOSING arena come back that a listed player outside waits for. |
| `LifecycleArenas.KeptUntilRecycled` | `src/core/arenaman.c:866-876` | Over every run a RUNNING arena that is to be kept goes on running, whoever comes and goes, until it is recycled. |
| `LifecycleArenas.TimerDoes` | `src/core/arenaman.c:111-263` | The timer's visit of one arena in every reachable state: the next phase begins when the jobs of the last are done, data are loaded before it runs and written after, where there is persist, and in the end it is freed, comes back, or runs on under another name and for good; nothing else changes. |
| `LifecycleArenas.NeverSeenPassing` | `src/core/arenaman.c:125-139` | Between visits no arena is ever in DO_INIT1, DO_INIT2 or DO_DESTROY2. |
| `LifecycleArenas.GoesDoes` | `src/core/arenaman.c:623-667` | A request makes the first arena in the list with exactly that name the next one, to come back if it was on its way out; only if there is none, a new one, not to be kept, is put at the end of the list. |
| `LifecycleArenas.CreatePermanentDoes` | `src/core/arenaman.c:267-290` | A permanent arena is made the same way, but to be kept. |
| `LifecycleArenas.RecycleMarksDoes` | `src/core/arenaman.c:497-523` | A recycle makes exactly the listed players in the arena leave it as by themselves with it as their next arena, and nobody else. |
| `LifecycleArenas.RecycleClosesDoes` | `src/core/arenaman.c:525-532` | And then closes it, to come back. |
| `LifecycleTheorems.ArenaStepKeeps` | `src/core/arenaman.c:111-295` | Every arena-side step keeps the invariant: the timer, both halves of queueing a job, workers, sync completions, reaping, both halves of recycling. |
| `LifecycleTheorems.PlayerStepKeeps` | `src/core/player.c:89-207` | Every step of one player keeps it: connecting, leaving, going, kicks, login and rejection, freeing. |
| `LifecycleTheorems.PassStepKeeps` | `src/core/core.c:216-457` | Every step of a player pass and every completion keeps it. |
| `LifecycleSafety.ArenaTimerKeeps` | `src/core/arenaman.c:111-263` | The arena timer's visit of one arena, in whatever state, keeps the invariant. |
| `LifecycleSafety.WorkReadsKeeps` | `src/core/mapdata.c:943-973` | A map worker that looks at the status without any lock still sees its own phase. |
| `LifecycleSafety.HoldForWorkKeeps` | `src/core/mapdata.c:975-990` | Queueing the work before calling Hold is safe because the arena lock is held throughout the callbacks. |
| `LifecycleSafety.HoldIsCounted` | `src/core/arenaman.c:1000-1015` | In a round of callbacks Hold is never refused. |
| `LifecycleSafety.WorkUnholdsKeeps` | `src/core/arenaman.c:1017-1033` | A worker's Unhold always finds its hold. |
| `LifecycleSafety.ArenaSyncKeeps` | `src/core/arenaman.c:98-108` | A persist completion for an arena moves it on and keeps the invariant. |
| `LifecyclePass.ReapKeeps` | `src/core/arenaman.c:821-882` | Reaping never sends an arena to its end while somebody is in it, and resurrects a closing one somebody waits for. |
| `LifecyclePass.RecycleMarkKeeps` | `src/core/arenaman.c:471-523` | The first half of a recycle keeps the invariant while the second is still to come. |
| `LifecyclePass.RecycleCloseKeeps` | `src/core/arenaman.c:525-532` | The second half finds its arena still RUNNING and keeps the invariant. |
| `LifecyclePass.GoToKeeps` | `src/core/arenaman.c:623-667` | Going to an arena by name always gives the player a target that is running, on its way up, or coming back. |
| `LifecyclePass.ScanKeeps` | `src/core/core.c:231-309` | The first loop of a pass keeps the invariant at each player. |
| `LifecyclePass.RunActionKeeps` | `src/core/core.c:312-457` | Each pending action keeps it, also when it ends in a kick or in an immediate sync. |
| `LifecyclePass.SyncCompletesKeeps` | `src/core/core.c:712-751` | player_sync_done keeps it, also when a namesake takes over. |
| `LifecyclePass.AuthCompletesKeeps` | `src/core/core.c:649-709` | AuthDone keeps it, also when it kicks a namesake off. |
| `LifecyclePlayers.KicksKeeps` | `src/core/player.c:188-207` | A kick in any state keeps it. |
| `LifecyclePlayers.LeavesKeeps` | `src/core/arenaman.c:389-468` | Leaving in any state keeps it. |
| `LifecyclePlayers.FreedKeeps` | `src/core/player.c:157-171` | Freeing a player in TIMEWAIT leaves nothing behind that refers to him. |
| `Server.PlayerPassRuns` | `src/core/core.c:216-457` | One call of process_player_states is a run of the protocol that scans every listed player once, in order, and then runs every pending action, each player being authenticated if he can be. |
| `Server.ArenaPassRuns` | `src/core/arenaman.c:111-263` | One call of ProcessArenaStates is a run of the protocol, in which the timer visits every arena of the list once, in order, and a job is queued and held in the rounds the mapdata callbacks run in. |
| `Server.SparedByFirst` | `src/core/arenaman.c:840-860` | After any number of players, ReapArenas' second loop has spared exactly the arenas one of them is in or waits for. |
| `Server.ReapByParts` | `src/core/arenaman.c:821-882` | Its three loops together are one reaping step. |
| `Server.Zone.ProcessPlayerStates` | `src/core/core.c:216-457` | The two loops over the player list and the pending actions leave the state the pass leads to. |
| `Server.Zone.ScanOne` | `src/core/core.c:231-309` | One player of the first loop. |
| `Server.Zone.ActOne` | `src/core/core.c:312-457` | One pending action. |
| `Server.Zone.ProcessArenaStates` | `src/core/arenaman.c:111-263` | The timer's loop over the arena list leaves the state the visits lead to. |
| `Server.Zone.ProcessOne` | `src/core/arenaman.c:119-260` | One arena: the outcome, the round of callbacks it starts, or its removal from the list. |
| `Server.Zone.ReapArenas` | `src/core/arenaman.c:821-882` | The three loops leave every arena as one reaping step would. |
| `Server.Zone.RecycleArena` | `src/core/arenaman.c:471-532` | Both halves; refuses, changing nothing, if the arena is not RUNNING or a listed fake player is inside. |
| `Server.Zone.CompleteGo` | `src/core/arenaman.c:572-671` | Refuses in a wrong status without changing anything; otherwise cleans the name up, leaves, and finds, resurrects or creates the target. |
| `Server.CleanedIsClean` | `src/core/arenaman.c:587-596` | A cleaned name has at most 15 characters, all lower case or digits but for a leading pound sign, and a name that already is like that stays as it is. |
| `Server.CleanedIs` | `src/core/arenaman.c:584-596` | Character by character: 15 are kept in their places, a pound sign only in front, digits and lower case anywhere, capitals in lower case, anything else as an x. |
| `Server.RequestRuns` | `src/core/arenaman.c:572-671` | The state CompleteGo leaves is that of two steps of the protocol, leaving and going to the cleaned name, or to where the player is placed if the request is empty. |
| `Server.RecycleRuns` | `src/core/arenaman.c:471-532` | The state RecycleArena leaves is that of its two halves as steps. |
| `Server.ToldIff` | `src/core/arenaman.c:389-468` | In every reachable state somebody with an arena is said to be leaving if and only if he is PLAYING, or in TIMEWAIT. |
| `Server.Zone.LeaveArena` | `src/core/arenaman.c:389-468` | The new status by the old one; the arena is told exactly when someone playing leaves or when the status is one without an arena. |
| `Server.Zone.KickPlayer` | `src/core/player.c:188-207` | Leaves any arena and is marked to leave the zone. |
| `Server.Zone.Hold` | `src/core/arenaman.c:1000-1015` | Counts in the wait states only. |
| `Server.Zone.Unhold` | `src/core/arenaman.c:1017-1033` | Counts down in the wait states only and never below zero. |
| `Server.Zone.ArenaSyncDone` | `src/core/arenaman.c:98-108` | The two sync states move on, any other is left. |
| `Server.Zone.PlayerSyncDone` | `src/core/core.c:712-751` | Moves the player on and starts the namesake's own sync. |
| `Server.Zone.AuthDone` | `src/core/core.c:649-709` | Accepts, refuses, or kicks the namesake and keeps waiting. |
| `FlagCounts.SetFlagConsistent` | `src/core/flagcore.c:163-365` | Keeps the stated consistency: a flag is carried exactly if it has a carrier, and each player's count is the number of flags he carries; also for bad ids and contradictory requests. |
| `FlagCounts.SetFlagsConsistent` | `src/core/flagcore.c:671-681` | So does a whole SetFlags call. |
| `FlagCounts.CleanupConsistent` | `src/core/flagcore.c:97-119` | So does cleanup with any handler, which may set any flags each time it is called. |
| `FlagCounts.KillConsistent` | `src/core/flagcore.c:474-575` | So does a kill with any handler, with and without overflow. |
| `FlagCounts.ResetFromConsistent` | `src/core/flagcore.c:684-718` | So does a reset, and afterwards every flag is missing. |
| `FlagCounts.EnterArenaConsistent` | `src/core/flagcore.c:415-448` | Zeroing the count of somebody who enters keeps consistency if and only if he carries nothing. |
| `FlagCounts.ChangeFreqOk` | `src/core/flagcore.c:461-472` | After a freq change and its cleanup every carried flag has its carrier's freq, whatever the handler did. |
| `FlagCounts.TransferFreqs` | `src/core/flagcore.c:507-536` | A kill's transfers keep that too. |
| `FlagClients.SetFlagAgrees` | `src/core/flagcore.c:219-361` | A client that replays the packets by the rules in the comments sees the server's array after every set_flag. |
| `FlagClients.UnhandAgrees` | `src/core/flagcore.c:236-285` | In particular after the drop-everything-and-pick-up-again of a carried flag. |
| `FlagClients.SetFlagsAgrees` | `src/core/flagcore.c:671-681` | And after a whole SetFlags call. |
| `FlagClients.FlagResetAgrees` | `src/core/flagcore.c:684-718` | And after a reset, whatever it saw before. |
| `FlagRequests.SetFlagStores` | `src/core/flagcore.c:232-361` | Every request that is well formed and for one of the 255 flags leaves that flag as asked: on the map exactly at the requested place and freq, carried by the requested carrier with his freq, missing without a place if it was on the map; every other flag stays and new ones are blank. |
| `FlagRequests.SetFlagRefuses` | `src/core/flagcore.c:163-229` | Any other request changes no flag, no count and no freq and sends nothing. |
| `FlagRequests.SetFlagSeen` | `src/core/flagcore.c:286-361` | A client that agreed before then sees the flag where it was asked for, with the carrier it was asked for, or gone, and every other flag as before. |
| `FlagRequests.SetFlagTells` | `src/core/flagcore.c:236-361` | The last packet gives the new place or carrier, a carrier who loses the flag drops everything first, and nothing is sent where nothing changes for the clients. |
| `FlagRequests.SetFlagsStores` | `src/core/flagcore.c:671-681` | A SetFlags call leaves each of its flags as the request for it asked. |
| `FlagRequests.SetFlagsSeen` | `src/core/flagcore.c:671-681` | And clients see them there. |
| `FlagDrops.DropFlagsAgrees` | `src/core/flagcore.c:620-652` | And after a drop packet, with any handler that, each time it is called, makes any number of requests for flags the dropper does not carry at that moment and hands him none that is still to be cleaned up. |
| `FlagDrops.DropWrongAbout` | `src/core/flagcore.c:97-119` | With any handler that keeps to the flag it is called for, with any number of requests, clients are wrong after a drop about exactly these: flags of the dropper that are neither given back and taken again nor told of, with one that is below them and none above. |
| `FlagDrops.DropAgreesIff` | `src/core/flagcore.c:97-119` | So clients agree if and only if none of his flags is given back and taken again, or all above the highest-numbered one that is are told of. |
| `FlagDrops.SomeCleanup` | `src/core/flagcore.c:97-119` | For every such handler, whatever its requests depend on, there are sets of flags it moves and tells of in a given drop, so the last two cover it. |
| `FlagDrops.KnownCleanup` | `src/core/flagcore.c:97-119` | If it moves and tells of the same flags whatever the table is, these are the sets, and the condition is known before the drop. |
| `FlagDrops.DropWithHandlerCanDisagree` | `src/core/flagcore.c:97-119` | A concrete drop after which they disagree. |
| `FlagSpoils.KillOutcome` | `src/core/flagcore.c:502-571` | With a handler that leaves transferred flags with the killer and hands the others to nobody, and two distinct players, the victim ends with none, the killer with his and the victim's up to the carry limit or his old count if larger, and nobody else changes. |
| `FlagAnswers.DropTells` | `src/core/flagcore.c:97-119` | For every game that answers Cleanup with a spot on the map or not at all: after a drop packet each of the player's flags, and no other, is where the game puts it when told that flag, the reason, the player and the freq the flag had, or is missing. |
| `FlagAnswers.ChangeFreqTells` | `src/core/flagcore.c:461-472` | So it is after a change of freq, where the game is still told the freq the flag had before. |
| `FlagAnswers.KillTells` | `src/core/flagcore.c:502-571` | After a kill, as long as the killer has room for it and the flags before it that the game leaves him, each of the victim's flags is where the game puts it when told the victim, the victim's freq and whether the killer is a fake, a teammate or neither, or is the killer's; the rest are where it puts them when told that the killer cannot carry them, or missing; no other flag changes. |
| `FlagKills.KillWrongAbout` | `src/core/flagcore.c:507-571` | With any handler that makes at most one request each time, for its flag, clients are wrong after a kill of two distinct players about exactly these: without overflow, flags left with the killer with one taken from him below them and none above; with overflow, flags handed back to the victim and lost again without a word. |
| `FlagKills.KillAgreesIff` | `src/core/flagcore.c:507-571` | So they agree if and only if, without overflow, none of the victim's flags is taken from the killer or the highest-numbered is, and with overflow, none is handed back and lost without a word; the overflow is read off the counts and flags before the kill. |
| `FlagKills.SomeKill` | `src/core/flagcore.c:507-571` | For every such handler, whatever its answers depend on, there are sets of flags it takes, hands back and tells of, so the last two cover it. |
| `FlagKills.KnownKillAgreesIff` | `src/core/flagcore.c:507-571` | If it takes the same flags whatever the table is and hands none back, the condition is known before the kill: it overflows, or none of the victim's flags is taken, or his highest is. |
| `FlagKills.KillWithHandlerCanDisagree` | `src/core/flagcore.c:507-536` | A concrete kill after which they disagree: the handler touches only its own flag, but the second flag has not been transferred yet when the first is taken away. |
| `FlagTrails.NoneLeftIff` | `src/core/flagcore.c:507-536` | No flag is left behind if and only if none of the player's flags is moved or all above his highest-numbered moved one are shown. |
| `FlagWarzone.CleansOnce` | `src/py/fg_wz.py:317-355` | The Cleanup of the warzone game makes at most one request, for its flag, and gives it to nobody. |
| `FlagWarzone.WarzoneDropAgrees` | `src/py/fg_wz.py:317-355` | In that game every drop keeps clients in agreement, with any settings and wherever flags are put. |
| `FlagWarzone.WarzoneKillIff` | `src/py/fg_wz.py:142-191` | A kill does if and only if the killer keeps the flags, the kill overflows, or spawn_flag finds a place for the victim's highest-numbered flag or for none of his flags. |
| `FlagWarzone.WarzoneKillAgrees` | `src/py/fg_wz.py:317-355` | So every kill does, friendly fire and fake killers included, as long as spawn_flag finds a place. |
| `FlagWarzone.WarzoneKillCanDisagree` | `src/py/fg_wz.py:186-191` | A concrete kill after which they disagree because it finds one for the first flag and none for the second. |
| `FlagWarzone.WarzoneOutcome` | `src/py/fg_wz.py:317-355` | Who has how many flags after a kill in that game in which the killer keeps them. |
| `FlagOutcomes.WarzoneDropFalls` | `src/py/fg_wz.py:317-355` | After a drop each of the player's flags is where spawn_flag puts it, near him or in the center and owned by the freq it had or neutral as the settings for that way of dropping say, or missing if there is no place; no other flag changes. |
| `FlagOutcomes.CleanupFalls` | `src/core/flagcore.c:97-119` | The same for every reason but kills: those of a change of ship or freq and of leaving take the flags away at the player's place or the center. |
| `FlagOutcomes.WarzoneKillGives` | `src/core/flagcore.c:507-571` | After a kill in which the killer keeps flags, each of the victim's is the killer's, with his freq, if he has room for it and the victim's flags before it; the others are put down with the victim's freq; no other flag changes. |
| `FlagOutcomes.WarzoneKillPlaces` | `src/core/flagcore.c:507-571` | After a kill by a fake player, or by a teammate where that does not transfer, each of the victim's flags is put down with the victim's freq, by the settings for drops or for team kills; no other flag changes. |
| `FlagOutcomes.FlagResetClears` | `src/core/flagcore.c:703-715` | After a reset every flag is missing and neutral and nobody has any. |
| `FlagRuns.WarzoneGamesAgree` | `src/py/fg_wz.py:317-355` | In every whole game in which spawn_flag always finds a place, a client that has seen all packets sees the server's array, if nobody changes ship or freq or leaves with flags. |
| `FlagRuns.WarzoneIsAdmissible` | `src/py/fg_wz.py:317-355` | Each of its operations is admissible whenever it happens. |
| `FlagRuns.GamesAreConsistent` | `src/core/flagcore.c:57-80` | After every finite sequence of set_flag, drops, cleanups, freq changes, kills, resets and entries from an empty table, with any handlers: counts, carriers and the freqs of carried flags are as the source's check states. |
| `FlagGames.AGameIsPlayed` | `src/py/fg_wz.py:317-355` | With any settings, whenever spawn_flag finds a place, a game in which a flag is put on the map, picked up, taken in a kill by a player of another freq and dropped by him ends with it where spawn_flag puts it for him, owned or neutral as set, and every client sees it there. |
| `FlagRuns.FairGamesAgree` | `src/core/flagcore.c:507-571` | After every such sequence in which each drop and kill meets its condition above, a client that has seen all packets from the start sees the server's array. |
| `FlagRuns.DoKeeps` | `src/core/flagcore.c:57-80` | Every operation, with any handler, keeps the counts and the freqs. |
| `FlagRuns.DoAgrees` | `src/core/flagcore.c:507-571` | Every admissible operation keeps the clients in agreement. |
| `FlagCore.FlagGame.SetOne` | `src/core/flagcore.c:163-365` | On the array in place: the flag, the counts and the packets of one set_flag. |
| `FlagCore.FlagGame.TakeFromCarrier` | `src/core/flagcore.c:236-285` | The carried case, with the packets that take one flag out of a carrier's hands. |
| `FlagCore.FlagGame.CleanUp` | `src/core/flagcore.c:97-119` | Cleanup with a handler that re-enters. |
| `FlagCore.FlagGame.MyKill` | `src/core/flagcore.c:474-575` | A kill. |
| `FlagCore.FlagGame.DropPacket` | `src/core/flagcore.c:620-652` | A drop packet. |
| `FlagCore.FlagGame.ResetAll` | `src/core/flagcore.c:684-718` | A reset. |
| `FlagCore.FlagGame.GrowTo` | `src/core/flagcore.c:83-93` | ensure_space keeps the flags there are and adds missing ones. |
| `Reliable.FrameRoundTrip` | `scripts/pythonlib/prot.py:106-108` | The framing of reliable packets and of acks reads back as the number and the payload. |
| `Reliable.FramesAre` | `scripts/pythonlib/prot.py:106-148` | The bytes of reliable packets, acks, contacts and answers: the type, the number least significant byte first, the payload; an answer's number and the key add up to zero modulo 2^32. |
| `Unreliable.SentAtMostOnce` | `scripts/pythonlib/prot.py:96-113` | Over every run the unreliable data a side was handed are, with multiplicity, exactly those still in its retry queue and those its flushes have put on the wire: each goes out at most once and none vanishes. |
| `Unreliable.EverythingGoesOut` | `scripts/pythonlib/prot.py:96-104` | From every reachable state a run without further sends puts exactly the unreliable data still waiting on either side on the wire. |
| `Unreliable.FlushSendsOnlyDue` | `scripts/pythonlib/prot.py:84-104` | A flush of a side that is not connected does nothing; otherwise it sends only packets not sent for 100 ticks, and what stays in the queue is unchanged but for the time of a reliable packet that went out. |
| `Unreliable.FlushSendsAllDue` | `scripts/pythonlib/prot.py:96-104` | With nothing but reliable packets queued, a flush sends every one that is due, in order, and no other. |
| `Delivery.DeliveredIsPrefix` | `scripts/pythonlib/prot.py:206-219` | Over a network that loses, repeats and reorders, what each side has handed on is at all times a prefix of what the other sent reliably, nothing twice. |
| `Delivery.NothingIsLost` | `scripts/pythonlib/prot.py:116-119` | In both directions every reliable packet sent is still being retried, waits in the in-queue with its data, or has been handed on: an ack never discards an unreceived packet. |
| `Delivery.QuietMeansDelivered` | `scripts/pythonlib/prot.py:84-104` | In both directions, once nothing reliable is left in a retry queue, the other side has handed on everything. |
| `Delivery.AckedRemovesOne` | `scripts/pythonlib/prot.py:116-119` | Although the queue is changed while it is walked, handling an ack removes exactly the packets with that number. |
| `Delivery.FlushedKeeps` | `scripts/pythonlib/prot.py:96-104` | A flush keeps every reliable packet, although it removes others from the list it walks. |
| `Delivery.StepKeeps` | `scripts/pythonlib/prot.py:64-219` | Every send, flush, read, contact and answer keeps the two-way invariant. |
| `DeliverySteps.SendsDoes` | `scripts/pythonlib/prot.py:106-113` | In every reachable state a send puts exactly one packet at the end of the queue, due at once: the data as they are, or in a frame with the next number; nothing once the numbers are used up. |
| `DeliverySteps.DataArrives` | `scripts/pythonlib/prot.py:145-152` | Whenever a reliable packet arrives, exactly an acknowledgement of its number goes out. |
| `DeliverySteps.AckArrives` | `scripts/pythonlib/prot.py:116-119` | An acknowledgement takes exactly the packets with its number off the queue. |
| `DeliverySteps.RestArrives` | `scripts/pythonlib/prot.py:125-203` | Whatever else arrives sends nothing and takes nothing off the queue. |
| `DeliverySteps.OtherSideStays` | `scripts/pythonlib/prot.py:64-119` | No step changes the other side. |
| `DeliverySteps.ArrivalIsNoted` | `scripts/pythonlib/prot.py:64-81` | Whatever arrives is noted with its time, and connects exactly if it is the answer to a contact. |
| `DeliverySteps.ContactsDoes` | `scripts/pythonlib/prot.py:226-241` | A contact with the key goes out, and the side is not connected until it is answered. |
| `DeliverySteps.AnswersDoes` | `src/core/enc_vie.c:88-123` | A contact is answered with the number that makes zero with its key. |
| `Progress.EverythingGetsThrough` | `scripts/pythonlib/prot.py:64-104` | From every reachable state there is a continuation without further sends, with new handshakes, flushes, reads and acks and within the timeout, after which everything either side has sent has been handed on and neither has anything left to retry. |
| `Progress.AnythingCanBeDelivered` | `scripts/pythonlib/prot.py:64-219` | For every two lists of plain payloads the numbers have room for, a reachable state has had exactly these sent, handed on and acknowledged, one in each direction. |
| `Progress.OneTurn` | `scripts/pythonlib/prot.py:84-119` | One flush, arrival and ack with a network that loses nothing takes the first packet off the retry queue, although both loops skip elements. |
| `Reliable.Connection.Send` | `scripts/pythonlib/prot.py:14-24` | In place; a payload that is itself a reliable frame is marked reliable with its number; fails once the number no longer fits four bytes, and on data too short to tell. |
| `Reliable.Connection.HandleAck` | `scripts/pythonlib/prot.py:116-119` | The loop that skips an element after each removal. |
| `Reliable.Connection.TrySendingOutqueue` | `scripts/pythonlib/prot.py:84-104` | The disconnect check and the retry loop. |
| `Reliable.Connection.ProcessPkt` | `scripts/pythonlib/prot.py:129-152` | The key response, the reliable and the ack branch; an exception exactly for a core packet too short for its type or number. |
| `Reliable.Connection.TryRead` | `scripts/pythonlib/prot.py:64-81` | The time of the last packet, the packet, and then everything that is in order. |
| `Reliable.Connection.Connect` | `scripts/pythonlib/prot.py:226-241` | Puts the contact packet on the wire and waits for the key response. |
| `Reliable.Connection.TryProcessInqueue` | `scripts/pythonlib/prot.py:206-219` | Hands on in order as long as the next packet is there. |
| `RegionCodec.OpRoundTrip` | `scripts/pythonlib/region.py:140-144` | A written op reads back, in one byte or two. |
| `RegionBits.FieldsAreBits` | `scripts/pythonlib/region.py:76-84` | The fields of an op byte, by division and remainder, are its two top bits, bit 5 and its low five bits. |
| `RegionBits.RowIsSpelled` | `scripts/pythonlib/region.py:125-151` | For every row and every maximal run of it the encoder writes an op 1 if the run is set and 0 if not, with its length: less one in the low five bits up to 32, above that with bit 5 set and the high part before the low. |
| `RegionBits.EncoderSpells` | `scripts/pythonlib/region.py:155-187` | For every set of tiles that can be encoded the bytes are, group by group of equal rows: an op 2 with their number for empty rows; otherwise the row, and an op 3 with how many more there are. |
| `RegionBits.DecodeReads` | `scripts/pythonlib/region.py:53-103` | For every string and position region.py's decoder accepts it, and with the tiles, exactly as a reading by the format's numbers alone: an op 1 paints as many tiles as it counts, 0 and 2 none, 3 the last row again. |
| `RegionLoadBits.LoadReads` | `src/core/mapdata.c:230-317` | So does the decoder in C: it returns TRUE for the same strings and the region gets the same tiles, within the set limit. |
| `RegionLoadBits.FirstOpLoads` | `src/core/mapdata.c:245-311` | Anywhere in a chunk an op read by the decoder in C paints exactly the tiles its bits say, and moves the cursor behind them. |
| `RegionCodec.GetTileData` | `scripts/pythonlib/region.py:118-187` | The encoder's loops write what the row and group specification says. |
| `RegionCodec.EncodeRow` | `scripts/pythonlib/region.py:125-151` | One row: None if it is empty, its runs otherwise. |
| `RegionCodec.JoinRows` | `scripts/pythonlib/region.py:155-187` | Equal rows are written once and repeated. |
| `RegionCodec.LoadTileData` | `scripts/pythonlib/region.py:53-103` | The decoder's loop, with every failed assertion as a rejection. |
| `RegionRoundTrip.RoundTrip` | `scripts/pythonlib/region.py:53-187` | Decoding the encoder's bytes gives back the tiles of the map, for every set of tiles that can be encoded. |
| `RegionRoundTrip.EncodesIff` | `scripts/pythonlib/region.py:164-169` | A set of tiles can be encoded if and only if no empty row stands alone between non-empty ones or the map's edges. |
| `RegionRoundTrip.LoneEmptyRowFails` | `scripts/pythonlib/region.py:164-169` | A concrete set that cannot. |
| `RegionRoundTrip.RowBytesInjective` | `scripts/pythonlib/region.py:161-162` | Rows with the same bytes are the same row, so grouping by bytes is grouping by row. |
| `Bitmaps.BitSet` | `src/core/mapdata.c:216-222` | Setting bit i in eight 32-bit words sets that bit and no other. |
| `Bitmaps.BitsInWith` | `src/core/mapdata.c:216-222` | So a setmap stands for a set of numbers and marking adds one. |
| `RegionIndex.PrefixMatchIsExact` | `src/core/mapdata.c:196-209` | While a region is loaded, the prefix-and-last test never picks a longer set. |
| `RegionIndex.NewSetFits` | `src/core/mapdata.c:211-225` | A new set differs from all interned sets. |
| `RegionIndex.AddTileGrows` | `src/core/mapdata.c:187-228` | Adding a tile extends that tile's set by the region and moves no other; or the limit is reached, the set is not there, and nothing moves; bit i of a setmap stays set exactly for the members of set i. |
| `RegionIndex.LooksUp` | `src/core/mapdata.c:168-178` | Contains, and the set of a point that EnumContaining and GetOneContaining read, follow from the tile sets at every integer coordinate taken modulo the map. |
| `RegionLoad.SameVerdict` | `src/core/mapdata.c:230-317` | The decoder in C returns TRUE on exactly the strings region.py accepts. |
| `RegionLoad.LoadsWhatDecodes` | `src/core/mapdata.c:230-317` | On every accepted string the region gets exactly the tiles region.py decodes unless the set limit was reached, in which case it gets no others; every other region keeps its tiles; nothing is lost unless more sets were wanted than there is room for. |
| `RegionLoad.AcceptedStaysInMap` | `src/core/mapdata.c:240-243` | While an accepted string is read the cursor stays in the map. |
| `RegionLoad.LoadKeeps` | `src/core/mapdata.c:240-311` | Whatever relation adding and copying a tile keep between index and tiles, the whole decoder keeps. |
| `RegionFile.AnswersArePainted` | `src/core/mapdata.c:866-888` | After any regions have been loaded one after another within the limit, Contains and the set of a point answer exactly the painted tile sets, the latter in load order. |
| `RegionFile.AnswersNeverInvent` | `src/core/mapdata.c:226-227` | Past the limit tiles may be missing, but there is never one too many. |
| `RegionFile.LostIff` | `src/core/mapdata.c:198-227` | Tiles are lost if and only if the tiles' lists of regions, as they grow during loading, come in more than 256 different forms, counting the empty one. |
| `RegionFile.EncoderToIndex` | `src/core/mapdata.c:168-178` | From tile sets through region.py's encoder and the decoder in C, the index answers with the sets that went in. |
| `RegionRects.RectsPartitionIff` | `src/core/mapdata.c:255-304` | The recorded rectangles partition the painted tiles if and only if op 3 never repeats an empty row once something has been painted; then their areas add up to the region's tile count. |
| `RegionRects.GoesAstray` | `src/core/mapdata.c:290-295` | An op 3 that repeats an empty row stretches a rectangle over a tile that is never painted. |
| `RegionPoints.EncodedIsFresh` | `scripts/pythonlib/region.py:157-185` | The encoder never writes such an op. |
| `RegionPoints.StaleRepeatStretches` | `src/core/mapdata.c:285-304` | A concrete accepted string that does it. |
| `RegionPoints.PointOfIndex` | `src/core/mapdata.c:916-934` | From an index to a point and back. |
| `RegionPoints.IndexOfPoint` | `src/core/mapdata.c:916-934` | From a point to its index and back. |
| `RegionPoints.RandomPointsOfEncoded` | `src/core/mapdata.c:903-941` | For every encoded region the tile count is the number of its tiles and the walk maps the numbers below it one to one onto them. |
| `MapData.Level.AddRgnTile` | `src/core/mapdata.c:187-228` | In place, with the search over the interned sets and the marking of setmaps. |
| `MapData.Level.Contains` | `src/core/mapdata.c:168-178` | Reads the bit of the tile's set in the region's words. |
| `MapData.Level.EnumContaining` | `src/core/mapdata.c:866-888` | Goes through the tile's set, and through all regions if a coordinate is negative. |
| `MapData.Level.GetOneContaining` | `src/core/mapdata.c:891-901` | The first region of the tile's set, if any. |
| `MapData.Region.ReadRleTileData` | `src/core/mapdata.c:230-317` | The decoder's loop on the level and the region in place. |
| `MapData.Region.GrowEntries` | `src/core/mapdata.c:290-295` | Every entry of the last row grows and the count follows. |
| `MapData.Region.FindRandomPoint` | `src/core/mapdata.c:903-941` | The walk down the rectangle list for a given random number. |
| `Sparse.SetCell` | `scripts/gensparse.py:226-227` | Writing one cell changes the flat 1024 by 1024 map there and nowhere else. |
| `Sparse.OneSlot` | `scripts/gensparse.py:233-249` | No two slots lead to the same leaf. |
| `Sparse.AddBranch` | `scripts/gensparse.py:234-246` | Hanging a fresh branch in keeps the tree free of aliases, leaks and dangling pointers, and every lookup. |
| `Sparse.AddLeaf` | `scripts/gensparse.py:234-246` | So does hanging a fresh leaf in. |
| `Sparse.DropLeaf` | `scripts/gensparse.py:305-310` | So does freeing a leaf that holds only defaults. |
| `Sparse.DropBranch` | `scripts/gensparse.py:305-310` | So does freeing a branch without leaves. |
| `SparseArray.SparseArray.constructor` | `scripts/gensparse.py:87-112` | The empty array reads as the default everywhere. |
| `SparseArray.SparseArray.Lookup` | `scripts/gensparse.py:162-209` | Reads the flat map at both coordinates modulo 1024, for every integer. |
| `SparseArray.SparseArray.Insert` | `scripts/gensparse.py:212-273` | Changes the flat map at one point only. |
| `SparseArray.SparseArray.Cleanup` | `scripts/gensparse.py:276-338` | Changes no lookup and leaves no chunk that holds only defaults. |
| `SparseArray.AllTidy` | `scripts/gensparse.py:297-313` | Once every table entry has been cleaned, no live leaf or branch is empty. |
| `Keystream.MagicDivides` | `src/core/enc_vie.c:144` | For every positive 31-bit key the product fits 63 bits and multiplying and shifting divides by 127773 exactly. |
| `Keystream.MagicOfNegative` | `src/core/enc_vie.c:144` | For every negative 32-bit key it fits 64 bits and gives one less than minus the quotient. |
| `Keystream.StepIsNext` | `src/core/enc_vie.c:144-147` | The step stays within 31 bits and sign and yields the next key. |
| `Keystream.StepFromNegative` | `src/core/enc_vie.c:144-147` | So does the step from a negative key, with the remainder truncated as in C. |
| `Keystream.NextKeyValid` | `src/core/enc_vie.c:146-147` | The next key lies in 1..2^31-1 and is congruent modulo 2^31-1 to 16807k+123, and 5672 more for a negative k. |
| `Keystream.NextKeyUnique` | `src/core/enc_vie.c:146-147` | It is the only number that does. |
| `Keystream.TableIs` | `src/core/enc_vie.c:140-149` | The table is the low halves of 260 keys, each 16807 times the one before and 123, and 5672 more after a negative one, modulo 2^31-1 in 1..2^31-1. |
| `Keystream.StepC` | `src/core/enc_vie.c:142-149` | One turn of do_init's loop in 32-bit arithmetic, without overflow, for every key but zero. |
| `Keystream.StepPython` | `scripts/pythonlib/enc.py:85-95` | One turn of gen_keystream's loop, with a negative magic number, the multiplication taken apart, and a remainder that is off for negative multiples. |
| `Keystream.GenKeystream` | `scripts/pythonlib/enc.py:74-104` | None for zero, and the table of the key as a signed int otherwise. |
| `Keystream.TablesAgreeIff` | `scripts/pythonlib/enc.py:91-93` | The server and the Python tools fill the same table if and only if the key is positive or not a multiple of 127773. |
| `Cipher.XorIsXor` | `src/core/enc_vie.c:182-186` | Xor on a word's bytes is xor on the little-endian int. |
| `Cipher.WordIs` | `src/core/enc_vie.c:131-139` | An int lies in memory as its value modulo 2^32, least significant byte first. |
| `Cipher.TableHolds` | `src/core/enc_vie.c:140-149` | The table of shorts lies in memory with the low byte of each first. |
| `Cipher.EncryptXors` | `src/core/enc_vie.c:164-188` | Every byte do_enc reaches is the byte, the byte of the table and the encrypted byte four places before, or a byte of the key, all xored. |
| `Cipher.EncryptKeeps` | `src/core/enc_vie.c:164-188` | What it does not reach stays: everything with a key of zero, the type byte, or both if the first is zero, and what follows the word the packet ends in. |
| `Cipher.DecryptsBack` | `src/core/enc_vie.c:164-225` | Decrypting the first len bytes gives them back, whatever follows in either buffer and however far either side runs on. |
| `Cipher.PacketRoundTrip` | `src/core/enc_vie.c:164-225` | do_dec after do_enc restores the first len bytes of the packet for every length, key and table, whatever is in the slack of the receiver's buffer. |
| `Cipher.EncryptionsAgree` | `scripts/pythonlib/enc.py:43-71` | do_enc and EncState.encrypt produce the same len bytes, although one runs past the end and the other pads with zeros. |
| `Cipher.DecryptionsAgree` | `scripts/pythonlib/enc.py:43-71` | So do do_dec and EncState.decrypt. |
| `Cipher.EncPrefix` | `src/core/enc_vie.c:182-186` | Byte i of the output depends on the bytes up to i only. |
| `Cipher.SendBufferFits` | `src/core/net.c:2484` | The buffer with four extra bytes is room enough for the words do_enc touches. |
| `Cipher.EncData.Init` | `src/core/enc_vie.c:131-150` | Sets the key, which is zero in memory exactly if it is zero, and fills the 520 bytes of the table in place unless it is. |
| `Cipher.EncData.Encrypt` | `src/core/enc_vie.c:164-188` | On the packet buffer in place, word by word. |
| `Cipher.EncData.Decrypt` | `src/core/enc_vie.c:200-225` | On the packet buffer in place, word by word. |
| `Cipher.DoEncrypt` | `scripts/pythonlib/enc.py:43-71` | enc.py's way of doing it. |
| `Cipher.DoDecrypt` | `scripts/pythonlib/enc.py:43-71` | enc.py's way of doing it. |
| `Hypotenuse.LHypot` | `src/core/game.c:210-230` | For both coordinates up to 65535 the result r satisfies (r-1)^2 <= dx^2+dy^2 < (r+1)^2, is zero only at the origin, and nothing is divided by zero. |
| `Hypotenuse.NewtonStep` | `src/core/game.c:225-227` | One step never ends a whole unit below the root and squares the error. |
| `Hypotenuse.CloserStep` | `src/core/game.c:225-227` | It takes a relative error of 1/k to 1/(4k^2). |
| `Hypotenuse.GuessClose` | `src/core/game.c:220` | The first guess is within a quarter above and two below, in squares. |
| `PidMap.PlayerData.NewPlayer` | `src/core/player.c:89-149` | Takes the first free pid whose delay is over, or doubles the map; the free list holds exactly the pids without a player, without a cycle; nobody else's pid changes; a pid given up is not issued again within the delay. |
| `PidMap.PlayerData.FreePlayer` | `src/core/player.c:157-171` | Puts the pid at the head of the list with its time of reuse. |
| `PidMap.PlayerData.PidToPlayer` | `src/core/player.c:174-185` | Returns the player with that pid, null outside the map. |
| `PidMap.PlayerData.Search` | `src/core/player.c:98-105` | The walk along the list with a pointer to the link. |
| `PidMap.PlayerData.Grow` | `src/core/player.c:107-123` | Doubling links the new pids in a row before the old list. |
| `PidMap.Unlink` | `src/core/player.c:125` | Taking any pid out of the middle keeps the list linked. |
| `PidMap.GrownLinked` | `src/core/player.c:112-119` | The doubled map is linked. |
| `PidMap.FirstAvailableMeans` | `src/core/player.c:101-105` | All pids before the chosen one are still within their delay. |
| `PidMap.LiveIdsDiffer` | `src/core/player.c:174-185` | No two live players share a pid, and a pid leads back to its player. |
| `Bandwidth.DrainIff` | `src/core/bw_default.c:72-93` | A request is admitted iff the buckets up to its priority hold enough together; then exactly that much is removed and no bucket above is touched. |
| `Bandwidth.RunSound` | `src/core/bw_default.c:54-93` | Over any run from empty buckets the bytes admitted at priorities up to p never exceed the tokens credited to buckets 0..p, and each bucket stays within 0..maxavail. |
| `Bandwidth.OneSlice` | `src/core/bw_default.c:58-62` | One turn of the slice loop takes 125 ms off the wrapping tick difference and counts one slice. |
| `Bandwidth.RequestDoes` | `src/core/bw_default.c:72-93` | In such a run a request is admitted iff the buckets up to its priority hold enough, which is then taken from them; a refused one changes nothing. |
| `Bandwidth.RunWithinRate` | `src/core/bw_default.c:54-93` | Over any run from empty buckets what is admitted at priorities up to p stays within the configured rate: per slice of 125 ms an eighth of those priorities' percentages of the limit. |
| `Bandwidth.RefillIs` | `src/core/bw_default.c:63-69` | What a refill adds to a bucket: the slices' eighths of the bucket's percentage of the limit, both rounded down, up to the cap. |
| `Bandwidth.SlicesAre` | `src/core/bw_default.c:58-62` | The number of slices of 125 ms that have passed, one less while the last is not over. |
| `Bandwidth.TickDiffIs` | `src/include/util.h:45-50` | The signed difference of two tick counts modulo 2^31. |
| `Bandwidth.AckThenRetry` | `src/core/bw_default.c:96-115` | After an ack, without clipping or boost, the square root of a retry is defined for a limit of at least four times the scale, and the retry brings the limit back to between two below it and itself. |
| `Bandwidth.ClipIsNearest` | `src/core/bw_default.c:106-114` | Clipping leaves the allowed limit nearest to the value. |
| `Bandwidth.RootDefinedIff` | `src/core/bw_default.c:111-112` | The square root's argument is nonnegative iff the limit is at least twice the scale. |
| `Bandwidth.SquareFitsIff` | `src/core/bw_default.c:112` | The limit's square fits an int iff the limit is at most 46340. |
| `Bandwidth.BWLimit.Iter` | `src/core/bw_default.c:54-69` | Counts the slices and refills every bucket up to the cap. |
| `Bandwidth.BWLimit.Check` | `src/core/bw_default.c:72-93` | Works on a copy; a refusal changes no bucket and notes that the limit was hit. |
| `Bandwidth.BWLimit.AdjustForAck` | `src/core/bw_default.c:96-107` | The raise, with and without the boost, clipped. |
| `Bandwidth.BWLimit.AdjustForRetry` | `src/core/bw_default.c:110-115` | The reduction by the truncated square root, halved towards zero and clipped; below twice the scale what the platform makes of no number is halved and clipped. |

## Left out

- Sockets, files, compression, logging, module loading and configuration. Random numbers and
  the clock are parameters; persist and authentication are one completion per request at some
  later step.
- Fake players' own lifecycle and the direct change of `p->arena` in arenaperm.c; that fake
  players stop a recycle is a parameter of `Server.Zone.RecycleArena`.
- Third-party callbacks and advisers, which are taken to do nothing, except Cleanup.
- Server.Zone: players and arenas are records in maps, so freed memory that is used again
  under the same address is not modelled; identifiers are never reused.
- Server.Zone.ProcessArenaStates: when detaching modules fails only the effect on the status,
  the flags and the name is modelled; the new name is arbitrary.
- Server.Zone.CompleteGo: the case that creating an arena fails, which the code shown never
  makes happen; the name an empty request is placed at is a parameter.
- Liveness: nothing says that an arena ever runs or that a player ever enters.
- FlagKills.KillAgreesIff: for handlers that make at most one request each time they are
  called, for the flag they are called for; two distinct players.
- FlagDrops.DropAgreesIff: for handlers whose requests are for the flag they are called for;
  for requests for other flags `DropFlagsAgrees` is sufficient only.
- FlagWarzone.WarzoneKillIff: the search of spawn_flag for a place, with its random points, the
  map and the other flags, is a parameter; the neut list and the spawn timer, whose calls are
  ordinary set_flag requests, are left out.
- FlagOutcomes.WarzoneKillPlaces: for a spawn_flag that always finds a place; without one the
  killer keeps the flag, and the flags after it find him with one more.
- FlagRuns.FairGamesAgree: what clients make of a change of ship or freq and of somebody
  leaving is not modelled, so a player has no flags then; the same for
  `FlagRuns.WarzoneGamesAgree`.
- Turf games (CARRY_NONE), the flag game's timers and scores, and the widths of packet fields
  (packets/flags.h is not part of this model).
- FlagCounts.ChangeFreqOk: the change of freq is one step with the cleanup that follows it.
- Delivery.DeliveredIsPrefix: payloads that are themselves transport packets, which re-enter
  the packet handler, are not sent; neither are chunks, presized data or grouped packets.
  Datagrams are not encrypted, and both sides are endpoints of prot.py, either of which may
  answer a contact as enc_vie.c does.
- RegionLoad.LoadsWhatDecodes: an op whose second byte is missing is refused at once, where
  the C code reads one byte past the chunk before it returns FALSE; on a string that is
  refused nothing is said about the tiles painted before.
- RegionFile.AnswersArePainted: every region has one tile chunk and a name; unnamed regions
  are not modelled, nor are regions with several tile chunks, where an op 3 would also copy
  tiles of an earlier chunk.
- MapData.Level.EnumContaining: the order of the table of all regions, which is a hash table.
- MapData.Region: the second list of the newest entries, which shares its elements with the
  region's list, is an index into that list.
- RegionPoints.RandomPointsOfEncoded: how the random number is distributed.
- Keystream.GenKeystream: for 32-bit keys, signed or not.
- Cipher.EncData: the exchange of keys when a connection starts, and deleting the state.
- Sparse: running out of memory, and the functions that count or delete chunks.
- Hypotenuse.LHypot: on a 32-bit long, where the sum of squares may not fit.
- Bandwidth.BWLimit.Iter: overflow of the products; limits and percentages are nonnegative.
- Bandwidth.BWLimit.AdjustForRetry: overflow, whose exact bound is `SquareFitsIff`.
- PidMap.PlayerData.NewPlayer: the player's other fields, the player list and failing
  allocations.
- Chat, commands, billing, help, statistics and user interface scripts.
