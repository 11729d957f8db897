# A verified model of hoststack

hoststack runs containers whose image is the host itself. This project models the parts of it where
something can go subtly wrong, and proves what they keep, for every input and every run:

- the **relay server** that multiplexes one pty among any number of attached clients (`Relay`,
  `RelayHistory`, `Pool`), on top of the **robust I/O package** (`RobustWrite`, `RobustRead`);
- the **uuids** that name containers: fields, clock, two printed forms and one parser (`HexWords`,
  `UuidFields`, `UuidClock`, `UuidText`, `UuidParse`, `UuidInput`);
- two **process protocols**: the semaphore initialisation race and the start handshake (`Semaphore`,
  `Handshake`);
- the **container registry**, its lifecycle, and which container a name or id reaches (`Registry`, `Lifecycle`,
  `Naming`, `LifecycleHistory`);
- the **command line, directory and mount helpers** (`CommandLine`, `Directories`, `Mounts`).

`dafny verify dfyconfig.toml` checks everything.

## How the model is built

Code that updates fields or buffers in place is a class or a method with loops, proved equal to a
specification function; what the program promises is then proved about that function. `Pool.ConnectionPool`
has the slot array, read set, ready set, `nready`, `maxi` and `maxfd` of the source; `Relay` describes the
same passes with none of them, so `ConnectionPool.Serve` says that all this bookkeeping never changes what
happens. Protocols are state machines with one transition per system call, run in any order.

The system is an environment. Which descriptors are readable, what each `read` returns, how much each
`write` takes, whether `errno` says EINTR, clock readings, live process ids and permissions are inputs of
the steps. A *script* lists the calls of one descriptor that are not plain full transfers; it is finite,
so there are finitely many interrupts and every loop ends.

Facts about the system that the proofs use:

- accepted descriptors are not open already, lie strictly between 0 and `FD_SETSIZE`, and `select` fails
  only with EINTR; the first read of the pty (the header) does not fail;
- the master's descriptor is smaller than the listener's. `init_pool` takes `maxfd` from the listener alone
  (src/pty/pty_exec_util.cpp:381); the constructor's contract says that the pool is sound if and only if
  this holds;
- process ids are not zero, and new container ids are fresh;
- each registry operation is one atomic step, every lookup in it with its own view of the live processes and
  the clock, so that a kill between two lookups of `rm -f` shows; while a container starts the others leave its
  record alone.

## Where the code does not do what one would expect

Each of these is modelled as the code has it, and the exact condition is proved.

- `update` on an empty registry inserts the record and then overwrites it with the array it read first
  (src/util/container_dao.cpp:81-110): `UpdateStores`.
- names are checked against names only (src/cli/container_run_cli.cpp:131), but lookups take the first record
  whose name or id fits. A name reaches its container if and only if no earlier container has it for an id
  (`NameFinds`, `StartByName`, `RemoveByName`), an id if and only if no earlier container has it for a name
  (`IdFinds`, `StopById`, `StartById`, `RemoveById`, `RestartById`). `RemoveWrongContainer` and
  `StartWrongContainer` are histories from the empty registry in which a container is named after an earlier
  one's id, and `rm` and `start` by that name hit the earlier one. While generated ids are nobody's name, that
  is the only case: `ReachableRemove`, `ReachableStop`, `ReachableRestart`.
- start and stop times do not survive a rewrite (src/util/container_dao.cpp:275-296): an orderly stop keeps the
  start time if and only if there was none (`StopForgetsStart`), a start keeps the stop time if and only if there
  was none or it refuses (`StartForgetsStop`); `StartTimeLost` and `StopTimeLost` show it, `TimesForgotten` says
  what is left in every history.
- a command line with blanks or empty arguments is not read back as it was stored: `SplitJoin`,
  `StoreAndReload`, `BlankIsLost`.
- `SemUtil::get` copies its unsigned argument into a short (src/common/sem_util.cpp:27): the semaphore starts at the
  argument if and only if that is at most 32767 (`Short`, `InitialisedOnce`), and a negative short blocks every
  caller for good (`NegativeBlocksAll`).
- with no target on the host, `umount_container` unmounts whatever its buffer holds
  (src/util/container_fs.cpp:230): `UmountContainer`, `BalancedIffComplete`.
- `mkdir_r` fails on a trailing slash after having made the directory: `MakeAllExact`, `TrailingSlashFails`.
- `mount_container` mounts its first entry twice, which the last retry of `umount_container` makes up for,
  if the first entry and all unconditional ones exist on the host: `BalancedIffComplete`.
- two `uuid0` values agree when their times agree modulo 2^60: `Uuid0Collides`; the thread clock stands
  still only at the wrap of its counter: `TickAdvances`.

## Model

| member | source | states |
|---|---|---|
| RobustWrite.Writen | src/common/socket_io.cpp:40-59 | exactly a prefix of the buffer is appended to the descriptor; without a failing call n is returned whatever the short counts and signals, otherwise the prefix is what the calls before the failure took; n is returned if and only if all of it was appended |
| RobustWrite.AcceptedWhole | src/common/socket_io.cpp:46-57 | short counts and interrupts never lose a byte |
| RobustWrite.AcceptedUntil | src/common/socket_io.cpp:46-57 | with a failing call, exactly what the calls before it took goes out |
| RobustRead.ReadN | src/common/socket_io.cpp:12-33 | reads the next min(n, what is left) bytes of the stream whatever the pieces, leaves the rest of the caller's buffer alone, and fails exactly when a read failed for another reason than a signal |
| RobustRead.Rio.constructor | src/common/socket_io.cpp:103-108 | nothing of the stream has been handed out and nothing is buffered |
| RobustRead.Rio.Refill | src/common/socket_io.cpp:74-86 | the buffer is non-empty afterwards exactly when the stream is not at its end; nothing is handed out; fails exactly when a read does |
| RobustRead.Rio.Read | src/common/socket_io.cpp:70-96 | hands out the next bytes of the stream; bytes handed out and unread bytes together are the bytes consumed, and the unread ones lie inside the 8192-byte buffer |
| RobustRead.Rio.ReadNB | src/common/socket_io.cpp:115-131 | the next n bytes of the stream or all that is left, whatever the schedule |
| RobustRead.Rio.ReadByte | src/common/socket_io.cpp:146-148 | one byte of the stream, stored at the place given, or end of file |
| RobustRead.Rio.FillLine | src/common/socket_io.cpp:144-164 | the loop stores exactly the next line, cut at maxlen - 1 |
| RobustRead.Rio.ReadLineB | src/common/socket_io.cpp:138-167 | the next line up to and including the newline, cut at maxlen - 1 bytes or end of file, then a NUL inside the buffer |
| RobustRead.LineLengthIsTheLine | src/common/socket_io.cpp:144-164 | the length used for lines is the one with no earlier newline that stops only at a newline, the cap or the end |
| RobustRead.Rio.PerformAll | src/common/socket_io.cpp:70-167 | any mix of buffered calls delivers results that depend on the stream alone, and those results followed by the unread part of the buffer are the bytes consumed; it fails exactly when a read does |
| RobustRead.ResultsArePrefix | src/common/socket_io.cpp:70-167 | those results end to end are a prefix of the stream: no loss, repetition or reordering |
| RobustRead.ReadBothWays | src/common/socket_io.cpp:115-131 | on error-free schedules, buffered and unbuffered reads return the same bytes |
| Relay.SlotAvailable | src/pty/pty_exec_util.cpp:395-413 | pigeonhole: a free slot always exists |
| Relay.Join | src/pty/pty_exec_util.cpp:391-414 | joining keeps slots and open descriptors the same set, without repetition |
| Relay.Drop | src/pty/pty_exec_util.cpp:433-435 | so does closing |
| Relay.Visit | src/pty/pty_exec_util.cpp:425-444 | so does serving one client |
| Relay.Deliver | src/pty/pty_exec_util.cpp:462-471 | so does sending to one client |
| Relay.Pass | src/pty/pty_exec_util.cpp:142-169 | so does a whole pass |
| RelayHistory.BroadcastHistory | src/pty/pty_exec_util.cpp:142-169 | in every run, a client in the pool was sent the header bytes its descriptor took and every chunk since it joined, once and in order |
| RelayHistory.DepartedHistory | src/pty/pty_exec_util.cpp:461-472 | a client that left was sent a prefix of that |
| RelayHistory.PassKeepsDelivered | src/pty/pty_exec_util.cpp:418-476 | every pass keeps that history |
| RelayHistory.BroadcastSlot | src/pty/pty_exec_util.cpp:461-472 | a slot survives a broadcast exactly when its own write succeeded |
| RelayHistory.BroadcastReaches | src/pty/pty_exec_util.cpp:461-472 | each client's session takes what its own descriptor takes, once, whatever happens to the others |
| RelayHistory.InputOrder | src/pty/pty_exec_util.cpp:423-445 | in every run, the master's input restricted to a session is what was read from it in order; only the chunk that ended the run may be cut short |
| RelayHistory.PassServesAll | src/pty/pty_exec_util.cpp:423-474 | a pass in which the master takes everything reads every ready client once in slot order, passes all of it on, reads a ready master, opens a session exactly when one was accepted, and ends the run if and only if the master is at its end |
| RelayHistory.PassStops | src/pty/pty_exec_util.cpp:423-445 | a pass in which the master does not take all of a client's bytes ends there: earlier clients served, of that client what was taken, nobody else read |
| RelayHistory.PassEnds | src/pty/pty_exec_util.cpp:144-169 | a pass ends the run if and only if a client's bytes are not taken completely or reading the master gives nothing for another reason than a signal; an interrupted select changes nothing |
| RelayHistory.ClientFate | src/pty/pty_exec_util.cpp:431-472 | a pass in which the master takes everything removes a client exactly for its own failed read or write |
| RelayHistory.AcceptedTakesFirst | src/pty/pty_exec_util.cpp:391-414 | an accepted client takes the first free slot and the next session; nothing else changes |
| RelayHistory.PassGreets | src/pty/pty_exec_util.cpp:153-162 | an accepted client's session starts with what its descriptor took of the header and is due every chunk from that pass on |
| RelayHistory.RunContinues | src/pty/pty_exec_util.cpp:142-169 | later passes only ever append to what a session was sent |
| Pool.ConnectionPool.constructor | src/pty/pty_exec_util.cpp:372-387 | the initial pool, sound if and only if the master's descriptor is below the listener's |
| Pool.ConnectionPool.AddClient | src/pty/pty_exec_util.cpp:391-414 | takes the first free slot, keeps read set and high-water marks right; "too many clients" is never reached |
| Pool.ConnectionPool.CloseClient | src/pty/pty_exec_util.cpp:433-435 | closes, clears and frees one slot |
| Pool.ConnectionPool.ServeClient | src/pty/pty_exec_util.cpp:425-444 | one turn of the serving loop, and its effect on nready |
| Pool.ConnectionPool.ServeClients | src/pty/pty_exec_util.cpp:423-445 | stopping at maxi or at nready = 0 skips no ready client: same result as visiting every slot |
| Pool.ServingStep | src/pty/pty_exec_util.cpp:423-430 | nready stays at least the number of ready descriptors still to be served |
| Pool.ServingEnds | src/pty/pty_exec_util.cpp:423 | both ways out of the loop leave no ready client |
| Pool.ConnectionPool.SendClient | src/pty/pty_exec_util.cpp:462-471 | one turn of the broadcast loop |
| Pool.ConnectionPool.Broadcast | src/pty/pty_exec_util.cpp:461-472 | stopping at maxi misses no client |
| Pool.ConnectionPool.CheckClientsAndMaster | src/pty/pty_exec_util.cpp:418-476 | clients, then the master; 1 exactly when the run ends |
| Pool.ConnectionPool.AcceptClient | src/pty/pty_exec_util.cpp:157-160 | the new session, its header and its slot |
| Pool.ConnectionPool.Select | src/pty/pty_exec_util.cpp:144-145 | select up to maxfd sees every watched descriptor |
| Pool.ConnectionPool.Pass | src/pty/pty_exec_util.cpp:142-169 | a pass with all its bookkeeping is the pass of `Relay` |
| Pool.ConnectionPool.Serve | src/pty/pty_exec_util.cpp:142-169 | so is every run |
| HexWords.LexIsNumeric | include/sole.h:262-267 | digit strings of one length are ordered as the numbers they denote |
| HexWords.WordsAreNumbers | include/sole.h:329-346 | sixteen-digit words and numbers below 2^64 correspond one to one |
| HexWords.ShrDivides | include/sole.h:333-336 | a right shift by k digits is a division by 16^k, for every k |
| HexWords.ShlMultiplies | include/sole.h:667-668 | a left shift by k digits is a multiplication by 16^k modulo 2^64, for every k |
| UuidFields.TimeUpperDigits | include/sole.h:666-682 | the upper word reads time low, time mid, version, time high |
| UuidFields.Uuid0RoundTrip | include/sole.h:687-719 | pretty's decoding inverts uuid0; the time comes back if and only if it has 60 bits |
| UuidFields.Uuid1RoundTrip | include/sole.h:650-685 | pretty's decoding inverts uuid1; version 1, variant 10, clock sequence the low fourteen time bits |
| UuidFields.Uuid4Fields | include/sole.h:635-648 | version 4, variant 10, every other random bit kept |
| UuidFields.Uuid0Collides | include/sole.h:694-716 | equal exactly when the times agree in the low sixty bits |
| UuidFields.UnpackUpper | include/sole.h:304-310 | what pretty reads from the upper word |
| UuidFields.UnpackLower | include/sole.h:319-324 | what pretty reads from the lower word |
| UuidClock.Clock.GetTime | include/sole.h:450-469 | the clock in units of 100ns if it has moved on, else one more than last time, plus the offset, in 64 bits; strictly later unless the counter wraps |
| UuidClock.Clock.GetTimes | include/sole.h:450-469 | the stamps of any sequence of calls with any clock readings |
| UuidClock.TickAdvances | include/sole.h:459-464 | time advances exactly unless the counter is at its last value |
| UuidClock.TickFollowsClock | include/sole.h:461-464 | a clock that has moved on is taken at its word, otherwise time goes on by one |
| UuidClock.ReadingIs | include/sole.h:455-457 | a reading is seconds times 10^7 plus hundreds of nanoseconds |
| UuidClock.GregorianIs | include/sole.h:652 | the offset of uuid1 is 141427 days |
| UuidClock.PrettyTimeIsTick | include/sole.h:305-310 | pretty gets back the time that get_time handed out, for both generators |
| UuidClock.TicksIncrease | include/sole.h:459-464 | for all readings, stalls and jumps back included, times strictly increase |
| UuidClock.MadeSays | include/sole.h:304-324 | an id tells its generator, its 60-bit time and its node |
| UuidClock.IdsNeverRepeat | include/sole.h:650-719 | ids of one thread are pairwise distinct while timestamps fit in sixty bits |
| UuidText.StrIs | include/sole.h:329-346 | 36 characters, 8-4-4-4-12 digits of the two words |
| UuidText.StrDashes | include/sole.h:338-343 | dashes at exactly four places, 0-9 and a-f elsewhere |
| UuidText.StrOrder | include/sole.h:262-267 | byte-wise order of the printed form is operator< |
| UuidParse.HexRoundTrip | include/sole.h:750-759 | rebuild(str(u)) == u |
| UuidParse.Text62Fits | include/sole.h:354-360 | at most eleven base62 digits per word |
| UuidParse.PutDigits | include/sole.h:356-360 | a digit loop writes the digits and nothing else, at most eleven places down |
| UuidParse.Base62 | include/sole.h:348-368 | both loops fit the 24-byte buffer; the text is the two numbers with a dash between |
| UuidParse.HornerText62 | include/sole.h:735-746 | reading the digits back gives the number, and no step exceeds 64 bits |
| UuidParse.HornerIsSpelled | include/sole.h:735-746 | rebase62 computes the spelled number modulo 2^64 |
| UuidParse.Char62Alphabet | include/sole.h:349-353 | the digits are letters and figures in ascending order of their codes |
| UuidParse.Base62RoundTrip | include/sole.h:727-749 | exactly one dash, the upper word spelled before it and the lower one after it, and rebuild(base62(u)) == u |
| UuidParse.Rebase62 | include/sole.h:735-746 | the loop computes the wrapped base62 value of its characters |
| UuidParse.RebuildFrom | include/sole.h:727-762 | tells no dash, one dash and more dashes apart and parses accordingly, with the spaces, signs and 0x a stream accepts |
| UuidInput.FieldValue | include/sole.h:752 | a hexadecimal group of any length reads as its value if that fits in 64 bits and fails otherwise |
| UuidInput.SpaceIsSkipped | include/sole.h:752 | white space before a group is skipped |
| UuidInput.PlusIsSkipped | include/sole.h:752 | so is a plus sign |
| UuidInput.MinusNegates | include/sole.h:752 | a minus sign negates the group modulo 2^64 |
| UuidInput.PrefixIsSkipped | include/sole.h:752 | 0x or 0X before a group is skipped |
| UuidInput.AnyCaseRoundTrip | include/sole.h:750-759 | the printed form reads back in any mixture of cases |
| UuidInput.NoDashIsNil | include/sole.h:730-732 | a text without a dash gives the nil uuid |
| UuidInput.TrailerIsNil | include/sole.h:752-757 | so does the printed form with more after it |
| Semaphore.StepKeepsInv | src/common/sem_util.cpp:4-67 | every system call of every process keeps the initialisation guarded |
| Semaphore.InitialisedOnce | src/common/sem_util.cpp:4-97 | in every interleaving exactly one process creates, nobody returns before SETVAL and the first semop, and the value is the creator's argument as a short + increments - decrements |
| Semaphore.NegativeBlocksAll | src/common/sem_util.cpp:26-30 | when the creator's argument is negative as a short, get returns to nobody |
| Semaphore.SetvalErasesNothing | src/common/sem_util.cpp:18-20 | when SETVAL comes, no operation has happened |
| Semaphore.FailsOnlyUninitialised | src/common/sem_util.cpp:51-63 | a process gives up only after its tenth look at an unfinished semaphore |
| Semaphore.UseEffects | src/common/sem_util.cpp:70-97 | in every interleaving, inc raises the value by one, dec lowers it by one, zero changes nothing, and a call that cannot complete does nothing |
| Semaphore.LateComerReturns | src/common/sem_util.cpp:36-66 | once the semaphore is initialised get returns to a newcomer after three calls and to a polling process after one |
| Semaphore.FirstComerReturns | src/common/sem_util.cpp:10-34 | the first caller gets a semaphore with its own value after three calls, unless that is negative as a short |
| Handshake.CallbackRegisters | src/cli/container_run_cli.cpp:164-184 | after the start callback the container is recorded RUNNING with its process id, with exactly the fields of run or start |
| Handshake.StepKeepsInv | src/pty/pty_exec_util.cpp:86-136 | every step of parent, server and others keeps the handshake in order |
| Handshake.ParentWaitsForServer | src/util/container_service.cpp:109-159 | when the parent passes zero(synchSem), in any interleaving, the socket listens, the pool is initialised and the container is recorded RUNNING with the process id that the clone after the fork returned |
| Handshake.ParentGetsPast | src/util/container_service.cpp:150 | in any interleaving a waiting parent's next step passes if and only if the server has set the semaphore to zero, unless the server died |
| Handshake.StraightRunPasses | src/util/container_service.cpp:109-150 | the undisturbed run gets the parent past the wait |
| Handshake.ServerRecordsEnd | src/pty/pty_exec_util.cpp:171-176 | a server that ends in order leaves its container recorded as stopped and touches no other |
| Registry.Store.Insert | src/util/container_dao.cpp:12-35 | appends |
| Registry.Store.GetByIdOrName | src/util/container_dao.cpp:177-217 | the first record with that name or id, marked stopped if its process is gone; nothing else changes |
| Registry.LookupMarks | src/util/container_dao.cpp:197-215 | a lookup leaves stopped and live containers alone and marks a running one whose process is gone: stopped now, no process, the rest kept |
| Registry.Store.GetByName | src/util/container_dao.cpp:136-175 | the first record with that name, without its times |
| Registry.Store.GetById | src/util/container_dao.cpp:136-175 | the first record with that id, without its times |
| Registry.Store.Update | src/util/container_dao.cpp:76-111 | replaces the first record of that id and otherwise changes nothing, even on an empty registry |
| Registry.UpdateStores | src/util/container_dao.cpp:76-111 | a record is stored if and only if its id was there |
| Registry.Store.ChangeStatusToStop | src/util/container_dao.cpp:114-123 | lookup, then update with the stopped record |
| Registry.Store.DeleteById | src/util/container_dao.cpp:39-73 | drops the records with the id of the one found |
| Lifecycle.RunContainer | src/cli/container_run_cli.cpp:131-184 | refuses a taken name, otherwise appends a running record |
| Lifecycle.RunStores | src/cli/container_run_cli.cpp:131-184 | run refuses a name that is borne already; otherwise it stores the id, name, process, command, volumes and times it was given |
| Lifecycle.StartContainer | src/cli/container_start_cli.cpp:127-154 | refuses a missing or running container, otherwise records it running |
| Lifecycle.StopContainer | src/util/container_service.cpp:161-183 | a lookup, and the record its server stops if the killed container ends during the wait |
| Lifecycle.QueryMarks | src/util/container_dao.cpp:197-215 | a query marks a running container whose process is gone and does nothing else |
| Lifecycle.KillAt | src/util/container_service.cpp:161-183 | stop leaves a stopped container alone, marks one whose process is gone, and when the killed container's server exits, the record found by its id becomes the stopped one |
| Lifecycle.RemoveContainer | src/cli/container_rm_cli.cpp:118-138 | refuses a missing or, unforced, a running container; three lookups, each with its own live processes |
| Lifecycle.CheckAndRestart | src/hoststack_supervisor.cpp:48-73 | stops and starts a container whose process is gone |
| Lifecycle.StopAt | src/util/container_dao.cpp:114-123 | an orderly stop rewrites the first match into its stopped form and nothing else |
| Lifecycle.StartAt | src/cli/container_start_cli.cpp:127-154 | a start rewrites the first match into its running form unless it is RUNNING with a live process, and nothing else |
| Lifecycle.RestartAt | src/hoststack_supervisor.cpp:54-66 | a restart puts the first match of its id back to running, under the new process id, exactly when the process is gone |
| Lifecycle.RemoveAt | src/cli/container_rm_cli.cpp:134-137 | rm goes through if and only if the files are gone and it is forced or the container is stopped or its process gone; it takes out one record, the one that the id of the first match finds |
| Lifecycle.RemoveRefuses | src/cli/container_rm_cli.cpp:124-131 | without force, rm leaves a live container and everything else |
| Lifecycle.RemoveKeeps | src/cli/container_rm_cli.cpp:134-136 | when the files cannot be removed, rm leaves what its lookups and the kill left |
| Lifecycle.StepShape | src/util/container_dao.cpp:39-123 | a step other than run keeps the containers and their order or takes one out |
| Lifecycle.StepKeepsInv | src/util/container_dao.cpp:12-123 | every step keeps ids and names unique, RUNNING equivalent to a process id, RUNNING implying abnormal_stoped, and what rewriting leaves of the times |
| Lifecycle.HistoryKeepsInv | src/util/container_dao.cpp:12-217 | so does every history of steps |
| Naming.NameFinds | src/util/container_dao.cpp:197-198 | a lookup by a container's name finds it if and only if no earlier container has that name for an id |
| Naming.IdFinds | src/util/container_dao.cpp:197-198 | a lookup by a container's id finds it if and only if no earlier container has that id for a name |
| Naming.StopById | src/pty/pty_exec_util.cpp:175 | a server's orderly stop reaches its own container if and only if its id is not an earlier one's name |
| Naming.RestartById | src/hoststack_supervisor.cpp:54-66 | the supervisor brings back its own container under the same condition, and otherwise leaves it as it was |
| Naming.StartByName | src/cli/container_start_cli.cpp:129-154 | start NAME starts the stopped container of that name if and only if no earlier id is that name |
| Naming.StartById | src/cli/container_start_cli.cpp:129-154 | start ID starts the stopped container of that id if and only if no earlier name is that id |
| Naming.RemoveReaches | src/cli/container_rm_cli.cpp:118-138 | rm removes a container if and only if the files are gone, it is forced or the container stopped or dead, and both lookups lead there; it then removes that one only |
| Naming.RemoveByName | src/cli/container_rm_cli.cpp:118-138 | rm NAME removes the container of that name if and only if it goes through, no earlier id is that name and no earlier name is its id |
| Naming.RemoveById | src/cli/container_rm_cli.cpp:118-138 | rm ID removes the container of that id if and only if it goes through and no earlier name is that id |
| Naming.RemoveWrongContainer | src/cli/container_run_cli.cpp:131-134 | two runs after which rm -f by the second one's name deletes the first, whatever the ids |
| Naming.StartWrongContainer | src/cli/container_run_cli.cpp:131-134 | the same two runs, after which start by the second one's name starts the first |
| LifecycleHistory.StepKeepsUnshadowed | src/cli/container_run_cli.cpp:139-142 | no id is an earlier container's name: every step keeps this, a run if and only if its new id is nobody's name |
| LifecycleHistory.ReachableRemove | src/cli/container_rm_cli.cpp:118-138 | after every history with fresh ids, rm by id removes its container and rm by name does so if and only if no earlier id is that name |
| LifecycleHistory.ReachableStop | src/pty/pty_exec_util.cpp:175 | after every such history, a server's orderly stop changes its own container only |
| LifecycleHistory.ReachableRestart | src/hoststack_supervisor.cpp:54-66 | so does a supervisor's restart |
| LifecycleHistory.OneMatch | src/util/container_dao.cpp:197-198 | no name is another's id if and only if every non-empty key matches one container at most |
| LifecycleHistory.StepKeepsNoCross | src/cli/container_run_cli.cpp:131-134 | every step keeps names apart from other ids, a run if and only if its name is nobody's id and its id nobody's name |
| LifecycleHistory.NeverCrossIffClear | src/cli/container_run_cli.cpp:131-134 | so names and ids stay apart through a whole history if and only if all its runs are such |
| LifecycleHistory.StepTouchesOwn | src/util/container_dao.cpp:39-123 | while no name is another's id, a step changes, appends or removes its own record only and keeps the order of the rest |
| LifecycleHistory.HistorySpares | src/util/container_dao.cpp:12-217 | over every such history a container stays unless an rm names it, and its record stays to the letter unless a step names it |
| LifecycleHistory.HistoryKeepsOrder | src/util/container_dao.cpp:12-217 | and the containers that stay keep their order |
| LifecycleHistory.StopForgetsStart | src/util/container_dao.cpp:275-296 | an orderly stop keeps the start time if and only if there was none |
| LifecycleHistory.StartForgetsStop | src/util/container_dao.cpp:275-296 | a start keeps the stop time if and only if there was none or the container runs |
| LifecycleHistory.TimesForgotten | src/util/container_dao.cpp:275-296 | after every history, a running container has no stop time and one stopped in order no start time |
| LifecycleHistory.StartTimeLost | src/util/container_dao.cpp:114-123 | started at 100, stopped at 200: the start time is gone |
| LifecycleHistory.StopTimeLost | src/cli/container_start_cli.cpp:147-153 | started again at 300: the stop time is gone |
| CommandLine.StrTok | src/common/usg_common.cpp:250-265 | the next maximal run of non-delimiters |
| CommandLine.BlankIs | src/common/comm_typedef.h:47 | the delimiters are the white space of the C locale |
| CommandLine.StrSplit | src/common/usg_common.cpp:232-289 | all tokens in order, NULL-terminated inside the grown array |
| CommandLine.TokensKeepAll | src/common/usg_common.cpp:232-289 | splitting loses delimiters only |
| CommandLine.StrCat | src/common/usg_common.cpp:164-165 | appends inside the buffer and keeps it NUL-terminated |
| CommandLine.ArrayJoin | src/common/usg_common.cpp:137-171 | the joined text in a buffer that fits exactly; nothing without any character |
| CommandLine.SplitJoin | src/cli/container_run_cli.cpp:173 | split of join is the identity if and only if every argument is non-empty and blank-free |
| CommandLine.BlankIsLost | src/cli/container_run_cli.cpp:173 | sh -c "echo hi" is not read back as it was stored |
| CommandLine.SplitIsStable | src/common/usg_common.cpp:232-289 | split, join, split is split |
| CommandLine.StoreAndReload | src/cli/container_start_cli.cpp:140 | for any arguments: what run stores, start executes as a NULL-terminated vector, equal to run's if and only if every argument is non-empty and blank-free; nothing is stored without any character |
| Directories.StrstrR | src/common/usg_common.cpp:298-320 | the last occurrence, or -1 when there is none |
| Directories.FileSystem.MkdirR | src/common/usg_common.cpp:322-371 | the recursion on the parent cut at the last slash |
| Directories.MakeAllExact | src/common/usg_common.cpp:322-371 | succeeds if and only if every missing piece has a name and is permitted; adds exactly the missing ancestors and keeps the tree closed |
| Directories.TrailingSlashFails | src/common/usg_common.cpp:344-368 | a missing path with a trailing slash is made and reported as a failure |
| Mounts.MountPoint.MountContainer | src/util/container_fs.cpp:112-197 | mounts t0, t0, t1, ..., the missing overlays left out |
| Mounts.MountPoint.UmountContainer | src/util/container_fs.cpp:199-235 | unmounts the present targets backwards and the last one again, or what the buffer holds when none is present |
| Mounts.FullTable | src/util/container_fs.cpp:112-235 | when all targets exist, t0, t0, t1, ..., tk are mounted and tk, ..., t0, t0 unmounted |
| Mounts.EntryByEntry | src/util/container_fs.cpp:128-235 | each further entry is mounted if it is no overlay or its target exists, and unmounted if it exists |
| Mounts.CompleteIsBalanced | src/util/container_fs.cpp:112-235 | with a complete table the unmounts are the mounts reversed, each on top of the stack, and the earlier stack is restored |
| Mounts.BalancedIffComplete | src/util/container_fs.cpp:112-235 | every earlier stack is restored, whatever the buffer held, if and only if the table is complete |

## Left out

- jsoncpp, the file itself and concurrent rewriting of it: the registry is a sequence of records and each operation is atomic; a missing file, `null` and `[]` are one empty registry; times are not truncated to 32 bits.
- Terminal modes, `ptyFork`, `ptyClone`, `setns`, `chroot`, `execvp`, signals, `pty_client` and `pty_exec`: system calls with little logic of their own.
- Real mount namespaces, volumes and shell commands run through `system`: the mount model is one shared stack on which every mount succeeds.
- A `select` that fails other than by EINTR and a header read that fails: the code then goes on with undefined sets or lengths.
- Lookups whose empty result the code dereferences (`change_status_to_stop`, `delete_by_id` on a non-empty registry, the supervisor's recheck): the methods require the record to be there.
- SEM_UNDO at process exit, semaphore removal and explicit `set` on a shared key: only the synch semaphore's `set` is modelled, in the handshake.
- Characters beyond ASCII in a uuid text: characters are taken as ASCII, and a stream's locale as the C locale.
- MkdirR: `.` and `..` are names like any other, and everything that exists is a directory.
- MAC address discovery and randomness: any 48-bit node and any random words.
- `trim`, `str_join`, `path_join`, `mkdiratfd_r`, option parsing, listing and logging: they would only add easy members.
