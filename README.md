# sqlt replica-set bookkeeping, in Dafny

sqlt wraps one master database and any number of replicas behind a single
`DB` handle. It splits a source string on `;`, opens every source, and names
connection 0 "master" and connection i "slave-i". The connection indices are
kept in two lists: `activedb` holds those counted healthy and `inactivedb`
the others. Beside them sit a separately maintained `length`, meant to equal
`len(activedb)`, a 64-bit read counter `count`, and one status record per
connection.

Reads go round robin to positions 1 .. length-1 of the active list. Writes
and every `...Master` call go to handle 0. In heartbeat mode, `Ping`
walks the active list and demotes the connections that fail. It then walks
the inactive list and promotes the ones that answer again. Both walks edit
the list they are iterating over, in place.

The project has four modules:

- `Text` (text.dfy): `strings.Split` on one separator character and
  `strconv.Itoa`, with the inverses that pin them down.
- `Health` (health.dfy): the two-phase health pass on values.
  - `Demote`, `Promote` and `HealthPass` say what a pass does to the pool.
  - Lemmas give its invariants: the partition of the indices, `length`
    tracking the active list, and the active list never emptying.
  - Lemmas give where each index ends up, what the statuses say afterwards,
    and which error the pass returns.
- `Routing` (routing.dfy): the arithmetic of `slave()`, with the counter
  wrapping at 2^64, round robin, and the table of which calls read from a
  replica.
- `Sqlt` (sqlt.dfy): class `DB`.
  - Methods: `Ping`, `PingContext`, `slave()` and routing, `GetStatus`, and
    the heartbeat flag.
  - Construction: `InitMocking` and `openContextConnection`.
  - The in-place loops are proved to end in exactly the state the `Health`
    functions describe.

A driver handle is represented by its index. What a handle answers comes
from an oracle `ping(k, v)`: the outcome of the k-th call in a pass, made to
connection v. Numbering the calls lets a connection demoted in phase one
answer differently when phase two pings it again. A success carries the
time read when it returned.

## Model

| member | source | states |
|---|---|---|
| Text.Split | sqlt_context.go:17-18 | the sources split on ';' give one more piece than there are separators, so never zero pieces, and no piece contains ';' |
| Text.JoinSplit | sqlt_context.go:17 | splitting loses nothing: joining the pieces with ';' gives back the source string |
| Text.Itoa | sqlt_context.go:45 | the decimal form of an index is a non-empty string of digits that starts with '0' only for 0 |
| Text.AtoiItoa | sqlt_context.go:45 | reading the decimal form back gives the index, so the form determines the index |
| Sqlt.Name | sqlt_context.go:41-46 | connection i is named "master" when i is 0 and "slave-<i>" otherwise; the name is "master" exactly for connection 0 |
| Sqlt.NameInjective | sqlt_context.go:41-46 | "master" and "slave-<i>" name distinct connections distinctly |
| Sqlt.GroupName | sqlt_context.go:59-62 | the group name is the given one when it is not empty, and "sqlt_open" when it is empty; never empty |
| Health.Iota | sqlt_context.go:55 | appending each index in turn seeds the list 0, 1, ..., n-1 |
| Health.PartitionFacts | sqlt.go:23-24 | a partition of 0..n-1 holds only indices below n, holds every index below n in exactly one list, and holds no duplicate |
| Health.AllActiveConsistent | sqlt.go:503-508 | all n indices active in order, none inactive and length n is a consistent state |
| Health.Deactivate | sqlt.go:137-143 | removing position i of the active list to the tail of the inactive list keeps every index in range and lowers both the active count and length by one |
| Health.Activate | sqlt.go:161-169 | moving position i of the inactive list to the tail of the active list keeps every index in range and raises both the active count and length by one |
| Health.DeactivateKeepsIndices | sqlt.go:138-140 | a demotion keeps the multiset of indices |
| Health.ActivateKeepsIndices | sqlt.go:162-164 | a promotion keeps the multiset of indices |
| Health.Demote | sqlt.go:127-150 | phase one keeps every index in range and the number of status records |
| Health.Promote | sqlt.go:152-171 | phase two keeps every index in range and the number of status records, and never returns early |
| Health.DemoteSplits | sqlt.go:127-150 | removing in place and stepping back skips nothing and reorders nothing: unless it returns early, phase one pings each remaining active index once in order, keeps the answering ones in order, and appends the failing ones to the inactive tail in order |
| Health.PromoteSplits | sqlt.go:152-171 | phase two pings each remaining inactive index once in order, leaves the failing ones in order, and appends the answering ones to the active tail in order |
| Health.DemoteInvariant | sqlt.go:132-143 | phase one keeps the indices and length - \|active\|, never takes length below one, and returns early only with length <= 1 and an error |
| Health.PromoteKeepsIndices | sqlt.go:160-169 | phase two keeps the multiset of indices |
| Health.PromoteGrows | sqlt.go:161-169 | phase two keeps length - \|active\| and never shrinks the active list |
| Health.DemoteAlone | sqlt.go:132-135 | with at most one connection counted active, phase one moves nothing |
| Health.DemoteTrace | sqlt.go:127-135 | phase one pings a prefix of the indices still to visit, returns early only after a ping, and carries the error of its last ping |
| Health.PromoteTrace | sqlt.go:152-172 | phase two carries the error of its last ping |
| Health.DemoteStatus | sqlt.go:137-148 | unless it returns early, phase one leaves each pinged status healthy if it answered and failing if it failed, keeps names, and touches no other status |
| Health.PromoteStatus | sqlt.go:157-166 | phase two leaves each pinged status healthy if it answered and failing if it failed, keeps names, and touches no other status |
| Health.HealthPass | sqlt.go:127-172 | one heartbeat-mode pass: phase one, then phase two unless phase one returned early; the result's error is what Ping returns, and every index stays in range with one status record per connection |
| Health.PassKeepsConsistent | sqlt.go:127-171 | a pass keeps the two lists a duplicate-free permutation of 0..n-1, keeps length == \|activedb\|, and never empties the active list, whether or not it returns early |
| Health.PassMovesByOutcome | sqlt.go:127-171 | a pass that runs to the end pings the active list, then the inactive list followed by the demoted indices; the active list becomes the answering active ones in order followed by the answering ones of the second walk, and the inactive list the rest of the second walk in order |
| Health.PassReturnsLastPing | sqlt.go:127-172 | a pass returns the outcome of the last ping it made, nil when it pinged nothing |
| Health.PassHaltsOnlyWhenAlone | sqlt.go:132-135 | a pass returns early only when a ping of the active walk fails with length 1; that ping's error is returned, and the active list still holds one index |
| Health.DemoteHaltsIff | sqlt.go:132-135 | with length counting the active list, phase one returns early exactly when it starts at the head and no active connection answers |
| Health.PassHaltsIffAllFail | sqlt.go:127-150 | a pass over a consistent state returns early exactly when there is a connection and none of the active ones answers |
| Health.PassSettles | sqlt.go:137-166 | after a pass that runs to the end, every connection keeps its name and is either healthy and active or failing and inactive |
| Health.PassAlignsStatus | sqlt.go:137-166 | after a pass that runs to the end, a connection is active exactly when its status is connected with no error, and inactive exactly when it is disconnected with an error |
| Health.ReplicaDemotedScenario | sqlt.go:127-172 | with three connections and replica 1 failing, a pass leaves active [0, 2] and inactive [1], and returns replica 1's error because its second ping is the last one |
| Health.ReplicaRecoveryScenario | sqlt.go:152-171 | when the demoted replica answers again, the next pass appends it behind replica 2: active [0, 2, 1], inactive empty, no error |
| Health.FirstErrorMeans | sqlt.go:117-125 | the result is nil exactly when every handle answers, and otherwise it is the error of the first handle that fails |
| Routing.NextCount | sqlt.go:478 | the uint64 counter stays below 2^64 and wraps to 0 exactly from 2^64-1 |
| Routing.SlavePosition | sqlt.go:478 | with length >= 2, the position read is never 0 and always below length |
| Sqlt.ReadsFollowTurns | sqlt.go:471-481 | the read made with the counter at c+j goes to the active entry at the position Turns lists j-th from the advanced counter c+1 |
| Routing.RoundRobin | sqlt.go:471-481 | length-1 consecutive counter values without wrap-around give distinct positions and cover every position 1..length-1 |
| Sqlt.ReadsReachEveryReplica | sqlt.go:471-481 | the length-1 reads made from any counter value on, without wrap-around, reach every active entry at positions 1..length-1 |
| Sqlt.ReadsNeverRepeat | sqlt.go:471-481 | when the active list holds no duplicate, no two of those length-1 reads go to the same connection |
| Routing.SlaveRepeatsAtWrap | sqlt.go:478 | at the 2^64 wrap, two consecutive reads with four counted active go to the same position 1 |
| Sqlt.SlavePick | sqlt.go:471-481 | with length <= 1 a read goes to handle 0 and leaves the counter alone; otherwise the counter advances by one modulo 2^64 and the read goes to an entry of the active list at positions 1..length-1 |
| Sqlt.SlaveSkipsFirstActive | sqlt.go:478-480 | with two or more counted active, a read never goes to the first entry of the active list, whatever index sits there, and always goes to an active index |
| Sqlt.SlaveReadsDemotedMaster | sqlt.go:474-476 | with one connection counted active, reads go to handle 0 even when handle 0 has been demoted |
| Sqlt.DB.constructor | sqlt_context.go:25-28 | a new DB has one zero status per source and every other field at its zero value |
| Sqlt.DB.PingAll | sqlt.go:117-125 | without a heartbeat, Ping pings every handle in index order and returns the first error, else nil |
| Sqlt.DB.DropActive | sqlt.go:137-144 | a failed active ping with more than one counted active marks the connection disconnected with error "name: msg", removes it in place, appends it to the inactive list and decrements length |
| Sqlt.DB.RaiseInactive | sqlt.go:161-169 | an answering inactive connection is marked connected, stamped and cleared, removed in place, appended to the active list, and length is incremented |
| Sqlt.DB.DemoteActive | sqlt.go:127-150 | the in-place walk over activedb with i-- ends in exactly the state, error and early-return flag that Demote gives |
| Sqlt.DB.PromoteInactive | sqlt.go:152-171 | the in-place walk over inactivedb with i-- ends in exactly the state and error that Promote gives |
| Sqlt.DB.HeartbeatPass | sqlt.go:127-172 | a heartbeat-mode Ping ends in the state HealthPass describes, returns its error, and keeps the bookkeeping consistent |
| Sqlt.DB.Ping | sqlt.go:114-173 | without a heartbeat nothing changes and the first error is returned; with one, the pass above runs; either way the bookkeeping stays consistent |
| Sqlt.DB.PingContext | sqlt_context.go:75-128 | the context variant as evidently intended: the same two branches as Ping, with the same results |
| Sqlt.DB.Slave | sqlt.go:471-481 | on a DB with at least one connection, slave() picks the handle and advances the counter as SlavePick says, and the handle is a valid index |
| Sqlt.DB.Route | sqlt.go:226-468 | on a DB with at least one connection, calls that read (DB Slave, Query, QueryRow, Queryx, QueryRowx, Select, Get, Rebind; Stmt Query, QueryRow; Stmtx Query, QueryRow, Queryx, QueryRowx, Get, Select) pick a replica with slave(); every other call, including Master, Exec, Begin and each ...Master variant, uses handle 0 and leaves the counter alone |
| Routing.UsesSlave | sqlt.go:226-468 | the table of calls that pick a replica with slave(): DB Slave, Query, QueryRow, Queryx, QueryRowx, Select, Get and Rebind, Stmt Query and QueryRow, Stmtx Query, QueryRow, Queryx, QueryRowx, Get and Select; every other call uses handle 0 |
| Sqlt.DB.GetStatus | sqlt.go:73-83 | returns the statuses, with ErrNoConnectionDetected exactly when there is no connection |
| Sqlt.DB.DoHeartBeat | sqlt.go:86-103 | a heartbeat goroutine is started exactly when the flag was clear, and the flag is then set |
| Sqlt.DB.StopBeatAsWritten | sqlt.go:106-111 | with the flag clear nothing happens; with it set, a running goroutine is stopped, or the caller blocks forever when none runs; the flag is never cleared |
| Sqlt.StopTwiceAsWritten | sqlt.go:86-111 | DoHeartBeat, StopBeat, DoHeartBeat, StopBeat: the restart starts no goroutine and the second stop blocks forever |
| Sqlt.DB.StopBeat | sqlt.go:106-111 | stopping as evidently intended clears the flag together with the goroutine |
| Sqlt.StopTwice | sqlt.go:86-111 | with the flag cleared, a second stop is harmless and a heartbeat can be restarted |
| Sqlt.MockEach | sqlt.go:491-504 | the loop names every connection, marks it connected at the clock's time, and appends each index in order |
| Sqlt.InitMocking | sqlt.go:484-510 | slaveAmount+1 connections, all active in index order, none inactive, length slaveAmount+1, all connected and named, driver "postgres", group "sqlt-open", and a consistent state |
| Sqlt.OpenEach | sqlt_context.go:32-56 | the open loop returns the first open error; it has then tried exactly the sources up to the failing one, all earlier ones opened, the failing index is the only inactive one, and the earlier ones are active in order. When every source opens, every status is named, connected and stamped, and activedb is 0..N-1 |
| Sqlt.Assemble | sqlt_context.go:25-62 | when every source opens, the new DB has N statuses, activedb 0..N-1, empty inactivedb, length N, the driver name and the group name, and is consistent |
| Sqlt.OpenContextConnection | sqlt_context.go:14-67 | the first open failure returns no DB and that error; otherwise the DB above is returned with the outcome of PingContext |
| Sqlt.PingContextAsWritten | sqlt_context.go:75-80 | PingContext as written, with a bound on nested calls: without a heartbeat it calls itself with the same arguments and nothing else; with one it runs the pass |
| Sqlt.PingContextWithoutHeartbeatNeverReturns | sqlt_context.go:78-80 | without a heartbeat, PingContext as written is still recursing after any number of nested calls; with one, it returns what Ping returns |

## Left out

- The heartbeat goroutine, its ticker and the stop channel are concurrency. Only the `heartBeat` flag is modelled, plus a `beating` field that says whether a goroutine runs. `lastBeat` is not modelled.
- `dbLengthMutex` and `atomic.AddUint64` guard against concurrent callers. Their updates are modelled as plain sequential assignments.
- Driver handles, `sqlx.Open`, `Ping`/`PingContext` on a handle, and `context.Context` are foreign calls. They become the `open` and `ping` oracles, and a handle is its index.
- The context-taking routing calls (`SelectContext`, `QueryContext`, ...) route like the call they wrap and are represented by it in `Call`.
- Calls that only fan out to or pass through the driver are not modelled: `Prepare`, `Preparex`, `PrepareContext`, `PreparexContext`, `SetMaxOpenConnections`, `SetConnMaxLifetime`, `SetMaxIdleConns`, `Close`, and `Stmt`/`Stmtx` `Close`. Only the index a call is sent to is modelled.
- Time formatting (`time.Now().Format`, `time.Now().String()`) is not modelled. A stamp is an opaque string that comes with a successful outcome or, in `InitMocking`, from a clock parameter.
- An error is kept as its message; error values beyond that are not modelled.
- JSON tags and `statusResponse` are serialization only.
- `openConnection`, `Open`, `OpenWithName` and `OpenWithContext` are wrappers. The `open` function that `openConnection` calls is not part of this model.
- Sqlt.OpenContextConnection: keeps the "No sources found" branch although `strings.Split` never returns zero pieces (`Text.Split` proves it). On a failed open, the handles opened earlier are not modelled, so their not being closed is not shown.
- Sqlt.OpenContextConnection: ends with the corrected `PingContext`. As written, once every source opens it recurses until the Go runtime aborts with a stack overflow (see Findings).
- Sqlt.InitMocking: requires slaveAmount >= -1. For a smaller slaveAmount, `make` panics at sqlt.go:487-488, and that panic is not modelled.
- Sqlt.DB.Route: requires at least one connection, and so does Sqlt.DB.Slave. On a DB with none (`InitMocking(-1)`, or a zero `DB`), every routed call indexes handle 0 and panics in the source (sqlt.go:227, 232, 261, 351, 474-476, ...). That panic is not modelled.
- Sqlt.DB.GetStatus: returns a copy of the statuses. The source returns the `stats` slice itself (sqlt.go:82), so the caller shares storage with the DB and sees later heartbeat updates; that aliasing is not modelled.
- Routing.RoundRobin: stated for counter values that do not wrap around. At the wrap, two consecutive reads can go to the same position, as `Routing.SlaveRepeatsAtWrap` shows.
- The call numbers the oracle sees count the pings of one pass. Answers that depend on wall-clock time are modelled only through them.

## Findings

| source | as written | input that shows it | evidently intended | confidence | as-written member | corrected member |
|---|---|---|---|---|---|---|
| sqlt_context.go:78-80 | without a heartbeat, PingContext calls itself with the same arguments and nothing else. Go does not eliminate tail calls, so the stack grows until the runtime aborts the process with a stack overflow; every openContextConnection in which all sources open crashes the program | any DB whose heartbeat is off, including the one openContextConnection has just built when it calls PingContext at line 65 | ping every handle in order and return the first error, as Ping does at sqlt.go:117-125 | high; not executed | Sqlt.PingContextWithoutHeartbeatNeverReturns | Sqlt.DB.PingContext |
| sqlt.go:106-111 | StopBeat sends on the stop channel but never clears heartBeat | DoHeartBeat(); StopBeat(); DoHeartBeat(); StopBeat(): the second DoHeartBeat starts no goroutine, and the second StopBeat blocks forever on a send that nobody receives | clear the flag when the goroutine is stopped | high; not executed | Sqlt.StopTwiceAsWritten | Sqlt.StopTwice |
