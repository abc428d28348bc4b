# A verified model of the claim protocol of anyonce

anyonce makes operations idempotent: a request or message with a key claims a record in a store, runs its handler
under that claim, and stores the result so that a duplicate is answered with it. A claim has a lease and a fence; a
lapsed lease can be taken over, and the fence keeps the earlier holder from writing afterwards.

This project models that protocol in Dafny and proves, for every input and every interleaving:

- **The protocol** (`Contract`, `Memory`, `Engine`, `Protocol`, `ProtocolTheorems`). `Contract` holds the store's
  operations as functions of one row. `Protocol` is a transition system with any number of executions of the engine,
  each call with its own clock reading, and with crashes, lost replies, failed calls, purges and sweeps anywhere
  between the awaits. Every row has a lifetime, from physical insertion to physical removal, because the fence
  restarts at 1 after a removal. Fences are distinct within a lifetime, late holders change a row exactly in one
  stated case, leases exclude each other without clock agreement, stored results are stable, and claims are
  discharged.
- **The backends** (`Rows`, `Sql`, `Postgres`, `SqlClients`, `DynamoDb`, `Redis`, `DurableObject`). The SQL stores
  issue a conditional write and then a separate read; any number of clients with their statements interleaved are
  proved linearizable against `Contract` at their answering statements, exactly when no read of theirs is torn.
  DynamoDB and Redis agree with it step for step. The Durable Object's sweep is compared with an object that never
  sweeps.
- **Responses** (`Chunks`, `Capture`, `Writer`, `HttpRun`, `Bridge`). The pull-driven capture with its cancel and
  drain races, the Go writer, and the order of settling and closing in the HTTP bridge. `Bridge` puts any number of
  requests into the protocol's transition system and proves the end-to-end replay promise of its runs.
- **Canonical form and keys** (`Utf`, `JsonText`, `Numbers`, `Jcs`, `Keys`). RFC 8785 canonical bytes identify JSON
  values; the sf-string parser is the exact inverse of RFC 9651 serialization.
- **Parking** (`Parking`). How often a duplicate can meet the same lease.

Async code (the engine, the bridge, the capture) is a control state per await and one transition per resumption, so
that other work can run in between. Objects that are updated in place are classes whose methods are proved against
the pure transitions. Clocks, wall time and the statements other clients execute are parameters.

## Where the code does less than its documentation says

Each of these is proved: the input that shows it, and when the promise does hold.

- Fences repeat across lifetimes. A holder whose row was purged can complete its successor's row, and the successor
  is then told `stored: true` for a payload that was never stored (`ProtocolTheorems.CrossLifeHit`). An execution that
  was told so holds the row exactly if no other execution's complete has landed in it with another payload
  (`ProtocolTheorems.StoredIsHeld`). A late holder changes a row exactly when the row belongs to a later lifetime, is
  in flight at its fence and, for a complete, has not expired (`ProtocolTheorems.LateSettleExact`); within its
  lifetime it never does (`ProtocolTheorems.StaleHolderHarmless`).
- docs/semantics.md:43 says `stale_fence` is answered when the record's fence is higher. A holder with fence 2 is also
  told so by a row that was removed and claimed again at fence 1 (`Contract.StaleBelow`): the answer is given exactly
  for a different fence (`Contract.StaleExact`). Within a lifetime the record's fence is indeed higher
  (`ProtocolTheorems.StaleHolderHarmless`).
- The SQL `complete` answers `ok` from its read when the row was removed and claimed again between its two statements,
  although nothing was stored (`Postgres.TornReadStoresNothing`). A run is linearizable at its answering statements
  exactly when no read in it is of that kind (`SqlClients.Linearizable`), and none is while the row is kept
  (`SqlClients.InLifeNotTorn`).
- A `storeResult` predicate that throws leaves the claim in flight with no settling call to come
  (`ProtocolTheorems.PredicateThrowStrands`), and the client is handed a bodiless response all the same
  (`HttpRun.BodilessEscapes`); nothing else lets a client see an end before the claim is settled
  (`Bridge.StoredBeforeEnd`).
- The Durable Object's grace has to cover the spread between the clocks of the claimant and of the later caller, not
  only the later caller's lag behind wall time (`DurableObject.GraceExact`).
- A Durable Object's holder whose row was swept can complete the next claim's row, which without the sweep would be
  stale, even with all clocks equal (`DurableObject.SweptHolderHits`). While the reference still has such a holder's
  row, its complete tells that rows are swept exactly in that case (`DurableObject.CompleteTells`), its abandon also
  while its claim is in flight and its row is gone (`DurableObject.AbandonTells`,
  `DurableObject.AbandonTellsExactly`). Any holder's settling call that finds a row, also of one whose row is gone on
  both sides, tells exactly when the row is at its fence on one side only and is live (for a complete) or in flight
  (for an abandon) (`DurableObject.AgreeNow`).
- The map key of two identities is the same exactly when there is a separator inside a scope or key
  (`Contract.JoinExact`), and a DynamoDB item reads back under another identity exactly when its scope has one
  (`DynamoDb.SplitExact`).

## Model

| member | source | states |
|---|---|---|
| `Contract.BeginContract` | packages/core/src/types.ts:55-75 | the documented precedence per answer in both directions: claims exactly when absent, expired or a lapsed lease of the same payload; only a claim writes, and its fence continues a row that is there |
| `Contract.CompleteContract` | packages/core/src/memory.ts:88-106 | complete writes only an unexpired in-flight row at the caller's fence, `ok` means completed at that fence, and repeating it changes nothing |
| `Contract.ReadExact` | packages/core/src/memory.ts:117-121 | a row is read, as it is, exactly while it has not expired |
| `Contract.StaleExact` | packages/core/src/memory.ts:88-115 | `stale_fence` is answered exactly when the row decides and the fences differ, in either direction |
| `Contract.StaleBelow` | packages/core/src/memory.ts:74-97 | a holder with fence 2 meets a row claimed again at fence 1 and is told `stale_fence` |
| `Contract.JoinExact` | packages/core/src/memory.ts:13-15 | another identity has the same map key if and only if a separator is inside the scope or the key |
| `Memory.OwnKey` | packages/core/src/memory.ts:13-15 | an identity without a NUL character shares its map key with no other |
| `Engine.OmittedForm` | packages/core/src/engine.ts:59-69 | the omitted form keeps kind, status and headers and nothing else, and is taken exactly for a body over the cap |
| `Memory.MemoryStore.Begin` | packages/core/src/memory.ts:62-86 | the in-place store's begin is the contract's transition on the row of its key, all other rows unchanged |
| `Memory.MemoryStore.Complete` | packages/core/src/memory.ts:88-106 | the same for complete, which updates a record object that no other key shares |
| `Memory.MemoryStore.Abandon` | packages/core/src/memory.ts:108-115 | the same for abandon |
| `Memory.MemoryStore.Read` | packages/core/src/memory.ts:117-121 | a record is visible exactly until its expiry |
| `Memory.MemoryStore.Purge` | packages/core/src/memory.ts:123-132 | exactly the expired rows go, and they are counted |
| `Protocol.InvStep` | packages/core/src/engine.ts:91-158 | every step of any execution, crash, lost reply, purge or sweep keeps the invariant linking rows, acquire logs, claims, control states and settling calls |
| `Protocol.InvRun` | packages/core/src/engine.ts:91-158 | hence every run does |
| `Protocol.Unrestricted` | packages/core/src/engine.ts:108-157 | the runs are unrestricted: at each await any clock, fate and end of the handler, and a crash at any time |
| `Protocol.CrashEnds` | packages/core/src/engine.ts:108-157 | a crashed execution makes no further step |
| `ProtocolTheorems.RemovalsExact` | packages/core/src/memory.ts:123-137 | a purge removes exactly the expired rows, a sweep one row, and ends its lifetime |
| `ProtocolTheorems.BeginLeads` | packages/core/src/engine.ts:108-134 | what an execution does next by the row its begin found: mismatch, replay, conflict with the row's lease, or the handler under the next fence; and after a failed begin, a store error or, under fail-open only, the handler without a claim |
| `ProtocolTheorems.FenceCounts` | packages/core/src/memory.ts:74-85 | in every run, a row is there exactly when its lifetime has acquires, and its fence is their number |
| `ProtocolTheorems.FencesDistinct` | packages/core/src/memory.ts:74-85 | in every run, two claims on the same id and lifetime have different fences |
| `ProtocolTheorems.LateSettleExact` | packages/core/src/memory.ts:94-115 | in every run, a settling call of a holder that is not the latest changes a row if and only if that row is of a later lifetime, in flight at the same fence and, for a complete, unexpired |
| `ProtocolTheorems.LateOkExact` | packages/core/src/memory.ts:94-115 | and is told `ok` if and only if a row at the same fence is there: unexpired for a complete, in flight for an abandon |
| `ProtocolTheorems.LateHolders` | packages/core/src/memory.ts:74-85 | every holder is the latest, or has a later acquire in its lifetime's log, or outlived the lifetime |
| `ProtocolTheorems.StaleHolderHarmless` | packages/core/src/memory.ts:94-115 | in every run, a holder with a later acquire in its lifetime's log changes no row, is never told `ok`, and the record's fence is higher than its own |
| `ProtocolTheorems.LeaseExclusion` | packages/core/src/memory.ts:66-84 | with positive lease and TTL, the claim windows of a lifetime are disjoint and in fence order, whatever clocks the callers read |
| `ProtocolTheorems.StableRun` | packages/core/src/memory.ts:66-115 | a completed row is unchanged by every continuation without removal and without a claim attempt at or past its expiry |
| `ProtocolTheorems.CompletedStable` | packages/core/src/engine.ts:117-131 | after it, every begin replays exactly that record or reports a mismatch, by fingerprint, and never acquires |
| `ProtocolTheorems.SettledRun` | packages/core/src/engine.ts:133-157 | in every run, the row of a latest holder whose settling call was answered is not in flight, or the call was a complete at or past its expiry |
| `ProtocolTheorems.LatestRow` | packages/core/src/memory.ts:74-106 | in every run, the row of a latest holder is in flight without a result until a complete lands, and then holds that payload |
| `ProtocolTheorems.Discharged` | packages/core/src/engine.ts:133-157 | in every run, an execution that claimed and ended made exactly one settling call, with its own fence, unless storeResult threw; once answered, its row is not in flight at that fence, or had expired |
| `ProtocolTheorems.SettledByVerdict` | packages/core/src/engine.ts:136-157 | in every run, a claimed execution that was answered completed its claim if and only if storeResult kept the result, and abandoned it if and only if it dropped it; a handler that threw is abandoned |
| `ProtocolTheorems.DischargedByDefault` | packages/core/src/engine.ts:43-45 | under the default storeResult every claim that ended has settled: completed exactly for message outcomes and HTTP statuses below 500, else abandoned |
| `ProtocolTheorems.UnclaimedRuns` | packages/core/src/engine.ts:111-115 | in every run, a handler runs without a claim under fail-open only, and then nothing is settled or reported stored |
| `ProtocolTheorems.UnclaimedEnds` | packages/core/src/engine.ts:114-114 | its handler's result is its answer, its handler's error its own |
| `ProtocolTheorems.StoredIsHeld` | packages/core/src/engine.ts:149-157 | in every run, after `stored: true` the row, while it is this claim's, is completed; it holds this execution's payload or its omitted form if and only if no other execution's complete landed in it with another one |
| `ProtocolTheorems.LandedOnce` | packages/core/src/memory.ts:94-106 | for a holder that completed and is still the latest, no other payload was landed by another execution if and only if the first complete that landed, if any, carries its payload |
| `ProtocolTheorems.PredicateThrowStrands` | packages/core/src/engine.ts:144-147 | a storeResult that throws strands the claim |
| `ProtocolTheorems.CrossLifeHit` | packages/core/src/memory.ts:74-97 | across lifetimes a late holder does hit its successor's row |
| `Rows.CompletedReadsBack` | packages/stores/src/codec.ts:25-85 | a completed row reads back as the record the contract holds, in both payload forms |
| `Rows.NewReadsBack` | packages/stores/src/codec.ts:48-85 | a fresh row reads back as the fresh record |
| `Sql.BeginExact` | packages/stores/src/sql.ts:45-60 | the claim statement writes exactly when the contract acquires, with the same fence and the same row |
| `Sql.CompleteExact` | packages/stores/src/sql.ts:63-66 | the completing statement writes exactly when the contract changes the row, and the same |
| `Sql.AbandonExact` | packages/stores/src/sql.ts:69-71 | the deleting statement deletes exactly when the contract does |
| `Sql.ClassifyBeginExact` | packages/stores/src/postgres.ts:134-144 | a begin classified from the row it read is the contract's begin on that row; it asks for another try exactly when it could claim |
| `Sql.ClassifyCompleteExact` | packages/stores/src/postgres.ts:165-171 | a classified complete is the contract's at the read, if and only if the read is not torn |
| `Sql.ClassifyAbandonExact` | packages/stores/src/postgres.ts:176-181 | the same for abandon |
| `Sql.RefusalStands` | packages/stores/src/sql.ts:45-71 | no statement that keeps the row turns a refused settling write into an applicable one, because fences only grow |
| `Sql.KeptNotTorn` | go/store/internal/sqlstore/sqlstore.go:235-290 | hence for a fence of the row's lifetime no sequence of statements that keeps the row can tear the read |
| `Postgres.PostgresStore.Begin` | packages/stores/src/postgres.ts:123-146 | for every interleaving: the answer and effect are the contract's begin at the last statement, a write if it acquired and else a read; giving up means nothing was written and the row changed between write and read in all three tries |
| `Postgres.PostgresStore.Attempt` | packages/stores/src/postgres.ts:124-144 | one try of the loop: an answer is the contract's begin at its last statement, no answer means the row changed between write and read |
| `Postgres.PostgresStore.Complete` | packages/stores/src/postgres.ts:148-172 | for every interleaving: the contract's complete at the write or at the read unless torn, and never torn while the others keep a row that issued the fence |
| `Postgres.PostgresStore.Abandon` | packages/stores/src/postgres.ts:174-182 | the same for abandon |
| `Postgres.TornReadStoresNothing` | packages/stores/src/postgres.ts:165-171 | a torn read answers `ok` while the row is another claim's and still in flight |
| `SqlClients.WriteExact` | packages/stores/src/sql.ts:45-92 | a statement that answers is the atomic operation; a refused one changes nothing |
| `SqlClients.ReadExact` | packages/stores/src/postgres.ts:134-181 | a read that answers is the atomic operation if and only if it is not torn |
| `SqlClients.ReadStep` | packages/stores/src/postgres.ts:134-181 | in any state with the invariant, a client's read keeps the history faithful if and only if it is not torn |
| `SqlClients.InvStep` | packages/stores/src/postgres.ts:123-182 | every step that is not a torn read keeps the invariant |
| `SqlClients.InLifeNotTorn` | packages/stores/src/postgres.ts:148-182 | a read in the lifetime that issued the fence and refused the write, or of no row, is never torn |
| `SqlClients.InvRun` | packages/stores/src/postgres.ts:123-182 | every run without a torn read keeps it: the table is the replayed history, and standing refusals stand |
| `SqlClients.Linearizable` | packages/stores/src/postgres.ts:123-182 | for any number of clients and every interleaving of their statements, deletions included: throughout the run the answers are those of the atomic store in the order of the answering statements, and the table is its rows, if and only if no read of a refused settling call is torn |
| `SqlClients.LinearizableInLife` | packages/stores/src/postgres.ts:148-182 | in particular when refused settling calls read in the lifetime that issued their fence, or find no row |
| `SqlClients.OneEntryPerReturn` | packages/stores/src/postgres.ts:123-182 | each call takes effect in the one step that returns its answer |
| `SqlClients.CallProceeds` | packages/stores/src/postgres.ts:123-182 | an idle client starts any call, and its write answers as the atomic store or is refused without a trace |
| `SqlClients.ReadProceeds` | packages/stores/src/postgres.ts:134-181 | a refused call that reads is answered, except a begin that could claim by now |
| `SqlClients.ThirdTry` | packages/stores/src/postgres.ts:124-145 | a begin gives up only at the read of its third try |
| `DynamoDb.SplitExact` | packages/stores/src/dynamodb.ts:33-72 | splitting an item key recovers the identity if and only if the scope has no separator |
| `DynamoDb.OwnItem` | packages/stores/src/dynamodb.ts:30-35 | an identity without a unit separator shares its item with no other |
| `DynamoDb.OthersRead` | packages/stores/src/dynamodb.ts:102-104 | so when one item changes, the records of all others stay |
| `DynamoDb.RefusedBeginClassifies` | packages/stores/src/dynamodb.ts:42-145 | the old item of a refused begin always classifies it |
| `DynamoDb.BeginUpdateReads` | packages/stores/src/dynamodb.ts:45-83 | the claim update reads back as the contract's fresh record, whatever the item held |
| `DynamoDb.CompleteUpdateReads` | packages/stores/src/dynamodb.ts:165-179 | the completing update reads back as the contract's completed record |
| `DynamoDb.DynamoDbStore.Begin` | packages/stores/src/dynamodb.ts:106-151 | the contract's begin in answer and effect, always on the first try, so the retry and its error are unreachable |
| `DynamoDb.DynamoDbStore.Complete` | packages/stores/src/dynamodb.ts:153-201 | an error exactly for a body over the item cap, with nothing written; otherwise the contract's complete |
| `DynamoDb.DynamoDbStore.Abandon` | packages/stores/src/dynamodb.ts:203-223 | the contract's abandon |
| `DynamoDb.DynamoDbStore.Read` | packages/stores/src/dynamodb.ts:225-232 | the contract's read |
| `Redis.RedisStore.KeyExact` | packages/stores/src/redis.ts:205-207 | a key starts with the prefix, and that of an identity without a unit separator is shared with no other |
| `Redis.ClaimReads` | packages/stores/src/redis.ts:122-125 | the claim's HSET and HDEL leave a hash that reads as the fresh record, whatever it held |
| `Redis.ResultReads` | packages/stores/src/redis.ts:137-138 | the completing writes leave a hash that reads as the completed record |
| `Redis.RedisStore.BeginScript` | packages/stores/src/redis.ts:95-126 | the script is the contract's begin in answer and effect, and sets the native expiry to TTL plus grace on a claim |
| `Redis.RedisStore.CompleteScript` | packages/stores/src/redis.ts:129-140 | the script is the contract's complete |
| `Redis.RedisStore.AbandonScript` | packages/stores/src/redis.ts:143-151 | the script is the contract's abandon |
| `Redis.RedisStore.Begin` | packages/stores/src/redis.ts:223-240 | the decoded reply is the contract's begin on this record; the records of all other identities without a separator stay |
| `Redis.RedisStore.Complete` | packages/stores/src/redis.ts:242-256 | the contract's complete on this record for every payload; the others stay |
| `Redis.RedisStore.Abandon` | packages/stores/src/redis.ts:258-262 | the contract's abandon on this record; the others stay |
| `Redis.RedisStore.Read` | packages/stores/src/redis.ts:264-269 | the contract's read |
| `DurableObject.Bookkeeping` | packages/stores/src/durable-objects.ts:104-227 | after every run of an object, records and sweep entries have the same keys and an alarm is pending by the earliest entry |
| `DurableObject.BookkeptRun` | packages/stores/src/durable-objects.ts:104-227 | the same from any state that is so kept |
| `DurableObject.BookkeptStep` | packages/stores/src/durable-objects.ts:104-227 | each call and each alarm keeps that |
| `DurableObject.AlarmSweeps` | packages/stores/src/durable-objects.ts:218-227 | an alarm removes exactly what is due and rearms at exactly the earliest entry left |
| `DurableObject.BeginSchedules` | packages/stores/src/durable-objects.ts:104-138 | a claim's entry falls due TTL and grace after wall time, and the alarm is the earlier of it and the pending one; any other begin changes nothing |
| `DurableObject.RemovalsExact` | packages/stores/src/durable-objects.ts:201-215 | a removal takes the one record, a purge exactly the expired ones, with their sweep entries |
| `DurableObject.SweepExact` | packages/stores/src/durable-objects.ts:104-227 | over every run with alarms anywhere, while clocks spread by at most the grace and each side is called with the fence it issued: begin and get (apart from the fence), complete, and abandon of a row that is there answer as without sweeping if and only if no settling call meets a row at its fence on one side only |
| `DurableObject.SweepInvisible` | packages/stores/src/durable-objects.ts:104-227 | in particular when holders settle within their row's lifetime or find no row |
| `DurableObject.CrossedExact` | packages/stores/src/durable-objects.ts:117-149 | a holder of the object's current row is never so crossed; one whose row was swept is exactly when the object's row carries its fence |
| `DurableObject.CompleteTells` | packages/stores/src/durable-objects.ts:151-179 | a complete in its claim's lifetime answers as without the sweep; after a sweep it does unless the object's row is live at its fence, and only then |
| `DurableObject.AbandonTellsExactly` | packages/stores/src/durable-objects.ts:181-193 | an abandon in its claim's lifetime answers as without the sweep; without a row it does unless the reference's is in flight; after a sweep unless the object's row is in flight at its fence |
| `DurableObject.SweptHolderHits` | packages/stores/src/durable-objects.ts:117-179 | with all clocks equal and any grace, a swept holder's complete is told `ok` where without the sweep it is stale |
| `DurableObject.ReclaimedHit` | packages/stores/src/durable-objects.ts:151-179 | and lands in the next claim's row |
| `DurableObject.SimStep` | packages/stores/src/durable-objects.ts:104-227 | the simulation behind it, kept by every query that does not diverge: what was swept is expired for every clock from then on, and fences count alike within the object's lifetimes |
| `DurableObject.AgreeNow` | packages/stores/src/durable-objects.ts:117-199 | in related states begin and get answer the same, and settling calls that find a row exactly when they do not diverge |
| `DurableObject.GraceExact` | packages/stores/src/durable-objects.ts:104-115 | a duplicate arriving when a record is swept is answered as without the sweep if and only if its clock is behind the claimant's by at most the grace |
| `DurableObject.AbandonTells` | packages/stores/src/durable-objects.ts:181-193 | an abandon does tell a swept row from an unswept one |
| `DurableObject.IdempotencyObject.Begin` | packages/stores/src/durable-objects.ts:117-149 | settles on the first try with the contract's answer, and schedules the sweep |
| `DurableObject.IdempotencyObject.Complete` | packages/stores/src/durable-objects.ts:151-179 | the contract's answer and the step's new state |
| `DurableObject.IdempotencyObject.Abandon` | packages/stores/src/durable-objects.ts:181-193 | the same, with the sweep entry removed along with the record |
| `DurableObject.IdempotencyObject.Read` | packages/stores/src/durable-objects.ts:195-199 | a record is visible exactly until its expiry |
| `DurableObject.IdempotencyObject.Purge` | packages/stores/src/durable-objects.ts:201-209 | expired records go, are counted, and their sweep entries are pruned |
| `DurableObject.IdempotencyObject.Remove` | packages/stores/src/durable-objects.ts:211-215 | the record and its sweep entry go together |
| `DurableObject.IdempotencyObject.ScheduleSweep` | packages/stores/src/durable-objects.ts:104-115 | the entry is at wall time plus TTL plus grace and the alarm is never moved later |
| `DurableObject.IdempotencyObject.FireAlarm` | packages/stores/src/durable-objects.ts:218-227 | the deletion loop and the rescheduling do what the step says |
| `DurableObject.IdempotencyObject.MinExpiry` | packages/stores/src/durable-objects.ts:54-54 | the minimum of the sweep table, none when it is empty |
| `Chunks.FlattenPush` | packages/core/src/http/capture.ts:29-37 | a body is its chunks in order |
| `Chunks.CapPrefixExact` | packages/core/src/http/capture.ts:93-98 | buffering keeps every chunk when the total fits the cap, else the shortest chunk prefix that does not |
| `Capture.InvStep` | packages/core/src/http/capture.ts:76-190 | every event keeps the invariant of copy, client, waiting reads and settlement |
| `Capture.InvRun` | packages/core/src/http/capture.ts:76-190 | hence every interleaving does |
| `Capture.CaptureCorrect` | packages/core/src/http/capture.ts:76-190 | in every interleaving the record settles at most once; when it resolves the source ended cleanly and the copy is the whole body or the shortest prefix over the cap; the client has a prefix |
| `Capture.SettledForGood` | packages/core/src/http/capture.ts:101-107 | a settlement never changes |
| `Capture.ReadsSettle` | packages/core/src/http/capture.ts:110-164 | once the source has been read past its last chunk, by whomever, the record has settled |
| `Capture.DrainSettles` | packages/core/src/http/capture.ts:110-168 | after a cancel this needs nobody to pull |
| `Capture.Unrestricted` | packages/core/src/http/capture.ts:129-190 | pulls, reads, leaving, cancelling, closing and failing may come at any time |
| `Capture.LeavesToDrain` | packages/core/src/http/capture.ts:165-168 | a client that leaves is gone, and its cancel hands an unsettled copy to the drain |
| `Capture.PullsDeliver` | packages/core/src/http/capture.ts:134-164 | a client that keeps pulling receives every chunk, and with one pull more the record has settled: resolved with the stream still open after a clean end, rejected and passed on after an error |
| `Capture.FailErrors` | packages/core/src/http/capture.ts:180-189 | a fail errors a client that is reading and rejects a record that has not settled |
| `Capture.ErrorsOnlyRejected` | packages/core/src/http/capture.ts:138-147 | nothing else errors a client whose record is not rejected |
| `Capture.ClosedIsWhole` | packages/core/src/http/capture.ts:171-179 | a client whose stream is closed after a resolved settlement has received the whole body |
| `Capture.ClosesOnlyByClose` | packages/core/src/http/capture.ts:171-190 | the client's stream ends cleanly only by close(), and then stays as it is |
| `Capture.Concat` | packages/core/src/http/capture.ts:29-37 | the buffer holds exactly the chunks in order |
| `Capture.CaptureStream.PullRead` | packages/core/src/http/capture.ts:134-164 | the continuation of a pull's read is one step of the machine |
| `Capture.CaptureStream.DrainRead` | packages/core/src/http/capture.ts:110-126 | the continuation of a drain's read is one step, which asks for the next chunk |
| `Capture.CaptureStream.DoPull` | packages/core/src/http/capture.ts:134-139 | a pull queues one read unless settled |
| `Capture.CaptureStream.DoCancel` | packages/core/src/http/capture.ts:165-168 | a cancel hands the rest to the drain |
| `Capture.CaptureStream.DoClose` | packages/core/src/http/capture.ts:175-179 | close ends the client's stream once, and only while it is open |
| `Capture.CaptureStream.DoFail` | packages/core/src/http/capture.ts:180-189 | fail errors the client and settles an unsettled record |
| `Writer.PushAllBuffers` | go/internal/httpx/writer.go:58-72 | for every split into writes the buffer is the first min(total, limit + 1) bytes, over the cap exactly when there are more than the limit |
| `Writer.PayloadIgnoresChunking` | go/anyonce/engine.go:192-195 | in both languages all bytes are stored exactly when the total fits the cap, else the omitted form, however the response was split |
| `Writer.CaptureWriter.WriteHeader` | go/internal/httpx/writer.go:39-55 | informational statuses pass, the first final one is recorded with the headers as sent, later ones are dropped |
| `Writer.CaptureWriter.Write` | go/internal/httpx/writer.go:58-72 | every byte reaches the client and the copy stays the start of the body |
| `Writer.CaptureWriter.Result` | go/internal/httpx/writer.go:104-123 | the result has the status and allowlisted headers the client saw, and the start of the body |
| `Writer.StoredHeaders` | packages/core/src/http/capture.ts:6-13 | exactly the allowlisted headers, never Set-Cookie, in order |
| `Writer.AllowedEach` | packages/core/src/http/capture.ts:6-13 | each header is kept or not by its own name, and order stays |
| `HttpRun.EndSeenAfterSettling` | packages/core/src/http/run.ts:127-184 | a client sees a body end only after the settling call returned and with every byte received; a bodiless response only then too, or when storeResult threw |
| `HttpRun.FinishedView` | packages/core/src/http/run.ts:150-180 | in every finished run the client has been handed the response; unless it left, it has the whole body and a clean end after an answer, an error after a throw |
| `HttpRun.ClientBytes` | packages/core/src/http/capture.ts:61-74 | in every run a client is sent a prefix of the response's own chunks, none for a 204, 205 or 304, and is handed a response with a body at once |
| `HttpRun.ResultOfResponse` | packages/core/src/http/capture.ts:55-63 | the result of an answered request is its response's status and headers and the copy of its body |
| `HttpRun.Unrestricted` | packages/core/src/http/run.ts:134-148 | a handler may respond with anything or throw |
| `HttpRun.InvRun` | packages/core/src/http/run.ts:127-184 | every interleaving of engine, stream and store keeps the bridge's invariant |
| `HttpRun.ReplayMarked` | packages/core/src/http/capture.ts:194-208 | a replay has the stored headers in their order and number and its marks, the second one exactly when the body was omitted |
| `HttpRun.ReplayExact` | packages/core/src/http/capture.ts:194-208 | status and body of any replay: 200 where none was stored, and the stored body unless omitted or of a 204, 205 or 304 |
| `HttpRun.WithoutPush` | packages/core/src/http/capture.ts:197-199 | setting a header takes out those of its name, one by one and in order |
| `HttpRun.WithoutNone` | packages/core/src/http/capture.ts:197-199 | and leaves a list without that name as it is |
| `HttpRun.BodilessEscapes` | packages/core/src/http/run.ts:169-180 | a throwing storeResult hands a bodiless response to the client with nothing settled |
| `HttpRun.ReplayOfCopy` | packages/core/src/http/capture.ts:194-208 | the replay of a stored response has its status, headers and body, or the omitted form over the cap |
| `Bridge.InvStep` | packages/core/src/http/run.ts:127-184 | in the transition system with requests in it, every step of a store call, handler, stream or crash keeps each request's state that of its execution |
| `Bridge.Projects` | packages/core/src/http/run.ts:127-148 | the protocol's share of a run with requests is a run of the protocol |
| `Bridge.StoredBeforeEnd` | packages/core/src/http/run.ts:127-184 | in every state in which a client has seen the end, the claim's one settling call has been made; if it was answered `ok` the row, while it is this claim's, is completed, and holds this result if and only if no other execution's complete landed in it with another one |
| `Bridge.EndToEnd` | packages/core/src/http/run.ts:127-184 | in every run, after a client saw a response end that was reported stored, and no other execution's complete had landed in the row with another payload, every later request with the same key and payload in that lifetime and before expiry is answered with the same status, stored headers and body bytes |
| `Bridge.StreamSeen` | packages/core/src/http/run.ts:127-184 | for every response with a body there is a run in which its client reads it to the end and sees a clean end, stored and held by the row |
| `Utf.Utf8Injective` | go/anyonce/jcs.go:104-131 | UTF-8 bytes identify the text |
| `Utf.Utf8Form` | go/anyonce/jcs.go:126-126 | the bytes are those of RFC 3629: length and lead byte by range, six bits in each continuation |
| `Utf.Utf16Form` | go/anyonce/jcs.go:95-95 | the code units are those of UTF-16: one unit, or a high and a low surrogate |
| `Utf.Utf16Injective` | go/anyonce/jcs.go:94-102 | UTF-16 code units identify the text |
| `Utf.LessIsStrictTotal` | go/anyonce/jcs.go:94-102 | the order by UTF-16 code units is strict and total on texts |
| `Utf.UnitsAscend` | go/anyonce/jcs.go:94-102 | the order is ascending: a proper prefix first, else the smaller unit at the first difference |
| `Utf.LessUTF16` | go/anyonce/jcs.go:94-102 | the comparison loop decides it |
| `JsonText.QuoteUnique` | go/anyonce/jcs.go:104-131 | a quoted string identifies its text, and its end, with anything behind it |
| `JsonText.QuoteReads` | go/anyonce/jcs.go:104-131 | a quoted string reads back as its text by JSON's grammar (section 7 of RFC 8259) |
| `JsonText.EscapeForm` | go/anyonce/jcs.go:106-128 | only the quote, the backslash and controls are escaped, seven of them by two characters, the rest by lower-case hexadecimal |
| `JsonText.ByteBuffer.WriteJSONString` | go/anyonce/jcs.go:104-131 | the escaping loop appends exactly the quoted string's bytes |
| `Numbers.NormExact` | go/anyonce/jcs.go:134-175 | decimals are compared by value: equal exactly when one is the other times a power of ten |
| `Numbers.LayoutExact` | go/anyonce/jcs.go:151-170 | each of the layouts denotes exactly the digits times ten to the (n - k) |
| `Numbers.LayoutShape` | go/anyonce/jcs.go:151-170 | the text has an exponent exactly below a millionth or from 10 to the 21 on, a point exactly when a fraction digit is written, and no needless zero |
| `Numbers.LayoutFixed` | go/anyonce/jcs.go:151-170 | of all texts of that shape, exactly the layout denotes the number |
| `Numbers.Es6Signs` | go/anyonce/jcs.go:134-144 | a minus exactly for negative numbers, `0` for zero, an error exactly for what is not finite |
| `Numbers.Es6Exact` | go/anyonce/jcs.go:134-175 | the text of every finite float denotes exactly its value, sign and zero included |
| `Numbers.FloatValueUnique` | go/anyonce/jcs.go:145-149 | shortest digits and exponent are determined by the value |
| `Numbers.Es6Injective` | go/anyonce/jcs.go:134-175 | distinct floats have distinct text |
| `Jcs.OrdersUnique` | go/anyonce/jcs.go:71-75 | a set of keys has one sorted sequence |
| `Jcs.SortKeys` | go/anyonce/jcs.go:75-75 | sorting gives it, whatever order the map handed the keys out in |
| `Jcs.TextUnique` | go/anyonce/jcs.go:37-131 | no canonical text is confused with another, even with more text behind it |
| `Jcs.TextReads` | go/anyonce/jcs.go:37-92 | the canonical text is the value's by JSON's grammar: literals, escapes, delimiters, members ascending by key |
| `Jcs.ItemsUnique` | go/anyonce/jcs.go:59-69 | the same for the rest of an array |
| `Jcs.MembersUnique` | go/anyonce/jcs.go:70-87 | the same for the rest of an object: same keys, same values |
| `Jcs.CanonicalUnique` | go/anyonce/jcs.go:19-35 | canonical bytes are equal if and only if the values are: objects as maps, numbers by value |
| `Jcs.WriteCanonical` | go/anyonce/jcs.go:37-92 | the writer fails exactly on a number that is not finite, and otherwise appends the canonical bytes for every iteration order |
| `Jcs.WriteArray` | go/anyonce/jcs.go:59-69 | the same for arrays |
| `Jcs.WriteObject` | go/anyonce/jcs.go:70-87 | the same for objects |
| `Keys.DoTrim` | packages/core/src/sfstring.ts:7-13 | the scanning loops remove the surrounding white space, all of it and nothing else |
| `Keys.TrimIs` | packages/core/src/key.ts:33-41 | trimming a text with white space around it gives the text |
| `Keys.ParseSfString` | packages/core/src/sfstring.ts:20-47 | succeeds exactly when the trimmed input serializes some printable string, and returns it; a rejection names the first fault |
| `Keys.ParseQuoted` | packages/core/src/sfstring.ts:24-46 | the scanning loop: succeeds exactly on serializations of printable strings, and a rejection comes with the index and reason where the input stops being one |
| `Keys.SerializeInjective` | packages/core/src/sfstring.ts:20-47 | that string is unique |
| `Keys.EscapeEach` | packages/core/src/sfstring.ts:27-36 | serialization goes character by character, with a backslash before a quote or a backslash only |
| `Keys.PrintableRange` | packages/core/src/sfstring.ts:41-42 | printable is from U+0020 to U+007E |
| `Keys.ValidateKey` | packages/core/src/key.ts:13-28 | accepts exactly 1 to 255 permitted bytes |
| `Keys.ParseKey` | packages/core/src/key.ts:47-60 | accepts a header exactly when it carries a key, quoted or bare as the syntax allows, and returns it |
| `Keys.CarriesOne` | packages/core/src/key.ts:47-60 | a header carries at most one key |
| `Keys.Syntaxes` | packages/core/src/key.ts:47-60 | strict takes exactly serializations of keys; lenient also bare keys that start with no quote |
| `Keys.SerializationCarries` | packages/core/src/key.ts:47-60 | the serialization of a valid key, with white space around it, carries that key under both syntaxes |
| `Parking.TypeScriptParksOnce` | packages/anyq/src/idempotent.ts:79-85 | a redelivered TypeScript duplicate meets a strictly later lease each time |
| `Parking.TypeScriptLeast` | packages/anyq/src/idempotent.ts:83-83 | its delay is the least positive one that reaches the end of the lease |
| `Parking.MeetsOnce` | packages/anyq/src/idempotent.ts:79-85 | any delay that outlasts the lease it was computed for makes each later meeting one with a later lease |
| `Parking.GoFallsShort` | go/anyqmw/middleware.go:93-105 | the Go delay ends before the lease exactly when a fraction of a millisecond is lost from more than one or the subtraction saturates, and unsaturated by less than one |
| `Parking.GoBounds` | go/anyqmw/middleware.go:97-100 | the Go delay is a positive number of milliseconds and not longer than the lease, unless it is one millisecond |
| `Parking.GoParksTwice` | go/anyqmw/middleware.go:93-105 | of any three meetings of a Go duplicate, the first with an unsaturated delay, the last is with a later lease |
| `Parking.GoParksAgain` | go/anyqmw/middleware.go:93-105 | parking twice on one lease does happen |
| `Parking.RetryAfterLeast` | packages/core/src/http/run.ts:42-44 | Retry-After is the least positive number of seconds that reaches the end of the lease |
| `Parking.RetryAfterMeetsOnce` | packages/core/src/http/run.ts:42-44 | a client that honours it meets a lease at most once |
| `Parking.Decide` | packages/anyq/src/strategy.ts:26-37 | an in-flight error parks for its delay and is marked translated, a mismatch is dead-lettered, anything else delegated |
| `Parking.Wrapper.Enter` | packages/anyq/src/idempotent.ts:51-57 | warns on a reported error that was never translated, and at most once ever |
| `Parking.Wrapper.Answer` | packages/anyq/src/idempotent.ts:75-92 | which deliveries are acknowledged, parked and dead-lettered; the delay is the rest of the lease, one millisecond when it has lapsed |

## Left out

- Database, Redis, DynamoDB and Durable Object clients, schemas, placeholder rewriting, affected-row counts and driver adapters: a statement, conditional write or script is one atomic step here.
- Durable Object input gates: each call and each alarm is taken to run alone on the object.
- The sharding of Durable Objects over names and the purge over the names a Worker has touched.
- Native expiry of DynamoDB items and Redis keys: when it is set is stated, its firing is the removal step of `Protocol`.
- d1.ts and sqlstore.go as separate code: they have the two-statement shape of postgres.ts, modelled once; the Go store's truncation of times to milliseconds is not modelled.
- The Go engine, memory, DynamoDB and Redis stores, which repeat the TypeScript ones, and Go's defaulting of lease and TTL.
- Hooks and the hook-error counter: they cannot change what the engine does.
- SHA-256, HMAC and webhook verification: a fingerprint is a plain string.
- Problem documents, option defaulting, header plumbing, status texts, the degraded header and the framework bindings.
- Hijack and Flush of the Go writer; its sorting and lower-casing of header names (headers come in the order they are stored in).
- Merging of repeated header names by the Headers class: header lists are kept as lists.
- The JSON text of result metadata and the base64 text of bodies: taken as the values they encode.
- Float parsing, the search for shortest digits and `json.Marshal` with its decoder: a number is given by its sign, shortest digits and exponent, a document by its tree, text by Unicode scalar values.
- The texts of error messages; rejected keys carry no reason beyond the sf-string parser's.
- The engine's result when the caller closes a stream in the moment the client cancels it: only the client's view of the stream is modelled.
- The conformance runner, reports, benchmarks, examples and fixtures.
- Parking.GoParksTwice: for a first delay of at most about 292 years, where the Go subtraction does not saturate; a lease granted earlier on the same clock never exceeds it.
- ProtocolTheorems.LeaseExclusion: for positive lease and TTL on the id, which TypeScript does not enforce.
- A store call that fails for its caller and takes effect only later: a call takes effect at once or not at all.
- Bridge.EndToEnd: for body caps that are not negative, and for a row that is still the claim's and not overwritten across lifetimes when the client has seen the end; `ProtocolTheorems.StoredIsHeld` says exactly when it is overwritten.
- Bridge.StoredBeforeEnd: for body caps that are not negative.
- Contract.BeginContract: times are unbounded integers; no clock or counter wraps around.
