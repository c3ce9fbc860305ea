# dns-updater: the reconciliation cycle and its driver

A model in Dafny of the dynamic-DNS updater in `main.go`. The process keeps the
address records of one Cloudflare zone pointed at the machine's public IPv4 address.
At startup it checks its two settings (API token, zone id) and lists the zone once.
It then runs one reconciliation cycle at once, and one more every 30 minutes until
SIGINT or SIGTERM.

A cycle looks up the current address and lists the zone's records. It then walks the
list in order. A record whose content already equals the address is skipped. So is a
record whose type is not `A`. Every other record is sent back in full with its content
replaced by the address (a PUT to the record's id). Any failure ends the process with
exit status 1.

Files, one module each:

- `wrappers.dfy` (`Wrappers`): `Option` and `Result`.
- `records.dfy` (`Records`): the record shape: the writable `ARecord` and the listed
  `RecordResponse` (id plus record).
- `provider.dfy` (`Provider`): what the client decides about a provider exchange. A list
  reply yields the records or an error. An update reply counts as done or as an error.
- `reconcile.dfy` (`Reconcile`): the cycle. `Planned` is the pure plan of update calls.
  `Deliver` and `Cycle` are the pure specification of a whole cycle. `CheckAndUpdate` is
  the cycle as a loop, proved equal to `Cycle`. `Put`/`PutAll` give the provider's view of
  applied updates, used to state idempotence.
- `daemon.dfy` (`Daemon`): the startup checks and the scheduling loop as a method over a
  stream of timer and cancel events.

The outside world enters as parameters:

- The address lookup is an `IpLookup`: an address, or a failure.
- A list exchange is a `ListReply`: the request could not be built, the transport
  failed, the body did not decode, or the decoded body.
- The k-th update call of a cycle gets the reply `transport(k)`, an `UpdateReply`.
- The n-th cycle of a run is driven by `inputs(n)`.
- The wait in the scheduling loop resolves to a `Tick` (the 30-minute timer) or a
  `Cancel` (the signal). A run covers a finite stream of such events. If no cancellation
  is in the stream, the run ends in `Watching`: still waiting for the next event.

Two behaviours of `main.go` shape the model:

- No record is filtered out by name: every listed record is considered.
- The signal also cancels the context of the requests in flight. A cancellation during a
  cycle fails every list or update exchange still to come in that cycle, which is fatal.
  The address lookup takes no context. If no exchange remains, the cycle ends normally
  and the next wait sees the cancellation. In the model, such a failure is a failed
  `ListReply` or `UpdateReply` of that cycle, and a late signal is a `Cancel` event after
  a cycle that ended normally.

## Model

| member | source | states |
|---|---|---|
| `Provider.AcceptList` | main.go:87-96 | Records are returned, unchanged, exactly when the body decoded and its success flag is set. An undecodable body is an error. A decoded body with `success` false is an error carrying the provider's messages and no records. Request and transport failures are errors. |
| `Provider.AcceptUpdate` | main.go:102-119 | An update succeeds exactly when the exchange completed. Marshalling, request and transport failures are errors. Status code and body of the answer play no part. |
| `Provider.SuccessFlagReadOnlyByList` | main.go:87-119 | The same `success: false` verdict fails a listing with its messages but counts as a successful update, under any status code. |
| `Reconcile.UpdateFor` | main.go:195-197 | The call for a record targets that record's own id. It sends the record with content set to the address, every other field (name, TTL, type, comment, proxied, settings, tags) unchanged. |
| `Reconcile.EligibleIndices` | main.go:183-192 | The positions needing an update are listed in increasing order, each once. A position is included exactly when its record is of type `A` and its content differs from the address. |
| `Reconcile.PlannedFollowsEligible` | main.go:183-197 | The plan has exactly one call per record needing an update, in list order. The j-th call is the update for the j-th such record; no other record gets a call. |
| `Reconcile.PlannedSendsListedRecords` | main.go:177-197 | Every planned call targets an id from the list fetched in the same cycle, for a record that needs an update. It sends that record with only its content changed, to the address. |
| `Reconcile.NothingPlannedIff` | main.go:183-192 | A cycle plans no update exactly when no listed record is an `A` record with stale content. |
| `Reconcile.FirstRejection` | main.go:197-201 | The index of the first failing update exchange, counting from k: every earlier exchange succeeded, and the one at that index failed (or all of the first `count` succeeded). |
| `Reconcile.FirstRejectionIs` | main.go:197-201 | Those two properties determine the first failing exchange uniquely. |
| `Reconcile.PlannedAppend` | main.go:183 | Planning walks the list left to right: the plan for a concatenation is the concatenation of the plans. |
| `Reconcile.PlannedStep` | main.go:183-197 | Handling one more record of the list adds that record's update to the plan exactly when it needs one, and nothing otherwise. |
| `Reconcile.PlannedPrefix` | main.go:183-202 | The calls planned for the first i records are a prefix of the plan for the whole list. |
| `Reconcile.DeliverStopsAt` | main.go:197-201 | If every call before the last one sent was accepted and the last was rejected, the cycle sent exactly those calls and ends with that update error. |
| `Reconcile.DeliverAll` | main.go:183-202 | If every planned call is accepted, the whole plan is sent and the cycle ends normally. |
| `Reconcile.CheckAndUpdate` | main.go:170-203 | The loop issues the calls of the cycle specification `Cycle` and ends as it does. That means a failed lookup, then a failed listing, then the plan sent one call at a time in order, stopping after the first rejected call. |
| `Reconcile.FetchFailureSendsNothing` | main.go:171-181 | A failed address lookup or a rejected listing sends no update. The cycle ends fatally with a discovery or list error. |
| `Reconcile.CycleSendsPrefixOfPlan` | main.go:183-202 | After a good lookup and listing, the calls sent are a prefix of the plan. The cycle ends normally exactly when every call sent was accepted, and then the whole plan was sent. Otherwise the last call sent was the first rejected one, all before it were accepted, and the cycle ends with that update error. |
| `Reconcile.PutAllSettles` | main.go:195-197 | If the provider applies updates that all carry content `ip`, every record whose id was targeted ends with content `ip`. Every other record is left as it was, and ids never change. |
| `Reconcile.PlanSettles` | main.go:184-197 | Once every planned update of a cycle is applied, the same address plans no further update. |
| `Reconcile.SecondCycleSendsNothing` | main.go:170-203 | Suppose a cycle ended normally, the provider applied all its updates, and the address is unchanged. Then the next cycle sends no update and ends normally, whatever its transport would answer. |
| `Daemon.Startup` | main.go:139-166 | Startup passes exactly when the token and zone id are set, the initial listing is accepted, and it lists at least one record. The checks run in that order, and the first failing one gives the fatal error: a missing setting, a failed initial listing or no records. |
| `Daemon.CancelAt` | main.go:207-216 | The position of the first cancellation in the event stream. Every event before it is a timer tick. |
| `Daemon.ExitCode` | main.go:139-216 | A stopped process exits 0 exactly when it was shut down by cancellation and 1 exactly when it hit a fatal error. A watching process has no exit status. |
| `Daemon.Run` | main.go:139-216 | A failed startup check runs no cycle. Otherwise the n-th cycle is driven by the n-th inputs. The immediate cycle runs first, then exactly one more per tick before the first cancellation. A cycle starts only after the previous one ended normally, and a fatal cycle stops the process with that cycle's error. A cancellation reached with no failure shuts down normally; without one the process is still watching. |

## Left out

- The HTTP exchange, URL formatting, the bearer `Authorization` header and JSON marshalling and decoding (main.go:64-86, 99-113) are not modelled. Only their outcomes enter, as `ListReply` and `UpdateReply` values.
- JSON's `omitempty` on the wire is not modelled. Fields with zero values (empty comment or content, `proxied` false, no tags) are left out of the PUT body. The model treats the record sent as the whole record.
- `GetIp` (main.go:18-27) shells out to `dig` and trims its output. It is represented by its outcome, an `IpLookup`. ip.go is not part of this model.
- api.go is not part of this model. It repeats the record types and client of main.go under other names.
- Reading the environment, the `DEBUG` log level, `slog` logging and `os.Exit` (main.go:127-147) are not modelled. Settings arrive as a `Settings` value. Exits are represented by `Status` and `ExitCode`.
- Signal handling, context cancellation of requests in flight and the real 30-minute timer (main.go:154-155, 207-216) are not modelled. They appear as the ordered event stream and as failed exchanges. When both the timer and the signal are ready, Go's `select` chooses one at random; here the order of the stream decides.
- The response metadata of a listed record (`created_on`, `modified_on`, `meta`, `proxiable` and the two optional time stamps, main.go:46-57) is never read or written, and is not kept.
- Case-insensitive selection of monitored record names is not part of this model: `main.go` has no such filter.
- Debug and info log lines, including which skip of a record is logged, are not modelled.
