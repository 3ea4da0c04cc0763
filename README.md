# Patch history export, modelled in Dafny

This project models the pipeline of `evg-patch-history`, a tool that exports
patch history from the Evergreen build service. It pages through a project's
patches, newest first, and stops at a lookback cutoff. It resolves the patch
ids in batches and writes one CSV row for each non-null build-variant entry
of each patch that resolved and was not submitted by the commit queue.
All of it sits in `src/main.rs`. The model has three stages and a fourth
module that joins them:

- `Producer` (`producer.dfy`): the loop in `main` that forwards ids while
  `create_time >= lookback`. At the first older event it sends `End` and
  stops; that event is not forwarded.
- `Collector` (`collector.dfy`): `patch_collector`. It pushes ids into a
  buffer. It resolves the buffer and clears it once its length reaches
  `batch_size`. On `End` it resolves a non-empty leftover buffer and stops.
- `Transform` (`transform.dfy`): `process_patches`. It turns lookup
  results into `Record`s.
- `Pipeline` (`pipeline.dfy`): connects the producer's messages to the
  collector's records.
- `Records` (`records.dfy`): the data. `Record`, `VariantTask`, `Patch`,
  the channel message `Action`, the stream event `Event`, and the constants
  `"__commit_queue"` and `"|"`.

Each imperative loop of the source is a method with a `while` or `for` loop:
`ProcessPatches`, `PatchCollector` and `Produce`. Each is proved against a
specification function: `Transformed`, `Rounds`/`RoundRecords`, `Cutoff`/`Sent`.
Lemmas then prove the laws the source promises about those functions.

Abstractions:
- The channel is a finite `seq<Action>`.
- `get_patch` is an abstract total function `Resolver = string -> Result<Patch>`.
- `join_all` is an order-preserving map of the resolver over the batch
  (`Collector.Resolve`).
- The paged event stream is a finite `seq<Event>`.
- `Utc::now() - Duration::weeks(weeks_back)` is an integer `lookback`
  parameter.

Behaviour of the code that the model keeps:
- A `batch_size` of 0 is not rejected. Because the test is `>=`, every id
  forms its own batch. `Collector.Width` gives this effective width.
- Null entries of `variants_tasks` are skipped. So a patch yields one record
  per non-null variant entry, not one per entry.
- The producer stops at the first event older than `lookback`. Only on a
  newest-first stream is that prefix the whole lookback window; the model
  does not assume the ordering, and `Producer.CutoffSelectsWindow` proves
  the window property under it.
- When the channel closes without `End`, `recv` fails and the loop ends. The
  records gathered so far are written and the buffered ids are lost. In
  `PatchCollector`, a message sequence that runs out without `End` stands
  for this case. In the real program the sender is still alive at
  `handle.join()`, so the run never ends. `RunPipeline` returns `None` for
  that case.

## Model

| member | source | states |
|---|---|---|
| Transform.ProcessPatches | src/main.rs:159-187 | the records pushed are exactly `Transformed(patches)` |
| Transform.TransformedConcat | src/main.rs:161-186 | the transform of a concatenation of results is the concatenation of their transforms, so records keep input-patch order |
| Transform.ExcludedContributeNothing | src/main.rs:162-183 | an `Err` result or a patch whose alias is `"__commit_queue"` adds no record, whatever its variants, and leaves its neighbours' records unchanged |
| Transform.SomeIndices | src/main.rs:167-168 | the positions of the non-null variant entries: strictly increasing, each one non-null, and every non-null entry included |
| Transform.VariantRecordsExact | src/main.rs:167-178 | a patch's records are one record per non-null variant entry, in entry order, with null entries skipped |
| Transform.PatchRecordsLaw | src/main.rs:167-176 | for a non-commit-queue patch: the record count equals the number of non-null entries; each record copies id, author and build variant; alias is the patch alias or `""`; tasks is the tasks joined by `"\|"`; n_tasks is the task count |
| Transform.RecordOrigin | src/main.rs:163-178 | every exported record is the record of some non-null variant entry of some resolved, non-commit-queue patch of the batch |
| Transform.JoinSeparatorCount | src/main.rs:174-175 | for a non-empty task list in which no task name contains the separator, the joined tasks column holds n_tasks - 1 separators |
| Transform.TransformScenario | src/main.rs:159-187 | worked example: a commit-queue patch with two variants gives no rows; a patch with an empty alias and variants linux [t1, t2], windows [t3] gives rows with tasks "t1\|t2" (count 2) and "t3" (count 1) |
| Collector.PatchCollector | src/main.rs:124-152 | the resolved batches are `Rounds(msgs, batchSize)`; records are the concatenation of each batch's transform; `count` is the number of full batches; the final buffer is the leftover and is shorter than the batch width; reading stops right after the first `End` |
| Collector.Width | src/main.rs:134 | the effective batch width: at least 1, and equal to batch_size when batch_size >= 1 |
| Collector.Leftover | src/main.rs:133-139 | what remains after the full chunks is shorter than the batch width |
| Collector.ChunksSnoc | src/main.rs:133-139 | pushing one id either completes a batch (the buffer plus the id is flushed and the buffer becomes empty) or grows the buffer by that id |
| Collector.ChunksPartition | src/main.rs:133-139 | the full batches and then the leftover, concatenated, give back the ids; every full batch has exactly the batch width |
| Collector.ChunksCount | src/main.rs:133-139 | there are n / width full batches and n % width leftover ids |
| Collector.FirstEnd | src/main.rs:130-150 | the position of the first `End`: every earlier message is a patch id, and the message there is `End` |
| Collector.RoundsPartition | src/main.rs:133-146 | after `End`, the resolved batches concatenated in order equal the ids received before `End`; without `End`, they and the unresolved buffer do |
| Collector.RoundSizes | src/main.rs:133-146 | every resolved batch has between 1 and width ids, and every batch but the last has exactly width ids |
| Collector.RoundCount | src/main.rs:133-146 | after `End` there are ceil(n / width) resolve rounds; without `End` there are floor(n / width) |
| Collector.AfterEndIgnored | src/main.rs:143-149 | messages after the first `End` change neither the ids received nor the batches resolved |
| Collector.ResolveConcat | src/main.rs:137 | the order-preserving map of the resolver distributes over concatenation |
| Collector.RoundRecordsFlatten | src/main.rs:137-138 | the records accumulated over batches equal the transform of all their ids resolved at once, in order |
| Collector.CollectedRecords | src/main.rs:137-146 | after `End` the final records are the transform of every received id, resolved in order; without `End` the buffered ids contribute nothing |
| Collector.BatchSizeIrrelevant | src/main.rs:134-146 | for a resolver whose answer depends only on the id, after `End` any two batch sizes give the same final records |
| Producer.Cutoff | src/main.rs:98-103 | the length of the longest prefix with create_time >= lookback: every event in it is recent enough, and the next event, if any, is older |
| Producer.CutoffSelectsWindow | src/main.rs:98-103 | on a stream whose creation times never increase, an event is forwarded if and only if it was created at or after `lookback` |
| Producer.CutoffUnique | src/main.rs:98-103 | those three properties determine the cutoff length uniquely |
| Producer.Produce | src/main.rs:95-112 | `count` is the cutoff length; the messages sent are the ids of that prefix, followed by one `End` exactly when an older event stopped the loop |
| Pipeline.SentShape | src/main.rs:98-112 | in the producer's messages, the first `End` directly follows the forwarded ids; it appears exactly when the stream was cut and is the last message; the collector receives exactly the forwarded ids |
| Pipeline.ResolvedIdsInWindow | src/main.rs:98-112 | when the stream is cut, the ids resolved, in order, are exactly the ids of the longest prefix created at or after `lookback` |
| Pipeline.RunPipeline | src/main.rs:80-115 | when an older event cuts the stream, the output is the transform of the ids of the longest prefix created at or after `lookback`, resolved in order; otherwise no output is produced |
| Pipeline.EndToEndScenario | src/main.rs:95-149 | worked example: events a, b, c inside the window and d older, with batch size 2, give the rounds [a, b] and [c]; d is never resolved |

## Left out

- `get_patch` (src/main.rs:189-199): an HTTP POST and GraphQL decode. It is modelled as an abstract total resolver function. Its `unwrap` on `data` (a panic on an empty response) is not modelled. The `PatchQuery` wrapper is flattened, so the resolver returns the `Patch` directly.
- BatchSizeIrrelevant: holds for a resolver whose answer depends only on the id. The real `get_patch` makes one network request per id, and whether a request fails may depend on how many requests a batch sends at once; the model does not capture that.
- `EvgClient` and the paging of `stream_project_patches`: network I/O. The stream is a given finite sequence of events, and a paging error is not modelled.
- The `mpsc` channel, `thread::spawn`, the two `tokio` runtimes and the concurrency inside `join_all`. These are concurrency. The model keeps only FIFO message order and `join_all`'s order-preserving map.
- The hang when the stream runs out before the cutoff: `tx` is still alive at `handle.join()`. `RunPipeline` represents this only as the `None` result, without modelling blocking.
- CSV writing through the `csv` crate (src/main.rs:154-156): a library wrapper. The model stops at the final `records`, the rows that get serialised; the header row and the CSV quoting are not modelled.
- `println!` progress and error messages, including the `count % 25` progress line: output only.
- `structopt` argument parsing and its defaults (1 week, batch size 50, `patches.csv`): argument parsing.
- `Utc::now()` and `Duration::weeks`: the wall clock. The model takes the cutoff timestamp `lookback` as an integer.
- Fixed-width integers: `batch_size` and `n_tasks` are `usize` in the source, and the two `count` counters (src/main.rs:96, src/main.rs:129) are `i32` by Rust's integer fallback; all are unbounded `nat` here. The model does not capture a counter reaching 2^31 - 1, where the next increment panics in a debug build and wraps in a release build.
- The `unwrap`s on channel sends and on `handle.join()`: panics caused by the other thread failing.
- Idempotence of the transform: `Transformed` is a function, so this holds by construction and needs no lemma.
