/** The data that flows through the patch-history pipeline: the patch details
    returned by the lookup, the flat output record, the messages on the
    producer/collector channel and the summary events of the paged stream. */
module Records {

  datatype Option<T> = None | Some(value: T)

  /** The outcome of one patch lookup: a decoded patch, or an error message. */
  datatype Result<T> = Ok(value: T) | Err(message: string)

  /** One build variant of a patch and the tasks run under it. */
  datatype VariantTask = VariantTask(name: string, tasks: seq<string>)

  /** The patch details the lookup decodes; entries of `variantsTasks` may be
      null in the service's answer, hence `Option`. */
  datatype Patch = Patch(
    id: string,
    description: string,
    author: string,
    alias: Option<string>,
    variantsTasks: seq<Option<VariantTask>>)

  /** One row of the export. */
  datatype Record = Record(
    id: string,
    author: string,
    alias: string,
    buildVariant: string,
    tasks: string,
    nTasks: nat)

  type PatchResult = Result<Patch>

  /** The lookup of one patch id; its network round trip is not modelled. */
  type Resolver = string -> PatchResult

  /** A message from the producer to the collector. */
  datatype Action = PatchId(id: string) | End

  /** One summary event of the paged patch stream. */
  datatype Event = Event(patchId: string, createTime: int)

  /** The alias that marks a patch submitted by the commit queue. */
  const COMMIT_QUEUE_ALIAS: string := "__commit_queue"

  /** The separator placed between task names in a record's `tasks` column. */
  const TASK_SEPARATOR: string := "|"
}
