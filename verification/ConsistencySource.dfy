/** Where observations come from. Every answer is arbitrary; the log records what was asked and
    answered, and a cancellation, once seen, is seen for good. */
module ConsistencySource {
  import opened ConsistencyModel
  import opened ConsistencyOfficial

  /** What `consistencyReasonCode` makes of an error. */
  datatype Failure = FieldsMissing | Unauthorized | Unsupported | Timeout | Failed

  datatype Reply<T> = Ok(value: T) | Err(error: Failure)

  /** A definition together with the shard that `$indexStats` names for it. */
  datatype Entry = Entry(shard: string, definition: Definition)

  datatype Visibility = Visibility(shards: seq<string>, builds: seq<string>)

  datatype Event =
    | Checked(cancelled: bool)
    | AskedMetadata(database: string, collection: string, issues: Reply<seq<Issue>>)
    | AskedVisibility(visible: Reply<Visibility>)
    | AskedStats(entries: Reply<seq<Entry>>)
    | AskedDirect(shard: string, definitions: Reply<seq<Definition>>)

  class Source {
    var cancelled: bool
    ghost var log: seq<Event>

    constructor ()
      ensures log == [] && !cancelled
    {
      cancelled, log := false, [];
    }

    /** The context may be cancelled at any moment. */
    method MayCancel()
      modifies this`cancelled
      ensures old(cancelled) ==> cancelled
    {
      var now: bool := *;
      cancelled := cancelled || now;
    }

    /** `ctx.Err() != nil`. */
    method Check() returns (b: bool)
      modifies this
      ensures b == cancelled && (old(cancelled) ==> cancelled)
      ensures log == old(log) + [Checked(b)]
    {
      MayCancel();
      b := cancelled;
      log := log + [Checked(b)];
    }

    /** The server's metadata check of a collection, or of a database when `collection` is empty. */
    method Metadata(database: string, collection: string) returns (r: Reply<seq<Issue>>)
      modifies this
      ensures (old(cancelled) ==> cancelled) && log == old(log) + [AskedMetadata(database, collection, r)]
    {
      MayCancel();
      r := *;
      log := log + [AskedMetadata(database, collection, r)];
    }

    method Visible() returns (r: Reply<Visibility>)
      modifies this
      ensures (old(cancelled) ==> cancelled) && log == old(log) + [AskedVisibility(r)]
    {
      MayCancel();
      r := *;
      log := log + [AskedVisibility(r)];
    }

    method Stats() returns (r: Reply<seq<Entry>>)
      modifies this
      ensures (old(cancelled) ==> cancelled) && log == old(log) + [AskedStats(r)]
    {
      MayCancel();
      r := *;
      log := log + [AskedStats(r)];
    }

    method Direct(shard: string) returns (r: Reply<seq<Definition>>)
      modifies this
      ensures (old(cancelled) ==> cancelled) && log == old(log) + [AskedDirect(shard, r)]
    {
      MayCancel();
      r := *;
      log := log + [AskedDirect(shard, r)];
    }
  }
}
