/** What `cursorStream` derives from the caller's findMany arguments before
    any fetch: the page size, the stream's high-water mark, the cursor field,
    and the eager check that a `select` clause selects that field. */
module CursorConfig {
  import opened JsValues

  /** The caller's findMany arguments. The four properties the adapter reads
      or overrides are broken out; `rest` holds every other argument
      (`where`, `orderBy`, `include`, `distinct`, ...), which the adapter
      passes through untouched; `rest` never holds the keys `take`, `skip`,
      `cursor` or `select`, which live in their own fields. `cursor` is the
      cursor object as its `Object.keys` order lists its properties. */
  datatype FindManyArgs = FindManyArgs(
    take: Option<int>,
    skip: Option<int>,
    cursor: Option<seq<(string, Value)>>,
    select: Option<map<string, Value>>,
    rest: map<string, Value>)

  /** What one stream fixes at construction. */
  datatype Config = Config(take: int, highWaterMark: int, cursorField: string)

  const DefaultPageSize: int := 100
  const DefaultCursorField: string := "id"

  /** `findManyArgs.take || 100`. */
  function PageSize(args: FindManyArgs): (take: int)
    ensures take != 0
    ensures args.take.Some? && args.take.value != 0 ==> take == args.take.value
    ensures args.take.None? || args.take.value == 0 ==> take == DefaultPageSize
  {
    if args.take.Some? && args.take.value != 0 then args.take.value else DefaultPageSize
  }

  /** `findManyArgs.skip || take * 2`, with `take` already defaulted. */
  function HighWaterMark(args: FindManyArgs): (hwm: int)
    ensures hwm != 0
    ensures args.skip.Some? && args.skip.value != 0 ==> hwm == args.skip.value
    ensures args.skip.None? || args.skip.value == 0 ==> hwm == 2 * PageSize(args)
  {
    if args.skip.Some? && args.skip.value != 0 then args.skip.value else PageSize(args) * 2
  }

  /** `Object.keys(findManyArgs.cursor || {})[0] || "id"`: the first key of
      the cursor object, unless there is none or it is the empty string. */
  function CursorField(args: FindManyArgs): (field: string)
    ensures field != ""
    ensures args.cursor.Some? && |args.cursor.value| > 0 && args.cursor.value[0].0 != ""
            ==> field == args.cursor.value[0].0
    ensures args.cursor.None? || |args.cursor.value| == 0 || args.cursor.value[0].0 == ""
            ==> field == DefaultCursorField
  {
    if args.cursor.Some? && |args.cursor.value| > 0 && args.cursor.value[0].0 != ""
    then args.cursor.value[0].0
    else DefaultCursorField
  }

  /** The message of the Error thrown when `select` leaves the cursor field
      out: a fixed prefix, then the field's name in double quotes. */
  function MissingCursorMessage(field: string): (msg: string)
    ensures |msg| == |field| + 27
    ensures msg[..25] == "Must select cursor field "
    ensures msg[25] == '"' && msg[26..|msg| - 1] == field && msg[|msg| - 1] == '"'
  {
    var prefix := "Must select cursor field \"";
    assert |prefix| == 26;
    prefix + field + "\""
  }

  /** Construction: the derived configuration, or the Error thrown before
      any fetch when a `select` clause does not select the cursor field
      (a missing entry and a falsy entry both count as not selected). */
  function Configure(args: FindManyArgs): (r: Result<Config, string>)
    ensures r.Err? <==> args.select.Some? && !Truthy(Get(args.select.value, CursorField(args)))
    ensures r.Err? ==> r.error == MissingCursorMessage(CursorField(args))
    ensures r.Ok? ==> (r.value.take == PageSize(args)
                       && r.value.highWaterMark == HighWaterMark(args)
                       && r.value.cursorField == CursorField(args))
  {
    var field := CursorField(args);
    if args.select.Some? && !Truthy(Get(args.select.value, field)) then
      Err(MissingCursorMessage(field))
    else
      Ok(Config(PageSize(args), HighWaterMark(args), field))
  }
}
