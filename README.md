# prisma-cursorstream, modelled in Dafny

`cursorStream(findManyArgs, { batchTransformer })` is a Prisma client
extension method. It turns a paginated `findMany` query into an object-mode
Node `Readable`. It first derives its configuration:
- the page size `take` (default 100);
- the stream's high-water mark (`skip`, or else `2 * take`);
- the cursor field (the first key of the caller's `cursor` object, or else `"id"`).

If a `select` clause does not select the cursor field, it throws
`Must select cursor field "<field>"` before anything is fetched. After that,
every `read()` of the stream does the following:
1. Fetches one page with `take` forced. When the closure variable
   `cursorValue` is truthy, the fetch is anchored with `skip: 1, cursor:
   {[cursorField]: cursorValue}`; otherwise it uses `skip: 0` and no cursor.
2. Passes the whole raw page through the optional batch transformer.
3. Pushes the resulting elements in order. Under Node's object-mode rules
   a `null` element is `push(null)` and ends the stream, and a value pushed
   after that destroys the stream with ERR_STREAM_PUSH_AFTER_EOF.
4. Ends the stream when the raw page is shorter than `take`. Otherwise it
   stores the cursor-field value of the last raw record in `cursorValue`.

A rejection of the fetch or of the transformer destroys the stream. Node
calls `read()` again only after a push, so a full page that the transformer
turns into no elements leaves the stream stalled: it never fetches again and
never ends.

The model has these modules:
- `JsValues` gives JavaScript values and the truthiness that every `||` and
  `?:` test in the adapter relies on. It also gives `undefined` for a missing
  property.
- `CursorConfig` is the configuration derivation and the eager `select` check.
- `Pager` models one `read()` as the pure function `Step` over the stream's
  state (`cursorValue`, the phase Running/Completed/Errored/Stalled, the
  elements pushed, and the requests issued). `Push` and `PushAll` are
  Node's `push` on an object-mode stream. `Run` is a whole run driven by
  successive `findMany` responses. The run-level properties are lemmas about
  `Run`.
- `Stream` holds the class `CursorStream`, whose fields are updated in place.
  Its `Read` method takes the `findMany` function answering this call and
  pushes elements one at a time in a loop under the same `push` rules. It
  is proved to perform exactly `Step`. Its invariant `Valid` ties the object to `Run` over the responses
  it has received, so every lemma about `Run` applies to the object.
- `Scenarios` holds concrete runs.

The collaborators are parameters:
- `findMany` is an arbitrary function, supplied anew to each `Read`, so the
  store may change between pages.
- The transformer is an arbitrary function from a page to a list of values
  or a thrown value.

The presence tests are JavaScript truthiness, as in the code. The lemma
`Pager.FalsyCursorRestarts` shows the consequence: when the last raw record
of a full page has a cursor value of `0` or `""`, or lacks the field, the
next fetch is the unanchored first fetch again. When `take` is negative, a
raw page is never short. An empty page then makes the cursor read of
`results[-1]` throw a TypeError, after the page's elements were pushed.
`Step` models this too.

A few more facts about the code:
- A `take` of 0 is replaced by 100 (`take || 100`); it is not rejected.
- Whether a cursor value is present is decided by truthiness.
- The caller's `skip` is also the high-water mark (src/index.ts:32).
- The limit on buffered records is enforced by the Node runtime and is not
  stated here.

## Model

| member | source | states |
|---|---|---|
| CursorConfig.PageSize | src/index.ts:31 | the page size is the caller's `take` when it is present and nonzero, otherwise 100; it is never 0 |
| CursorConfig.HighWaterMark | src/index.ts:32 | the high-water mark is the caller's `skip` when present and nonzero, otherwise twice the derived page size; never 0 |
| CursorConfig.CursorField | src/index.ts:33-34 | the cursor field is the first key of the caller's `cursor` object when there is one and it is not empty, otherwise `"id"`; never empty |
| CursorConfig.MissingCursorMessage | src/index.ts:37 | the error text is `Must select cursor field ` followed by the field name in double quotes |
| CursorConfig.Configure | src/index.ts:31-38 | construction fails exactly when a `select` clause is present and its entry for the cursor field is missing or falsy, with the message naming that field; otherwise the configuration holds the derived page size, high-water mark and cursor field |
| Pager.Request | src/index.ts:46-55 | a fetch keeps the caller's `select` and every other argument, carries the derived `take`, has a cursor exactly when the cursor value is truthy, that cursor is `{cursorField: cursorValue}`, and `skip` is 1 with a cursor and 0 without |
| Pager.Batch | src/index.ts:56-58 | the elements of a page are the transformer's result for the whole raw page, or without a transformer the raw records themselves, one per record, in order |
| Pager.FirstNull | src/index.ts:59-61 | the position where `push(null)` ends the stream is that of the first `null` element, or the batch length when there is none; no `null` comes before it |
| Pager.PushAllEffect | src/index.ts:59-61 | pushing a batch into a running stream buffers exactly the elements before the first `null`; the stream keeps running exactly when the batch has no `null`; otherwise it has ended, or errored with ERR_STREAM_PUSH_AFTER_EOF when a value follows the `null`; cursor and requests are untouched |
| Pager.Step | src/index.ts:45-69 | one read issues exactly one request and only appends to the output; the stream stays running exactly when the page is delivered, full, non-empty and its batch is non-empty with no `null`, and then it has pushed the whole batch and moved the cursor to the last raw record; a failed fetch or transform errors with that cause, emits nothing and keeps the cursor |
| Pager.StepOutcome | src/index.ts:56-66 | for a delivered page: the elements before the first `null` are pushed; the cursor moves exactly on a full page; the stream stalls exactly on a full page whose batch is empty; without a `null` it completes exactly on a short page, errors with the `results[-1]` TypeError on an empty page that is not short, and otherwise runs on; with a `null` it errors with ERR_STREAM_PUSH_AFTER_EOF when a value follows it, and otherwise completes (or hits the same TypeError) |
| Pager.Run | src/index.ts:41-70 | over a run, output and requests only grow; at most one request per response; a stream that has ended, errored or stalled never changes; a stream still running consumed every response with one request each |
| Pager.RunAppend | src/index.ts:44-70 | running on two batches of responses one after the other is the same as running on their concatenation |
| Pager.RunSnoc | src/index.ts:44-70 | one more response performs one more read step exactly when the stream is still running, so that `read()` is called again; otherwise it changes nothing |
| Pager.NoFetchAfterEnd | src/index.ts:59-68 | once the stream has ended, errored or stalled, later responses are never requested and change nothing |
| Pager.FullPagesRun | src/index.ts:56-66 | on full pages whose batches are non-empty and hold no `null`, the stream keeps running, emits the concatenation of the transformed pages, issues one fetch per page and resumes from the last raw record of the last page |
| Pager.ShortPageStep | src/index.ts:59-64 | a short page whose batch holds no `null` pushes its whole batch and completes the stream, with one more request |
| Pager.OutputUpToFirstShortPage | src/index.ts:56-65 | after such full pages, a short page whose batch holds no `null` ends the run: the emitted output is the concatenation of the transformed pages up to and including it, the stream completes, and exactly one fetch per page was issued |
| Pager.StallStopsRun | src/index.ts:56-66 | after such full pages, a full page the transformer turns into no elements stalls the stream: nothing more is emitted, the cursor is on that page's last raw record, and no further fetch is issued |
| Pager.NullEndsRun | src/index.ts:59-64 | after such full pages, a delivered page whose batch holds a `null` emits only the elements before it and ends the run: completed, or errored with ERR_STREAM_PUSH_AFTER_EOF when a value follows the `null`, or with the `results[-1]` TypeError on an empty page that is not short; no further fetch |
| Pager.FailureEndsRun | src/index.ts:45-69 | after such full pages, a failing fetch or transformer ends the stream in the error state with that cause; nothing from the failing page is emitted; the cursor stays; no further fetch happens |
| Pager.NextRequest | src/index.ts:46-55 | the next fetch of a stream uses the stream's current cursor value |
| Pager.AnchoredOnLastRaw | src/index.ts:46-66 | fetch n+1 happens only after fetch n delivered a full non-empty page whose batch pushed something and held no `null`, and it is anchored on the cursor-field value of that page's last raw record |
| Pager.FirstFetchUnanchored | src/index.ts:40-55 | whatever `cursor` and `skip` the caller passed, the first fetch has `skip: 0`, no cursor, the derived `take`, and the caller's other arguments |
| Pager.FalsyCursorRestarts | src/index.ts:49-66 | when a full page's last raw record has a falsy cursor value, the next fetch is identical to the first fetch |
| Pager.RawEmittedRows | src/index.ts:56-61 | without a transformer the pages emit one element per raw record |
| Stream.CursorStream.constructor | src/index.ts:40-43 | a new stream has an undefined cursor value, is running, has pushed nothing and issued no fetch |
| Stream.CursorStream.Read | src/index.ts:44-70 | one read issues the request built from the current cursor value, records the response, pushes the batch element by element under Node's `push` rules, and leaves the object in exactly the state `Step` gives, keeping the invariant that the object is the run over its responses |
| Stream.Open | src/index.ts:31-41 | opening fails exactly when construction fails, with the cursor-field message and no stream; otherwise it returns a fresh stream that has fetched nothing |
| Scenarios.RawRunEmitsEveryRow | src/index.ts:56-65 | without a transformer, a run ending on its first short page completes and emits exactly as many elements as raw rows were fetched |
| Scenarios.TwoPagesThenShort | src/index.ts:31-66 | with `take: 2` and pages of ids 1,2 then 3, the stream yields the three rows, completes after two fetches, and the second fetch has `cursor: {id: 2}` and `skip: 1` |
| Scenarios.FilterEverythingStalls | src/index.ts:56-66 | with `take: 2` and a transformer that drops every row, a first page of two rows leaves the stream stalled after one fetch, with nothing emitted and the cursor on id 2 |
| Scenarios.SelectWithoutId | src/index.ts:33-38 | `select: {name: true}` without a cursor fails with `Must select cursor field "id"` |
| Scenarios.CountingTransformer | src/index.ts:56-66 | a transformer mapping each page to its length emits one element for a page of five, yet the cursor moves to the fifth raw row |

## Left out

- The Node `Readable` runtime (src/index.ts:41-44) is modelled only through the `push`/`destroy` rules that decide what is emitted and when `read()` runs again. Buffering up to the high-water mark and backpressure scheduling are left out; the high-water mark is only computed. Node's rejection of a negative or non-integer high-water mark at construction is not modelled either.
- Node's `destroy(err)` tests `if (err)`, so a falsy thrown value (`undefined`, `null`, `0`, `""`, `false`) ends the stream without an error. The model records every thrown value `v` as `Errored(v)`.
- The Prisma extension wiring and `getExtensionContext` (src/index.ts:1-10, 29, 73-77) are foreign library calls. `findMany` is an arbitrary function passed to each `Read`. What the store returns for a request is not modelled.
- The conditional TypeScript return type (src/index.ts:11-28) exists only at the type level. The elements are JavaScript values (`Value`): raw records are pushed as objects, and transformer results are whatever values the transformer returns.
- `async`/`await` is not modelled. Each `read()` is one atomic step, and overlapping reads do not occur.
- Numbers are integers. NaN, `-0`, fractional `take`/`skip` and floating-point overflow of `take * 2` are not modelled.
- Pager.Batch: a transformer that mutates the `results` array it is given is not modelled. Such mutation would change the later length test and the cursor read. The model treats the transformer as a function of the page.
- A transformer result that is not iterable is not modelled. In the source it would throw inside the `for ... of` loop. Here the result is a list by typing.
- `Object.keys` ordering (integer-like keys first) is not modelled. The cursor object is given as its keys in `Object.keys` order. Lookups in `select` see only its own properties, not inherited ones.
