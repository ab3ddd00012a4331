/** One `read()` of the cursor stream as a function of the stream's state and
    of what findMany answered, and a whole run as a sequence of such steps. */
module Pager {
  import opened JsValues
  import opened CursorConfig

  /** Where the stream stands:
      - `Running`: the runtime will call `read()` again;
      - `Completed`: `push(null)` ended the stream;
      - `Errored(cause)`: `destroy(cause)`, or a push after the end;
      - `Stalled`: a `read()` of a full page pushed nothing, so Node keeps
        waiting for a push that never comes and calls `read()` no more; the
        stream neither ends nor errors. */
  datatype Phase = Running | Completed | Errored(cause: Value) | Stalled

  /** The error an object-mode stream raises on a push after `push(null)`. */
  const PushAfterEof: Value := Obj(map["code" := Str("ERR_STREAM_PUSH_AFTER_EOF")])

  /** One page of raw records, in the order findMany returned them. */
  type Page = seq<Record>

  /** What one findMany call settled with: a page, or the rejection. */
  type Fetched = Result<Page, Value>

  /** A batch transformer: the whole raw page in, the elements to emit out,
      or what it threw (or rejected with). */
  type Transformer = Page -> Result<seq<Value>, Value>

  /** What one stream is opened with and what construction derived from it. */
  datatype Setup = Setup(args: FindManyArgs, config: Config, transformer: Option<Transformer>)

  /** The stream's state: the resume value `cursorValue`, the phase, every
      element pushed so far, and (for the proofs) every findMany request
      issued so far. */
  datatype State = State(cursorValue: Value, phase: Phase, output: seq<Value>, requests: seq<FindManyArgs>)

  /** A freshly opened stream: `cursorValue` is still `undefined`. */
  function Start(): State
  {
    State(Undefined, Running, [], [])
  }

  /** The findMany arguments of one fetch: the caller's arguments spread,
      then `take`, `skip` and `cursor` overridden. */
  function Request(args: FindManyArgs, config: Config, cursorValue: Value): (req: FindManyArgs)
    ensures req.select == args.select && req.rest == args.rest
    ensures req.take == Some(config.take)
    ensures req.cursor.Some? <==> Truthy(cursorValue)
    ensures req.cursor.Some? ==> req.cursor.value == [(config.cursorField, cursorValue)]
    ensures req.skip == Some(if req.cursor.Some? then 1 else 0)
  {
    args.(take := Some(config.take),
          skip := Some(if Truthy(cursorValue) then 1 else 0),
          cursor := if Truthy(cursorValue) then Some([(config.cursorField, cursorValue)]) else None)
  }

  /** The elements one page turns into: the transformer's result for the
      whole page, or, without a transformer, the raw records themselves. */
  function Batch(transformer: Option<Transformer>, page: Page): (r: Result<seq<Value>, Value>)
    ensures transformer.None? ==> r.Ok? && |r.value| == |page|
    ensures transformer.None? ==> forall i :: 0 <= i < |page| ==> r.value[i] == Obj(page[i])
    ensures transformer.None? ==> Null !in r.value
    ensures transformer.Some? ==> r == transformer.value(page)
  {
    match transformer
    case None => Ok(seq(|page|, i requires 0 <= i < |page| => Obj(page[i])))
    case Some(f) => f(page)
  }

  /** Both the fetch and the transformer succeeded on this response. */
  predicate Delivers(transformer: Option<Transformer>, fetched: Fetched)
  {
    fetched.Ok? && Batch(transformer, fetched.value).Ok?
  }

  /** What a failing response ends the stream with. */
  function FailureCause(transformer: Option<Transformer>, fetched: Fetched): Value
    requires !Delivers(transformer, fetched)
  {
    if fetched.Err? then fetched.error else Batch(transformer, fetched.value).error
  }

  function Last(page: Page): Record
    requires |page| > 0
  {
    page[|page| - 1]
  }

  /** The position of the first `null` element, where `push(null)` ends
      the stream, or the length when there is none. */
  function FirstNull(items: seq<Value>): (k: nat)
    ensures k <= |items|
    ensures Null !in items[..k]
    ensures k < |items| <==> Null in items
    ensures k < |items| ==> items[k] == Null
  {
    if items == [] then 0
    else if items[0] == Null then 0
    else
      var k := FirstNull(items[1..]);
      assert items[..k + 1] == [items[0]] + items[1..][..k];
      k + 1
  }

  /** Some element after the first `null` is not `null`: pushing it after
      the end is an error. */
  predicate PushesAfterEnd(items: seq<Value>)
  {
    exists j :: FirstNull(items) < j < |items| && items[j] != Null
  }

  /** `this.push(x)` on an object-mode stream: a value is buffered while the
      stream runs, `null` ends it, a value pushed after the end destroys it
      with ERR_STREAM_PUSH_AFTER_EOF, and anything else is ignored. */
  function Push(s: State, x: Value): State
  {
    match s.phase
    case Running => if x == Null then s.(phase := Completed) else s.(output := s.output + [x])
    case Completed => if x == Null then s else s.(phase := Errored(PushAfterEof))
    case _ => s
  }

  /** The loop `for (const result of transformedResults) this.push(result)`. */
  function PushAll(s: State, items: seq<Value>): State
  {
    if items == [] then s else Push(PushAll(s, items[..|items| - 1]), items[|items| - 1])
  }

  /** Pushing a batch into a running stream buffers the elements before the
      first `null`; the stream keeps running exactly when there is no
      `null`, and otherwise it has ended, or errored if a value follows the
      `null`. Cursor and requests are untouched. */
  lemma {:induction false} PushAllEffect(s: State, items: seq<Value>)
    requires s.phase.Running?
    ensures PushAll(s, items).requests == s.requests && PushAll(s, items).cursorValue == s.cursorValue
    ensures PushAll(s, items).output == s.output + items[..FirstNull(items)]
    ensures PushAll(s, items).phase.Running? <==> Null !in items
    ensures Null in items ==>
            PushAll(s, items).phase == if PushesAfterEnd(items) then Errored(PushAfterEof) else Completed
    decreases |items|
  {
    if items != [] {
      var init := items[..|items| - 1];
      PushAllEffect(s, init);
      assert items == init + [items[|items| - 1]];
      PushStep(s, PushAll(s, init), init, items[|items| - 1]);
    }
  }

  /** One more push keeps the effect of the pushes before it in the shape
      `PushAllEffect` states. */
  lemma PushStep(s: State, t: State, init: seq<Value>, x: Value)
    requires t.requests == s.requests && t.cursorValue == s.cursorValue
    requires t.output == s.output + init[..FirstNull(init)]
    requires t.phase.Running? <==> Null !in init
    requires Null in init ==> t.phase == if PushesAfterEnd(init) then Errored(PushAfterEof) else Completed
    ensures Push(t, x).requests == s.requests && Push(t, x).cursorValue == s.cursorValue
    ensures Push(t, x).output == s.output + (init + [x])[..FirstNull(init + [x])]
    ensures Push(t, x).phase.Running? <==> Null !in init + [x]
    ensures Null in init + [x] ==>
            Push(t, x).phase == if PushesAfterEnd(init + [x]) then Errored(PushAfterEof) else Completed
  {
    var items := init + [x];
    FirstNullSnoc(init, x);
    PushesAfterEndSnoc(init, x);
    if Null in init {
      assert items[..FirstNull(items)] == init[..FirstNull(init)];
    } else {
      assert init[..FirstNull(init)] == init;
      assert items[..FirstNull(items)] == if x == Null then init else items;
    }
  }

  /** The first `null` is the only position with no `null` before it and
      a `null` (or the end) at it. */
  lemma FirstNullUnique(items: seq<Value>, k: nat)
    requires k <= |items| && Null !in items[..k]
    requires k < |items| ==> items[k] == Null
    ensures FirstNull(items) == k
  {
  }

  /** Appending one element moves the first `null` only when there was
      none. */
  lemma FirstNullSnoc(init: seq<Value>, x: Value)
    ensures FirstNull(init + [x]) ==
            if Null in init then FirstNull(init) else if x == Null then |init| else |init| + 1
  {
    var items := init + [x];
    var k := FirstNull(init);
    if Null in init {
      assert items[..k] == init[..k];
      FirstNullUnique(items, k);
    } else if x == Null {
      assert items[..|init|] == init;
      FirstNullUnique(items, |init|);
    } else {
      assert Null !in items[..|items|];
      FirstNullUnique(items, |items|);
    }
  }

  /** After an earlier `null`, appending a value is a push after the end;
      with no `null` before it, nothing pushed so far came after the end. */
  lemma PushesAfterEndSnoc(init: seq<Value>, x: Value)
    ensures PushesAfterEnd(init + [x]) <==> Null in init && (PushesAfterEnd(init) || x != Null)
  {
    var items := init + [x];
    FirstNullSnoc(init, x);
    var k := FirstNull(items);
    if PushesAfterEnd(items) {
      var j :| k < j < |items| && items[j] != Null;
      if j < |init| {
        assert init[j] == items[j];
      }
    }
    if PushesAfterEnd(init) {
      var j :| FirstNull(init) < j < |init| && init[j] != Null;
      assert items[j] == init[j];
    }
    if Null in init && x != Null {
      assert items[|init|] != Null;
    }
  }

  /** Both the fetch and the transformer succeeded: the batch to push. */
  function Elements(p: Setup, fetched: Fetched): seq<Value>
    requires Delivers(p.transformer, fetched)
  {
    Batch(p.transformer, fetched.value).value
  }

  /** A page neither short nor empty: the stream resumes after it. */
  predicate FullPage(config: Config, page: Page)
  {
    0 < |page| && config.take <= |page|
  }

  /** One `read()`: issue the request, transform the whole page, push every
      element, then end on a short raw page or else resume from the last raw
      record's cursor field. A rejection of findMany or of the transformer
      destroys the stream before anything of the page is pushed. A `null`
      element ends the stream where it stands. A full page that pushes
      nothing stalls the stream. When the raw page is empty but not short (a
      non-positive `take`), reading the cursor field of `results[-1]` throws
      after the elements were pushed. */
  function Step(p: Setup, s: State, fetched: Fetched): (t: State)
    requires s.phase.Running?
    ensures t.requests == s.requests + [Request(p.args, p.config, s.cursorValue)]
    ensures s.output <= t.output
    ensures t.phase.Running? <==> fetched.Ok? && Continues(p, fetched.value)
    ensures t.phase.Running? ==>
            t.output == s.output + Elements(p, fetched)
            && t.cursorValue == Get(Last(fetched.value), p.config.cursorField)
    ensures !Delivers(p.transformer, fetched) ==>
            t.phase == Errored(FailureCause(p.transformer, fetched))
            && t.output == s.output && t.cursorValue == s.cursorValue
  {
    var issued := s.(requests := s.requests + [Request(p.args, p.config, s.cursorValue)]);
    match fetched
    case Err(e) => issued.(phase := Errored(e))
    case Ok(page) =>
      match Batch(p.transformer, page)
      case Err(e) => issued.(phase := Errored(e))
      case Ok(items) =>
        PushAllEffect(issued, items);
        assert Null !in items ==> items[..FirstNull(items)] == items;
        Settle(p.config, page, items, PushAll(issued, items))
  }

  /** What `read()` does once the batch is pushed: `push(null)` on a short
      raw page; on an empty page that is not short, the TypeError of
      reading the cursor field of `results[-1]`; otherwise the cursor moves
      to the last raw record, and a page that pushed nothing leaves the
      stream stalled. */
  function Settle(config: Config, page: Page, items: seq<Value>, pushed: State): State
  {
    if |page| < config.take then
      (if pushed.phase.Running? then pushed.(phase := Completed) else pushed)
    else if |page| == 0 then
      (if pushed.phase.Errored? then pushed else pushed.(phase := Errored(ReadOfUndefined)))
    else
      var moved := pushed.(cursorValue := Get(Last(page), config.cursorField));
      if items == [] then moved.(phase := Stalled) else moved
  }

  /** What one delivered page does to a running stream, case by case: the
      elements before the first `null` are pushed; the stream completes on a
      short page, or earlier at a `null`; a value after the `null` errors
      with ERR_STREAM_PUSH_AFTER_EOF; a full page that pushes nothing stalls
      it; an empty page that is not short errors with the TypeError of
      `results[-1]`; the cursor moves exactly on a full page. */
  lemma StepOutcome(p: Setup, s: State, page: Page)
    requires s.phase.Running? && Batch(p.transformer, page).Ok?
    ensures var items := Batch(p.transformer, page).value;
            var t := Step(p, s, Ok(page));
            t.output == s.output + items[..FirstNull(items)]
            && t.cursorValue == (if FullPage(p.config, page) then Get(Last(page), p.config.cursorField) else s.cursorValue)
            && (t.phase == Stalled <==> FullPage(p.config, page) && items == [])
            && (Null !in items ==>
                  t.phase == (if |page| < p.config.take then Completed
                              else if |page| == 0 then Errored(ReadOfUndefined)
                              else if items == [] then Stalled
                              else Running))
            && (Null in items ==>
                  t.phase == (if PushesAfterEnd(items) then Errored(PushAfterEof)
                              else if |page| == 0 && p.config.take <= 0 then Errored(ReadOfUndefined)
                              else Completed))
  {
    var issued := s.(requests := s.requests + [Request(p.args, p.config, s.cursorValue)]);
    PushAllEffect(issued, Batch(p.transformer, page).value);
  }

  /** The stream driven by successive findMany responses. Once it has ended,
      errored or stalled, the runtime calls `read()` no more, so later
      responses are never requested. */
  function Run(p: Setup, s: State, responses: seq<Fetched>): (t: State)
    ensures s.output <= t.output && s.requests <= t.requests
    ensures |t.requests| <= |s.requests| + |responses|
    ensures !s.phase.Running? ==> t == s
    ensures t.phase.Running? ==> |t.requests| == |s.requests| + |responses|
    decreases |responses|
  {
    if responses == [] || !s.phase.Running? then s
    else Run(p, Step(p, s, responses[0]), responses[1..])
  }

  /** Successful responses carrying the given pages. */
  function Fetches(pages: seq<Page>): (rs: seq<Fetched>)
    ensures |rs| == |pages| && forall i :: 0 <= i < |pages| ==> rs[i] == Ok(pages[i])
  {
    seq(|pages|, i requires 0 <= i < |pages| => Ok(pages[i]))
  }

  /** After this response the runtime reads again: the page is delivered
      and full, and its batch pushes something and holds no `null`. */
  predicate Continues(p: Setup, page: Page)
  {
    Batch(p.transformer, page).Ok? && FullPage(p.config, page)
    && Batch(p.transformer, page).value != [] && Null !in Batch(p.transformer, page).value
  }

  /** Every page lets the stream go on. */
  predicate FullPages(p: Setup, pages: seq<Page>)
  {
    forall i :: 0 <= i < |pages| ==> Continues(p, pages[i])
  }

  /** The concatenation, page by page, of the transformed pages. */
  function Emitted(transformer: Option<Transformer>, pages: seq<Page>): seq<Value>
    requires forall i :: 0 <= i < |pages| ==> Batch(transformer, pages[i]).Ok?
  {
    if pages == [] then []
    else Emitted(transformer, pages[..|pages| - 1]) + Batch(transformer, pages[|pages| - 1]).value
  }

  /** The total number of raw records on the pages. */
  function TotalRows(pages: seq<Page>): nat
  {
    if pages == [] then 0 else TotalRows(pages[..|pages| - 1]) + |pages[|pages| - 1]|
  }

  /** Running on one batch of responses and then on another is the same as
      running on both in order. */
  lemma {:induction false} RunAppend(p: Setup, s: State, a: seq<Fetched>, b: seq<Fetched>)
    ensures Run(p, s, a + b) == Run(p, Run(p, s, a), b)
    decreases |a|
  {
    if a == [] {
      assert a + b == b;
    } else if s.phase.Running? {
      assert (a + b)[0] == a[0];
      assert (a + b)[1..] == a[1..] + b;
      RunAppend(p, Step(p, s, a[0]), a[1..], b);
    }
  }

  /** One more response after a prefix: one more step, unless the stream
      had already ended. */
  lemma {:induction false} RunSnoc(p: Setup, s: State, a: seq<Fetched>, r: Fetched)
    ensures Run(p, s, a + [r]) ==
            if Run(p, s, a).phase.Running? then Step(p, Run(p, s, a), r) else Run(p, s, a)
  {
    RunAppend(p, s, a, [r]);
  }

  /** A terminal stream issues no further fetch: once the stream has ended
      or errored after the first k responses, the responses after them are
      never requested and change nothing. */
  lemma {:induction false} NoFetchAfterEnd(p: Setup, s: State, rs: seq<Fetched>, k: nat)
    requires k <= |rs|
    requires !Run(p, s, rs[..k]).phase.Running?
    ensures Run(p, s, rs) == Run(p, s, rs[..k])
    ensures |Run(p, s, rs).requests| <= |s.requests| + k
  {
    assert rs == rs[..k] + rs[k..];
    RunAppend(p, s, rs[..k], rs[k..]);
    assert |rs[..k]| == k;
  }

  lemma Associative(a: seq<Value>, b: seq<Value>, c: seq<Value>)
    ensures (a + b) + c == a + (b + c)
  {
  }

  /** Full pages keep the stream running: it emits each transformed page in
      turn, issues one fetch per page and resumes from the last raw record
      of the last page. */
  lemma {:induction false} FullPagesRun(p: Setup, s: State, pages: seq<Page>)
    requires s.phase.Running?
    requires FullPages(p, pages)
    ensures Run(p, s, Fetches(pages)).phase == Running
    ensures Run(p, s, Fetches(pages)).output == s.output + Emitted(p.transformer, pages)
    ensures |Run(p, s, Fetches(pages)).requests| == |s.requests| + |pages|
    ensures Run(p, s, Fetches(pages)).cursorValue ==
            if pages == [] then s.cursorValue else Get(Last(pages[|pages| - 1]), p.config.cursorField)
  {
    if pages == [] {
      assert Fetches(pages) == [];
      assert s.output + Emitted(p.transformer, pages) == s.output;
    } else {
      var init := pages[..|pages| - 1];
      var last := pages[|pages| - 1];
      var s0 := Run(p, s, Fetches(init));
      assert s0.phase.Running? && s0.output == s.output + Emitted(p.transformer, init)
             && |s0.requests| == |s.requests| + |init| by {
        assert FullPages(p, init);
        FullPagesRun(p, s, init);
      }
      assert Run(p, s, Fetches(pages)) == Step(p, s0, Ok(last)) by {
        assert Fetches(pages) == Fetches(init) + [Ok(last)];
        RunSnoc(p, s, Fetches(init), Ok(last));
      }
      assert Continues(p, last);
      var batch := Batch(p.transformer, last).value;
      assert Emitted(p.transformer, pages) == Emitted(p.transformer, init) + batch;
      assert Run(p, s, Fetches(pages)).output == (s.output + Emitted(p.transformer, init)) + batch;
      Associative(s.output, Emitted(p.transformer, init), batch);
    }
  }

  /** A short page whose batch holds no `null` completes a running stream
      after pushing the whole batch. */
  lemma ShortPageStep(p: Setup, s: State, page: Page)
    requires s.phase.Running? && Batch(p.transformer, page).Ok?
    requires Null !in Batch(p.transformer, page).value && |page| < p.config.take
    ensures Step(p, s, Ok(page)).phase == Completed
    ensures Step(p, s, Ok(page)).output == s.output + Batch(p.transformer, page).value
    ensures |Step(p, s, Ok(page)).requests| == |s.requests| + 1
  {
    var items := Batch(p.transformer, page).value;
    StepOutcome(p, s, page);
    assert items[..FirstNull(items)] == items;
  }

  /** The emitted output is the concatenation of the transformed pages up to
      and including the first short page; the stream then completes after
      exactly one fetch per page, whatever responses would have followed.
      (The last batch holds no `null`, which would end the stream inside
      the page.) */
  lemma {:induction false} OutputUpToFirstShortPage(p: Setup, pages: seq<Page>, later: seq<Fetched>)
    requires |pages| > 0
    requires FullPages(p, pages[..|pages| - 1])
    requires Batch(p.transformer, pages[|pages| - 1]).Ok?
    requires Null !in Batch(p.transformer, pages[|pages| - 1]).value
    requires |pages[|pages| - 1]| < p.config.take
    ensures forall i :: 0 <= i < |pages| ==> Batch(p.transformer, pages[i]).Ok?
    ensures Run(p, Start(), Fetches(pages) + later).phase == Completed
    ensures Run(p, Start(), Fetches(pages) + later).output == Emitted(p.transformer, pages)
    ensures |Run(p, Start(), Fetches(pages) + later).requests| == |pages|
  {
    var init := pages[..|pages| - 1];
    var last := pages[|pages| - 1];
    var rs := Fetches(pages) + later;
    assert pages == init + [last];
    var s0 := Run(p, Start(), Fetches(init));
    assert s0.phase.Running? && s0.output == Emitted(p.transformer, init) && |s0.requests| == |init| by {
      FullPagesRun(p, Start(), init);
    }
    var t := Run(p, Start(), Fetches(pages));
    assert t == Step(p, s0, Ok(last)) by {
      assert Fetches(pages) == Fetches(init) + [Ok(last)];
      RunSnoc(p, Start(), Fetches(init), Ok(last));
    }
    ShortPageStep(p, s0, last);
    assert Emitted(p.transformer, pages) == s0.output + Batch(p.transformer, last).value;
    assert Run(p, Start(), rs) == t by {
      assert rs[..|pages|] == Fetches(pages);
      NoFetchAfterEnd(p, Start(), rs, |pages|);
    }
  }

  /** A full page whose batch is empty pushes nothing, and Node never calls
      `read()` again: after the full pages before it, the stream stalls
      with the cursor on that page's last raw record, neither completed nor
      errored, and no further fetch is issued. */
  lemma {:induction false} StallStopsRun(p: Setup, pages: seq<Page>, empty: Page, later: seq<Fetched>)
    requires FullPages(p, pages)
    requires FullPage(p.config, empty) && Batch(p.transformer, empty) == Ok([])
    ensures Run(p, Start(), Fetches(pages) + [Ok(empty)] + later).phase == Stalled
    ensures Run(p, Start(), Fetches(pages) + [Ok(empty)] + later).output == Emitted(p.transformer, pages)
    ensures Run(p, Start(), Fetches(pages) + [Ok(empty)] + later).cursorValue ==
            Get(Last(empty), p.config.cursorField)
    ensures |Run(p, Start(), Fetches(pages) + [Ok(empty)] + later).requests| == |pages| + 1
  {
    var rs := Fetches(pages) + [Ok(empty)] + later;
    FullPagesRun(p, Start(), pages);
    RunSnoc(p, Start(), Fetches(pages), Ok(empty));
    StepOutcome(p, Run(p, Start(), Fetches(pages)), empty);
    assert rs[..|pages| + 1] == Fetches(pages) + [Ok(empty)];
    NoFetchAfterEnd(p, Start(), rs, |pages| + 1);
  }

  /** A `null` in a batch ends the stream there: after full pages, a
      delivered page whose batch holds a `null` emits only the elements
      before it, and the stream completes, or errors with
      ERR_STREAM_PUSH_AFTER_EOF when a value follows the `null` (or with the
      TypeError of `results[-1]` on an empty page that is not short); no
      further fetch is issued. */
  lemma {:induction false} NullEndsRun(p: Setup, pages: seq<Page>, page: Page, later: seq<Fetched>)
    requires FullPages(p, pages)
    requires Batch(p.transformer, page).Ok? && Null in Batch(p.transformer, page).value
    ensures var items := Batch(p.transformer, page).value;
            var t := Run(p, Start(), Fetches(pages) + [Ok(page)] + later);
            t.output == Emitted(p.transformer, pages) + items[..FirstNull(items)]
            && t.phase == (if PushesAfterEnd(items) then Errored(PushAfterEof)
                           else if |page| == 0 && p.config.take <= 0 then Errored(ReadOfUndefined)
                           else Completed)
            && |t.requests| == |pages| + 1
  {
    var items := Batch(p.transformer, page).value;
    var rs := Fetches(pages) + [Ok(page)] + later;
    var s0 := Run(p, Start(), Fetches(pages));
    assert s0.phase.Running? && s0.output == Emitted(p.transformer, pages) && |s0.requests| == |pages| by {
      FullPagesRun(p, Start(), pages);
    }
    var t := Run(p, Start(), Fetches(pages) + [Ok(page)]);
    assert t == Step(p, s0, Ok(page)) by {
      RunSnoc(p, Start(), Fetches(pages), Ok(page));
    }
    StepOutcome(p, s0, page);
    assert t.output == s0.output + items[..FirstNull(items)];
    assert !t.phase.Running? && |t.requests| == |pages| + 1;
    assert Run(p, Start(), rs) == t by {
      assert rs[..|pages| + 1] == Fetches(pages) + [Ok(page)];
      NoFetchAfterEnd(p, Start(), rs, |pages| + 1);
    }
  }

  /** A failing fetch or transformer ends the stream in the error state: of
      the failing page nothing is emitted, the cursor stays where the last
      full page left it, and no further fetch is issued. */
  lemma {:induction false} FailureEndsRun(p: Setup, pages: seq<Page>, failure: Fetched, later: seq<Fetched>)
    requires FullPages(p, pages)
    requires !Delivers(p.transformer, failure)
    ensures Run(p, Start(), Fetches(pages) + [failure] + later).phase == Errored(FailureCause(p.transformer, failure))
    ensures Run(p, Start(), Fetches(pages) + [failure] + later).output == Emitted(p.transformer, pages)
    ensures Run(p, Start(), Fetches(pages) + [failure] + later).cursorValue == Run(p, Start(), Fetches(pages)).cursorValue
    ensures |Run(p, Start(), Fetches(pages) + [failure] + later).requests| == |pages| + 1
  {
    var rs := Fetches(pages) + [failure] + later;
    FullPagesRun(p, Start(), pages);
    RunSnoc(p, Start(), Fetches(pages), failure);
    assert rs[..|pages| + 1] == Fetches(pages) + [failure];
    NoFetchAfterEnd(p, Start(), rs, |pages| + 1);
  }

  /** The first fetch of any continuation uses the state's own cursor value. */
  lemma {:induction false} NextRequest(p: Setup, s: State, rs: seq<Fetched>)
    requires |s.requests| < |Run(p, s, rs).requests|
    ensures Run(p, s, rs).requests[|s.requests|] == Request(p.args, p.config, s.cursorValue)
  {
    var s1 := Step(p, s, rs[0]);
    assert Run(p, s, rs) == Run(p, s1, rs[1..]);
    assert s1.requests <= Run(p, s1, rs[1..]).requests;
  }

  /** Fetch n+1 is anchored on the last raw record of fetch n: fetch n
      delivered a full page whose batch pushed something and held no
      `null`, and the next request carries the cursor field
      value of that page's last raw (untransformed) record. */
  lemma {:induction false} AnchoredOnLastRaw(p: Setup, s: State, rs: seq<Fetched>, n: nat)
    requires |s.requests| + n + 1 < |Run(p, s, rs).requests|
    ensures n < |rs| && Delivers(p.transformer, rs[n])
    ensures FullPage(p.config, rs[n].value)
    ensures Elements(p, rs[n]) != [] && Null !in Elements(p, rs[n])
    ensures Run(p, s, rs).requests[|s.requests| + n + 1] ==
            Request(p.args, p.config, Get(Last(rs[n].value), p.config.cursorField))
    decreases n
  {
    var s1 := Step(p, s, rs[0]);
    assert Run(p, s, rs) == Run(p, s1, rs[1..]);
    if n == 0 {
      NextRequest(p, s1, rs[1..]);
    } else {
      AnchoredOnLastRaw(p, s1, rs[1..], n - 1);
    }
  }

  /** Whatever `cursor` and `skip` the caller passed, the first fetch starts
      from the beginning: `skip: 0` and no cursor, every other argument as
      given. */
  lemma FirstFetchUnanchored(p: Setup, rs: seq<Fetched>)
    requires |rs| > 0
    ensures |Run(p, Start(), rs).requests| > 0
    ensures Run(p, Start(), rs).requests[0].skip == Some(0)
    ensures Run(p, Start(), rs).requests[0].cursor == None
    ensures Run(p, Start(), rs).requests[0].take == Some(p.config.take)
    ensures Run(p, Start(), rs).requests[0].select == p.args.select
    ensures Run(p, Start(), rs).requests[0].rest == p.args.rest
  {
    NextRequest(p, Start(), rs);
  }

  /** The resume test is truthiness: when the last raw record of a full
      page has a falsy cursor value (`0`, `""`, or no such field), the next
      fetch is the first fetch again, unanchored from the beginning. */
  lemma {:induction false} FalsyCursorRestarts(p: Setup, rs: seq<Fetched>, n: nat)
    requires n + 1 < |Run(p, Start(), rs).requests|
    requires rs[n].Ok? && 0 < |rs[n].value|
    requires !Truthy(Get(Last(rs[n].value), p.config.cursorField))
    ensures Run(p, Start(), rs).requests[n + 1] == Run(p, Start(), rs).requests[0]
  {
    AnchoredOnLastRaw(p, Start(), rs, n);
    NextRequest(p, Start(), rs);
  }

  /** Without a transformer the stream emits the raw records themselves, one
      element per raw record, in page order. */
  lemma {:induction false} RawEmittedRows(p: Setup, pages: seq<Page>)
    requires p.transformer.None?
    ensures forall i :: 0 <= i < |pages| ==> Batch(p.transformer, pages[i]).Ok?
    ensures |Emitted(p.transformer, pages)| == TotalRows(pages)
  {
    if pages != [] {
      RawEmittedRows(p, pages[..|pages| - 1]);
    }
  }
}
