/** The stream object `cursorStream` returns: the closure variable
    `cursorValue`, the stream's phase and everything pushed into it, updated
    in place by each `read()`. */
module Stream {
  import opened JsValues
  import opened CursorConfig
  import opened Pager

  class CursorStream {
    const args: FindManyArgs
    const config: Config
    const transformer: Option<Transformer>

    var cursorValue: Value
    var phase: Phase
    var output: seq<Value>

    /** Every findMany request issued, and what each settled with. */
    ghost var requests: seq<FindManyArgs>
    ghost var responses: seq<Fetched>

    ghost function Plan(): Setup
    {
      Setup(args, config, transformer)
    }

    ghost function Snapshot(): State
      reads this
    {
      State(cursorValue, phase, output, requests)
    }

    /** The configuration is the one construction derived, and the state is
        the run of the pager over the responses received so far. */
    ghost predicate Valid()
      reads this
    {
      Configure(args) == Ok(config) &&
      Snapshot() == Run(Plan(), Start(), responses)
    }

    constructor (args: FindManyArgs, config: Config, transformer: Option<Transformer>)
      requires Configure(args) == Ok(config)
      ensures Valid()
      ensures this.args == args && this.config == config && this.transformer == transformer
      ensures Snapshot() == Start() && responses == []
    {
      this.args := args;
      this.config := config;
      this.transformer := transformer;
      cursorValue := Undefined;
      phase := Running;
      output := [];
      requests := [];
      responses := [];
    }

    /** One `read()`: fetch the next page with `findMany` (the store as it
        answers this call), transform it, push its elements one by one under
        Node's rules (`null` ends the stream, a push after the end destroys
        it), then end the stream or advance the cursor; a full page that
        pushed nothing leaves the stream stalled. The runtime only calls it
        while the stream is running. */
    method Read(findMany: FindManyArgs -> Fetched) returns (request: FindManyArgs)
      requires Valid() && phase.Running?
      modifies this
      ensures Valid()
      ensures request == Request(args, config, old(cursorValue))
      ensures responses == old(responses) + [findMany(request)]
      ensures Snapshot() == Step(Plan(), old(Snapshot()), findMany(request))
    {
      ghost var before := Snapshot();
      ghost var received := responses;
      request := Request(args, config, cursorValue);
      var fetched := findMany(request);
      requests := requests + [request];
      responses := responses + [fetched];
      ghost var issued := Snapshot();
      assert issued == before.(requests := before.requests + [request]);
      if fetched.Err? {
        phase := Errored(fetched.error);
        assert Snapshot() == Step(Plan(), before, fetched);
      } else {
        var results := fetched.value;
        var transformed := Batch(transformer, results);
        if transformed.Err? {
          phase := Errored(transformed.error);
          assert Snapshot() == Step(Plan(), before, fetched);
        } else {
          var items := transformed.value;
          for i := 0 to |items|
            invariant Snapshot() == PushAll(issued, items[..i])
            invariant responses == received + [fetched]
          {
            var x := items[i];
            if phase.Running? {
              if x.Null? {
                phase := Completed;
              } else {
                output := output + [x];
              }
            } else if phase.Completed? && !x.Null? {
              phase := Errored(PushAfterEof);
            }
            assert items[..i + 1][..i] == items[..i];
          }
          assert items[..|items|] == items;
          ghost var pushed := Snapshot();
          assert pushed == PushAll(issued, items);
          if |results| < config.take {
            if phase.Running? {
              phase := Completed;
            }
          } else if |results| == 0 {
            if !phase.Errored? {
              phase := Errored(ReadOfUndefined);
            }
          } else {
            cursorValue := Get(results[|results| - 1], config.cursorField);
            if |items| == 0 {
              phase := Stalled;
            }
          }
          assert Snapshot() == Settle(config, results, items, pushed);
          assert Snapshot() == Step(Plan(), before, fetched);
        }
      }
      RunSnoc(Plan(), Start(), received, fetched);
    }
  }

  /** `cursorStream(findManyArgs, { batchTransformer })`: the Error thrown
      before any fetch when `select` omits the cursor field, or a fresh
      stream that has issued no fetch yet. */
  method Open(args: FindManyArgs, transformer: Option<Transformer>) returns (r: Result<CursorStream, string>)
    ensures r.Err? <==> Configure(args).Err?
    ensures r.Err? ==> r.error == MissingCursorMessage(CursorField(args))
    ensures r.Ok? ==> fresh(r.value) && r.value.Valid()
    ensures r.Ok? ==> r.value.args == args && r.value.transformer == transformer
    ensures r.Ok? ==> r.value.Snapshot() == Start() && r.value.responses == []
  {
    match Configure(args)
    case Err(message) =>
      r := Err(message);
    case Ok(config) =>
      var stream := new CursorStream(args, config, transformer);
      r := Ok(stream);
  }
}
