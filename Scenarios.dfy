/** Whole runs of the stream on concrete configurations. */
module Scenarios {
  import opened JsValues
  import opened CursorConfig
  import opened Pager

  /** A row whose only field is `id`. */
  function Row(id: int): Record
  {
    map["id" := Num(id)]
  }

  /** Without a transformer, a run that ends on its first short page emits
      exactly one element per raw record fetched, and then completes. */
  lemma RawRunEmitsEveryRow(p: Setup, pages: seq<Page>, later: seq<Fetched>)
    requires p.transformer.None?
    requires |pages| > 0
    requires forall i :: 0 <= i < |pages| - 1 ==> 0 < |pages[i]| && p.config.take <= |pages[i]|
    requires |pages[|pages| - 1]| < p.config.take
    ensures Run(p, Start(), Fetches(pages) + later).phase == Completed
    ensures |Run(p, Start(), Fetches(pages) + later).output| == TotalRows(pages)
  {
    assert FullPages(p, pages[..|pages| - 1]);
    OutputUpToFirstShortPage(p, pages, later);
    RawEmittedRows(p, pages);
  }

  /** `take: 2` and pages [{id:1},{id:2}], [{id:3}]: the stream yields ids
      1, 2, 3 and completes after two fetches, the second with
      `cursor: {id: 2}` and `skip: 1`. */
  lemma TwoPagesThenShort(later: seq<Fetched>)
    ensures var args := FindManyArgs(Some(2), None, None, None, map[]);
            var p := Setup(args, Configure(args).value, None);
            var t := Run(p, Start(), Fetches([[Row(1), Row(2)], [Row(3)]]) + later);
            t.phase == Completed
            && t.output == [Obj(Row(1)), Obj(Row(2)), Obj(Row(3))]
            && |t.requests| == 2
            && t.requests[1].cursor == Some([("id", Num(2))])
            && t.requests[1].skip == Some(1)
  {
    var args := FindManyArgs(Some(2), None, None, None, map[]);
    var p := Setup(args, Configure(args).value, None);
    var pages := [[Row(1), Row(2)], [Row(3)]];
    assert p.config == Config(2, 4, "id");
    assert FullPages(p, pages[..1]);
    OutputUpToFirstShortPage(p, pages, later);
    assert Emitted(None, pages[..1]) == [Obj(Row(1)), Obj(Row(2))];
    AnchoredOnLastRaw(p, Start(), Fetches(pages) + later, 0);
  }

  /** `select: {name: true}` with no cursor: construction fails with
      `Must select cursor field "id"`. */
  lemma SelectWithoutId()
    ensures Configure(FindManyArgs(None, None, None, Some(map["name" := Bool(true)]), map[]))
            == Err("Must select cursor field \"id\"")
  {
    var args := FindManyArgs(None, None, None, Some(map["name" := Bool(true)]), map[]);
    assert CursorField(args) == "id";
    assert !Truthy(Get(args.select.value, "id"));
    assert "Must select cursor field \"" + "id" + "\"" == "Must select cursor field \"id\"";
  }

  /** A transformer that filters out every row, with `take: 2` and a first
      page of two rows: nothing is pushed, so the stream stalls after one
      fetch, neither ended nor errored, and never fetches again. */
  lemma FilterEverythingStalls(later: seq<Fetched>)
    ensures var args := FindManyArgs(Some(2), None, None, None, map[]);
            var p := Setup(args, Configure(args).value, Some((rows: Page) => Ok([])));
            var t := Run(p, Start(), [Ok([Row(1), Row(2)])] + later);
            t.phase == Stalled && t.output == [] && |t.requests| == 1
            && t.cursorValue == Num(2)
  {
    var args := FindManyArgs(Some(2), None, None, None, map[]);
    var p := Setup(args, Configure(args).value, Some((rows: Page) => Ok([])));
    assert p.config == Config(2, 4, "id");
    var empty := [Row(1), Row(2)];
    assert Fetches([]) + [Ok(empty)] + later == [Ok(empty)] + later;
    StallStopsRun(p, [], empty, later);
  }

  /** A transformer that replaces each page by its row count: a page of
      five raw rows yields one element, yet the cursor still moves to the
      fifth raw row. */
  lemma CountingTransformer(s: State, page: Page)
    requires s.phase.Running?
    requires |page| == 5
    ensures var args := FindManyArgs(Some(5), None, None, None, map[]);
            var p := Setup(args, Configure(args).value, Some((rows: Page) => Ok([Num(|rows|)])));
            var t := Step(p, s, Ok(page));
            t.output == s.output + [Num(5)]
            && t.phase == Running
            && t.cursorValue == Get(page[4], "id")
  {
  }
}
