/** What the run decomposition of a row is, stated independently of how the compositor
    computes it, and what the quads and spans a row queues add up to. */
module RowProperties {
  import opened SugarCells
  import opened RowCompositor

  /** A maximal run: every cell but the last folds into the next one, and the last does not. */
  ghost predicate IsRun(stack: SugarStack, r: Run)
  {
    && ValidRun(stack, r)
    && (forall j :: First(r) <= j < r.last ==> MergesWithNext(stack, j))
    && !MergesWithNext(stack, r.last)
  }

  /** Every run of rs is maximal. */
  ghost predicate AllRuns(stack: SugarStack, rs: seq<Run>)
  {
    forall k :: 0 <= k < |rs| ==> IsRun(stack, rs[k])
  }

  /** Appending a maximal run keeps every run maximal. */
  lemma AllRunsAppend(stack: SugarStack, rs: seq<Run>, r: Run)
    requires AllRuns(stack, rs) && IsRun(stack, r)
    ensures AllRuns(stack, rs + [r])
  {
    forall k | 0 <= k < |rs + [r]|
      ensures IsRun(stack, (rs + [r])[k])
    {
      if k < |rs| {
        assert (rs + [r])[k] == rs[k];
      }
    }
  }

  /** Dropping the last run keeps every run maximal. */
  lemma AllRunsInit(stack: SugarStack, rs: seq<Run>)
    requires rs != [] && AllRuns(stack, rs)
    ensures AllRuns(stack, rs[..|rs| - 1]) && IsRun(stack, rs[|rs| - 1])
  {
    var init := rs[..|rs| - 1];
    forall k | 0 <= k < |init|
      ensures IsRun(stack, init[k])
    {
      assert init[k] == rs[k];
    }
  }

  /** The runs cover cells [0, end) contiguously, left to right. */
  ghost predicate Tiles(rs: seq<Run>, end: int)
  {
    if rs == [] then end == 0
    else
      && First(rs[0]) == 0
      && rs[|rs| - 1].last + 1 == end
      && (forall k :: 0 < k < |rs| ==> First(rs[k]) == rs[k - 1].last + 1)
  }

  /** Some run ends at cell i. */
  ghost predicate EndsRun(rs: seq<Run>, i: nat)
  {
    exists k :: 0 <= k < |rs| && rs[k].last == i
  }

  /** A maximal run appended where a tiling leaves off extends the tiling to its end. */
  lemma TilesAppend(rs: seq<Run>, end: int, r: Run)
    requires Tiles(rs, end) && First(r) == end
    ensures Tiles(rs + [r], r.last + 1)
  {
    var rs' := rs + [r];
    if rs != [] {
      assert rs'[0] == rs[0];
      forall k | 0 < k < |rs'|
        ensures First(rs'[k]) == rs'[k - 1].last + 1
      {
        if k < |rs| {
          assert rs'[k] == rs[k] && rs'[k - 1] == rs[k - 1];
        }
      }
    }
  }

  /** Once cells [0, n) are processed, the cells of the open run all fold forward. */
  lemma {:induction false} OpenRunFolds(stack: SugarStack, n: nat)
    requires n <= |stack|
    ensures forall j :: n - Pending(stack, n) <= j < n ==> MergesWithNext(stack, j)
  {
    if n > 0 && MergesWithNext(stack, n - 1) {
      OpenRunFolds(stack, n - 1);
    }
  }

  /** The run a non-folding cell finishes is maximal. */
  lemma FinishedRunIsMaximal(stack: SugarStack, i: nat)
    requires i < |stack| && !MergesWithNext(stack, i)
    ensures IsRun(stack, Run(i, Pending(stack, i) + 1))
  {
    OpenRunFolds(stack, i);
  }

  /** Processing cell n - 1 keeps the finished runs maximal and contiguous. */
  lemma TileStep(stack: SugarStack, n: nat)
    requires 0 < n <= |stack|
    requires Tiles(RunsUpTo(stack, n - 1), n - 1 - Pending(stack, n - 1))
    requires AllRuns(stack, RunsUpTo(stack, n - 1))
    ensures Tiles(RunsUpTo(stack, n), n - Pending(stack, n))
    ensures AllRuns(stack, RunsUpTo(stack, n))
  {
    if !MergesWithNext(stack, n - 1) {
      var rs := RunsUpTo(stack, n - 1);
      var r := Run(n - 1, Pending(stack, n - 1) + 1);
      assert RunsUpTo(stack, n) == rs + [r];
      FinishedRunIsMaximal(stack, n - 1);
      TilesAppend(rs, n - 1 - Pending(stack, n - 1), r);
      AllRunsAppend(stack, rs, r);
    }
  }

  /** Once cells [0, n) are processed, the finished runs are maximal and tile everything
      before the open run. */
  lemma {:induction false} RunsTileUpTo(stack: SugarStack, n: nat)
    requires n <= |stack|
    ensures Tiles(RunsUpTo(stack, n), n - Pending(stack, n))
    ensures AllRuns(stack, RunsUpTo(stack, n))
  {
    if n > 0 {
      RunsTileUpTo(stack, n - 1);
      TileStep(stack, n);
    }
  }

  /** The runs of a row are maximal and tile the whole row. */
  lemma RowIsTiledByMaximalRuns(stack: SugarStack)
    ensures Tiles(Runs(stack), |stack|)
    ensures AllRuns(stack, Runs(stack))
  {
    RunsTileUpTo(stack, |stack|);
    assert Pending(stack, |stack|) == 0;
  }

  /** A stretch of cells that all fold forward finishes no run and extends the open run. */
  lemma {:induction false} FoldRange(stack: SugarStack, a: nat, b: nat)
    requires a <= b <= |stack|
    requires forall j :: a <= j < b ==> MergesWithNext(stack, j)
    ensures RunsUpTo(stack, b) == RunsUpTo(stack, a)
    ensures Pending(stack, b) == Pending(stack, a) + (b - a)
  {
    if a < b {
      FoldRange(stack, a, b - 1);
    }
  }

  /** Dropping the last run of a tiling leaves a tiling up to where that run starts. */
  lemma TilesInit(rs: seq<Run>, end: int)
    requires rs != [] && Tiles(rs, end)
    ensures Tiles(rs[..|rs| - 1], First(rs[|rs| - 1]))
  {
    var init := rs[..|rs| - 1];
    if init != [] {
      assert init[0] == rs[0];
      forall k | 0 < k < |init|
        ensures First(init[k]) == init[k - 1].last + 1
      {
        assert init[k] == rs[k] && init[k - 1] == rs[k - 1];
      }
    }
  }

  /** Any decomposition of cells [0, end) into maximal contiguous runs is the one the
      compositor computes. */
  lemma {:induction false} TilingIsUnique(stack: SugarStack, rs: seq<Run>, end: nat)
    requires end <= |stack|
    requires Tiles(rs, end)
    requires AllRuns(stack, rs)
    ensures rs == RunsUpTo(stack, end)
    ensures Pending(stack, end) == 0
  {
    if rs != [] {
      var r := rs[|rs| - 1];
      var init := rs[..|rs| - 1];
      AllRunsInit(stack, rs);
      var start: nat := First(r);
      TilesInit(rs, end);
      TilingIsUnique(stack, init, start);
      FoldRange(stack, start, r.last);
      assert end == r.last + 1;
      assert RunsUpTo(stack, end) == init + [Run(r.last, r.last - start + 1)];
      assert rs == init + [r];
    }
  }

  /** Run r is one of the runs of the row exactly when it is maximal and starts where
      the row or the previous maximal run leaves off: the compositor's runs are the only
      tiling of the row by maximal runs. */
  lemma RunsAreTheMaximalTiling(stack: SugarStack, rs: seq<Run>)
    ensures (Tiles(rs, |stack|) && AllRuns(stack, rs)) <==> rs == Runs(stack)
  {
    RowIsTiledByMaximalRuns(stack);
    if Tiles(rs, |stack|) && AllRuns(stack, rs) {
      TilingIsUnique(stack, rs, |stack|);
    }
  }

  lemma {:induction false} BoundariesUpTo(stack: SugarStack, n: nat)
    requires n <= |stack|
    ensures forall i :: 0 <= i < n ==> (EndsRun(RunsUpTo(stack, n), i) <==> !MergesWithNext(stack, i))
  {
    if n > 0 {
      BoundariesUpTo(stack, n - 1);
      var rs := RunsUpTo(stack, n - 1);
      if MergesWithNext(stack, n - 1) {
        assert !EndsRun(rs, n - 1);
      } else {
        var rs' := rs + [Run(n - 1, Pending(stack, n - 1) + 1)];
        assert RunsUpTo(stack, n) == rs';
        assert rs'[|rs|].last == n - 1;
        forall i | 0 <= i < n - 1
          ensures EndsRun(rs', i) <==> EndsRun(rs, i)
        {
          if EndsRun(rs, i) {
            var k :| 0 <= k < |rs| && rs[k].last == i;
            assert rs'[k] == rs[k];
          }
          if EndsRun(rs', i) {
            var k :| 0 <= k < |rs'| && rs'[k].last == i;
            assert k < |rs| && rs'[k] == rs[k];
          }
        }
      }
    }
  }

  /** Cell i ends a run exactly when it does not fold into the next cell. */
  lemma RunBoundaries(stack: SugarStack, i: nat)
    requires i < |stack|
    ensures EndsRun(Runs(stack), i) <==> !MergesWithNext(stack, i)
  {
    BoundariesUpTo(stack, |stack|);
  }

  /** Runs once finished are never revised. */
  lemma {:induction false} RunsUpToGrows(stack: SugarStack, m: nat, n: nat)
    requires m <= n <= |stack|
    ensures RunsUpTo(stack, m) <= RunsUpTo(stack, n)
  {
    if m < n {
      RunsUpToGrows(stack, m, n - 1);
    }
  }

  /** A decorated cell is a run of its own: it ends a run of quantity one, and the cell
      before it ends the previous run. */
  lemma DecoratedCellIsOwnRun(stack: SugarStack, i: nat)
    requires i < |stack| && stack[i].decoration.Some?
    ensures Run(i, 1) in Runs(stack)
    ensures i > 0 ==> EndsRun(Runs(stack), i - 1)
  {
    assert Pending(stack, i) == 0;
    assert RunsUpTo(stack, i + 1) == RunsUpTo(stack, i) + [Run(i, 1)];
    RunsUpToGrows(stack, i + 1, |stack|);
    assert Runs(stack)[|RunsUpTo(stack, i + 1)| - 1] == Run(i, 1);
    if i > 0 {
      RunBoundaries(stack, i - 1);
    }
  }

  /** The number of cells the runs cover. */
  function Total(rs: seq<Run>): nat
  {
    if rs == [] then 0 else Total(rs[..|rs| - 1]) + rs[|rs| - 1].quantity
  }

  lemma {:induction false} QuantitiesUpTo(stack: SugarStack, n: nat)
    requires n <= |stack|
    ensures Total(RunsUpTo(stack, n)) + Pending(stack, n) == n
  {
    if n > 0 {
      QuantitiesUpTo(stack, n - 1);
      if !MergesWithNext(stack, n - 1) {
        var rs := RunsUpTo(stack, n - 1);
        var rs' := rs + [Run(n - 1, Pending(stack, n - 1) + 1)];
        assert rs'[..|rs|] == rs;
      }
    }
  }

  /** The quantities of a row's runs add up to its length. */
  lemma QuantitiesSumToLength(stack: SugarStack)
    ensures Total(Runs(stack)) == |stack|
  {
    QuantitiesUpTo(stack, |stack|);
    assert Pending(stack, |stack|) == 0;
  }

  /** The total width of the quads at the origin (the background quads). */
  function BackgroundWidth(rects: seq<Rect>): real
  {
    if rects == [] then 0.0
    else BackgroundWidth(rects[..|rects| - 1])
         + (if rects[|rects| - 1].position == (0.0, 0.0) then rects[|rects| - 1].size.0 else 0.0)
  }

  lemma {:induction false} BackgroundWidthAppend(a: seq<Rect>, b: seq<Rect>)
    ensures BackgroundWidth(a + b) == BackgroundWidth(a) + BackgroundWidth(b)
  {
    if b != [] {
      BackgroundWidthAppend(a, b[..|b| - 1]);
      assert (a + b)[..|a + b| - 1] == a + b[..|b| - 1];
    } else {
      assert a + b == a;
    }
  }

  lemma {:induction false} BackgroundWidthOfRuns(stack: SugarStack, rs: seq<Run>, g: Geometry)
    requires ValidRuns(stack, rs)
    ensures BackgroundWidth(RectsOf(stack, rs, g)) == CellWidth * Total(rs) as real
  {
    if rs != [] {
      var r := rs[|rs| - 1];
      BackgroundWidthOfRuns(stack, rs[..|rs| - 1], g);
      BackgroundWidthAppend(RectsOf(stack, rs[..|rs| - 1], g), RunRects(stack, r, g));
      match stack[r.last].decoration {
        case None =>
        case Some(d) =>
          BackgroundWidthAppend([BackgroundRect(stack, r, g)], [DecorationRect(d, g)]);
      }
    }
  }

  /** The background quads of a row span ten units per cell. */
  lemma RowBackgroundWidth(stack: SugarStack, g: Geometry)
    ensures BackgroundWidth(RowRects(stack, g)) == CellWidth * |stack| as real
  {
    RowOutputPerRun(stack, x => [], g);
    BackgroundWidthOfRuns(stack, Runs(stack), g);
    QuantitiesSumToLength(stack);
  }

  /** The number of decorated cells among cells [0, n). */
  function DecoratedCells(stack: SugarStack, n: nat): nat
    requires n <= |stack|
  {
    if n == 0 then 0
    else DecoratedCells(stack, n - 1) + (if stack[n - 1].decoration.Some? then 1 else 0)
  }

  lemma {:induction false} RectCountUpTo(stack: SugarStack, n: nat, g: Geometry)
    requires n <= |stack|
    ensures |RectsOf(stack, RunsUpTo(stack, n), g)| == |RunsUpTo(stack, n)| + DecoratedCells(stack, n)
  {
    if n > 0 {
      RectCountUpTo(stack, n - 1, g);
      if !MergesWithNext(stack, n - 1) {
        AppendRun(stack, RunsUpTo(stack, n - 1), Run(n - 1, Pending(stack, n - 1) + 1), x => [], g);
      }
    }
  }

  /** A row queues one quad per run and one more per decorated cell. */
  lemma RowRectCount(stack: SugarStack, g: Geometry)
    ensures |RowRects(stack, g)| == |Runs(stack)| + DecoratedCells(stack, |stack|)
  {
    RowOutputPerRun(stack, x => [], g);
    RectCountUpTo(stack, |stack|, g);
  }

  /** The ending cell of the run selects span attributes. */
  predicate Styled(stack: SugarStack, r: Run)
    requires ValidRun(stack, r)
  {
    StyleAttrs(stack[r.last].style).Some?
  }

  /** At most one span per run, and exactly one per run precisely when no run ends on a
      cell whose style sets no flag. */
  lemma {:induction false} SpanCount(stack: SugarStack, rs: seq<Run>, contentOf: seq<Sugar> -> string)
    requires ValidRuns(stack, rs)
    ensures |SpansOf(stack, rs, contentOf)| <= |rs|
    ensures |SpansOf(stack, rs, contentOf)| == |rs| <==> forall k :: 0 <= k < |rs| ==> Styled(stack, rs[k])
  {
    if rs != [] {
      var init := rs[..|rs| - 1];
      SpanCount(stack, init, contentOf);
      if forall k :: 0 <= k < |rs| ==> Styled(stack, rs[k]) {
        forall k | 0 <= k < |init|
          ensures Styled(stack, init[k])
        {
          assert init[k] == rs[k];
        }
      } else if Styled(stack, rs[|rs| - 1]) {
        var k :| 0 <= k < |rs| && !Styled(stack, rs[k]);
        assert k < |init| && init[k] == rs[k];
      }
    }
  }

  /** Four equal cells with a decoration on the third: the first two fold into one run,
      the decorated cell and the last cell are runs of their own. */
  lemma DecoratedRowScenario(c: char, fg: Color, bg: Color, d: SugarDecoration)
    ensures var plain := Sugar(c, fg, bg, None, None);
            var marked := Sugar(c, fg, bg, None, Some(d));
            Runs([plain, plain, marked, plain]) == [Run(1, 2), Run(2, 1), Run(3, 1)]
  {
    var plain := Sugar(c, fg, bg, None, None);
    var marked := Sugar(c, fg, bg, None, Some(d));
    var stack := [plain, plain, marked, plain];
    assert RunsUpTo(stack, 1) == [];
    assert Pending(stack, 1) == 1;
    assert RunsUpTo(stack, 2) == [Run(1, 2)];
    assert RunsUpTo(stack, 3) == [Run(1, 2), Run(2, 1)];
  }

  /** A cell whose style sets no flag queues its background quad but no span. */
  lemma FlaglessStyleScenario(s: Sugar, g: Geometry, contentOf: seq<Sugar> -> string)
    requires s.style == Some(SugarStyle(false, false, false)) && s.decoration.None?
    ensures RowSpans([s], contentOf) == []
    ensures RowRects([s], g) == [Rect((0.0, 0.0), s.backgroundColor, (CellWidth, g.sugarheight))]
  {
    assert !MergesWithNext([s], 0);
    assert RunsUpTo([s], 0) == [];
    RowOutputPerRun([s], contentOf, g);
    var rs := [Run(0, 1)];
    assert Runs([s]) == rs;
    assert rs[..0] == [];
    assert StyleAttrs(s.style) == None;
    assert RunSpans([s], Run(0, 1), contentOf) == [];
    assert SpansOf([s], rs, contentOf) == SpansOf([s], [], contentOf) + RunSpans([s], Run(0, 1), contentOf);
    assert RectsOf([s], rs, g) == RectsOf([s], [], g) + RunRects([s], Run(0, 1), g);
  }

  /** An empty row queues no span and no quad. */
  lemma EmptyRowScenario(g: Geometry, contentOf: seq<Sugar> -> string)
    ensures RowSpans([], contentOf) == [] && RowRects([], g) == []
  {
  }
}
