/**
 * The UIVisualizer component: once per frame it reconciles the store's cursor
 * with the table's selected row (Update), and on a refresh it selects the shown
 * sample's row and redraws the nine channel graphs over a fixed-width window
 * that ends at the shown sample (ValidateUI and its local HandleGraph).
 */
module Visualizer {
  import opened Units
  import opened Store

  // ---------------------------------------------------------------------------
  // Graph window
  // ---------------------------------------------------------------------------

  /** A graph vertex (Vector2). */
  datatype Point = Point(x: real, y: real)

  /** The nine plotted channels, one per graph: pitch, yaw, roll, accX..accZ, magX..magZ. */
  datatype Channel = Pitch | Yaw | Roll | AccX | AccY | AccZ | MagX | MagY | MagZ

  /** The graphs ValidateUI redraws, in the order it redraws them. */
  const GraphChannels: seq<Channel> := [Pitch, Yaw, Roll, AccX, AccY, AccZ, MagX, MagY, MagZ]

  /**
   * The field a graph's selector lambda reads (`(x) => x.pitch` and so on).
   * The graphs follow the wire order: graph k plots field k + 2.
   */
  function Fetch(c: Channel, u: DroneUnit): (v: real)
    ensures forall k :: 0 <= k < |GraphChannels| && GraphChannels[k] == c ==> Fraction(v) == FieldOf(u, k + 2)
  {
    match c
    case Pitch => u.pitch
    case Yaw => u.yaw
    case Roll => u.roll
    case AccX => u.accX
    case AccY => u.accY
    case AccZ => u.accZ
    case MagX => u.magX
    case MagY => u.magY
    case MagZ => u.magZ
  }

  function Clamp(v: real, lo: real, hi: real): real {
    if v < lo then lo else if v > hi then hi else v
  }

  /**
   * Mathf.Repeat(t, length) = Clamp(t - Floor(t / length) * length, 0, length):
   * `t` wrapped into [0, length), the same for `t` shifted by any whole
   * number of periods.
   */
  function Repeat(t: real, length: real): (r: real)
    requires length > 0.0
    ensures 0.0 <= r < length
  {
    var f := (t / length).Floor as real;
    FloorBounds(t, length);
    Clamp(t - f * length, 0.0, length)
  }

  /** With f the floor of t / length: f * length <= t < f * length + length. */
  lemma FloorBounds(t: real, length: real)
    requires length > 0.0
    ensures var f := (t / length).Floor as real; f * length <= t < f * length + length
  {
    var q := t / length;
    var f := q.Floor as real;
    assert q * length == t;
    assert f <= q < f + 1.0;
    MulMonotonic(f, q, length);
    assert f * length <= t;
    MulPositive(f + 1.0 - q, length);
    assert (f + 1.0 - q) * length == f * length + length - q * length;
    assert t < f * length + length;
  }

  lemma MulMonotonic(a: real, b: real, c: real)
    requires a <= b && c > 0.0
    ensures a * c <= b * c
  {
    assert b * c - a * c == (b - a) * c;
    if a < b {
      MulPositive(b - a, c);
    }
  }

  lemma MulPositive(a: real, c: real)
    requires a > 0.0 && c > 0.0
    ensures a * c > 0.0
  {
  }

  /** The floor of `z` is the one integer k with k <= z < k + 1. */
  lemma FloorUnique(z: real, k: int)
    requires k as real <= z < k as real + 1.0
    ensures z.Floor == k
  {
    var f := z.Floor;
    assert f as real <= z < f as real + 1.0;
    assert f < k + 1 && k < f + 1;
  }

  /** Multiplying by a positive number is injective. */
  lemma MulCancel(x: real, y: real, c: real)
    requires c > 0.0 && x * c == y * c
    ensures x == y
  {
    assert (x - y) * c == x * c - y * c;
    if x > y {
      MulPositive(x - y, c);
    } else if y > x {
      MulPositive(y - x, c);
    }
  }

  /** Repeat ignores whole periods: shifting by `m` periods does not change it. */
  lemma RepeatPeriodic(t: real, length: real, m: int)
    requires length > 0.0
    ensures Repeat(t + m as real * length, length) == Repeat(t, length)
  {
    var q := t / length;
    var k := q.Floor;
    var t' := t + m as real * length;
    var q' := q + m as real;
    assert q * length == t;
    assert q' * length == t' by {
      assert q' * length == q * length + m as real * length;
    }
    assert t' / length * length == t';
    MulCancel(t' / length, q', length);
    assert k as real <= q < k as real + 1.0;
    FloorUnique(q', k + m);
    assert (k + m) as real * length == k as real * length + m as real * length;
    assert t' - (k + m) as real * length == t - k as real * length;
  }

  /** Repeat leaves a value already in [0, length) alone. */
  lemma RepeatInRange(t: real, length: real)
    requires length > 0.0 && 0.0 <= t < length
    ensures Repeat(t, length) == t
  {
    var q := t / length;
    assert q * length == t;
    if q < 0.0 {
      MulPositive(-q, length);
      assert false;
    }
    if q >= 1.0 {
      MulMonotonic(1.0, q, length);
      assert false;
    }
    FloorUnique(q, 0);
    assert 0 as real * length == 0.0;
  }

  /** A channel value folded into [0, 1): Mathf.Repeat(v, 360) / 360. */
  function Fold(v: real): (r: real)
    ensures 0.0 <= r < 1.0
  {
    Repeat(v, 360.0) / 360.0
  }

  /** Height plotted for store position `pos`: 0 before the start of the store. */
  function SampleAt(units: seq<DroneUnit>, pos: int, c: Channel): (y: real)
    requires pos < |units|
    ensures pos < 0 ==> y == 0.0
    ensures 0.0 <= y < 1.0
  {
    if pos < 0 then 0.0 else Fold(Fetch(c, units[pos]))
  }

  /** The x coordinate of point i of `width`: i / (width - 1), rising from 0 to 1. */
  function XAt(i: int, width: int): (x: real)
    requires width >= 2 && 0 <= i < width
    ensures i == 0 ==> x == 0.0
    ensures i == width - 1 ==> x == 1.0
  {
    var d := (width - 1) as real;
    assert i == width - 1 ==> i as real == d;
    i as real / d
  }

  lemma XAtAscending(i: int, j: int, width: int)
    requires width >= 2 && 0 <= i < j < width
    ensures XAt(i, width) < XAt(j, width)
  {
    var d := (width - 1) as real;
    assert XAt(j, width) - XAt(i, width) == (j - i) as real / d;
  }

  /**
   * Point i of a graph of `width` points for the sample with index
   * `dataIndex`: the folded channel value at store position
   * dataIndex - width + i.
   */
  function WindowPoint(units: seq<DroneUnit>, dataIndex: int, width: int, c: Channel, i: int): (p: Point)
    requires width >= 2 && 0 <= i < width && dataIndex <= |units|
    ensures dataIndex - width + i < 0 ==> p.y == 0.0
    ensures 0.0 <= p.y < 1.0
    ensures i == 0 ==> p.x == 0.0
    ensures i == width - 1 ==> p.x == 1.0
  {
    Point(XAt(i, width), SampleAt(units, dataIndex - width + i, c))
  }

  /**
   * The points HandleGraph draws: exactly `width` of them, x rising strictly
   * from 0 to 1, every y in [0, 1).
   */
  function GraphWindow(units: seq<DroneUnit>, dataIndex: int, width: int, c: Channel): (w: seq<Point>)
    requires width >= 2 && dataIndex <= |units|
    ensures |w| == width
    ensures w[0].x == 0.0 && w[width - 1].x == 1.0
    ensures forall i, j :: 0 <= i < j < width ==> w[i].x < w[j].x
    ensures forall i :: 0 <= i < width ==> 0.0 <= w[i].y < 1.0
  {
    var w := seq(width, i requires 0 <= i < width => WindowPoint(units, dataIndex, width, c, i));
    forall i, j | 0 <= i < j < width ensures w[i].x < w[j].x {
      XAtAscending(i, j, width);
    }
    w
  }

  /** The samples a graph is about: the last min(width, cursor + 1) samples, ending at the cursor. */
  function Recent(units: seq<DroneUnit>, cursor: int, width: int): (r: seq<DroneUnit>)
    requires 0 <= cursor < |units| && width >= 1
    ensures |r| == if width <= cursor + 1 then width else cursor + 1
    ensures r != [] && r[|r| - 1] == units[cursor]
  {
    var start := if cursor - width + 1 < 0 then 0 else cursor - width + 1;
    units[start..cursor + 1]
  }

  /**
   * When the sample on display sits at position `cursor` and has index
   * cursor + 1, point i plots store position cursor + 1 - width + i: the
   * last point is the cursor's sample, and points at positions below 0 are
   * 0 (the window is padded, never shortened).
   */
  lemma WindowEndsAtCursor(units: seq<DroneUnit>, cursor: int, width: int, c: Channel, w: seq<Point>)
    requires 0 <= cursor < |units| && units[cursor].index == cursor + 1 && width >= 2
    requires w == GraphWindow(units, units[cursor].index, width, c)
    ensures w[width - 1].y == Fold(Fetch(c, units[cursor]))
    ensures forall i :: 0 <= i < width && cursor + 1 - width + i < 0 ==> w[i].y == 0.0
    ensures forall i :: 0 <= i < width && 0 <= cursor + 1 - width + i ==>
      w[i].y == Fold(Fetch(c, units[cursor + 1 - width + i]))
  {
    forall i | 0 <= i < width ensures w[i] == WindowPoint(units, cursor + 1, width, c, i) {
    }
  }

  /**
   * The same window read against Recent, the last min(width, cursor + 1)
   * samples ending at the cursor: its last |Recent| points plot those
   * samples in order and every point before them is 0.
   */
  lemma WindowMatchesRecent(units: seq<DroneUnit>, cursor: int, width: int, c: Channel, w: seq<Point>, recent: seq<DroneUnit>)
    requires 0 <= cursor < |units| && units[cursor].index == cursor + 1 && width >= 2
    requires w == GraphWindow(units, units[cursor].index, width, c)
    requires recent == Recent(units, cursor, width)
    ensures forall i :: 0 <= i < width - |recent| ==> w[i].y == 0.0
    ensures forall j :: 0 <= j < |recent| ==> w[width - |recent| + j].y == Fold(Fetch(c, recent[j]))
  {
    var start := if cursor - width + 1 < 0 then 0 else cursor - width + 1;
    WindowEndsAtCursor(units, cursor, width, c, w);
    forall j | 0 <= j < |recent| ensures w[width - |recent| + j].y == Fold(Fetch(c, recent[j])) {
      var i := width - |recent| + j;
      assert recent[j] == units[start + j];
      assert cursor + 1 - width + i == start + j;
    }
  }

  // ---------------------------------------------------------------------------
  // Per-frame reconciliation of cursor and table selection
  // ---------------------------------------------------------------------------

  /**
   * What Update looks at: the store cursor, the watermark `lastCurrentIdx`
   * (the cursor value last shown) and the table's selected row (-1: none).
   */
  datatype SyncState = SyncState(current: int, watermark: int, selectedRow: int)

  /** What a frame did: refreshed the views, wrote the cursor from the selection, or nothing. */
  datatype TickAction = Refresh | SelectionWrite | Idle

  datatype TickResult = TickResult(next: SyncState, action: TickAction)

  /** A refresh reads units[current], which must exist. */
  predicate CanTick(s: SyncState, units: seq<DroneUnit>) {
    s.current != s.watermark ==> 0 <= s.current < |units|
  }

  /**
   * The conditions frames run under: sample indices are positions plus one
   * (as every store operation keeps them), a pending refresh has a sample to
   * show, and a selected row is -1 or a row of the table.
   */
  predicate Consistent(s: SyncState, units: seq<DroneUnit>) {
    && (forall k :: 0 <= k < |units| ==> units[k].index == k + 1)
    && CanTick(s, units)
    && (s.selectedRow == -1 || 1 <= s.selectedRow <= |units|)
  }

  /**
   * One frame of Update. A refresh happens exactly when the cursor moved
   * away from the watermark, and then catches the watermark up and selects
   * the shown sample's row. Otherwise a selected row that is not the cursor's
   * moves the cursor to it, with no refresh in this frame: the watermark
   * stays behind, so the next frame refreshes. The frame keeps Consistent.
   */
  function Tick(s: SyncState, units: seq<DroneUnit>): (r: TickResult)
    requires CanTick(s, units)
    ensures (r.action == Refresh) == (s.current != s.watermark)
    ensures r.action == Refresh ==> r.next == SyncState(s.current, s.current, units[s.current].index)
    ensures (r.action == SelectionWrite) == (s.current == s.watermark && s.selectedRow != -1 && s.selectedRow - 1 != s.current)
    ensures r.action == SelectionWrite ==> r.next.current == s.selectedRow - 1 != r.next.watermark
    ensures r.action != Refresh ==> r.next.watermark == s.watermark && r.next.selectedRow == s.selectedRow
    ensures r.action == Idle ==> r.next == s
    ensures Consistent(s, units) ==> Consistent(r.next, units)
  {
    if s.current != s.watermark then
      TickResult(SyncState(s.current, s.current, units[s.current].index), Refresh)
    else if s.selectedRow - 1 != s.current && s.selectedRow != -1 then
      TickResult(s.(current := s.selectedRow - 1), SelectionWrite)
    else
      TickResult(s, Idle)
  }

  /** The state after `n` frames with no new samples and no clicks; the frames keep Consistent. */
  function Run(s: SyncState, units: seq<DroneUnit>, n: nat): (t: SyncState)
    requires Consistent(s, units)
    ensures Consistent(t, units)
    decreases n
  {
    if n == 0 then s else Run(Tick(s, units).next, units, n - 1)
  }

  /**
   * After a refresh the table shows the cursor's row, so the selection branch
   * cannot fire: the next frame is idle.
   */
  lemma RefreshSettles(s: SyncState, units: seq<DroneUnit>)
    requires Consistent(s, units) && Tick(s, units).action == Refresh
    ensures Tick(Tick(s, units).next, units).action == Idle
  {
    var t := Tick(s, units).next;
    assert units[s.current].index == s.current + 1;
    assert t.selectedRow - 1 == t.current;
  }

  /**
   * A selection write is followed by exactly one refresh, in the next frame,
   * showing the selected row's sample; the frame after that is idle.
   */
  lemma SelectionSettles(s: SyncState, units: seq<DroneUnit>)
    requires Consistent(s, units) && Tick(s, units).action == SelectionWrite
    ensures var s1 := Tick(s, units).next;
            var r2 := Tick(s1, units);
            && r2.action == Refresh
            && r2.next.current == r2.next.watermark == s.selectedRow - 1
            && Tick(r2.next, units).action == Idle
  {
    var s1 := Tick(s, units).next;
    RefreshSettles(s1, units);
  }

  /** An idle state stays put. */
  lemma {:induction false} IdleStays(s: SyncState, units: seq<DroneUnit>, n: nat)
    requires Consistent(s, units) && Tick(s, units).action == Idle
    ensures Run(s, units, n) == s
    decreases n
  {
    if n > 0 {
      IdleStays(s, units, n - 1);
    }
  }

  /** Running a + b frames is running a frames, then b more. */
  lemma {:induction false} RunSplit(s: SyncState, units: seq<DroneUnit>, a: nat, b: nat)
    requires Consistent(s, units)
    ensures Run(s, units, a + b) == Run(Run(s, units, a), units, b)
    decreases a
  {
    if a > 0 {
      RunSplit(Tick(s, units).next, units, a - 1, b);
    }
  }

  /**
   * No feedback loop: left alone, the frame loop is idle from the third
   * frame on, whatever state it starts in.
   */
  lemma Quiescent(s: SyncState, units: seq<DroneUnit>, n: nat)
    requires Consistent(s, units) && n >= 2
    ensures Tick(Run(s, units, 2), units).action == Idle
    ensures Run(s, units, n) == Run(s, units, 2)
  {
    var s1 := Tick(s, units).next;
    var s2 := Run(s, units, 2);
    assert s2 == Tick(s1, units).next;
    match Tick(s, units).action {
      case Refresh =>
        RefreshSettles(s, units);
      case SelectionWrite =>
        SelectionSettles(s, units);
      case Idle =>
    }
    RunSplit(s, units, 2, n - 2);
    IdleStays(s2, units, n - 2);
  }

  // ---------------------------------------------------------------------------
  // The components
  // ---------------------------------------------------------------------------

  /** The table widget; only its selected row (-1 when none) is modelled. */
  class Table {
    var selectedRow: int

    constructor (row: int)
      ensures selectedRow == row
    {
      selectedRow := row;
    }

    /** SetSelected(row): the widget highlights `row`, which SelectedRow then reports. */
    method SetSelected(row: int)
      modifies this
      ensures selectedRow == row
    {
      selectedRow := row;
    }
  }

  /** A UILineRenderer; only its Points buffer is modelled. */
  class LineGraph {
    var points: array<Point>

    constructor (points: array<Point>)
      ensures this.points == points
    {
      this.points := points;
    }
  }

  class UIVisualizer {
    /** The DataManager on the same GameObject (GetComponent<DataManager>()). */
    const manager: DataManager
    const table: Table
    /** graphUI.pitch .. graphUI.magZ, in GraphChannels order. */
    const graphs: seq<LineGraph>
    /** graphUI.samplesWidth. */
    const samplesWidth: int
    var lastCurrentIdx: int

    /** Nine distinct graphs with distinct buffers, and a window of at least two points. */
    ghost predicate Valid()
      reads this, graphs
    {
      && |graphs| == |GraphChannels|
      && samplesWidth >= 2
      && (forall i, j :: 0 <= i < j < |graphs| ==> graphs[i] != graphs[j] && graphs[i].points != graphs[j].points)
    }

    constructor (manager: DataManager, table: Table, graphs: seq<LineGraph>, samplesWidth: int)
      requires |graphs| == |GraphChannels| && samplesWidth >= 2
      requires forall i, j :: 0 <= i < j < |graphs| ==> graphs[i] != graphs[j] && graphs[i].points != graphs[j].points
      ensures Valid()
      ensures this.manager == manager && this.table == table && this.graphs == graphs
      ensures this.samplesWidth == samplesWidth && lastCurrentIdx == -1
    {
      this.manager := manager;
      this.table := table;
      this.graphs := graphs;
      this.samplesWidth := samplesWidth;
      lastCurrentIdx := -1;
    }

    /** The state Update reads. */
    ghost function Sync(): SyncState
      reads this, manager, table
    {
      SyncState(manager.current, lastCurrentIdx, table.selectedRow)
    }

    /** The point buffers of all graphs. */
    ghost function Buffers(): set<array<Point>>
      reads this, graphs
    {
      set g | g in graphs :: g.points
    }

    /**
     * HandleGraph: keeps the graph's buffer if it already holds samplesWidth
     * points and allocates a new one otherwise, then overwrites every slot i
     * with point i of the window for the sample with index `dataIndex`.
     */
    method HandleGraph(graph: LineGraph, c: Channel, dataIndex: int)
      requires samplesWidth >= 2 && dataIndex <= |manager.units|
      modifies graph, graph.points
      ensures old(graph.points.Length) == samplesWidth ==> graph.points == old(graph.points)
      ensures old(graph.points.Length) != samplesWidth ==> fresh(graph.points)
      ensures graph.points[..] == GraphWindow(manager.units, dataIndex, samplesWidth, c)
    {
      var points := graph.points;
      if points.Length != samplesWidth {
        points := new Point[samplesWidth](_ => Point(0.0, 0.0));
      }
      for i := 0 to samplesWidth
        invariant forall j :: 0 <= j < i ==> points[j] == WindowPoint(manager.units, dataIndex, samplesWidth, c, j)
      {
        var ii := dataIndex - samplesWidth + i;
        var y := if ii < 0 then 0.0 else Fold(Fetch(c, manager.units[ii]));
        points[i] := Point(i as real / (samplesWidth - 1) as real, y);
      }
      graph.points := points;
    }

    /**
     * The modelled part of ValidateUI: select the shown sample's row in the
     * table and redraw every graph over the window ending at that sample.
     * Requires what keeps CurrentData and the window's reads in range.
     */
    method ValidateUI()
      requires Valid() && manager.CursorInRange()
      requires manager.CurrentData().index <= |manager.units|
      modifies table, graphs, Buffers()
      ensures Valid()
      ensures table.selectedRow == manager.CurrentData().index
      ensures forall k :: 0 <= k < |graphs| ==>
        graphs[k].points[..] == GraphWindow(manager.units, manager.CurrentData().index, samplesWidth, GraphChannels[k])
    {
      var data := manager.CurrentData();
      table.SetSelected(data.index);
      ghost var units, width := manager.units, samplesWidth;
      ghost var windows := seq(|graphs|, j requires 0 <= j < |graphs| =>
        GraphWindow(units, data.index, width, GraphChannels[j]));
      var k := 0;
      while k < |graphs|
        invariant 0 <= k <= |graphs|
        invariant forall i, j :: 0 <= i < j < |graphs| ==> graphs[i].points != graphs[j].points
        invariant table.selectedRow == data.index
        invariant forall j :: k <= j < |graphs| ==> graphs[j].points == old(graphs[j].points)
        invariant forall j :: 0 <= j < k ==> graphs[j].points[..] == windows[j]
      {
        label before:
        var g := graphs[k];
        assert g.points in old(Buffers());
        HandleGraph(g, GraphChannels[k], data.index);
        assert forall j :: 0 <= j < |graphs| && j != k ==>
          graphs[j].points == old@before(graphs[j].points) && graphs[j].points != g.points;
        k := k + 1;
      }
    }

    /**
     * Update, once per frame: refresh when the cursor left the watermark;
     * otherwise, if a row other than the cursor's is selected, move the cursor
     * there (the refresh follows in the next frame). The new cursor, watermark
     * and selection are exactly what Tick gives; samples are never changed;
     * graphs are redrawn on a refresh only.
     */
    method Update()
      requires Valid() && CanTick(Sync(), manager.units)
      requires manager.current != lastCurrentIdx ==> manager.units[manager.current].index <= |manager.units|
      modifies this, manager, table, graphs, Buffers()
      ensures Valid()
      ensures manager.units == old(manager.units)
      ensures Sync() == Tick(old(Sync()), manager.units).next
      ensures Tick(old(Sync()), manager.units).action == Refresh ==>
        forall k :: 0 <= k < |graphs| ==>
          graphs[k].points[..] == GraphWindow(manager.units, manager.units[manager.current].index, samplesWidth, GraphChannels[k])
      ensures Tick(old(Sync()), manager.units).action != Refresh ==>
        forall k :: 0 <= k < |graphs| ==> graphs[k].points == old(graphs[k].points) && graphs[k].points[..] == old(graphs[k].points[..])
    {
      var current := manager.current;
      if current != lastCurrentIdx {
        lastCurrentIdx := current;
        ValidateUI();
      } else if table.selectedRow - 1 != current && table.selectedRow != -1 {
        manager.current := table.selectedRow - 1;
      }
    }
  }
}
