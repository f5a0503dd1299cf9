/** The click state machine of annotate_map_obstacles.py: a map image is
    divided into square grid cells of `grid_size` pixels; pressing the left
    button on a cell toggles it as an obstacle, dragging toggles every new
    cell the mouse enters, releasing ends the drag; saving writes one
    `{x, y}` record per obstacle together with the scale ratios.  Reading
    the image, the console prompts, drawing and the JSON file are not part
    of this model. */
module MapAnnotator {
  import opened Wrappers

  /** A grid cell `(grid_x, grid_y)`. */
  type Cell = (int, int)

  /** Python's `a // b` on integers: the quotient rounded towards minus
      infinity. Dafny's `/` rounds so that the remainder is non-negative, which
      agrees only for a positive divisor. */
  function FloorDiv(a: int, b: int): (q: int)
    requires b != 0
    ensures b > 0 ==> q * b <= a < q * b + b
    ensures b < 0 ==> q * b + b < a <= q * b
  {
    if b > 0 then a / b else (-a) / (-b)
  }

  /** `MapAnnotator`: the answers to the two prompts, the ratios derived from
      them, the obstacle cells and the drag state. */
  datatype Annotator = Annotator(
    imagePath: string,
    squareSize: real,
    gridSize: int,
    pixelsPerMeter: real,
    squaresPerMeter: real,
    obstacles: set<Cell>,
    isDragging: bool,
    lastGridPos: Option<Cell>)
  {
    /** A drag is in progress exactly when a last cell is recorded. */
    predicate Valid() {
      isDragging <==> lastGridPos.Some?
    }
  }

  /** The constructor after its prompts: `pixels_per_meter = grid_size /
      square_size` and `squares_per_meter = 1 / square_size`, which raise for a
      zero square size; then `draw_grid` steps through the image by
      `grid_size` pixels, and a zero step raises. No obstacles and no drag
      yet. */
  function NewAnnotator(imagePath: string, squareSize: real, gridSize: int): (r: Result<Annotator>)
    ensures r.Err? <==> squareSize == 0.0 || gridSize == 0
    ensures r.Err? && squareSize == 0.0 ==> r.error == ZeroDivisionError
    ensures r.Err? && squareSize != 0.0 ==> r.error == ValueError
    ensures r.Ok? ==> r.value.gridSize != 0
    ensures r.Ok? ==>
      && r.value.pixelsPerMeter * squareSize == gridSize as real
      && r.value.squaresPerMeter * squareSize == 1.0
      && r.value.imagePath == imagePath && r.value.squareSize == squareSize && r.value.gridSize == gridSize
      && r.value.obstacles == {} && r.value.Valid() && !r.value.isDragging
  {
    if squareSize == 0.0 then Err(ZeroDivisionError)
    else if gridSize == 0 then Err(ValueError)
    else Ok(Annotator(imagePath, squareSize, gridSize, gridSize as real / squareSize, 1.0 / squareSize,
                      {}, false, None))
  }

  /** The two ratios agree: a grid square is `grid_size` pixels wide, so
      pixels per metre is grid size times squares per metre. */
  lemma RatiosConsistent(imagePath: string, squareSize: real, gridSize: int)
    ensures var r := NewAnnotator(imagePath, squareSize, gridSize);
      r.Ok? ==> r.value.pixelsPerMeter == gridSize as real * r.value.squaresPerMeter
  {
  }

  /** `toggle_square` on the obstacle set. */
  function Toggle(obstacles: set<Cell>, c: Cell): (r: set<Cell>)
    ensures c in r <==> c !in obstacles
    ensures forall d | d != c :: d in r <==> d in obstacles
  {
    if c in obstacles then obstacles - {c} else obstacles + {c}
  }

  /** Toggling the same cell twice restores the set. */
  lemma ToggleTwice(obstacles: set<Cell>, c: Cell)
    ensures Toggle(Toggle(obstacles, c), c) == obstacles
  {
  }

  /** Toggles of different cells commute. */
  lemma ToggleCommutes(obstacles: set<Cell>, c: Cell, d: Cell)
    ensures Toggle(Toggle(obstacles, c), d) == Toggle(Toggle(obstacles, d), c)
  {
  }

  /** `toggle_square`: only the obstacle set changes, and only at `c`; the
      redrawing that follows is not modelled. */
  function ToggleSquare(a: Annotator, c: Cell): (r: Annotator)
    ensures r.obstacles == Toggle(a.obstacles, c)
    ensures r.(obstacles := a.obstacles) == a
  {
    a.(obstacles := Toggle(a.obstacles, c))
  }

  /** The mouse events the callback distinguishes; every other event falls
      through all three branches. */
  datatype MouseEvent = LButtonDown | MouseMove | LButtonUp | OtherEvent

  /** `on_click`: the cell under the mouse is computed first, so a zero
      grid size raises for every event. */
  function OnClick(a: Annotator, event: MouseEvent, x: int, y: int): (r: Result<Annotator>)
    ensures r.Err? <==> a.gridSize == 0
    ensures r.Err? ==> r.error == ZeroDivisionError
    ensures r.Ok? ==>
      && r.value.imagePath == a.imagePath && r.value.squareSize == a.squareSize && r.value.gridSize == a.gridSize
      && r.value.pixelsPerMeter == a.pixelsPerMeter && r.value.squaresPerMeter == a.squaresPerMeter
    ensures r.Ok? ==> var c := (FloorDiv(x, a.gridSize), FloorDiv(y, a.gridSize));
      match event
      case LButtonDown =>
        r.value.isDragging && r.value.lastGridPos == Some(c) && r.value.obstacles == Toggle(a.obstacles, c)
      case MouseMove =>
        if a.isDragging && a.lastGridPos != Some(c)
        then r.value.isDragging && r.value.lastGridPos == Some(c) && r.value.obstacles == Toggle(a.obstacles, c)
        else r.value == a
      case LButtonUp =>
        !r.value.isDragging && r.value.lastGridPos == None && r.value.obstacles == a.obstacles
      case OtherEvent =>
        r.value == a
  {
    if a.gridSize == 0 then Err(ZeroDivisionError)
    else
      var c := (FloorDiv(x, a.gridSize), FloorDiv(y, a.gridSize));
      match event
      case LButtonDown => Ok(ToggleSquare(a.(isDragging := true, lastGridPos := Some(c)), c))
      case MouseMove =>
        if a.isDragging && a.lastGridPos != Some(c)
        then Ok(ToggleSquare(a, c).(lastGridPos := Some(c)))
        else Ok(a)
      case LButtonUp => Ok(a.(isDragging := false, lastGridPos := None))
      case OtherEvent => Ok(a)
  }

  /** Every event keeps "dragging exactly when a last cell is recorded". */
  lemma OnClickValid(a: Annotator, event: MouseEvent, x: int, y: int)
    requires a.Valid() && a.gridSize != 0
    ensures OnClick(a, event, x, y).Ok? && OnClick(a, event, x, y).value.Valid()
  {
  }

  /** With positive grid size, a pixel at non-negative coordinates lies inside
      the cell it is mapped to: `gx * grid <= x < (gx + 1) * grid`. */
  lemma CellContainsPixel(gridSize: int, x: int)
    requires gridSize > 0
    ensures var gx := FloorDiv(x, gridSize);
      gx * gridSize <= x < gx * gridSize + gridSize
  {
  }

  /** One callback invocation: the event and the pixel it happened at. */
  datatype Input = Input(event: MouseEvent, x: int, y: int)

  /** The callbacks applied in order; the first failure stops the run. */
  function Run(a: Annotator, inputs: seq<Input>): (r: Result<Annotator>)
    ensures a.gridSize == 0 && |inputs| > 0 ==> r == Err(ZeroDivisionError)
    ensures |inputs| == 0 ==> r == Ok(a)
    decreases |inputs|
  {
    if |inputs| == 0 then Ok(a)
    else
      match OnClick(a, inputs[0].event, inputs[0].x, inputs[0].y)
      case Err(e) => Err(e)
      case Ok(a') => Run(a', inputs[1..])
  }

  /** The cell a pixel falls in. */
  function CellOf(gridSize: int, x: int, y: int): Cell
    requires gridSize != 0
  {
    (FloorDiv(x, gridSize), FloorDiv(y, gridSize))
  }

  /** While a drag stays inside the cell it started in, the mouse's moves
      toggle nothing more: the cell was toggled once, by the press. */
  lemma {:induction false} DragWithinCell(a: Annotator, c: Cell, moves: seq<Input>)
    requires a.gridSize != 0 && a.isDragging && a.lastGridPos == Some(c)
    requires forall i | 0 <= i < |moves| ::
      moves[i].event == MouseMove && CellOf(a.gridSize, moves[i].x, moves[i].y) == c
    ensures Run(a, moves) == Ok(a)
    decreases |moves|
  {
    if |moves| > 0 {
      assert OnClick(a, moves[0].event, moves[0].x, moves[0].y) == Ok(a);
      DragWithinCell(a, c, moves[1..]);
    }
  }

  /** A press and release at one pixel, outside any drag, toggles that pixel's
      cell and leaves no drag behind. */
  lemma ClickToggles(a: Annotator, x: int, y: int)
    requires a.gridSize != 0 && a.Valid() && !a.isDragging
    ensures var r := Run(a, [Input(LButtonDown, x, y), Input(LButtonUp, x, y)]);
      && r.Ok?
      && r.value == a.(obstacles := Toggle(a.obstacles, CellOf(a.gridSize, x, y)))
  {
    var c := CellOf(a.gridSize, x, y);
    var a1 := OnClick(a, LButtonDown, x, y).value;
    assert Run(a, [Input(LButtonDown, x, y), Input(LButtonUp, x, y)]) == Run(a1, [Input(LButtonUp, x, y)]);
    assert Run(a1, [Input(LButtonUp, x, y)]) == Run(OnClick(a1, LButtonUp, x, y).value, []);
  }

  /** Clicking the same pixel twice leaves the map as it was. */
  lemma ClickTwiceRestores(a: Annotator, x: int, y: int)
    requires a.gridSize != 0 && a.Valid() && !a.isDragging
    ensures var click := [Input(LButtonDown, x, y), Input(LButtonUp, x, y)];
      && Run(a, click).Ok?
      && Run(Run(a, click).value, click) == Ok(a)
  {
    ClickToggles(a, x, y);
    var a1 := Run(a, [Input(LButtonDown, x, y), Input(LButtonUp, x, y)]).value;
    ClickToggles(a1, x, y);
    ToggleTwice(a.obstacles, CellOf(a.gridSize, x, y));
  }

  /** One `{"x": x, "y": y}` entry of `obstacles_list`. */
  datatype ObstacleRecord = ObstacleRecord(x: int, y: int)

  /** The cells a list of records names. */
  function RecordCells(r: seq<ObstacleRecord>): set<Cell> {
    set i | 0 <= i < |r| :: (r[i].x, r[i].y)
  }

  /** No record occurs twice. */
  predicate Distinct(r: seq<ObstacleRecord>) {
    forall i, j | 0 <= i < j < |r| :: r[i] != r[j]
  }

  /** `obstacles_list`: one record per obstacle cell, in the set's iteration
      order (which Python leaves unspecified, and this method picks freely). */
  method ObstacleRecords(obstacles: set<Cell>) returns (r: seq<ObstacleRecord>)
    ensures RecordCells(r) == obstacles
    ensures |r| == |obstacles|
    ensures Distinct(r)
  {
    var rest := obstacles;
    r := [];
    while rest != {}
      invariant rest <= obstacles
      invariant RecordCells(r) == obstacles - rest
      invariant |r| + |rest| == |obstacles|
      invariant Distinct(r)
      decreases |rest|
    {
      var c :| c in rest;
      assert forall i | 0 <= i < |r| :: (r[i].x, r[i].y) != c;
      AppendRecord(r, ObstacleRecord(c.0, c.1));
      r := r + [ObstacleRecord(c.0, c.1)];
      rest := rest - {c};
    }
  }

  lemma AppendRecord(r: seq<ObstacleRecord>, e: ObstacleRecord)
    ensures RecordCells(r + [e]) == RecordCells(r) + {(e.x, e.y)}
  {
    var s := r + [e];
    assert (s[|r|].x, s[|r|].y) == (e.x, e.y);
    forall c | c in RecordCells(s)
      ensures c in RecordCells(r) + {(e.x, e.y)}
    {
      var i :| 0 <= i < |s| && (s[i].x, s[i].y) == c;
      if i < |r| {
        assert (r[i].x, r[i].y) == c;
      }
    }
    forall c | c in RecordCells(r)
      ensures c in RecordCells(s)
    {
      var i :| 0 <= i < |r| && (r[i].x, r[i].y) == c;
      assert (s[i].x, s[i].y) == c;
    }
  }

  /** `annotation_data`, the object written to the annotation file. */
  datatype AnnotationData = AnnotationData(
    imagePath: string,
    squareSizeMeters: real,
    gridSizePixels: int,
    pixelsPerMeter: real,
    squaresPerMeter: real,
    obstacles: seq<ObstacleRecord>)

  /** The record-building part of `save_annotations`. */
  method SaveAnnotations(a: Annotator) returns (d: AnnotationData)
    ensures d.imagePath == a.imagePath && d.squareSizeMeters == a.squareSize && d.gridSizePixels == a.gridSize
    ensures d.pixelsPerMeter == a.pixelsPerMeter && d.squaresPerMeter == a.squaresPerMeter
    ensures RecordCells(d.obstacles) == a.obstacles && |d.obstacles| == |a.obstacles| && Distinct(d.obstacles)
  {
    var records := ObstacleRecords(a.obstacles);
    d := AnnotationData(a.imagePath, a.squareSize, a.gridSize, a.pixelsPerMeter, a.squaresPerMeter, records);
  }
}
