/**
 * The client grid: a 40 x 20 board of 50-pixel tiles that the user paints, tokens that the
 * user adds, drags, resizes and edits, a paint mode and a move mode, and a local palette.
 * Positions and radii are JavaScript numbers, modelled as reals; tile indices are integers.
 */
module Grid {
  import opened JsText
  import Paint
  import Color

  const BaseTileSize: int := 50
  const GridWidth: int := 2000
  const GridHeight: int := 1000
  /** `Math.floor(gridWidth / baseTileSize)`: both operands are positive, so integer division. */
  const NumCols: int := GridWidth / BaseTileSize
  const NumRows: int := GridHeight / BaseTileSize
  /** `Math.min(gridWidth / numCols, gridHeight / numRows)`, which is 50 for both. */
  const TileSize: real := 50.0
  /** `baseTileSize / 2`: the step by which a token's radius grows or shrinks. */
  const TokenSize: real := 25.0

  datatype Pos = Pos(x: real, y: real)

  datatype Token = Token(id: string, x: real, y: real, radius: real, color: string, nombre: string, vida: string)

  /** The tile column (or row) that a pixel coordinate falls in: `Math.floor(v / tileSize)`. */
  function TileIndex(v: real): int {
    (v / TileSize).Floor
  }

  /** A coordinate on a grid line: a whole multiple of the tile size. */
  predicate OnGridLine(v: real) {
    v == TileIndex(v) as real * TileSize
  }

  /** A coordinate at the middle of a tile. */
  predicate AtTileMiddle(v: real) {
    v == TileIndex(v) as real * TileSize + TileSize / 2.0
  }

  /** `Math.round((radius * 2) / tileSize)`: JavaScript rounds halves upwards. */
  function TilesCovered(radius: real): int {
    ((radius * 2.0) / TileSize + 0.5).Floor
  }

  function SnapCoord(v: real, offset: real): real {
    (TileIndex(v) as real + offset) * TileSize
  }

  /**
   * `snapToGrid`: a token whose diameter covers an even number of tiles is placed on the
   * grid lines, one covering an odd number in the middle of a tile; either way the snapped
   * point stays in the tile the point was in.
   */
  function SnapToGrid(x: real, y: real, radius: real): (p: Pos)
    ensures TilesCovered(radius) % 2 == 0 ==> OnGridLine(p.x) && OnGridLine(p.y)
    ensures TilesCovered(radius) % 2 != 0 ==> AtTileMiddle(p.x) && AtTileMiddle(p.y)
    ensures TileIndex(p.x) == TileIndex(x) && TileIndex(p.y) == TileIndex(y)
  {
    var offset := if TilesCovered(radius) % 2 == 0 then 0.0 else 0.5;
    SnapCoordInTile(x, offset);
    SnapCoordInTile(y, offset);
    Pos(SnapCoord(x, offset), SnapCoord(y, offset))
  }

  /** A snapped coordinate stays in its tile, at the tile's start or its middle. */
  lemma SnapCoordInTile(v: real, offset: real)
    requires offset == 0.0 || offset == 0.5
    ensures TileIndex(SnapCoord(v, offset)) == TileIndex(v)
  {
    assert SnapCoord(v, offset) / TileSize == TileIndex(v) as real + offset;
  }

  /** Snapping an already snapped point with the same radius leaves it where it is. */
  lemma SnapIdempotent(x: real, y: real, radius: real)
    ensures var p := SnapToGrid(x, y, radius); SnapToGrid(p.x, p.y, radius) == p
  {
    var p := SnapToGrid(x, y, radius);
    assert TileIndex(p.x) == TileIndex(x);
    assert TileIndex(p.y) == TileIndex(y);
  }

  /** Key "r": one token size larger, at most two tiles. */
  function GrowRadius(r: real): (g: real)
    ensures g <= TileSize * 2.0 && (g == r + TokenSize || g == TileSize * 2.0)
    ensures r + TokenSize <= TileSize * 2.0 ==> g == r + TokenSize
  {
    if r + TokenSize < TileSize * 2.0 then r + TokenSize else TileSize * 2.0
  }

  /** Key "f": one token size smaller, at least half a tile. */
  function ShrinkRadius(r: real): (s: real)
    ensures s >= TileSize / 2.0 && (s == r - TokenSize || s == TileSize / 2.0)
    ensures r - TokenSize >= TileSize / 2.0 ==> s == r - TokenSize
  {
    if r - TokenSize > TileSize / 2.0 then r - TokenSize else TileSize / 2.0
  }

  /** A radius between half a tile and two tiles, the range a new token starts in. */
  predicate RadiusInRange(r: real) {
    TileSize / 2.0 <= r <= TileSize * 2.0
  }

  /** Growing and shrinking keep a radius in range. */
  lemma RadiusStaysInRange(r: real)
    requires RadiusInRange(r)
    ensures RadiusInRange(GrowRadius(r)) && RadiusInRange(ShrinkRadius(r))
    ensures GrowRadius(r) >= r && ShrinkRadius(r) <= r
  {
  }

  /** One resize of a token: new radius, and its position snapped for that radius. */
  function ResizeToken(t: Token, grow: bool): (u: Token)
    ensures u.radius == (if grow then GrowRadius(t.radius) else ShrinkRadius(t.radius))
    ensures Pos(u.x, u.y) == SnapToGrid(t.x, t.y, u.radius)
    ensures u.id == t.id && u.color == t.color && u.nombre == t.nombre && u.vida == t.vida
  {
    var r := if grow then GrowRadius(t.radius) else ShrinkRadius(t.radius);
    var p := SnapToGrid(t.x, t.y, r);
    t.(radius := r, x := p.x, y := p.y)
  }

  /** The inner `setTokens` of the key handler: resizes every token with id `id`. */
  function ResizeSelected(tokens: seq<Token>, id: string, grow: bool): (r: seq<Token>)
    ensures |r| == |tokens|
    ensures forall i :: 0 <= i < |r| ==> r[i] == if tokens[i].id == id then ResizeToken(tokens[i], grow) else tokens[i]
  {
    seq(|tokens|, i requires 0 <= i < |tokens| => if tokens[i].id == id then ResizeToken(tokens[i], grow) else tokens[i])
  }

  /** How many tokens carry id `id`. */
  function CountId(tokens: seq<Token>, id: string): nat
    ensures CountId(tokens, id) <= |tokens|
  {
    if tokens == [] then 0
    else CountId(tokens[..|tokens| - 1], id) + (if tokens[|tokens| - 1].id == id then 1 else 0)
  }

  /** `n` resizes in a row. */
  function ResizeRepeated(tokens: seq<Token>, id: string, grow: bool, n: nat): seq<Token> {
    if n == 0 then tokens else ResizeSelected(ResizeRepeated(tokens, id, grow, n - 1), id, grow)
  }

  /** With one token per id, a key press resizes that token exactly once, and no other token. */
  lemma {:induction false} ResizeOnceWhenIdUnique(tokens: seq<Token>, id: string, grow: bool, k: nat)
    requires k < |tokens| && tokens[k].id == id
    requires forall j :: 0 <= j < |tokens| && j != k ==> tokens[j].id != id
    ensures CountId(tokens, id) == 1
    ensures ResizeRepeated(tokens, id, grow, CountId(tokens, id)) == tokens[k := ResizeToken(tokens[k], grow)]
  {
    CountIdOfUnique(tokens, id, k, |tokens|);
    assert tokens[..|tokens|] == tokens;
    var r := ResizeSelected(tokens, id, grow);
    assert ResizeRepeated(tokens, id, grow, 1) == r;
    assert forall i :: 0 <= i < |r| ==> r[i] == tokens[k := ResizeToken(tokens[k], grow)][i];
  }

  lemma {:induction false} CountIdOfUnique(tokens: seq<Token>, id: string, k: nat, n: nat)
    requires k < |tokens| && n <= |tokens| && tokens[k].id == id
    requires forall j :: 0 <= j < |tokens| && j != k ==> tokens[j].id != id
    ensures CountId(tokens[..n], id) == if k < n then 1 else 0
  {
    if n > 0 {
      assert tokens[..n][..n - 1] == tokens[..n - 1];
      CountIdOfUnique(tokens, id, k, n - 1);
    }
    assert tokens[..|tokens|] == tokens;
  }

  /** Resizing keeps every token radius in range. */
  lemma {:induction false} ResizeKeepsRadiiInRange(tokens: seq<Token>, id: string, grow: bool, n: nat)
    requires forall i :: 0 <= i < |tokens| ==> RadiusInRange(tokens[i].radius)
    ensures var r := ResizeRepeated(tokens, id, grow, n);
      |r| == |tokens| && forall i :: 0 <= i < |r| ==> RadiusInRange(r[i].radius)
  {
    if n > 0 {
      ResizeKeepsRadiiInRange(tokens, id, grow, n - 1);
      var prev := ResizeRepeated(tokens, id, grow, n - 1);
      forall i | 0 <= i < |prev|
        ensures RadiusInRange(ResizeSelected(prev, id, grow)[i].radius)
      {
        RadiusStaysInRange(prev[i].radius);
      }
    }
  }

  /** The first token with id `id`, as `tokens.find` returns it. */
  function FindToken(tokens: seq<Token>, id: string): (t: Option<Token>)
    ensures t.Some? ==> t.value in tokens && t.value.id == id
    ensures t.Some? ==> exists i :: 0 <= i < |tokens| && tokens[i] == t.value && forall j :: 0 <= j < i ==> tokens[j].id != id
    ensures t.None? ==> forall i :: 0 <= i < |tokens| ==> tokens[i].id != id
  {
    if tokens == [] then None
    else if tokens[0].id == id then Some(tokens[0])
    else
      var rest := FindToken(tokens[1..], id);
      if rest.Some? then FirstPastHead(tokens, id, rest.value); rest else rest
  }

  /** A first match in the tail is a first match in the whole list when the head does not match. */
  lemma FirstPastHead(tokens: seq<Token>, id: string, t: Token)
    requires |tokens| > 0 && tokens[0].id != id
    requires exists i :: 0 <= i < |tokens[1..]| && tokens[1..][i] == t && forall j :: 0 <= j < i ==> tokens[1..][j].id != id
    ensures exists i :: 0 <= i < |tokens| && tokens[i] == t && forall j :: 0 <= j < i ==> tokens[j].id != id
  {
    var k :| 0 <= k < |tokens[1..]| && tokens[1..][k] == t && forall j :: 0 <= j < k ==> tokens[1..][j].id != id;
    assert tokens[k + 1] == t && forall j :: 0 <= j < k + 1 ==> tokens[j].id != id;
  }

  /** Places every token with id `id` at `p`, keeping everything else. */
  function MoveTokens(tokens: seq<Token>, id: string, p: Pos): (r: seq<Token>)
    ensures |r| == |tokens|
    ensures forall i :: 0 <= i < |r| && tokens[i].id != id ==> r[i] == tokens[i]
    ensures forall i :: 0 <= i < |r| && tokens[i].id == id ==> r[i] == tokens[i].(x := p.x, y := p.y)
  {
    seq(|tokens|, i requires 0 <= i < |tokens| => if tokens[i].id == id then tokens[i].(x := p.x, y := p.y) else tokens[i])
  }

  /** The three fields the token context menu edits. */
  datatype TokenEdit = SetColor(hex: string) | SetNombre(nombre: string) | SetVida(vida: string)

  /** One context-menu edit of one token; a colour arrives as a colour input value. */
  function ApplyEdit(t: Token, e: TokenEdit): (u: Token)
    ensures u.id == t.id && u.x == t.x && u.y == t.y && u.radius == t.radius
    ensures u.color == (if e.SetColor? then Color.HexToRgb(e.hex) else t.color)
    ensures u.nombre == (if e.SetNombre? then e.nombre else t.nombre)
    ensures u.vida == (if e.SetVida? then e.vida else t.vida)
  {
    match e
    case SetColor(hex) => t.(color := Color.HexToRgb(hex))
    case SetNombre(n) => t.(nombre := n)
    case SetVida(v) => t.(vida := v)
  }

  /** A context-menu edit: applies to the tokens whose id equals `contextTokenId` and no other. */
  function EditTokens(tokens: seq<Token>, contextTokenId: Option<string>, e: TokenEdit): (r: seq<Token>)
    ensures |r| == |tokens|
    ensures forall i :: 0 <= i < |r| ==> r[i] == if Some(tokens[i].id) == contextTokenId then ApplyEdit(tokens[i], e) else tokens[i]
  {
    seq(|tokens|, i requires 0 <= i < |tokens| => if Some(tokens[i].id) == contextTokenId then ApplyEdit(tokens[i], e) else tokens[i])
  }

  /** With no token targeted, a context-menu edit changes nothing. */
  lemma EditWithoutTargetIsNoOp(tokens: seq<Token>, e: TokenEdit)
    ensures EditTokens(tokens, None, e) == tokens
  {
    assert forall i :: 0 <= i < |tokens| ==> EditTokens(tokens, None, e)[i] == tokens[i];
  }

  /** The token `addNewToken` creates: in the first tile, half a tile across, red, unnamed. */
  function NewToken(id: string): (t: Token)
    ensures t.x == 25.0 && t.y == 25.0 && t.radius == 25.0
    ensures t.id == id && t.color == "red" && t.nombre == "" && t.vida == ""
  {
    Token(id, 0.5 * TileSize, 0.5 * TileSize, TileSize / 2.0, "red", "", "")
  }

  /** A new token starts in the middle of the first tile, with a radius in range, snapped. */
  lemma NewTokenIsSnapped(id: string)
    ensures RadiusInRange(NewToken(id).radius)
    ensures SnapToGrid(NewToken(id).x, NewToken(id).y, NewToken(id).radius) == Pos(NewToken(id).x, NewToken(id).y)
  {
    var t := NewToken(id);
    assert TilesCovered(t.radius) == 1;
    assert TileIndex(t.x) == 0;
  }

  /** A tile index inside the board. */
  predicate InGrid(x: int, y: int) {
    0 <= x < NumCols && 0 <= y < NumRows
  }

  /** `paintTile`: outside the board nothing changes; inside it the paint rule applies to "x,y". */
  function PaintTileAt(tiles: map<string, string>, color: string, x: int, y: int): (r: map<string, string>)
    ensures !InGrid(x, y) ==> r == tiles
    ensures InGrid(x, y) ==> r == Paint.ApplyPaint(tiles, PosKey(x, y), color)
  {
    if x < 0 || x >= NumCols || y < 0 || y >= NumRows then tiles
    else Paint.ApplyPaint(tiles, PosKey(x, y), color)
  }

  /** A pointer lands on a board tile exactly when it is inside the 2000 x 1000 canvas. */
  lemma PointerTileInGrid(p: Pos)
    ensures InGrid(TileIndex(p.x), TileIndex(p.y)) <==> 0.0 <= p.x < GridWidth as real && 0.0 <= p.y < GridHeight as real
  {
  }

  /** Painting at tile (x, y) never touches the key of another tile. */
  lemma PaintTileTouchesOneKey(tiles: map<string, string>, color: string, x: int, y: int, x2: int, y2: int)
    requires x2 != x || y2 != y
    ensures var r := PaintTileAt(tiles, color, x, y);
      (PosKey(x2, y2) in r <==> PosKey(x2, y2) in tiles)
      && (PosKey(x2, y2) in r ==> r[PosKey(x2, y2)] == tiles[PosKey(x2, y2)])
  {
    if PosKey(x2, y2) == PosKey(x, y) {
      PosKeyInjective(x2, y2, x, y);
    }
  }

  /** The palette the grid starts with. */
  const InitialColors: seq<string> := [
    "rgb(255, 255, 255)", "rgb(0, 0, 0)", "rgb(255, 76, 76)", "rgb(255, 0, 0)",
    "rgb(178, 0, 0)", "rgb(255, 255, 76)", "rgb(255, 255, 0)", "rgb(178, 178, 0)",
    "rgb(76, 76, 255)", "rgb(0, 0, 255)", "rgb(0, 0, 178)", "rgb(76, 166, 76)",
    "rgb(0, 128, 0)", "rgb(0, 89, 0)", "rgb(255, 190, 76)", "rgb(255, 165, 0)",
    "rgb(178, 115, 0)", "rgb(166, 76, 166)", "rgb(128, 0, 128)", "rgb(89, 0, 89)"
  ]

  /** `e.key.toLowerCase() === k` for a lower-case letter `k`. */
  predicate IsKey(key: string, k: char)
    requires 'a' <= k <= 'z'
  {
    key == [k] || key == [(k as int - 'a' as int + 'A' as int) as char]
  }

  /** The state of the grid component. */
  class Board {
    var tokens: seq<Token>
    var selectedTokenId: Option<string>
    var paintMode: bool
    var moveMode: bool
    var isDraggingPlayer: bool
    var isDrawing: bool
    var contextMenuVisible: bool
    var contextTokenId: Option<string>
    var paintedTiles: map<string, string>
    var selectedColor: string
    var colors: seq<string>
    var pickerIndex: Option<nat>

    /** Paint mode and move mode are never on together; an open picker names a slot. */
    ghost predicate Valid()
      reads this
    {
      && !(paintMode && moveMode)
      && (pickerIndex.Some? ==> pickerIndex.value < |colors|)
    }

    constructor()
      ensures Valid()
      ensures tokens == [] && selectedTokenId == None && paintedTiles == map[]
      ensures !paintMode && !moveMode && !isDraggingPlayer && !isDrawing
      ensures !contextMenuVisible && contextTokenId == None
      ensures selectedColor == "orange" && colors == InitialColors && pickerIndex == None
    {
      tokens := [];
      selectedTokenId := None;
      paintMode := false;
      moveMode := false;
      isDraggingPlayer := false;
      isDrawing := false;
      contextMenuVisible := false;
      contextTokenId := None;
      paintedTiles := map[];
      selectedColor := "orange";
      colors := InitialColors;
      pickerIndex := None;
    }

    /** `paintTile`: copies the map, then deletes or sets the key of tile (x, y). */
    method PaintTile(x: int, y: int)
      modifies this`paintedTiles
      requires Valid()
      ensures Valid()
      ensures paintedTiles == PaintTileAt(old(paintedTiles), selectedColor, x, y)
    {
      if x < 0 || x >= NumCols || y < 0 || y >= NumRows {
        return;
      }
      var newMap := paintedTiles;
      var key := PosKey(x, y);
      if selectedColor == Paint.White {
        newMap := newMap - {key};
      } else {
        newMap := newMap[key := selectedColor];
      }
      paintedTiles := newMap;
    }

    /** Turning move mode on turns paint mode off. */
    method ToggleMoveMode()
      modifies this`moveMode, this`paintMode
      requires Valid()
      ensures Valid()
      ensures moveMode == !old(moveMode)
      ensures paintMode == (old(paintMode) && !moveMode)
    {
      if !moveMode {
        paintMode := false;
      }
      moveMode := !moveMode;
    }

    /** Turning paint mode on turns move mode off. */
    method TogglePaintMode()
      modifies this`paintMode, this`moveMode
      requires Valid()
      ensures Valid()
      ensures paintMode == !old(paintMode)
      ensures moveMode == (old(moveMode) && !paintMode)
    {
      if !paintMode {
        moveMode := false;
      }
      paintMode := !paintMode;
    }

    /** `addNewToken`, with the id that `crypto.randomUUID` would give. */
    method AddNewToken(id: string)
      modifies this`tokens
      requires Valid()
      ensures Valid()
      ensures tokens == old(tokens) + [NewToken(id)]
    {
      tokens := tokens + [NewToken(id)];
    }

    /** A press on the stage in paint mode starts drawing and paints the tile under the pointer. */
    method HandleMouseDown(pointer: Option<Pos>)
      modifies this`isDrawing, this`paintedTiles
      requires Valid()
      ensures Valid()
      ensures !old(paintMode) ==> paintedTiles == old(paintedTiles) && isDrawing == old(isDrawing)
      ensures old(paintMode) ==> isDrawing
      ensures old(paintMode) && pointer.Some? ==>
        paintedTiles == PaintTileAt(old(paintedTiles), selectedColor, TileIndex(pointer.value.x), TileIndex(pointer.value.y))
      ensures pointer.None? ==> paintedTiles == old(paintedTiles)
    {
      if !paintMode {
        return;
      }
      isDrawing := true;
      if pointer.None? {
        return;
      }
      PaintTile(TileIndex(pointer.value.x), TileIndex(pointer.value.y));
    }

    /**
     * A pointer move on the stage: paints the tile under the pointer while drawing in paint
     * mode, then drags the selected token while dragging in move mode.
     */
    method HandleMouseMove(pointer: Option<Pos>)
      modifies this`paintedTiles, this`tokens
      requires Valid()
      ensures Valid()
      ensures var painting := paintMode && isDrawing && pointer.Some?;
        paintedTiles == if painting then PaintTileAt(old(paintedTiles), selectedColor, TileIndex(pointer.value.x), TileIndex(pointer.value.y)) else old(paintedTiles)
      ensures var found := if Truthy(selectedTokenId) then FindToken(old(tokens), selectedTokenId.value) else None;
        tokens == if moveMode && isDraggingPlayer && pointer.Some? && found.Some?
          then MoveTokens(old(tokens), selectedTokenId.value, SnapToGrid(pointer.value.x, pointer.value.y, found.value.radius))
          else old(tokens)
    {
      if paintMode && isDrawing && pointer.Some? {
        PaintTile(TileIndex(pointer.value.x), TileIndex(pointer.value.y));
      }
      MovePlayer(pointer);
    }

    /** `handleMouseMovePlayer`. */
    method MovePlayer(pointer: Option<Pos>)
      modifies this`tokens
      requires Valid()
      ensures Valid()
      ensures var found := if Truthy(selectedTokenId) then FindToken(old(tokens), selectedTokenId.value) else None;
        tokens == if moveMode && isDraggingPlayer && pointer.Some? && found.Some?
          then MoveTokens(old(tokens), selectedTokenId.value, SnapToGrid(pointer.value.x, pointer.value.y, found.value.radius))
          else old(tokens)
    {
      if !moveMode || !isDraggingPlayer || !Truthy(selectedTokenId) {
        return;
      }
      if pointer.None? {
        return;
      }
      var selected := FindToken(tokens, selectedTokenId.value);
      if selected.None? {
        return;
      }
      var p := SnapToGrid(pointer.value.x, pointer.value.y, selected.value.radius);
      tokens := MoveTokens(tokens, selectedTokenId.value, p);
    }

    /** Releasing the pointer stops drawing and dragging. */
    method HandleMouseUp()
      modifies this`isDrawing, this`isDraggingPlayer
      requires Valid()
      ensures Valid()
      ensures !isDrawing && !isDraggingPlayer
    {
      isDrawing := false;
      isDraggingPlayer := false;
    }

    /** A press on a token in move mode selects it and starts dragging it. */
    method HandleTokenMouseDown(id: string)
      modifies this`selectedTokenId, this`isDraggingPlayer
      requires Valid()
      ensures Valid()
      ensures old(moveMode) ==> selectedTokenId == Some(id) && isDraggingPlayer
      ensures !old(moveMode) ==> selectedTokenId == old(selectedTokenId) && isDraggingPlayer == old(isDraggingPlayer)
    {
      if moveMode {
        selectedTokenId := Some(id);
        isDraggingPlayer := true;
      }
    }

    /**
     * The key handler: with a selected token, the outer update walks the token list and, for
     * each token carrying the selected id, queues one resize of every such token ("r" grows,
     * "f" shrinks).
     */
    method HandleKeyDown(key: string)
      modifies this`tokens
      requires Valid()
      ensures Valid()
      ensures !Truthy(selectedTokenId) ==> tokens == old(tokens)
      ensures Truthy(selectedTokenId) && IsKey(key, 'r') ==>
        tokens == ResizeRepeated(old(tokens), selectedTokenId.value, true, CountId(old(tokens), selectedTokenId.value))
      ensures Truthy(selectedTokenId) && IsKey(key, 'f') ==>
        tokens == ResizeRepeated(old(tokens), selectedTokenId.value, false, CountId(old(tokens), selectedTokenId.value))
      ensures !IsKey(key, 'r') && !IsKey(key, 'f') ==> tokens == old(tokens)
    {
      if !Truthy(selectedTokenId) {
        return;
      }
      var id := selectedTokenId.value;
      var grow := IsKey(key, 'r');
      if !grow && !IsKey(key, 'f') {
        return;
      }
      tokens := ResizeEach(tokens, id, grow);
    }

    /**
     * The key handler's loop: for every token that carries the id, the whole list is
     * resized once more, so `n` tokens with the id mean `n` resizes of each of them.
     */
    static method ResizeEach(previous: seq<Token>, id: string, grow: bool) returns (updated: seq<Token>)
      ensures updated == ResizeRepeated(previous, id, grow, CountId(previous, id))
    {
      updated := previous;
      var i := 0;
      ghost var count := 0;
      while i < |previous|
        invariant 0 <= i <= |previous|
        invariant count == CountId(previous[..i], id)
        invariant updated == ResizeRepeated(previous, id, grow, count)
      {
        assert previous[..i + 1][..i] == previous[..i];
        if previous[i].id == id {
          updated := ResizeSelected(updated, id, grow);
          count := count + 1;
        }
        i := i + 1;
      }
      assert previous[..|previous|] == previous;
    }

    /** A right click on a token opens its context menu. */
    method HandleTokenContextMenu(id: string)
      modifies this`contextTokenId, this`contextMenuVisible
      requires Valid()
      ensures Valid()
      ensures contextTokenId == Some(id) && contextMenuVisible
    {
      contextTokenId := Some(id);
      contextMenuVisible := true;
    }

    /** A click anywhere else (or the close button) closes the context menu. */
    method CloseContextMenu()
      modifies this`contextMenuVisible, this`contextTokenId
      requires Valid()
      ensures Valid()
      ensures contextTokenId == None && !contextMenuVisible
    {
      contextMenuVisible := false;
      contextTokenId := None;
    }

    /** An edit in the context menu: the colour, the name or the health of the targeted token. */
    method EditContextToken(e: TokenEdit)
      modifies this`tokens
      requires Valid()
      ensures Valid()
      ensures tokens == EditTokens(old(tokens), contextTokenId, e)
    {
      tokens := EditTokens(tokens, contextTokenId, e);
    }

    /** A click on a palette slot selects its colour. */
    method SelectColor(index: nat)
      modifies this`selectedColor
      requires Valid() && index < |colors|
      ensures Valid()
      ensures selectedColor == colors[index]
    {
      selectedColor := colors[index];
    }

    /** A right click on a palette slot opens the colour input for it. */
    method OpenPicker(index: nat)
      modifies this`pickerIndex
      requires Valid() && index < |colors|
      ensures Valid()
      ensures pickerIndex == Some(index)
    {
      pickerIndex := Some(index);
    }

    /** Leaving the colour input closes it. */
    method ClosePicker()
      modifies this`pickerIndex
      requires Valid()
      ensures Valid()
      ensures pickerIndex == None
    {
      pickerIndex := None;
    }

    /**
     * The grid's own `handleColorChange`: replaces the open slot with `hexToRgb(value)`; unlike
     * the palette component it never changes the selected colour.
     */
    method HandleColorChange(value: string)
      modifies this`colors
      requires Valid()
      ensures Valid()
      ensures old(pickerIndex).None? ==> colors == old(colors)
      ensures old(pickerIndex).Some? ==> colors == old(colors)[old(pickerIndex).value := Color.HexToRgb(value)]
    {
      if pickerIndex.None? {
        return;
      }
      var newColors := colors;
      newColors := newColors[pickerIndex.value := Color.HexToRgb(value)];
      colors := newColors;
    }
  }

}
