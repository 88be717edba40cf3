/**
 * The scene the hub keeps in memory and what one inbound message does to it: painted tiles
 * and edges, tokens and areas keyed by id, the fogged tiles, the background images, the
 * audio tracks, the laser colour of each user and the current measurement. Every mutation
 * is a function of the old scene and the message; the hub object applies them in place.
 */
module World {
  import opened JsText
  import Paint

  // ---------------------------------------------------------------------------------------
  // Entities
  // ---------------------------------------------------------------------------------------

  datatype Token = Token(
    id: string, x: real, y: real, radius: real, color: string, nombre: string, vida: string,
    imageBase64: Option<string>, muerto: Option<bool>)

  /** The properties an `UPDATE_TOKEN` message may carry; `None` means the key is absent. */
  datatype TokenUpdates = TokenUpdates(
    id: Option<string>, x: Option<real>, y: Option<real>, radius: Option<real>,
    color: Option<string>, nombre: Option<string>, vida: Option<string>,
    imageBase64: Option<string>, muerto: Option<bool>)

  datatype AreaKind = Circle | Square | Cone

  datatype Area = Area(id: string, x: real, y: real, size: real, kind: AreaKind, rotation: Option<real>)

  datatype Point = Point(x: real, y: real)

  datatype Measurement = Measurement(start: Point, end: Point)

  datatype BackgroundImage = BackgroundImage(id: string, src: string, x: real, y: real, width: real, height: real)

  datatype Track = Track(id: string, name: string, src: string, isPlaying: bool, volume: real)

  datatype EdgeUpdate = EdgeUpdate(key: string, color: string)

  /** Inbound messages, one variant per `type` the hub reads, with the payload fields it reads. */
  datatype Message =
    /** The `PAINT_TILE` coordinates are modelled as integers. */
    | PaintTile(tileX: int, tileY: int, color: string)
    | PaintEdge(edgeUpdates: seq<EdgeUpdate>)
    | AddToken(token: Token)
    | MoveToken(id: string, x: real, y: real)
    | ResizeToken(id: string, x: real, y: real, radius: real)
    | DeleteToken(id: string)
    | AddArea(area: Area)
    | MoveArea(id: string, x: real, y: real)
    | TransformArea(id: string, size: real, rotation: Option<real>)
    | DeleteArea(id: string)
    | Measure(start: Point, end: Point)
    | LaserPath(pathUserId: Option<string>, pathColor: Option<string>)
    | SetLaserColor(userId: string, color: string)
    | AddBackgroundImage(image: BackgroundImage)
    | DeleteBackgroundImage(id: string)
    | MoveBackgroundImage(id: string, x: real, y: real, width: real, height: real)
    | ResizeBackgroundImage(id: string, width: real, height: real)
    /** `None` stands for a payload that is not an array. */
    | FogAddTiles(tiles: Option<seq<string>>)
    | FogRemoveTiles(tiles: Option<seq<string>>)
    | TokenImage(id: string, base64: string)
    | UpdateTokenDeadStatus(id: string, muerto: bool)
    | UpdateToken(id: string, updates: TokenUpdates)
    | AddAudioTrack(track: Track)
    | RemoveAudioTrack(id: string)
    | UpdateAudioTrack(id: string, isPlaying: Option<bool>, volume: Option<real>)
    /** Any other `type`: the hub only relays it. */
    | Other(kind: string)

  /** Outbound messages: a relayed inbound message, the audio sync, or a snapshot part. */
  datatype Outbound =
    | Relay(message: Message)
    | SyncAudioTracks(tracks: seq<Track>)
    | InitAudioTracks(tracks: seq<Track>)
    | InitState(paintedTiles: map<string, string>)
    | InitEdges(paintedEdges: map<string, string>)
    | InitFog(fog: seq<string>)
    | InitTokens(tokens: map<string, Token>)
    | InitAreas(areas: map<string, Area>)
    | InitBackgroundImages(images: seq<BackgroundImage>)

  /** The whole in-memory store of the hub. */
  datatype Scene = Scene(
    paintedTiles: map<string, string>,
    tokens: map<string, Token>,
    paintedEdges: map<string, string>,
    areas: map<string, Area>,
    currentMeasurement: Option<Measurement>,
    foggedTiles: seq<string>,
    laserColors: map<string, string>,
    backgroundImages: seq<BackgroundImage>,
    activeAudioTracks: seq<Track>)

  const EmptyScene := Scene(map[], map[], map[], map[], None, [], map[], [], [])

  // ---------------------------------------------------------------------------------------
  // Sequences
  // ---------------------------------------------------------------------------------------

  predicate NoDuplicates<T(==)>(xs: seq<T>) {
    forall i, j :: 0 <= i < j < |xs| ==> xs[i] != xs[j]
  }

  function Elements<T>(xs: seq<T>): set<T> {
    set x | x in xs
  }

  /** `Array.prototype.filter`: the elements that pass, in their order. */
  function Filter<T(!new)>(xs: seq<T>, keep: T -> bool): (r: seq<T>)
    ensures |r| <= |xs|
    ensures forall x :: x in r <==> x in xs && keep(x)
  {
    if xs == [] then []
    else
      var rest := Filter(xs[..|xs| - 1], keep);
      var last := xs[|xs| - 1];
      assert forall x :: x in xs <==> x in xs[..|xs| - 1] || x == last;
      if keep(last) then rest + [last] else rest
  }

  /** Filtering works piece by piece, so the kept elements keep their order. */
  lemma {:induction false} FilterAppend<T(!new)>(a: seq<T>, b: seq<T>, keep: T -> bool)
    ensures Filter(a + b, keep) == Filter(a, keep) + Filter(b, keep)
    decreases |b|
  {
    if b != [] {
      var last := b[|b| - 1];
      assert (a + b)[..|a + b| - 1] == a + b[..|b| - 1];
      FilterAppend(a, b[..|b| - 1], keep);
    } else {
      assert a + b == a;
    }
  }

  /** A list where nothing passes filters to the empty list, and one where all pass is kept. */
  lemma {:induction false} FilterAll<T(!new)>(xs: seq<T>, keep: T -> bool)
    ensures (forall x :: x in xs ==> keep(x)) ==> Filter(xs, keep) == xs
  {
    if xs != [] && forall x :: x in xs ==> keep(x) {
      assert forall x :: x in xs[..|xs| - 1] ==> x in xs;
      FilterAll(xs[..|xs| - 1], keep);
      assert xs[..|xs| - 1] + [xs[|xs| - 1]] == xs;
    }
  }

  /** How many elements satisfy `p`. */
  function Count<T>(xs: seq<T>, p: T -> bool): (n: nat)
    ensures n <= |xs|
  {
    if xs == [] then 0 else Count(xs[..|xs| - 1], p) + (if p(xs[|xs| - 1]) then 1 else 0)
  }

  /** Filtering never adds an element that satisfies `p`. */
  lemma {:induction false} CountFilter<T(!new)>(xs: seq<T>, keep: T -> bool, p: T -> bool)
    ensures Count(Filter(xs, keep), p) <= Count(xs, p)
  {
    if xs != [] {
      var rest := Filter(xs[..|xs| - 1], keep);
      CountFilter(xs[..|xs| - 1], keep, p);
      if keep(xs[|xs| - 1]) {
        assert (rest + [xs[|xs| - 1]])[..|rest|] == rest;
      }
    }
  }

  // ---------------------------------------------------------------------------------------
  // Painted edges
  // ---------------------------------------------------------------------------------------

  /**
   * The `updates` of a `PAINT_EDGE` message applied in order, each by the tombstone rule, so
   * white is never stored; an edge no update names keeps its colour.
   */
  function ApplyEdgeUpdates(edges: map<string, string>, updates: seq<EdgeUpdate>): (r: map<string, string>)
    ensures Paint.NoTombstones(edges) ==> Paint.NoTombstones(r)
    ensures forall k :: k in edges && (forall i :: 0 <= i < |updates| ==> updates[i].key != k) ==> k in r && r[k] == edges[k]
  {
    if updates == [] then edges
    else
      var last := updates[|updates| - 1];
      Paint.ApplyPaint(ApplyEdgeUpdates(edges, updates[..|updates| - 1]), last.key, last.color)
  }

  /** The colour of the last update to `key` in a batch, if any. */
  function LastColor(updates: seq<EdgeUpdate>, key: string): Option<string> {
    if updates == [] then None
    else if updates[|updates| - 1].key == key then Some(updates[|updates| - 1].color)
    else LastColor(updates[..|updates| - 1], key)
  }

  /**
   * In a batch of edge updates the last update to a key decides it: white removes it, any
   * other colour is stored. A key no update names keeps what it had.
   */
  lemma {:induction false} EdgeLastUpdateWins(edges: map<string, string>, updates: seq<EdgeUpdate>, key: string)
    ensures var r := ApplyEdgeUpdates(edges, updates);
      match LastColor(updates, key)
      case None => (key in r <==> key in edges) && (key in edges ==> r[key] == edges[key])
      case Some(c) => (c == Paint.White ==> key !in r) && (c != Paint.White ==> key in r && r[key] == c)
  {
    if updates != [] {
      EdgeLastUpdateWins(edges, updates[..|updates| - 1], key);
    }
  }

  // ---------------------------------------------------------------------------------------
  // Tokens and areas
  // ---------------------------------------------------------------------------------------

  /** `ADD_TOKEN` stores the seven listed fields; an image or death mark in the payload is dropped. */
  function StoredToken(t: Token): (s: Token)
    ensures s.imageBase64 == None && s.muerto == None
    ensures s.(imageBase64 := t.imageBase64, muerto := t.muerto) == t
  {
    Token(t.id, t.x, t.y, t.radius, t.color, t.nombre, t.vida, None, None)
  }

  /** `Object.assign(token, updates)`: every key present in `updates` overwrites the token's. */
  function Assign(t: Token, u: TokenUpdates): (r: Token)
    ensures u.id.None? ==> r.id == t.id
    ensures u.x.None? ==> r.x == t.x
    ensures u.y.None? ==> r.y == t.y
    ensures u.radius.None? ==> r.radius == t.radius
    ensures u.color.None? ==> r.color == t.color
    ensures u.nombre.None? ==> r.nombre == t.nombre
    ensures u.vida.None? ==> r.vida == t.vida
    ensures u.imageBase64.None? ==> r.imageBase64 == t.imageBase64
    ensures u.muerto.None? ==> r.muerto == t.muerto
    ensures u.id.Some? ==> r.id == u.id.value
    ensures u.x.Some? ==> r.x == u.x.value
    ensures u.y.Some? ==> r.y == u.y.value
    ensures u.radius.Some? ==> r.radius == u.radius.value
    ensures u.color.Some? ==> r.color == u.color.value
    ensures u.nombre.Some? ==> r.nombre == u.nombre.value
    ensures u.vida.Some? ==> r.vida == u.vida.value
    ensures u.imageBase64.Some? ==> r.imageBase64 == u.imageBase64
    ensures u.muerto.Some? ==> r.muerto == u.muerto
  {
    Token(
      u.id.GetOr(t.id), u.x.GetOr(t.x), u.y.GetOr(t.y), u.radius.GetOr(t.radius),
      u.color.GetOr(t.color), u.nombre.GetOr(t.nombre), u.vida.GetOr(t.vida),
      if u.imageBase64.Some? then u.imageBase64 else t.imageBase64,
      if u.muerto.Some? then u.muerto else t.muerto)
  }

  /** Assigning the same updates twice is assigning them once, and every present key wins. */
  lemma AssignIdempotent(t: Token, u: TokenUpdates)
    ensures Assign(Assign(t, u), u) == Assign(t, u)
    ensures u.id.Some? ==> Assign(t, u).id == u.id.value
    ensures u.color.Some? ==> Assign(t, u).color == u.color.value
    ensures u.muerto.Some? ==> Assign(t, u).muerto == u.muerto
  {
  }

  /**
   * The change a token message makes to the entry of `id`, when the entry exists. Only the
   * fields the message names change.
   */
  function EditToken(t: Token, msg: Message): (r: Token)
    requires msg.MoveToken? || msg.ResizeToken? || msg.TokenImage? || msg.UpdateTokenDeadStatus? || msg.UpdateToken?
  {
    match msg
    case MoveToken(_, x, y) => t.(x := x, y := y)
    case ResizeToken(_, x, y, radius) => t.(x := x, y := y, radius := radius)
    case TokenImage(_, base64) => t.(imageBase64 := Some(base64))
    case UpdateTokenDeadStatus(_, muerto) => t.(muerto := Some(muerto))
    case UpdateToken(_, updates) => Assign(t, updates)
  }

  /** A token message: an unknown id changes nothing; a known id changes that entry only. */
  function UpdateTokenEntry(tokens: map<string, Token>, id: string, msg: Message): (r: map<string, Token>)
    requires msg.MoveToken? || msg.ResizeToken? || msg.TokenImage? || msg.UpdateTokenDeadStatus? || msg.UpdateToken?
    ensures id !in tokens ==> r == tokens
    ensures r.Keys == tokens.Keys
    ensures forall k :: k in tokens && k != id ==> r[k] == tokens[k]
    ensures id in tokens ==> r[id] == EditToken(tokens[id], msg)
  {
    if id in tokens then tokens[id := EditToken(tokens[id], msg)] else tokens
  }

  /** The change an area message makes to the entry of `id`, when the entry exists. */
  function EditArea(a: Area, msg: Message): Area
    requires msg.MoveArea? || msg.TransformArea?
  {
    match msg
    case MoveArea(_, x, y) => a.(x := x, y := y)
    case TransformArea(_, size, rotation) => a.(size := size, rotation := rotation)
  }

  function UpdateAreaEntry(areas: map<string, Area>, id: string, msg: Message): (r: map<string, Area>)
    requires msg.MoveArea? || msg.TransformArea?
    ensures id !in areas ==> r == areas
    ensures r.Keys == areas.Keys
    ensures forall k :: k in areas && k != id ==> r[k] == areas[k]
    ensures id in areas ==> r[id] == EditArea(areas[id], msg)
  {
    if id in areas then areas[id := EditArea(areas[id], msg)] else areas
  }

  // ---------------------------------------------------------------------------------------
  // Fog
  // ---------------------------------------------------------------------------------------

  /** `Set.prototype.add` on an insertion-ordered set. */
  function AddTile(fog: seq<string>, tile: string): seq<string> {
    if tile in fog then fog else fog + [tile]
  }

  /** `Set.prototype.delete` on an insertion-ordered set. */
  function DeleteTile(fog: seq<string>, tile: string): seq<string> {
    Filter(fog, t => t != tile)
  }

  /** `FOG_ADD_TILES`: each tile added in turn; the old tiles stay in front, in their order. */
  function FogAdd(fog: seq<string>, tiles: seq<string>): (r: seq<string>)
    ensures forall t :: t in r <==> t in fog || t in tiles
    ensures |fog| <= |r| && r[..|fog|] == fog
  {
    if tiles == [] then fog
    else
      var before := FogAdd(fog, tiles[..|tiles| - 1]);
      var t := tiles[|tiles| - 1];
      assert forall x :: x in tiles <==> x in tiles[..|tiles| - 1] || x == t;
      assert (before + [t])[..|fog|] == before[..|fog|];
      AddTile(before, t)
  }

  /** `FOG_REMOVE_TILES`: each tile deleted in turn. */
  function FogRemove(fog: seq<string>, tiles: seq<string>): (r: seq<string>)
    ensures forall t :: t in r <==> t in fog && t !in tiles
    ensures |r| <= |fog|
  {
    if tiles == [] then fog
    else
      var t := tiles[|tiles| - 1];
      assert forall x :: x in tiles <==> x in tiles[..|tiles| - 1] || x == t;
      DeleteTile(FogRemove(fog, tiles[..|tiles| - 1]), t)
  }

  /** Adding one tile: union with that tile, no repeats, the old tiles in front. */
  lemma AddTileIsUnion(fog: seq<string>, t: string)
    requires NoDuplicates(fog)
    ensures var r := AddTile(fog, t);
      && Elements(r) == Elements(fog) + {t}
      && NoDuplicates(r)
      && |r| >= |fog| && r[..|fog|] == fog
  {
    if t !in fog {
      assert (fog + [t])[..|fog|] == fog;
    }
  }

  /** Removing one tile: difference with that tile, no repeats. */
  lemma DeleteTileIsDifference(fog: seq<string>, t: string)
    requires NoDuplicates(fog)
    ensures var r := DeleteTile(fog, t);
      && Elements(r) == Elements(fog) - {t}
      && NoDuplicates(r)
  {
    FilterKeepsNoDuplicates(fog, x => x != t);
  }

  lemma ElementsOfSnoc<T>(xs: seq<T>)
    requires xs != []
    ensures Elements(xs) == Elements(xs[..|xs| - 1]) + {xs[|xs| - 1]}
  {
    assert xs == xs[..|xs| - 1] + [xs[|xs| - 1]];
  }

  /**
   * Adding tiles is set union: the fogged tiles afterwards are the old ones and the added
   * ones, still without repeats, and the old tiles keep their places at the front.
   */
  lemma {:induction false} FogAddIsUnion(fog: seq<string>, tiles: seq<string>)
    requires NoDuplicates(fog)
    ensures var r := FogAdd(fog, tiles);
      && Elements(r) == Elements(fog) + Elements(tiles)
      && NoDuplicates(r)
      && |r| >= |fog| && r[..|fog|] == fog
  {
    if tiles != [] {
      var prefix := tiles[..|tiles| - 1];
      FogAddIsUnion(fog, prefix);
      var before := FogAdd(fog, prefix);
      AddTileIsUnion(before, tiles[|tiles| - 1]);
      ElementsOfSnoc(tiles);
      var r := FogAdd(fog, tiles);
      assert r[..|before|] == before;
      assert r[..|fog|] == before[..|fog|];
    }
  }

  /**
   * Removing tiles is set difference: the fogged tiles afterwards are the old ones except
   * the removed ones, still without repeats.
   */
  lemma {:induction false} FogRemoveIsDifference(fog: seq<string>, tiles: seq<string>)
    requires NoDuplicates(fog)
    ensures var r := FogRemove(fog, tiles);
      && Elements(r) == Elements(fog) - Elements(tiles)
      && NoDuplicates(r)
  {
    if tiles != [] {
      var prefix := tiles[..|tiles| - 1];
      FogRemoveIsDifference(fog, prefix);
      DeleteTileIsDifference(FogRemove(fog, prefix), tiles[|tiles| - 1]);
      ElementsOfSnoc(tiles);
    }
  }

  lemma {:induction false} FilterKeepsNoDuplicates<T(!new)>(xs: seq<T>, keep: T -> bool)
    requires NoDuplicates(xs)
    ensures NoDuplicates(Filter(xs, keep))
  {
    if xs != [] {
      var prefix := xs[..|xs| - 1];
      assert NoDuplicates(prefix);
      FilterKeepsNoDuplicates(prefix, keep);
      var last := xs[|xs| - 1];
      assert last !in prefix;
    }
  }

  /** Adding tiles that are all fogged already changes nothing. */
  lemma {:induction false} FogAddPresent(fog: seq<string>, tiles: seq<string>)
    requires forall t :: t in tiles ==> t in fog
    ensures FogAdd(fog, tiles) == fog
  {
    if tiles != [] {
      FogAddPresent(fog, tiles[..|tiles| - 1]);
    }
  }

  /** Removing tiles none of which is fogged changes nothing. */
  lemma {:induction false} FogRemoveAbsent(fog: seq<string>, tiles: seq<string>)
    requires forall t :: t in tiles ==> t !in fog
    ensures FogRemove(fog, tiles) == fog
  {
    if tiles != [] {
      FogRemoveAbsent(fog, tiles[..|tiles| - 1]);
      FilterAll(fog, x => x != tiles[|tiles| - 1]);
    }
  }

  /** Adding the same tiles twice, or removing them twice, is doing it once. */
  lemma FogIdempotent(fog: seq<string>, tiles: seq<string>)
    requires NoDuplicates(fog)
    ensures FogAdd(FogAdd(fog, tiles), tiles) == FogAdd(fog, tiles)
    ensures FogRemove(FogRemove(fog, tiles), tiles) == FogRemove(fog, tiles)
  {
    FogAddIsUnion(fog, tiles);
    var added := FogAdd(fog, tiles);
    assert forall t :: t in tiles ==> t in Elements(tiles);
    assert forall t :: t in Elements(added) ==> t in added;
    FogAddPresent(added, tiles);
    FogRemoveIsDifference(fog, tiles);
    var removed := FogRemove(fog, tiles);
    assert forall t :: t in removed ==> t in Elements(removed);
    FogRemoveAbsent(removed, tiles);
  }

  // ---------------------------------------------------------------------------------------
  // Background images
  // ---------------------------------------------------------------------------------------

  /** `DELETE_BACKGROUND_IMAGE`: every image with that id goes, the others stay in order. */
  function DeleteImages(images: seq<BackgroundImage>, id: string): (r: seq<BackgroundImage>)
    ensures forall img :: img in r <==> img in images && img.id != id
  {
    Filter(images, (img: BackgroundImage) => img.id != id)
  }

  /** Deleting from two runs of images deletes from each, keeping their order. */
  lemma DeleteImagesAppend(a: seq<BackgroundImage>, b: seq<BackgroundImage>, id: string)
    ensures DeleteImages(a + b, id) == DeleteImages(a, id) + DeleteImages(b, id)
  {
    FilterAppend(a, b, (img: BackgroundImage) => img.id != id);
  }

  /** `Array.prototype.find` by id, as an index. */
  function FindImage(images: seq<BackgroundImage>, id: string): (r: Option<nat>)
    ensures r.None? ==> forall i :: 0 <= i < |images| ==> images[i].id != id
    ensures r.Some? ==> r.value < |images| && images[r.value].id == id
    ensures r.Some? ==> forall i :: 0 <= i < r.value ==> images[i].id != id
  {
    if images == [] then None
    else if images[0].id == id then Some(0)
    else
      match FindImage(images[1..], id)
      case None => None
      case Some(i) => Some(i + 1)
  }

  /** The change an image message makes to the first image with its id. */
  function EditImage(img: BackgroundImage, msg: Message): BackgroundImage
    requires msg.MoveBackgroundImage? || msg.ResizeBackgroundImage?
  {
    match msg
    case MoveBackgroundImage(_, x, y, width, height) => img.(x := x, y := y, width := width, height := height)
    case ResizeBackgroundImage(_, width, height) => img.(width := width, height := height)
  }

  /** `MOVE_`/`RESIZE_BACKGROUND_IMAGE`: only the first image with the id changes. */
  function UpdateFirstImage(images: seq<BackgroundImage>, id: string, msg: Message): (r: seq<BackgroundImage>)
    requires msg.MoveBackgroundImage? || msg.ResizeBackgroundImage?
    ensures |r| == |images|
    ensures FindImage(images, id).None? ==> r == images
    ensures FindImage(images, id).Some? ==>
      var i := FindImage(images, id).value;
      && r[i] == EditImage(images[i], msg)
      && forall j :: 0 <= j < |images| && j != i ==> r[j] == images[j]
  {
    match FindImage(images, id)
    case None => images
    case Some(i) => images[i := EditImage(images[i], msg)]
  }

  // ---------------------------------------------------------------------------------------
  // Audio tracks
  // ---------------------------------------------------------------------------------------

  function RemoveTracks(tracks: seq<Track>, id: string): (r: seq<Track>)
    ensures forall t :: t in r <==> t in tracks && t.id != id
  {
    Filter(tracks, (t: Track) => t.id != id)
  }

  /** `UPDATE_AUDIO_TRACK` with `isPlaying === true`: that track plays, every other stops. */
  function PlayTrack(tracks: seq<Track>, id: string, volume: Option<real>): (r: seq<Track>)
    ensures |r| == |tracks|
    ensures forall i :: 0 <= i < |r| ==>
      && r[i].id == tracks[i].id && r[i].name == tracks[i].name && r[i].src == tracks[i].src
      && (r[i].isPlaying <==> tracks[i].id == id)
      && r[i].volume == (if tracks[i].id == id && volume.Some? then volume.value else tracks[i].volume)
  {
    seq(|tracks|, i requires 0 <= i < |tracks| =>
      if tracks[i].id == id then tracks[i].(isPlaying := true, volume := volume.GetOr(tracks[i].volume))
      else tracks[i].(isPlaying := false))
  }

  /**
   * `UPDATE_AUDIO_TRACK` otherwise: the tracks with that id take the given `isPlaying` and
   * `volume` (`??` keeps the old value when one is absent); the others are untouched.
   */
  function SetTrack(tracks: seq<Track>, id: string, isPlaying: Option<bool>, volume: Option<real>): (r: seq<Track>)
    ensures |r| == |tracks|
    ensures forall i :: 0 <= i < |r| && tracks[i].id != id ==> r[i] == tracks[i]
    ensures forall i :: 0 <= i < |r| && tracks[i].id == id ==>
      r[i] == tracks[i].(isPlaying := isPlaying.GetOr(tracks[i].isPlaying), volume := volume.GetOr(tracks[i].volume))
  {
    seq(|tracks|, i requires 0 <= i < |tracks| =>
      if tracks[i].id == id
      then tracks[i].(isPlaying := isPlaying.GetOr(tracks[i].isPlaying), volume := volume.GetOr(tracks[i].volume))
      else tracks[i])
  }

  function UpdateTracks(tracks: seq<Track>, id: string, isPlaying: Option<bool>, volume: Option<real>): seq<Track> {
    if isPlaying == Some(true) then PlayTrack(tracks, id, volume) else SetTrack(tracks, id, isPlaying, volume)
  }

  /** An update that does not ask to play never switches a track on. */
  lemma SetTrackNeverStartsPlaying(tracks: seq<Track>, id: string, isPlaying: Option<bool>, volume: Option<real>)
    requires isPlaying != Some(true)
    ensures var r := UpdateTracks(tracks, id, isPlaying, volume);
      forall i :: 0 <= i < |r| && r[i].isPlaying ==> tracks[i].isPlaying
  {
  }

  function IsPlaying(t: Track): bool {
    t.isPlaying
  }

  function HasId(id: string): Track -> bool {
    (t: Track) => t.id == id
  }

  /** At most one track plays. */
  predicate AtMostOnePlaying(tracks: seq<Track>) {
    Count(tracks, IsPlaying) <= 1
  }

  lemma {:induction false} CountPlayTrack(tracks: seq<Track>, id: string, volume: Option<real>)
    ensures Count(PlayTrack(tracks, id, volume), IsPlaying) == Count(tracks, HasId(id))
  {
    if tracks != [] {
      var prefix := tracks[..|tracks| - 1];
      CountPlayTrack(prefix, id, volume);
      assert PlayTrack(tracks, id, volume)[..|prefix|] == PlayTrack(prefix, id, volume);
    }
  }

  lemma {:induction false} CountSetTrack(tracks: seq<Track>, id: string, isPlaying: Option<bool>, volume: Option<real>)
    requires isPlaying != Some(true)
    ensures Count(SetTrack(tracks, id, isPlaying, volume), IsPlaying) <= Count(tracks, IsPlaying)
  {
    if tracks != [] {
      var prefix := tracks[..|tracks| - 1];
      CountSetTrack(prefix, id, isPlaying, volume);
      assert SetTrack(tracks, id, isPlaying, volume)[..|prefix|] == SetTrack(prefix, id, isPlaying, volume);
    }
  }

  /**
   * Audio mutual exclusion: when track ids are unique, an update that starts a track leaves
   * only that track playing, and any other update or removal keeps at most one playing.
   */
  lemma AudioExclusion(tracks: seq<Track>, id: string, isPlaying: Option<bool>, volume: Option<real>)
    requires Count(tracks, HasId(id)) <= 1
    ensures isPlaying == Some(true) ==> AtMostOnePlaying(UpdateTracks(tracks, id, isPlaying, volume))
    ensures AtMostOnePlaying(tracks) ==> AtMostOnePlaying(UpdateTracks(tracks, id, isPlaying, volume))
    ensures AtMostOnePlaying(tracks) ==> AtMostOnePlaying(RemoveTracks(tracks, id))
  {
    if isPlaying == Some(true) {
      CountPlayTrack(tracks, id, volume);
    } else {
      CountSetTrack(tracks, id, isPlaying, volume);
    }
    CountFilter(tracks, (t: Track) => t.id != id, IsPlaying);
  }

  // ---------------------------------------------------------------------------------------
  // One message
  // ---------------------------------------------------------------------------------------

  /**
   * The measurement after a message: `MEASURE` sets it, the three messages that return
   * before that test (`DELETE_TOKEN`, `MOVE_AREA`, `TRANSFORM_AREA`) leave it, every other
   * message clears it.
   */
  function NextMeasurement(current: Option<Measurement>, msg: Message): (m: Option<Measurement>)
    ensures msg.Measure? ==> m == Some(Measurement(msg.start, msg.end))
    ensures msg.DeleteToken? || msg.MoveArea? || msg.TransformArea? ==> m == current
    ensures !(msg.Measure? || msg.DeleteToken? || msg.MoveArea? || msg.TransformArea?) ==> m == None
  {
    match msg
    case Measure(start, end) => Some(Measurement(start, end))
    case DeleteToken(_) => current
    case MoveArea(_, _, _) => current
    case TransformArea(_, _, _) => current
    case _ => None
  }

  /** The messages that edit the token table. */
  predicate IsTokenMessage(msg: Message) {
    msg.AddToken? || msg.MoveToken? || msg.ResizeToken? || msg.DeleteToken?
    || msg.TokenImage? || msg.UpdateTokenDeadStatus? || msg.UpdateToken?
  }

  /**
   * The token table after a token message: `ADD_TOKEN` stores its token under its id,
   * `DELETE_TOKEN` drops that id, the others edit an existing entry; no other entry changes.
   */
  function TokenStep(tokens: map<string, Token>, msg: Message): (r: map<string, Token>)
    requires IsTokenMessage(msg)
    ensures msg.AddToken? ==> r.Keys == tokens.Keys + {msg.token.id} && r[msg.token.id] == StoredToken(msg.token)
    ensures msg.AddToken? ==> forall k :: k in tokens && k != msg.token.id ==> r[k] == tokens[k]
    ensures msg.DeleteToken? ==> r.Keys == tokens.Keys - {msg.id}
    ensures !msg.AddToken? && !msg.DeleteToken? ==> r.Keys == tokens.Keys
    ensures !msg.AddToken? ==> forall k :: k in r && k != msg.id ==> k in tokens && r[k] == tokens[k]
  {
    match msg
    case AddToken(t) => tokens[t.id := StoredToken(t)]
    case DeleteToken(id) => tokens - {id}
    case MoveToken(id, _, _) => UpdateTokenEntry(tokens, id, msg)
    case ResizeToken(id, _, _, _) => UpdateTokenEntry(tokens, id, msg)
    case TokenImage(id, _) => UpdateTokenEntry(tokens, id, msg)
    case UpdateTokenDeadStatus(id, _) => UpdateTokenEntry(tokens, id, msg)
    case UpdateToken(id, _) => UpdateTokenEntry(tokens, id, msg)
  }

  /** The messages that edit the area table. */
  predicate IsAreaMessage(msg: Message) {
    msg.AddArea? || msg.MoveArea? || msg.TransformArea? || msg.DeleteArea?
  }

  /**
   * The area table after an area message: `ADD_AREA` stores its area under its id,
   * `DELETE_AREA` drops that id, the others edit an existing entry; no other entry changes.
   */
  function AreaStep(areas: map<string, Area>, msg: Message): (r: map<string, Area>)
    requires IsAreaMessage(msg)
    ensures msg.AddArea? ==> r.Keys == areas.Keys + {msg.area.id} && r[msg.area.id] == msg.area
    ensures msg.AddArea? ==> forall k :: k in areas && k != msg.area.id ==> r[k] == areas[k]
    ensures msg.DeleteArea? ==> r.Keys == areas.Keys - {msg.id}
    ensures !msg.AddArea? && !msg.DeleteArea? ==> r.Keys == areas.Keys
    ensures !msg.AddArea? ==> forall k :: k in r && k != msg.id ==> k in areas && r[k] == areas[k]
  {
    match msg
    case AddArea(a) => areas[a.id := a]
    case DeleteArea(id) => areas - {id}
    case MoveArea(id, _, _) => UpdateAreaEntry(areas, id, msg)
    case TransformArea(id, _, _) => UpdateAreaEntry(areas, id, msg)
  }

  /** The laser colours after `LASER_PATH` (only with a non-empty user and colour) or `SET_LASER_COLOR`. */
  function LaserStep(colors: map<string, string>, msg: Message): (r: map<string, string>)
    requires msg.LaserPath? || msg.SetLaserColor?
    ensures msg.SetLaserColor? ==> msg.userId in r && r[msg.userId] == msg.color
    ensures msg.LaserPath? && Truthy(msg.pathUserId) && Truthy(msg.pathColor) ==>
      msg.pathUserId.value in r && r[msg.pathUserId.value] == msg.pathColor.value
    ensures msg.LaserPath? && !(Truthy(msg.pathUserId) && Truthy(msg.pathColor)) ==> r == colors
    ensures colors.Keys <= r.Keys
    ensures forall k :: k in r && (k !in colors || r[k] != colors[k]) ==>
      (msg.SetLaserColor? && k == msg.userId) || (msg.LaserPath? && msg.pathUserId == Some(k))
  {
    match msg
    case LaserPath(userId, color) =>
      if Truthy(userId) && Truthy(color) then colors[userId.value := color.value] else colors
    case SetLaserColor(userId, color) => colors[userId := color]
  }

  /** The messages that edit the background images. */
  predicate IsImageMessage(msg: Message) {
    msg.AddBackgroundImage? || msg.DeleteBackgroundImage? || msg.MoveBackgroundImage? || msg.ResizeBackgroundImage?
  }

  /** The background images after an image message. */
  function ImageStep(images: seq<BackgroundImage>, msg: Message): (r: seq<BackgroundImage>)
    requires IsImageMessage(msg)
    ensures msg.AddBackgroundImage? ==> |r| == |images| + 1 && r[..|images|] == images && r[|images|] == msg.image
    ensures msg.DeleteBackgroundImage? ==> forall img :: img in r <==> img in images && img.id != msg.id
    ensures msg.MoveBackgroundImage? || msg.ResizeBackgroundImage? ==>
      && |r| == |images|
      && forall i :: 0 <= i < |r| && r[i] != images[i] ==> images[i].id == msg.id && r[i] == EditImage(images[i], msg)
  {
    match msg
    case AddBackgroundImage(img) => images + [img]
    case DeleteBackgroundImage(id) => DeleteImages(images, id)
    case MoveBackgroundImage(id, _, _, _, _) => UpdateFirstImage(images, id, msg)
    case ResizeBackgroundImage(id, _, _) => UpdateFirstImage(images, id, msg)
  }

  /** The fogged tiles after a fog message; a payload that is not an array changes nothing. */
  function FogStep(fog: seq<string>, msg: Message): (r: seq<string>)
    requires msg.FogAddTiles? || msg.FogRemoveTiles?
    ensures msg.tiles.None? ==> r == fog
    ensures msg.FogAddTiles? && msg.tiles.Some? ==> forall t :: t in r <==> t in fog || t in msg.tiles.value
    ensures msg.FogRemoveTiles? && msg.tiles.Some? ==> forall t :: t in r <==> t in fog && t !in msg.tiles.value
    ensures NoDuplicates(fog) ==> NoDuplicates(r)
  {
    match msg
    case FogAddTiles(tiles) =>
      if tiles.None? then fog
      else if NoDuplicates(fog) then FogAddIsUnion(fog, tiles.value); FogAdd(fog, tiles.value)
      else FogAdd(fog, tiles.value)
    case FogRemoveTiles(tiles) =>
      if tiles.None? then fog
      else if NoDuplicates(fog) then FogRemoveIsDifference(fog, tiles.value); FogRemove(fog, tiles.value)
      else FogRemove(fog, tiles.value)
  }

  /** The messages that edit the track list. */
  predicate IsAudioMessage(msg: Message) {
    msg.AddAudioTrack? || msg.RemoveAudioTrack? || msg.UpdateAudioTrack?
  }

  /** The track list after an audio message. */
  function AudioStep(tracks: seq<Track>, msg: Message): (r: seq<Track>)
    requires IsAudioMessage(msg)
    ensures msg.AddAudioTrack? ==> |r| == |tracks| + 1 && r[..|tracks|] == tracks && r[|tracks|] == msg.track
    ensures msg.RemoveAudioTrack? ==> forall t :: t in r <==> t in tracks && t.id != msg.id
    ensures msg.UpdateAudioTrack? && msg.isPlaying == Some(true) && Count(tracks, HasId(msg.id)) <= 1 ==> AtMostOnePlaying(r)
    ensures !msg.AddAudioTrack? && AtMostOnePlaying(tracks) && Count(tracks, HasId(msg.id)) <= 1 ==> AtMostOnePlaying(r)
  {
    match msg
    case AddAudioTrack(t) => tracks + [t]
    case RemoveAudioTrack(id) =>
      CountFilter(tracks, (t: Track) => t.id != id, IsPlaying);
      RemoveTracks(tracks, id)
    case UpdateAudioTrack(id, isPlaying, volume) =>
      if Count(tracks, HasId(id)) <= 1 then
        AudioExclusion(tracks, id, isPlaying, volume);
        UpdateTracks(tracks, id, isPlaying, volume)
      else UpdateTracks(tracks, id, isPlaying, volume)
  }

  /** What every message keeps: tiles listed once, and no tombstone stored as a colour. */
  predicate Consistent(s: Scene) {
    NoDuplicates(s.foggedTiles) && Paint.NoTombstones(s.paintedTiles) && Paint.NoTombstones(s.paintedEdges)
  }

  /**
   * The change a message makes to the collections, apart from the measurement: only the
   * collection of the message's group changes, and the scene stays consistent.
   */
  function Mutate(s: Scene, msg: Message): (r: Scene)
    ensures !msg.PaintTile? ==> r.paintedTiles == s.paintedTiles
    ensures !msg.PaintEdge? ==> r.paintedEdges == s.paintedEdges
    ensures !IsTokenMessage(msg) ==> r.tokens == s.tokens
    ensures !IsAreaMessage(msg) ==> r.areas == s.areas
    ensures !(msg.LaserPath? || msg.SetLaserColor?) ==> r.laserColors == s.laserColors
    ensures !IsImageMessage(msg) ==> r.backgroundImages == s.backgroundImages
    ensures !(msg.FogAddTiles? || msg.FogRemoveTiles?) ==> r.foggedTiles == s.foggedTiles
    ensures !IsAudioMessage(msg) ==> r.activeAudioTracks == s.activeAudioTracks
    ensures r.currentMeasurement == s.currentMeasurement
    ensures Consistent(s) ==> Consistent(r)
  {
    if msg.PaintTile? then s.(paintedTiles := Paint.ApplyPaint(s.paintedTiles, PosKey(msg.tileX, msg.tileY), msg.color))
    else if msg.PaintEdge? then s.(paintedEdges := ApplyEdgeUpdates(s.paintedEdges, msg.edgeUpdates))
    else if IsTokenMessage(msg) then s.(tokens := TokenStep(s.tokens, msg))
    else if IsAreaMessage(msg) then s.(areas := AreaStep(s.areas, msg))
    else if msg.LaserPath? || msg.SetLaserColor? then s.(laserColors := LaserStep(s.laserColors, msg))
    else if IsImageMessage(msg) then s.(backgroundImages := ImageStep(s.backgroundImages, msg))
    else if msg.FogAddTiles? || msg.FogRemoveTiles? then s.(foggedTiles := FogStep(s.foggedTiles, msg))
    else if IsAudioMessage(msg) then s.(activeAudioTracks := AudioStep(s.activeAudioTracks, msg))
    else s
  }

  /**
   * The scene after the hub handles one message: the message's collection changes, the
   * measurement follows `NextMeasurement`, and the scene stays consistent.
   */
  function Step(s: Scene, msg: Message): (r: Scene)
    ensures r.(currentMeasurement := s.currentMeasurement) == Mutate(s, msg)
    ensures r.currentMeasurement == NextMeasurement(s.currentMeasurement, msg)
    ensures Consistent(s) ==> Consistent(r)
  {
    Mutate(s, msg).(currentMeasurement := NextMeasurement(s.currentMeasurement, msg))
  }

  /** The messages that edit one existing entry, and whether their target is missing. */
  predicate TargetMissing(s: Scene, msg: Message) {
    match msg
    case MoveToken(id, _, _) => id !in s.tokens
    case ResizeToken(id, _, _, _) => id !in s.tokens
    case TokenImage(id, _) => id !in s.tokens
    case UpdateTokenDeadStatus(id, _) => id !in s.tokens
    case UpdateToken(id, _) => id !in s.tokens
    case MoveArea(id, _, _) => id !in s.areas
    case TransformArea(id, _, _) => id !in s.areas
    case MoveBackgroundImage(id, _, _, _, _) => forall i :: 0 <= i < |s.backgroundImages| ==> s.backgroundImages[i].id != id
    case ResizeBackgroundImage(id, _, _) => forall i :: 0 <= i < |s.backgroundImages| ==> s.backgroundImages[i].id != id
    case _ => false
  }

  /** A message whose target id is unknown changes no collection. */
  lemma UnknownIdIgnored(s: Scene, msg: Message)
    requires TargetMissing(s, msg)
    ensures Step(s, msg) == s.(currentMeasurement := NextMeasurement(s.currentMeasurement, msg))
  {
    if IsTokenMessage(msg) {
      assert TokenStep(s.tokens, msg) == s.tokens;
    } else if IsAreaMessage(msg) {
      assert AreaStep(s.areas, msg) == s.areas;
    } else {
      assert FindImage(s.backgroundImages, msg.id).None?;
    }
  }

  /** A message of another type leaves every collection as it was and clears the measurement. */
  lemma OtherTypeOnlyClearsMeasurement(s: Scene, kind: string)
    ensures Step(s, Other(kind)) == s.(currentMeasurement := None)
  {
  }

  // ---------------------------------------------------------------------------------------
  // Snapshot
  // ---------------------------------------------------------------------------------------

  /** The seven messages a new connection receives, in the order they are sent. */
  function Snapshot(s: Scene): (snap: seq<Outbound>)
    ensures |snap| == 7
    ensures snap[0].InitAudioTracks? && snap[1].InitState? && snap[2].InitEdges? && snap[3].InitFog?
      && snap[4].InitTokens? && snap[5].InitAreas? && snap[6].InitBackgroundImages?
  {
    [ InitAudioTracks(s.activeAudioTracks), InitState(s.paintedTiles), InitEdges(s.paintedEdges),
      InitFog(s.foggedTiles), InitTokens(s.tokens), InitAreas(s.areas),
      InitBackgroundImages(s.backgroundImages) ]
  }

  /** The part of the scene that clients can see: all of it but the laser colours and the measurement. */
  function Visible(s: Scene): Scene {
    s.(currentMeasurement := None, laserColors := map[])
  }

  /** What a client that applies the seven snapshot messages in order knows of the scene. */
  function Restore(snap: seq<Outbound>): Option<Scene> {
    if |snap| == 7 && snap[0].InitAudioTracks? && snap[1].InitState? && snap[2].InitEdges?
       && snap[3].InitFog? && snap[4].InitTokens? && snap[5].InitAreas? && snap[6].InitBackgroundImages?
    then Some(Scene(snap[1].paintedTiles, snap[4].tokens, snap[2].paintedEdges, snap[5].areas, None,
                    snap[3].fog, map[], snap[6].images, snap[0].tracks))
    else None
  }

  /** The snapshot loses nothing a client can see. */
  lemma SnapshotRestores(s: Scene)
    ensures Restore(Snapshot(s)) == Some(Visible(s))
  {
  }
}
