/**
 * The WebSocket hub of the table-top server: one object that holds the registry of
 * connections and the shared scene, updates the scene in place as messages arrive, and
 * sends each message on to the other connections.
 */
module Hub {
  import opened JsText
  import opened World
  import opened Fanout
  import Paint

  /** The connection a message's answer is kept from: the sender, except for audio updates. */
  function Scope(msg: Message, sender: Conn): (except: Option<Conn>)
    ensures except == None <==> msg.UpdateAudioTrack?
    ensures !msg.UpdateAudioTrack? ==> except == Some(sender)
  {
    if msg.UpdateAudioTrack? then None else Some(sender)
  }

  /** What the hub sends out for a message: the full track list for an audio update, else the message. */
  function Answer(msg: Message, after: Scene): (out: Outbound)
    ensures msg.UpdateAudioTrack? ==> out == SyncAudioTracks(after.activeAudioTracks)
    ensures !msg.UpdateAudioTrack? ==> out == Relay(msg)
  {
    if msg.UpdateAudioTrack? then SyncAudioTracks(after.activeAudioTracks) else Relay(msg)
  }

  /** The deliveries for one inbound message, given the scene after it was applied. */
  function Response(clients: seq<Conn>, open: set<Conn>, sender: Conn, msg: Message, after: Scene): (ds: seq<Delivery<Outbound>>)
    ensures |ds| <= |clients|
    ensures forall d :: d in ds ==> d.to in clients && d.to in open
    ensures forall d :: d in ds && d.to == sender ==> msg.UpdateAudioTrack?
    ensures msg.UpdateAudioTrack? ==> forall d :: d in ds ==> d.msg == SyncAudioTracks(after.activeAudioTracks)
    ensures !msg.UpdateAudioTrack? ==> forall d :: d in ds ==> d.msg == Relay(msg)
  {
    Broadcast(clients, open, Scope(msg, sender), Answer(msg, after))
  }

  /**
   * Every message but an audio update reaches each other open connection exactly once,
   * unchanged, and never comes back to its sender.
   */
  lemma RelayToOthers(clients: seq<Conn>, open: set<Conn>, sender: Conn, msg: Message, after: Scene, c: Conn)
    requires NoDuplicates(clients)
    requires !msg.UpdateAudioTrack?
    ensures forall d :: d in Response(clients, open, sender, msg, after) ==> d.msg == Relay(msg)
    ensures c in clients && c in open && c != sender ==> SentTo(Response(clients, open, sender, msg, after), c) == 1
    ensures !(c in clients && c in open && c != sender) ==> SentTo(Response(clients, open, sender, msg, after), c) == 0
  {
    BroadcastExactlyOnce(clients, open, Some(sender), Relay(msg), c);
  }

  /**
   * An audio update is answered with the whole track list after the update, once to every
   * open connection, the sender included.
   */
  lemma AudioSyncToAll(clients: seq<Conn>, open: set<Conn>, sender: Conn, msg: Message, after: Scene, c: Conn)
    requires NoDuplicates(clients)
    requires msg.UpdateAudioTrack?
    ensures forall d :: d in Response(clients, open, sender, msg, after) ==> d.msg == SyncAudioTracks(after.activeAudioTracks)
    ensures c in clients && c in open ==> SentTo(Response(clients, open, sender, msg, after), c) == 1
    ensures !(c in clients && c in open) ==> SentTo(Response(clients, open, sender, msg, after), c) == 0
  {
    BroadcastExactlyOnce(clients, open, None, SyncAudioTracks(after.activeAudioTracks), c);
  }

  /** The hub's state: the connection registry and the shared scene. */
  class Server {
    var clients: seq<Conn>
    var paintedTiles: map<string, string>
    var tokens: map<string, Token>
    var paintedEdges: map<string, string>
    var areas: map<string, Area>
    var currentMeasurement: Option<Measurement>
    var foggedTiles: seq<string>
    var laserColors: map<string, string>
    var backgroundImages: seq<BackgroundImage>
    var activeAudioTracks: seq<Track>

    /** Each connection is registered once and each fogged tile is listed once, as in a `Set`. */
    ghost predicate Valid()
      reads this
    {
      NoDuplicates(clients) && NoDuplicates(foggedTiles)
    }

    /** The shared scene the fields hold. */
    function State(): Scene
      reads this
    {
      Scene(paintedTiles, tokens, paintedEdges, areas, currentMeasurement, foggedTiles,
            laserColors, backgroundImages, activeAudioTracks)
    }

    /** The server starts with no connections and an empty scene. */
    constructor ()
      ensures Valid()
      ensures clients == [] && State() == EmptyScene
    {
      clients := [];
      paintedTiles := map[];
      tokens := map[];
      paintedEdges := map[];
      areas := map[];
      currentMeasurement := None;
      foggedTiles := [];
      laserColors := map[];
      backgroundImages := [];
      activeAudioTracks := [];
    }

    /**
     * A new connection is registered and sent the seven snapshot messages, in order, on
     * itself alone.
     */
    method OnConnection(ws: Conn) returns (out: seq<Delivery<Outbound>>)
      requires Valid()
      modifies this`clients
      ensures Valid()
      ensures clients == if ws in old(clients) then old(clients) else old(clients) + [ws]
      ensures |out| == 7
      ensures forall i :: 0 <= i < 7 ==> out[i] == Delivery(ws, Snapshot(State())[i])
    {
      if ws !in clients {
        clients := clients + [ws];
      }
      out := [
        Delivery(ws, InitAudioTracks(activeAudioTracks)),
        Delivery(ws, InitState(paintedTiles)),
        Delivery(ws, InitEdges(paintedEdges)),
        Delivery(ws, InitFog(foggedTiles)),
        Delivery(ws, InitTokens(tokens)),
        Delivery(ws, InitAreas(areas)),
        Delivery(ws, InitBackgroundImages(backgroundImages))
      ];
    }

    /** A closed connection leaves the registry; the scene is kept. */
    method OnClose(ws: Conn)
      requires Valid()
      modifies this`clients
      ensures Valid()
      ensures clients == Filter(old(clients), c => c != ws)
      ensures forall c :: c in clients <==> c in old(clients) && c != ws
    {
      FilterKeepsNoDuplicates(clients, c => c != ws);
      clients := Filter(clients, c => c != ws);
    }

    /**
     * One inbound message from `sender`: the scene takes the step the message calls for and
     * the answer goes to the connections that are open now.
     */
    method OnMessage(sender: Conn, msg: Message, open: set<Conn>) returns (out: seq<Delivery<Outbound>>)
      requires Valid()
      modifies this`paintedTiles, this`tokens, this`paintedEdges, this`areas, this`currentMeasurement
      modifies this`foggedTiles, this`laserColors, this`backgroundImages, this`activeAudioTracks
      ensures Valid()
      ensures State() == Step(old(State()), msg)
      ensures out == Response(clients, open, sender, msg, State())
    {
      var measurement := NextMeasurement(currentMeasurement, msg);
      Apply(msg);
      currentMeasurement := measurement;
      out := Deliver(open, Scope(msg, sender), Answer(msg, State()));
    }

    /** The collections the message edits, in place; the measurement is left to the caller. */
    method Apply(msg: Message)
      requires NoDuplicates(foggedTiles)
      modifies this`paintedTiles, this`tokens, this`paintedEdges, this`areas
      modifies this`foggedTiles, this`laserColors, this`backgroundImages, this`activeAudioTracks
      ensures NoDuplicates(foggedTiles)
      ensures State() == Mutate(old(State()), msg)
    {
      if msg.PaintTile? || msg.PaintEdge? || IsTokenMessage(msg) || IsAreaMessage(msg) {
        ApplyBoard(msg);
      } else {
        ApplyOther(msg);
      }
    }

    /** The messages that edit the board: tiles, edges, tokens and areas. */
    method ApplyBoard(msg: Message)
      requires msg.PaintTile? || msg.PaintEdge? || IsTokenMessage(msg) || IsAreaMessage(msg)
      modifies this`paintedTiles, this`tokens, this`paintedEdges, this`areas
      ensures State() == Mutate(old(State()), msg)
    {
      ghost var before := State();
      if msg.PaintTile? {
        PaintTile(msg.tileX, msg.tileY, msg.color);
        assert State() == before.(paintedTiles := paintedTiles);
      } else if msg.PaintEdge? {
        PaintEdges(msg.edgeUpdates);
        assert State() == before.(paintedEdges := paintedEdges);
      } else if IsTokenMessage(msg) {
        ApplyToken(msg);
        assert State() == before.(tokens := tokens);
      } else {
        ApplyArea(msg);
        assert State() == before.(areas := areas);
      }
    }

    /** The other messages: laser, images, fog and audio edit their collection, the rest nothing. */
    method ApplyOther(msg: Message)
      requires !(msg.PaintTile? || msg.PaintEdge? || IsTokenMessage(msg) || IsAreaMessage(msg))
      requires NoDuplicates(foggedTiles)
      modifies this`foggedTiles, this`laserColors, this`backgroundImages, this`activeAudioTracks
      ensures NoDuplicates(foggedTiles)
      ensures State() == Mutate(old(State()), msg)
    {
      if msg.LaserPath? || msg.SetLaserColor? {
        ApplyLaser(msg);
      } else if IsImageMessage(msg) {
        ApplyImage(msg);
      } else if msg.FogAddTiles? || msg.FogRemoveTiles? {
        ApplyFog(msg);
      } else if IsAudioMessage(msg) {
        ApplyAudio(msg);
      }
    }

    /** Sends `m` to every registered, open connection but `except`, walking the registry. */
    method Deliver(open: set<Conn>, except: Option<Conn>, m: Outbound) returns (ds: seq<Delivery<Outbound>>)
      ensures ds == Broadcast(clients, open, except, m)
    {
      var cs := clients;
      ds := [];
      var i := 0;
      while i < |cs|
        invariant 0 <= i <= |cs|
        invariant ds == Broadcast(cs[..i], open, except, m)
      {
        ghost var next := cs[..i + 1];
        assert next[..|next| - 1] == cs[..i] && next[|next| - 1] == cs[i];
        if cs[i] in open && except != Some(cs[i]) {
          ds := ds + [Delivery(cs[i], m)];
        }
        i := i + 1;
      }
      assert cs[..|cs|] == cs;
    }

    /** `PAINT_TILE`: white clears the tile, any other colour is stored under "x,y". */
    method PaintTile(x: int, y: int, color: string)
      modifies this`paintedTiles
      ensures paintedTiles == Paint.ApplyPaint(old(paintedTiles), PosKey(x, y), color)
    {
      var key := PosKey(x, y);
      if color == Paint.White {
        paintedTiles := paintedTiles - {key};
      } else {
        paintedTiles := paintedTiles[key := color];
      }
    }

    /** The updates of one `PAINT_EDGE` message, in order. */
    method PaintEdges(updates: seq<EdgeUpdate>)
      modifies this`paintedEdges
      ensures paintedEdges == ApplyEdgeUpdates(old(paintedEdges), updates)
    {
      var i := 0;
      while i < |updates|
        invariant 0 <= i <= |updates|
        invariant paintedEdges == ApplyEdgeUpdates(old(paintedEdges), updates[..i])
      {
        assert updates[..i + 1][..i] == updates[..i];
        var u := updates[i];
        if u.color == Paint.White {
          paintedEdges := paintedEdges - {u.key};
        } else {
          paintedEdges := paintedEdges[u.key := u.color];
        }
        i := i + 1;
      }
      assert updates[..|updates|] == updates;
    }

    /** The token messages: the entry of the named id is stored, edited or deleted. */
    method ApplyToken(msg: Message)
      requires IsTokenMessage(msg)
      modifies this`tokens
      ensures tokens == TokenStep(old(tokens), msg)
    {
      match msg
      case AddToken(t) =>
        tokens := tokens[t.id := Token(t.id, t.x, t.y, t.radius, t.color, t.nombre, t.vida, None, None)];
      case MoveToken(id, x, y) =>
        if id in tokens {
          tokens := tokens[id := tokens[id].(x := x, y := y)];
        }
      case ResizeToken(id, x, y, radius) =>
        if id in tokens {
          tokens := tokens[id := tokens[id].(x := x, y := y, radius := radius)];
        }
      case DeleteToken(id) =>
        tokens := tokens - {id};
      case TokenImage(id, base64) =>
        if id in tokens {
          tokens := tokens[id := tokens[id].(imageBase64 := Some(base64))];
        }
      case UpdateTokenDeadStatus(id, muerto) =>
        if id in tokens {
          tokens := tokens[id := tokens[id].(muerto := Some(muerto))];
        }
      case UpdateToken(id, updates) =>
        if id in tokens {
          tokens := tokens[id := Assign(tokens[id], updates)];
        }
    }

    /** The area messages. */
    method ApplyArea(msg: Message)
      requires IsAreaMessage(msg)
      modifies this`areas
      ensures areas == AreaStep(old(areas), msg)
    {
      match msg
      case AddArea(a) =>
        areas := areas[a.id := a];
      case MoveArea(id, x, y) =>
        if id in areas {
          areas := areas[id := areas[id].(x := x, y := y)];
        }
      case TransformArea(id, size, rotation) =>
        if id in areas {
          areas := areas[id := areas[id].(size := size, rotation := rotation)];
        }
      case DeleteArea(id) =>
        areas := areas - {id};
    }

    /** `LASER_PATH` stores the colour only when both fields are non-empty; `SET_LASER_COLOR` always. */
    method ApplyLaser(msg: Message)
      requires msg.LaserPath? || msg.SetLaserColor?
      modifies this`laserColors
      ensures laserColors == LaserStep(old(laserColors), msg)
    {
      match msg
      case LaserPath(userId, color) =>
        if Truthy(userId) && Truthy(color) {
          laserColors := laserColors[userId.value := color.value];
        }
      case SetLaserColor(userId, color) =>
        laserColors := laserColors[userId := color];
    }

    /** The background image messages; move and resize edit the first image with the id. */
    method ApplyImage(msg: Message)
      requires IsImageMessage(msg)
      modifies this`backgroundImages
      ensures backgroundImages == ImageStep(old(backgroundImages), msg)
    {
      match msg
      case AddBackgroundImage(img) =>
        backgroundImages := backgroundImages + [img];
      case DeleteBackgroundImage(id) =>
        backgroundImages := DeleteImages(backgroundImages, id);
      case MoveBackgroundImage(id, x, y, width, height) =>
        var found := FindImage(backgroundImages, id);
        if found.Some? {
          var k := found.value;
          backgroundImages := backgroundImages[k := backgroundImages[k].(x := x, y := y, width := width, height := height)];
        }
      case ResizeBackgroundImage(id, width, height) =>
        var found := FindImage(backgroundImages, id);
        if found.Some? {
          var k := found.value;
          backgroundImages := backgroundImages[k := backgroundImages[k].(width := width, height := height)];
        }
    }

    /** The fog messages; a payload that is not an array changes nothing. */
    method ApplyFog(msg: Message)
      requires msg.FogAddTiles? || msg.FogRemoveTiles?
      requires NoDuplicates(foggedTiles)
      modifies this`foggedTiles
      ensures NoDuplicates(foggedTiles)
      ensures foggedTiles == FogStep(old(foggedTiles), msg)
    {
      match msg
      case FogAddTiles(tiles) =>
        if tiles.Some? {
          AddFog(tiles.value);
        }
      case FogRemoveTiles(tiles) =>
        if tiles.Some? {
          RemoveFog(tiles.value);
        }
    }

    /** Adds each tile in turn, as `forEach` with `Set.prototype.add`. */
    method AddFog(tiles: seq<string>)
      requires NoDuplicates(foggedTiles)
      modifies this`foggedTiles
      ensures NoDuplicates(foggedTiles)
      ensures foggedTiles == FogAdd(old(foggedTiles), tiles)
    {
      var i := 0;
      while i < |tiles|
        invariant 0 <= i <= |tiles|
        invariant NoDuplicates(foggedTiles)
        invariant foggedTiles == FogAdd(old(foggedTiles), tiles[..i])
      {
        assert tiles[..i + 1][..i] == tiles[..i];
        AddTileIsUnion(foggedTiles, tiles[i]);
        if tiles[i] !in foggedTiles {
          foggedTiles := foggedTiles + [tiles[i]];
        }
        i := i + 1;
      }
      assert tiles[..|tiles|] == tiles;
    }

    /** Deletes each tile in turn, as `forEach` with `Set.prototype.delete`. */
    method RemoveFog(tiles: seq<string>)
      requires NoDuplicates(foggedTiles)
      modifies this`foggedTiles
      ensures NoDuplicates(foggedTiles)
      ensures foggedTiles == FogRemove(old(foggedTiles), tiles)
    {
      var i := 0;
      while i < |tiles|
        invariant 0 <= i <= |tiles|
        invariant NoDuplicates(foggedTiles)
        invariant foggedTiles == FogRemove(old(foggedTiles), tiles[..i])
      {
        assert tiles[..i + 1][..i] == tiles[..i];
        DeleteTileIsDifference(foggedTiles, tiles[i]);
        foggedTiles := DeleteTile(foggedTiles, tiles[i]);
        i := i + 1;
      }
      assert tiles[..|tiles|] == tiles;
    }

    /** The audio messages. */
    method ApplyAudio(msg: Message)
      requires IsAudioMessage(msg)
      modifies this`activeAudioTracks
      ensures activeAudioTracks == AudioStep(old(activeAudioTracks), msg)
    {
      match msg
      case AddAudioTrack(t) =>
        activeAudioTracks := activeAudioTracks + [t];
      case RemoveAudioTrack(id) =>
        activeAudioTracks := RemoveTracks(activeAudioTracks, id);
      case UpdateAudioTrack(id, isPlaying, volume) =>
        if isPlaying == Some(true) {
          activeAudioTracks := PlayTrack(activeAudioTracks, id, volume);
        } else {
          activeAudioTracks := SetTrack(activeAudioTracks, id, isPlaying, volume);
        }
    }
  }
}
