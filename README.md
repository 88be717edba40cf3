# Shared table-top board: a Dafny model

This project models the core of a small virtual table-top. One WebSocket hub holds the shared scene, which has these parts:

- painted tiles and painted edges;
- tokens and areas;
- the current measurement and the laser colours;
- fogged tiles and background images;
- the audio tracks.

The hub applies every inbound message to the scene. It relays the message to the other open connections, and it sends a newly connected client a seven-message snapshot.

On the client side the model covers three components:

- **The grid.** The user paints 50-pixel tiles, adds tokens, drags them, resizes them with the "r" and "f" keys and edits them from a context menu.
- **The colour palette.** It converts between "rgb(r, g, b)" text and "#rrggbb" colour-input values.
- **The dice roller.** It keeps per-die counts and a modifier, rolls, builds the button label and reports the result to its parent.

Files:

| file | module | what it holds |
|---|---|---|
| js_text.dfy | JsText | `Option`, `parseInt`, `Number.prototype.toString`, `padStart`, `replace`, `join`, the tile key `${x},${y}` |
| paint.dfy | Paint | the white-is-a-tombstone paint rule, shared by the hub (tiles and edges) and the grid |
| color.dfy | Color | `rgbToHex` and `hexToRgb` (the same code appears in the palette and in the grid) and their round trips |
| palette.dfy | Palette | the palette component as a class |
| grid.dfy | Grid | snapping, resizing, token edits and tile painting as functions; the grid component as a class |
| dice.dfy | Dice | counts, modifier, results, totals and the button label as functions; the roller as a class |
| world.dfy | World | the hub's entities, inbound and outbound messages, and each message's effect on the scene as a function |
| fanout.dfy | Fanout | who receives a broadcast, and the exactly-once lemmas |
| hub.dfy | Hub | the hub as a class whose methods update the scene in place and return the deliveries |

The hub's class methods are proved against the pure step function. `Hub.Server.OnMessage` ends in the scene `World.Step(old scene, msg)` and returns the deliveries `Hub.Response(...)`. The lemmas about `Step` and `Response` then carry the properties: exactly-once relay, the sender is skipped, the audio sync, unknown ids ignored, fog behaving as a set, and the snapshot losing nothing.

The parts of the source that cannot be modelled directly become parameters:

- **Randomness.** `Math.random` becomes a sequence of draws in [0, 1).
- **Socket state.** `readyState === OPEN` becomes a set of open connections.
- **Token ids.** `crypto.randomUUID` becomes an id argument.
- **Pointer positions.** These are `Option<Pos>` arguments.
- **The roll callback.** Whether the parent passed `onRollComplete` is a boolean argument.

## Model

| member | source | states |
|---|---|---|
| JsText.ParseIntOfIntToString | src/components/diceroller.tsx:147 | `parseInt` reads back every integer that `${i}` writes, negative ones included |
| JsText.ParseIntOfDigits | src/components/ColorPalette.tsx:26 | a digit string without sign is read by `parseInt` in its own radix as the value of its digits |
| JsText.ParseInt | src/components/ColorPalette.tsx:26 | a radix outside 2..36 gives NaN; a number is read only when something follows the leading white space; a leading "-" gives a value at most 0, anything else a value at least 0 |
| JsText.NatToStringDigits | src/components/ColorPalette.tsx:18-20 | `toString(radix)` writes a non-empty string of digits of that radix whose value is the number |
| JsText.PadStart2 | src/components/ColorPalette.tsx:18-20 | `padStart(2, "0")`: the result is at least two characters, ends with the input, and has only zeros in front |
| JsText.ReplaceFirst | src/components/ColorPalette.tsx:25 | `replace("#", "")` leaves text without "#" unchanged; otherwise it removes the first "#" only, keeping the text before it and the text after it |
| JsText.Join | src/components/diceroller.tsx:487 | `join(sep)` of no parts is empty and of one part is that part; otherwise its length is the parts' lengths plus the separators, and it starts with the first part |
| JsText.JoinSnoc | src/components/diceroller.tsx:487 | joining one more part appends the separator and that part, so the joined text is every part in order with the separator between neighbours |
| JsText.PosKeyInjective | src/components/GridBasica.tsx:60 | distinct tile coordinates give distinct `${x},${y}` keys |
| JsText.PosKey | src/components/GridBasica.tsx:60 | the key `${x},${y}` has exactly one comma, right after the text of `x` |
| Paint.ApplyPaint | server/src/index.ts:139-147 | painting with "rgb(255, 255, 255)" removes the key; any other colour is stored; every other key keeps its presence and colour; a map without a stored white keeps none |
| Color.RgbToHex | src/components/ColorPalette.tsx:15-22 | text the pattern does not match gives "#000000"; the result always starts with "#" |
| Color.MatchRgbComplete | src/components/ColorPalette.tsx:16 | every text of the shape `rgb(\d+,\s*\d+,\s*\d+)` is matched, with exactly its own groups |
| Color.HexToRgb | src/components/ColorPalette.tsx:24-31 | `hexToRgb` always writes the canonical "rgb(r, g, b)" text of some three channels, each a byte |
| Color.HexToRgbMatches | src/components/ColorPalette.tsx:24-31 | `hexToRgb` always writes "rgb(r, g, b)" text with byte channels, which `rgbToHex` matches |
| Color.BytesOfPacked | src/components/ColorPalette.tsx:27-29 | `(n >> 16) & 255`, `(n >> 8) & 255` and `n & 255` give back the three bytes packed into `n` |
| Color.HighByte | src/components/ColorPalette.tsx:27 | `(n >> 16) & 255` of three packed bytes is the first byte |
| Color.MiddleByte | src/components/ColorPalette.tsx:28 | `(n >> 8) & 255` of three packed bytes is the second byte |
| Color.LowByte | src/components/ColorPalette.tsx:29 | `n & 255` of three packed bytes is the last byte |
| Color.HexColorValue | src/components/ColorPalette.tsx:25-26 | `parseInt` with radix 16 reads a colour-input value without its "#" as its packed channels |
| Color.HexRoundTrip | src/components/ColorPalette.tsx:15-31 | a "#rrggbb" colour-input value survives `hexToRgb` followed by `rgbToHex` |
| Color.RgbRoundTrip | src/components/ColorPalette.tsx:15-31 | canonical "rgb(r, g, b)" text with byte channels survives `rgbToHex` followed by `hexToRgb` |
| Color.RgbNormalises | src/components/ColorPalette.tsx:15-31 | any matched text with byte channels comes back from the round trip as the canonical text of its channels |
| Color.HexColorInjective | src/components/ColorPalette.tsx:15-22 | two colour-input values that spell the same channels are the same text |
| Color.WhitePickIsTombstone | src/components/GridBasica.tsx:120 | picking "#ffffff" in a colour input yields exactly the tombstone colour "rgb(255, 255, 255)" |
| Palette.PickerShowsSlot | src/components/ColorPalette.tsx:88 | the open slot is shown as a colour-input value that converts back to exactly that slot's text |
| Palette.PickerValue | src/components/ColorPalette.tsx:88 | with no slot open the colour input shows "#ffffff"; otherwise a value of at least seven characters that starts with "#" |
| Palette.ConfirmShownValueKeepsSlot | src/components/ColorPalette.tsx:47-63 | confirming the value the input already shows leaves the palette as it was |
| Palette.ColorPalette.constructor | src/components/ColorPalette.tsx:10-11 | the palette starts with the parent's colours and selection, and no slot open |
| Palette.ColorPalette.HandleColorClick | src/components/ColorPalette.tsx:33-35 | a click selects the slot's colour and changes nothing else |
| Palette.ColorPalette.HandleContextMenu | src/components/ColorPalette.tsx:37-45 | a right click opens the colour input for that slot |
| Palette.ColorPalette.HandleBlur | src/components/ColorPalette.tsx:101-104 | leaving the input closes it |
| Palette.ColorPalette.HandleColorChange | src/components/ColorPalette.tsx:47-63 | with no slot open nothing changes; otherwise only the open slot becomes `hexToRgb(value)`, and the selection follows when that slot held it |
| Grid.SnapToGrid | src/components/GridBasica.tsx:86-94 | an even number of covered tiles snaps to grid lines, an odd number to tile middles; the point stays in its tile |
| Grid.SnapCoordInTile | src/components/GridBasica.tsx:86-94 | snapping one coordinate keeps it in its tile |
| Grid.SnapIdempotent | src/components/GridBasica.tsx:86-94 | snapping a snapped point again with the same radius leaves it in place |
| Grid.GrowRadius | src/components/GridBasica.tsx:238 | the radius grows by one token size, capped at two tiles |
| Grid.ShrinkRadius | src/components/GridBasica.tsx:251 | the radius shrinks by one token size, floored at half a tile |
| Grid.RadiusStaysInRange | src/components/GridBasica.tsx:234-258 | a radius between half a tile and two tiles stays in that range after growing or shrinking |
| Grid.ResizeToken | src/components/GridBasica.tsx:236-243 | one resize sets the new radius, snaps the position for it, and keeps id, colour, name and health |
| Grid.ResizeOnceWhenIdUnique | src/components/GridBasica.tsx:225-264 | when the id is unique, one key press resizes that token exactly once and no other token |
| Grid.ResizeKeepsRadiiInRange | src/components/GridBasica.tsx:225-264 | any number of resizes keeps every radius in range |
| Grid.FindToken | src/components/GridBasica.tsx:146 | `find` returns the first token of the list with that id (no earlier token has it), or none when no token has it |
| Grid.MoveTokens | src/components/GridBasica.tsx:151-155 | the tokens with the id move to the point; every other token is unchanged |
| Grid.ApplyEdit | src/components/GridBasica.tsx:538-575 | a context-menu edit changes only the colour (via `hexToRgb`), the name or the health |
| Grid.EditTokens | src/components/GridBasica.tsx:538-575 | the edit applies to the tokens whose id is the context token's id and to no other |
| Grid.EditWithoutTargetIsNoOp | src/components/GridBasica.tsx:538-575 | with no context token an edit changes nothing |
| Grid.NewToken | src/components/GridBasica.tsx:97-109 | a new token sits at (25, 25) with radius 25, red, unnamed, with the given id |
| Grid.NewTokenIsSnapped | src/components/GridBasica.tsx:97-109 | a new token is already snapped, with its radius in range |
| Grid.PaintTileAt | src/components/GridBasica.tsx:113-128 | outside the 40 x 20 board nothing changes; inside it the paint rule applies to "x,y" |
| Grid.PointerTileInGrid | src/components/GridBasica.tsx:200-204 | the tile under the pointer is on the board exactly when the pointer is inside the 2000 x 1000 canvas |
| Grid.PaintTileTouchesOneKey | src/components/GridBasica.tsx:113-128 | painting one tile never changes another tile's entry |
| Grid.Board.constructor | src/components/GridBasica.tsx:23-57 | no tokens, no tiles, both modes off, "orange" selected, and as palette the twenty colours declared at src/components/GridBasica.tsx:272-294 |
| Grid.Board.PaintTile | src/components/GridBasica.tsx:113-128 | the tile map becomes `PaintTileAt` of the old map with the selected colour |
| Grid.Board.ToggleMoveMode | src/components/GridBasica.tsx:131-136 | move mode flips, and switching it on switches paint mode off |
| Grid.Board.TogglePaintMode | src/components/GridBasica.tsx:188-193 | paint mode flips, and switching it on switches move mode off |
| Grid.Board.AddNewToken | src/components/GridBasica.tsx:97-109 | the new token is appended to the list |
| Grid.Board.HandleMouseDown | src/components/GridBasica.tsx:197-205 | in paint mode drawing starts and the tile under the pointer is painted; otherwise nothing changes |
| Grid.Board.HandleMouseMove | src/components/GridBasica.tsx:428-431 | paints while drawing in paint mode, then drags the selected token while dragging in move mode |
| Grid.Board.MovePlayer | src/components/GridBasica.tsx:139-157 | in move mode, while dragging a selected token that exists, the tokens with its id move to the snapped pointer position; otherwise nothing changes |
| Grid.Board.HandleMouseUp | src/components/GridBasica.tsx:432-435 | releasing the pointer stops drawing and dragging |
| Grid.Board.HandleTokenMouseDown | src/components/GridBasica.tsx:484-489 | in move mode a press selects the token and starts dragging; otherwise nothing changes |
| Grid.Board.HandleKeyDown | src/components/GridBasica.tsx:225-264 | "r" or "R" grows and "f" or "F" shrinks the selected tokens, once per token carrying the id; other keys, and no selection, change nothing |
| Grid.Board.ResizeEach | src/components/GridBasica.tsx:228-263 | the outer map queues one resize of the whole list per token that carries the id |
| Grid.Board.HandleTokenContextMenu | src/components/GridBasica.tsx:490-495 | a right click on a token targets it and opens the menu |
| Grid.Board.CloseContextMenu | src/components/GridBasica.tsx:75-83 | a click elsewhere closes the menu and clears the target |
| Grid.Board.EditContextToken | src/components/GridBasica.tsx:538-575 | the token list becomes `EditTokens` of the old list for the current target |
| Grid.Board.SelectColor | src/components/GridBasica.tsx:331 | a click on a slot selects its colour |
| Grid.Board.OpenPicker | src/components/GridBasica.tsx:62-72 | a right click on a slot opens the colour input for it |
| Grid.Board.ClosePicker | src/components/GridBasica.tsx:363-366 | leaving the colour input closes it |
| Grid.Board.HandleColorChange | src/components/GridBasica.tsx:161-166 | only the open slot becomes `hexToRgb(value)`; the selected colour is never touched |
| Dice.AllDiceListed | src/components/diceroller.tsx:15-37 | every die type is listed and is a key of the initial counts |
| Dice.UpdatedCount | src/components/diceroller.tsx:45-52 | increment adds one up to 10; decrement subtracts one down to 0 |
| Dice.CountStaysInRange | src/components/diceroller.tsx:45-52 | counts between 0 and 10 stay between 0 and 10 |
| Dice.ModifierValue | src/components/diceroller.tsx:147 | "" and "-" count as 0; an accepted modifier is its sign applied to the value of its digits |
| Dice.ParseIntOfSignedDigits | src/components/diceroller.tsx:147 | `parseInt` reads an optional minus sign followed by decimal digits as the signed value |
| Dice.IntTextIsValidModifier | src/components/diceroller.tsx:39-43 | the text of any integer is accepted as a modifier and read back as that integer |
| Dice.SelectedTypes | src/components/diceroller.tsx:75-77 | the selected types are exactly the listed types with a positive count, at most one per listed type |
| Dice.SelectedTypesInKeyOrder | src/components/diceroller.tsx:75-77 | selecting from the keys in order keeps key order strictly, so no type appears twice |
| Dice.FirstSelectedComesFirst | src/components/diceroller.tsx:75-77 | no type with dice comes before the first selected type in key order |
| Dice.SelectedTypesAre | src/components/diceroller.tsx:75-77 | a list in key order that holds exactly the types with dice is the selection |
| Dice.SelectedTypesNonEmpty | src/components/diceroller.tsx:54 | `hasSelectedDice` holds exactly when the selected types are not empty |
| Dice.InitialSelection | src/components/diceroller.tsx:15-23 | before any click exactly one type, d20, is selected |
| Dice.Roll | src/components/diceroller.tsx:181 | one die shows a value between 1 and its number of sides |
| Dice.Rolls | src/components/diceroller.tsx:180-182 | one value per draw, each between 1 and the number of sides |
| Dice.ResultsShape | src/components/diceroller.tsx:173-188 | one entry per selected type, in key order, with exactly `count` values, each in range |
| Dice.TotalBounds | src/components/diceroller.tsx:136-148 | the dice total lies between the number of dice and the largest total they can roll |
| Dice.SumAllAppend | src/components/diceroller.tsx:136-144 | the total of two runs of entries is the sum of their totals |
| Dice.PrimaryDiceType | src/components/diceroller.tsx:151 | the corrected report names the first type with dice in key order: a type with a positive count before which no type has any |
| Dice.PrimaryDiceTypeAsWritten | src/components/diceroller.tsx:151 | as written the report is "mixed" exactly when the previous roll animated nothing, and otherwise the first type that roll animated |
| Dice.AsWrittenRightOnRepeat | src/components/diceroller.tsx:151 | the report as written agrees with the corrected one when this roll has the same types as the previous one |
| Dice.FirstRollReportsMixed | src/components/diceroller.tsx:151 | on the first roll of one d20 the code as written reports "mixed"; the corrected report is "d20" |
| Dice.LaterRollReportsPreviousType | src/components/diceroller.tsx:151 | after a roll of one d6, a roll of one d20 is reported as "d6" as written and as "d20" corrected |
| Dice.DiceParts | src/components/diceroller.tsx:481-483 | one part per selected type, in key order, each `${count}${type}`: the count's decimal text followed by the type's name |
| Dice.ModifierSuffix | src/components/diceroller.tsx:490-491 | no suffix for 0, " +n" for positive values, " -n" for negative ones |
| Dice.RollDescription | src/components/diceroller.tsx:480-492 | "Roll" exactly when nothing is selected; otherwise "Roll ", the parts joined by " + ", and the modifier suffix |
| Dice.DescriptionOfOneType | src/components/diceroller.tsx:480-492 | with one type selected the label is "Roll <count><type>" followed by the modifier suffix |
| Dice.DescriptionOfTwoTypes | src/components/diceroller.tsx:480-492 | with two types selected the label names both in key order, joined by " + ", then the modifier suffix |
| Dice.InitialDescription | src/components/diceroller.tsx:480-492 | before any click the button reads "Roll 1d20" |
| Dice.DiceRoller.constructor | src/components/diceroller.tsx:10-27 | one d20 selected, modifier "0", no result, nothing animating |
| Dice.DiceRoller.HandleModifierChange | src/components/diceroller.tsx:39-43 | only "", "-" and optionally signed digit strings replace the modifier |
| Dice.DiceRoller.UpdateDiceCount | src/components/diceroller.tsx:45-52 | only the count of the clicked type changes, by `UpdatedCount` |
| Dice.DiceRoller.RollEach | src/components/diceroller.tsx:180-182 | the values of one type are the rolls of the given draws, in order |
| Dice.DiceRoller.CalculateResults | src/components/diceroller.tsx:173-188 | the result object is `ResultsOf` the counts over the draws, consumed in key order |
| Dice.DiceRoller.TotalOf | src/components/diceroller.tsx:136-144 | adding the values entry by entry and value by value gives the sum of all values |
| Dice.DiceRoller.CalculateTotal | src/components/diceroller.tsx:467-478 | nothing before a roll; afterwards the dice total plus the modifier value |
| Dice.DiceRoller.HandleRoll | src/components/diceroller.tsx:67-154 | no selected die does nothing; otherwise it animates the selected types and rolls from the draws after the three rotation draws; with a callback it reports the total, the type as written (the first type the previous roll animated, or "mixed"), the modifier and their sum |
| World.StoredToken | server/src/index.ts:159-164 | `ADD_TOKEN` stores the seven listed fields and drops an image or death mark from the payload |
| World.Assign | server/src/index.ts:404-409 | `Object.assign`: each of the nine fields takes the update's value when the update carries it and keeps its own otherwise |
| World.AssignIdempotent | server/src/index.ts:404-409 | assigning the same update twice is assigning it once |
| World.UpdateTokenEntry | server/src/index.ts:166-182 | an unknown id changes nothing; a known id changes that entry only, and the keys stay the same |
| World.UpdateAreaEntry | server/src/index.ts:202-224 | an unknown id changes nothing; a known id changes that area only |
| World.TokenStep | server/src/index.ts:159-195 | `ADD_TOKEN` stores the stored form of its token under its id, `DELETE_TOKEN` drops the id, the edits keep the keys; no entry of another id changes |
| World.AreaStep | server/src/index.ts:197-237 | `ADD_AREA` stores its area under its id, `DELETE_AREA` drops the id, the edits keep the keys; no entry of another id changes |
| World.LaserStep | server/src/index.ts:248-278 | `SET_LASER_COLOR` stores the colour for the user; `LASER_PATH` does so only when user and colour are both non-empty and otherwise changes nothing; no other user's colour changes and none is removed |
| World.EdgeLastUpdateWins | server/src/index.ts:149-157 | in a batch the last update to a key decides it (white removes, other colours are stored); keys no update names keep their state |
| World.ApplyEdgeUpdates | server/src/index.ts:149-157 | a batch never stores white when the edges held none, and an edge no update names keeps its colour |
| World.FogAddIsUnion | server/src/index.ts:355-358 | adding tiles is set union: no repeats, and the old tiles keep their places at the front |
| World.FogRemoveIsDifference | server/src/index.ts:368-371 | removing tiles is set difference, with no repeats |
| World.FogAddPresent | server/src/index.ts:355-358 | adding tiles that are all fogged already changes nothing |
| World.FogRemoveAbsent | server/src/index.ts:368-371 | removing tiles none of which is fogged changes nothing |
| World.FogIdempotent | server/src/index.ts:355-371 | applying the same add, or the same remove, twice is applying it once |
| World.FogAdd | server/src/index.ts:355-358 | a tile is fogged afterwards exactly when it was fogged or added; the old tiles stay in front, in their order |
| World.FogRemove | server/src/index.ts:368-371 | a tile is fogged afterwards exactly when it was fogged and not removed; the list never grows |
| World.FogStep | server/src/index.ts:355-379 | a payload that is not an array changes nothing; otherwise adding is union and removing is difference, and the tiles stay free of repeats |
| World.DeleteImages | server/src/index.ts:295-299 | every image with the id goes and every other stays |
| World.DeleteImagesAppend | server/src/index.ts:295-299 | deletion works run by run, so the kept images keep their order |
| World.ImageStep | server/src/index.ts:280-351 | an added image is appended; a delete keeps exactly the images of other ids; a move or resize keeps the length and changes only images with the id, by the edit |
| World.FindImage | server/src/index.ts:314 | `find` gives the first index with the id, or none when no image has it |
| World.UpdateFirstImage | server/src/index.ts:311-350 | only the first image with the id changes; with no such image nothing changes |
| World.RemoveTracks | server/src/index.ts:433-435 | every track with the id goes and every other stays |
| World.PlayTrack | server/src/index.ts:447-452 | the track with the id plays and takes the given volume; every other track stops |
| World.SetTrack | server/src/index.ts:455-463 | tracks with the id take the given `isPlaying` and `volume` where present; other tracks are untouched |
| World.SetTrackNeverStartsPlaying | server/src/index.ts:455-463 | an update that does not ask to play never switches a track on |
| World.AudioExclusion | server/src/index.ts:444-464 | with unique ids, asking to play leaves at most one track playing; update and remove keep that property |
| World.AudioStep | server/src/index.ts:422-465 | an added track is appended; a remove keeps exactly the tracks of other ids; with unique ids a play request leaves at most one track playing, and update or remove keep that property |
| World.NextMeasurement | server/src/index.ts:239-246 | `MEASURE` sets the measurement; `DELETE_TOKEN`, `MOVE_AREA` and `TRANSFORM_AREA` return before the test and keep it; every other message clears it |
| World.Mutate | server/src/index.ts:139-465 | only the collection of the message's group changes, the measurement is left alone, and a consistent scene (fog without repeats, no stored white) stays consistent |
| World.Step | server/src/index.ts:135-490 | the collections change as `Mutate` says, the measurement as `NextMeasurement` says, and a consistent scene stays consistent |
| World.UnknownIdIgnored | server/src/index.ts:166-182 | a move, resize, image or death update for an unknown id changes no collection |
| World.OtherTypeOnlyClearsMeasurement | server/src/index.ts:481-489 | a message of any other type only clears the measurement |
| World.Snapshot | server/src/index.ts:79-133 | a new connection gets seven messages, in this order: tracks, tiles, edges, fog, tokens, areas, images |
| World.SnapshotRestores | server/src/index.ts:79-133 | a client that applies the seven snapshot messages knows every visible part of the scene |
| Fanout.Broadcast | server/src/index.ts:69-76 | every delivery carries the message and goes to a registered, open connection other than the excluded one |
| Fanout.BroadcastExactlyOnce | server/src/index.ts:69-76 | each registered, open connection other than the excluded one gets the message exactly once, and no other connection gets it |
| Fanout.SenderExcluded | server/src/index.ts:188-192 | the sender never receives its own relay |
| Hub.Scope | server/src/index.ts:473-477 | every message except the audio update skips exactly its sender; the audio update is sent back to its sender too |
| Hub.Answer | server/src/index.ts:467-470 | an audio update is answered with the track list as it stands after the update; any other message is relayed unchanged |
| Hub.RelayToOthers | server/src/index.ts:481-488 | every message but an audio update reaches each other open connection exactly once, unchanged |
| Hub.AudioSyncToAll | server/src/index.ts:467-477 | an audio update sends the whole new track list once to every open connection, sender included |
| Hub.Response | server/src/index.ts:467-488 | every delivery goes to a registered open connection, and there are no more deliveries than registered connections; only an audio update reaches its sender; an audio update carries the new track list, anything else the message as received |
| Hub.Server.constructor | server/src/index.ts:8-67 | no connections and an empty scene |
| Hub.Server.OnConnection | server/src/index.ts:79-133 | the connection is registered once and receives the seven snapshot messages, in order, alone |
| Hub.Server.OnClose | server/src/index.ts:493-495 | the connection leaves the registry and the scene is kept |
| Hub.Server.OnMessage | server/src/index.ts:135-490 | the scene becomes `Step(old scene, msg)` and the deliveries are `Response` for the open connections; connections and fog stay free of repeats |
| Hub.Server.Deliver | server/src/index.ts:483-487 | walking the registry in order gives exactly the deliveries of `Broadcast` |
| Hub.Server.Apply | server/src/index.ts:139-465 | the collections become `Mutate(old scene, msg)` |
| Hub.Server.ApplyBoard | server/src/index.ts:139-237 | the tile, edge, token and area messages, in place |
| Hub.Server.ApplyOther | server/src/index.ts:248-465 | the laser, image, fog and audio messages in place; any other type changes nothing |
| Hub.Server.PaintTile | server/src/index.ts:139-147 | the tile map takes the paint rule at "x,y" |
| Hub.Server.PaintEdges | server/src/index.ts:149-157 | the loop over the updates gives `ApplyEdgeUpdates` |
| Hub.Server.ApplyToken | server/src/index.ts:159-195 | the token table becomes `TokenStep` of the old one |
| Hub.Server.ApplyArea | server/src/index.ts:197-237 | the area table becomes `AreaStep` of the old one |
| Hub.Server.ApplyLaser | server/src/index.ts:248-278 | `LASER_PATH` stores a colour only when user and colour are both non-empty; `SET_LASER_COLOR` always stores it |
| Hub.Server.ApplyImage | server/src/index.ts:280-351 | the image list becomes `ImageStep` of the old one |
| Hub.Server.ApplyFog | server/src/index.ts:355-379 | a payload that is not an array changes nothing; otherwise the tiles are added or deleted in turn |
| Hub.Server.AddFog | server/src/index.ts:355-358 | the `forEach` of `add` gives `FogAdd` and keeps the tiles free of repeats |
| Hub.Server.RemoveFog | server/src/index.ts:368-371 | the `forEach` of `delete` gives `FogRemove` and keeps the tiles free of repeats |
| Hub.Server.ApplyAudio | server/src/index.ts:422-465 | the track list becomes `AudioStep` of the old one |

## Left out

- Rendering, styles, timers and the dice animation: the rotation frames, the easing and the 500 ms reset are not modelled. The three rotation draws are kept because they come before the dice draws.
- Dice.DiceRoller.HandleRoll: the press and the end of the animation are one step. The report keeps the type as written; the corrected type is `Dice.PrimaryDiceType`, under "## Findings". The counts and the modifier are read as they were when the button was pressed, which is what the closure captures.
- JSON parsing and WebSocket I/O: messages arrive as typed values. A message whose payload lacks a field, or has a field of the wrong type, is not modelled.
- JavaScript number precision: integers are unbounded. `parseInt` results above 2^53 and the floating point of the positions are not modelled. Positions are reals, and the `PAINT_TILE` coordinates are modelled as integers.
- World.Assign: only the nine known token fields are modelled. Extra keys in an `UPDATE_TOKEN` payload, which `Object.assign` would copy, are left out.
- World.Message: a `SET_LASER_COLOR` without `userId` would store under the key "undefined"; the model always has a user id.
- `imageShapes` in the hub is declared and never used, so it is not modelled.
- The hub's two registries, `wss.clients` (used by `broadcastExcept`) and its own `clients` set, are modelled as one registry. They hold the same connections except while a connection is closing.
- World.AudioExclusion: `ADD_AUDIO_TRACK` appends the track as sent, even if it is already playing. So at most one playing track is not an invariant of the hub, and the lemma covers update and remove only.
- The dice button's display of a "+" sign before the modifier and the per-die colours are rendering only.
- The context menu's position, and the pointer position of the colour picker, are not modelled.
- The player image upload in the grid is not part of this model.
- Grid.Board.HandleKeyDown: only single-character keys are compared. Multi-character key names such as "Shift" never equal "r" or "f" after `toLowerCase`, so they change nothing, as in the model. The handler calls `setTokens` inside the updater it passes to `setTokens`; the model takes the order in which those inner updaters are queued and run after the outer one, which gives one resize per token carrying the id. React does not specify this order (updaters are meant to be pure), and an update computed eagerly could make the key press change nothing.
- Grid.Board.ResizeEach: the queued resizes are applied in the order they were queued, after the outer updater has returned; the same scheduling caveat as for Grid.Board.HandleKeyDown applies.

## Findings

| source | as written | input that shows it | evidently intended | confidence | as-written member | corrected member |
|---|---|---|---|---|---|---|
| src/components/diceroller.tsx:151 | the reported dice type is the first of `animatingDice` as captured when the roll button was pressed, that is, the types of the previous roll, or "mixed" before the first roll | the first roll with the initial counts (one d20) reports "mixed"; a roll of one d20 after a roll of one d6 reports "d6" | the first type of the dice rolled now | not executed | Dice.PrimaryDiceTypeAsWritten (shown by Dice.FirstRollReportsMixed) | Dice.PrimaryDiceType (linked by Dice.AsWrittenRightOnRepeat) |
